/** Exactly when the order of the hits, and of ties in the sorts, does not matter. */
module DedupOrder {
  import opened Sorting
  import opened Dedup
  import opened DedupTheorems
  import Strings

  /** Whatever order the hits come in and however the sorts treat ties, the result is the
      same. */
  ghost predicate Unordered(hits: seq<ChildHit>, cap: nat) {
    forall a, b, ra, rb |
      multiset(a) == multiset(hits) && multiset(b) == multiset(hits) && IsDedup(a, cap, ra) && IsDedup(b, cap, rb) ::
      ra == rb
  }

  // ------------------------------------------------------- a result exists

  lemma GroupExists(hits: seq<ChildHit>, key: string, cap: nat) returns (g: Group)
    requires Members(hits, key) != []
    ensures Presents(hits, key, cap, g)
  {
    OrdersAreStrictWeak();
    var members := Members(hits, key);
    var ordered := SortExists(members, HitBefore);
    assert |multiset(ordered)| == |ordered| && |multiset(members)| == |members|;
    g := GroupOf(members[0].parentId, ordered, cap);
    assert IsOrderingOf(ordered, members);
  }

  lemma {:induction false} GroupsExist(hits: seq<ChildHit>, keys: seq<string>, cap: nat) returns (groups: seq<Group>)
    requires forall i | 0 <= i < |keys| :: Members(hits, keys[i]) != []
    ensures |groups| == |keys| && forall i | 0 <= i < |keys| :: Presents(hits, keys[i], cap, groups[i])
    decreases |keys|
  {
    if keys == [] {
      groups := [];
    } else {
      var n := |keys| - 1;
      var rest := GroupsExist(hits, keys[..n], cap);
      var last := GroupExists(hits, keys[n], cap);
      groups := rest + [last];
    }
  }

  lemma ResultExists(hits: seq<ChildHit>, cap: nat) returns (result: seq<Group>)
    ensures IsDedup(hits, cap, result)
  {
    GroupedIsAccumulated(hits);
    var t := Grouped(hits);
    forall i | 0 <= i < |t.keyOrder| ensures Members(hits, t.keyOrder[i]) != [] {
      assert Holds(hits, t.keyOrder[i], t.byKey[t.keyOrder[i]]);
    }
    var groups := GroupsExist(hits, t.keyOrder, cap);
    OrdersAreStrictWeak();
    result := SortExists(groups, GroupBefore);
    assert OnePerKey(hits, cap, t.keyOrder, groups);
  }

  // ----------------------------------------- two parents under one key

  lemma {:induction false} FirstMember(h: ChildHit, rest: seq<ChildHit>)
    ensures Members([h] + rest, Key(h)) != [] && Members([h] + rest, Key(h))[0] == h
    decreases |rest|
  {
    if rest == [] {
      assert [h] + rest == [h] && [h][..0] == [];
    } else {
      var n := |rest| - 1;
      assert ([h] + rest)[..|[h] + rest| - 1] == [h] + rest[..n];
      FirstMember(h, rest[..n]);
    }
  }

  /** The hits with one of them moved to the front. */
  lemma MovedToFront(hits: seq<ChildHit>, h: ChildHit) returns (moved: seq<ChildHit>)
    requires h in hits
    ensures multiset(moved) == multiset(hits) && Members(moved, Key(h)) != [] && Members(moved, Key(h))[0] == h
  {
    var i :| 0 <= i < |hits| && hits[i] == h;
    MultisetWithout(hits, i);
    moved := [h] + Without(hits, i);
    FirstMember(h, Without(hits, i));
  }

  /** A group's parent is that of the first hit of its key; a non-empty one is the key. */
  lemma GroupParent(hits: seq<ChildHit>, key: string, cap: nat, g: Group)
    requires Presents(hits, key, cap, g)
    ensures g.parentId == Members(hits, key)[0].parentId && (g.parentId != "" ==> g.parentId == key)
  {
    MembersAreHits(hits, key, Members(hits, key)[0]);
  }

  /** Whether a group names a non-empty parent depends on the first hit of that key. */
  lemma NamedParent(hits: seq<ChildHit>, cap: nat, result: seq<Group>, key: string)
    requires IsDedup(hits, cap, result) && key != "" && Members(hits, key) != []
    ensures (exists g | g in result :: g.parentId == key) <==> Members(hits, key)[0].parentId == key
  {
    var keys, groups :| OnePerKey(hits, cap, keys, groups) && multiset(groups) == multiset(result);
    if g :| g in result && g.parentId == key {
      assert g in multiset(groups);
      var i :| 0 <= i < |groups| && groups[i] == g;
      GroupParent(hits, keys[i], cap, g);
    }
    var first := Members(hits, key)[0];
    MembersAreHits(hits, key, first);
    HitHasKey(hits, first);
    assert key in Elements(keys);
    var i :| 0 <= i < |keys| && keys[i] == key;
    GroupParent(hits, key, cap, groups[i]);
    assert groups[i] in multiset(result);
  }

  lemma TwoParentsDiffer(hits: seq<ChildHit>, cap: nat, a: ChildHit, b: ChildHit)
    requires a in hits && b in hits && Key(a) == Key(b) && a.parentId == "" && b.parentId != ""
    ensures !Unordered(hits, cap)
  {
    var first := MovedToFront(hits, a);
    var second := MovedToFront(hits, b);
    var ra := ResultExists(first, cap);
    var rb := ResultExists(second, cap);
    NamedParent(first, cap, ra, Key(a));
    NamedParent(second, cap, rb, Key(b));
  }

  // ------------------------------------------------------------ tied groups

  function Swapped(groups: seq<Group>, i: nat): seq<Group>
    requires i + 1 < |groups|
  {
    groups[..i] + [groups[i + 1], groups[i]] + groups[i + 2..]
  }

  lemma SwappedIsPermutation(groups: seq<Group>, i: nat)
    requires i + 1 < |groups|
    ensures multiset(Swapped(groups, i)) == multiset(groups)
  {
    assert groups == groups[..i] + [groups[i], groups[i + 1]] + groups[i + 2..];
  }

  lemma SwappedIsSorted(groups: seq<Group>, i: nat)
    requires Sorted(groups, GroupBefore) && i + 1 < |groups| && !GroupBefore(groups[i], groups[i + 1])
    ensures Sorted(Swapped(groups, i), GroupBefore)
  {
    var source := seq(|groups|, j => if j == i then i + 1 else if j == i + 1 then i else j);
    forall j | 0 <= j < |groups| ensures Swapped(groups, i)[j] == groups[source[j]] {
    }
    forall a, b | 0 <= a < b < |groups| ensures !GroupBefore(Swapped(groups, i)[b], Swapped(groups, i)[a]) {
      assert source[a] < source[b] || (a == i && b == i + 1);
    }
  }

  /** Ids that clash cost the result its uniqueness: neighbouring groups the final sort
      cannot tell apart may come out either way. */
  lemma TiedGroupsMaySwap(hits: seq<ChildHit>, cap: nat, result: seq<Group>, i: nat)
    requires IsDedup(hits, cap, result) && i + 1 < |result| && !GroupBefore(result[i], result[i + 1])
    ensures IsDedup(hits, cap, Swapped(result, i))
  {
    SwappedIsPermutation(result, i);
    SwappedIsSorted(result, i);
  }

  lemma {:induction false} DifferentNeighbours(s: seq<Group>, i: nat, j: nat) returns (m: nat)
    requires i < j < |s| && s[i] != s[j]
    ensures i <= m < j && s[m] != s[m + 1]
    decreases j - i
  {
    if s[i] != s[i + 1] {
      m := i;
    } else {
      m := DifferentNeighbours(s, i + 1, j);
    }
  }

  /** Between two tied groups of a sorted result all groups tie. */
  lemma TiesAreContiguous(s: seq<Group>, i: nat, m: nat, j: nat)
    requires Sorted(s, GroupBefore) && i <= m < j < |s| && !GroupBefore(s[i], s[j])
    ensures !GroupBefore(s[m], s[m + 1])
  {
    OrdersAreStrictWeak();
    assert !GroupBefore(s[m], s[i]) && !GroupBefore(s[j], s[m + 1]);
    assert !GroupBefore(s[m], s[j]);
  }

  lemma TiedGroupsDiffer(hits: seq<ChildHit>, cap: nat, result: seq<Group>, i: nat, j: nat)
    requires IsDedup(hits, cap, result) && i < j < |result| && result[i] != result[j]
      && !GroupBefore(result[i], result[j])
    ensures !Unordered(hits, cap)
  {
    var m := DifferentNeighbours(result, i, j);
    TiesAreContiguous(result, i, m, j);
    TiedGroupsMaySwap(hits, cap, result, m);
    assert Swapped(result, m)[m] == result[m + 1];
  }

  lemma GroupOfKey(hits: seq<ChildHit>, cap: nat, result: seq<Group>, h: ChildHit) returns (i: nat)
    requires SharesParent(hits) && IsDedup(hits, cap, result) && Tops(hits, h)
    ensures i < |result| && result[i].topScore == h.score && RankKey(result[i]) == Rank(h)
      && result[i].parentId == h.parentId
  {
    var keys, groups :| OnePerKey(hits, cap, keys, groups) && multiset(groups) == multiset(result);
    HitHasKey(hits, h);
    assert Key(h) in Elements(keys);
    var j :| 0 <= j < |keys| && keys[j] == Key(h);
    var top := GroupHasTop(hits, keys[j], cap, groups[j]);
    SameRank(hits, h, top);
    assert groups[j] in multiset(result);
    i :| 0 <= i < |result| && result[i] == groups[j];
  }

  lemma SameRank(hits: seq<ChildHit>, a: ChildHit, b: ChildHit)
    requires SharesParent(hits) && Tops(hits, a) && Tops(hits, b) && Key(a) == Key(b)
    ensures a.score == b.score && a.parentId == b.parentId && Rank(a) == Rank(b)
  {
    if a.parentId == "" {
      assert a.childId == Key(a)[1..] && b.childId == Key(b)[1..];
    }
  }

  /** Two keys ranked alike differ in whether they are flat. */
  lemma SameRankOtherParent(a: ChildHit, b: ChildHit)
    requires Key(a) != Key(b) && Rank(a) == Rank(b)
    ensures a.parentId != b.parentId
  {
  }

  lemma SameRankTies(x: Group, y: Group)
    requires x.topScore == y.topScore && RankKey(x) == RankKey(y)
    ensures !GroupBefore(x, y) && !GroupBefore(y, x)
  {
    Strings.LessIrreflexive(RankKey(x));
  }

  lemma TiedPositionsDiffer(hits: seq<ChildHit>, cap: nat, result: seq<Group>, i: nat, j: nat)
    requires IsDedup(hits, cap, result) && i < |result| && j < |result| && result[i].parentId != result[j].parentId
    requires result[i].topScore == result[j].topScore && RankKey(result[i]) == RankKey(result[j])
    ensures !Unordered(hits, cap)
  {
    SameRankTies(result[i], result[j]);
    if i < j {
      TiedGroupsDiffer(hits, cap, result, i, j);
    } else {
      TiedGroupsDiffer(hits, cap, result, j, i);
    }
  }

  lemma TiedHitsDiffer(hits: seq<ChildHit>, cap: nat, a: ChildHit, b: ChildHit)
    requires SharesParent(hits) && Tops(hits, a) && Tops(hits, b)
    requires Key(a) != Key(b) && a.score == b.score && Rank(a) == Rank(b)
    ensures !Unordered(hits, cap)
  {
    var result := ResultExists(hits, cap);
    var i := GroupOfKey(hits, cap, result, a);
    var j := GroupOfKey(hits, cap, result, b);
    SameRankOtherParent(a, b);
    TiedPositionsDiffer(hits, cap, result, i, j);
  }

  lemma ClashingIsOrdered(hits: seq<ChildHit>, cap: nat)
    requires !Unclashing(hits)
    ensures !Unordered(hits, cap)
  {
    if !SharesParent(hits) {
      var a, b :| a in hits && b in hits && Key(a) == Key(b) && a.parentId != b.parentId;
      if a.parentId == "" { TwoParentsDiffer(hits, cap, a, b); } else { TwoParentsDiffer(hits, cap, b, a); }
    } else {
      var a, b :| Tops(hits, a) && Tops(hits, b) && Key(a) != Key(b) && a.score == b.score && Rank(a) == Rank(b);
      TiedHitsDiffer(hits, cap, a, b);
    }
  }

  lemma UnclashingIsUnordered(hits: seq<ChildHit>, b: seq<ChildHit>)
    requires Unclashing(hits) && multiset(hits) == multiset(b)
    ensures Unclashing(b)
  {
    forall h ensures h in hits <==> h in b {
      assert h in hits <==> h in multiset(hits);
      assert h in b <==> h in multiset(b);
    }
    forall h | Tops(b, h) ensures Tops(hits, h) {
    }
  }

  /** The result is a function of the multiset of hits if and only if hits of one key have
      one parent and groups with equal best scores are ranked apart. */
  lemma UnorderedIffUnclashing(hits: seq<ChildHit>, cap: nat)
    ensures Unordered(hits, cap) <==> Unclashing(hits)
  {
    if Unclashing(hits) {
      forall a, b, ra, rb |
        multiset(a) == multiset(hits) && multiset(b) == multiset(hits) && IsDedup(a, cap, ra) && IsDedup(b, cap, rb)
        ensures ra == rb
      {
        UnclashingIsUnordered(hits, a);
        ResultIsUnordered(a, b, cap, ra, rb);
      }
    } else {
      ClashingIsOrdered(hits, cap);
    }
  }
}
