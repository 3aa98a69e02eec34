/** What a deduplicated result tells its reader, and that the order of the hits does not
    matter. */
module DedupTheorems {
  import opened Sorting
  import opened Dedup
  import Strings

  // ------------------------------------------------------------ the members

  lemma {:induction false} MembersCount(hits: seq<ChildHit>, key: string, h: ChildHit)
    ensures multiset(Members(hits, key))[h] == if Key(h) == key then multiset(hits)[h] else 0
  {
    if hits != [] {
      var n := |hits| - 1;
      MembersCount(hits[..n], key, h);
      assert hits == hits[..n] + [hits[n]];
      assert multiset(hits)[h] == multiset(hits[..n])[h] + if hits[n] == h then 1 else 0;
    }
  }

  lemma SameMembers(a: seq<ChildHit>, b: seq<ChildHit>, key: string)
    requires multiset(a) == multiset(b)
    ensures multiset(Members(a, key)) == multiset(Members(b, key))
  {
    forall h ensures multiset(Members(a, key))[h] == multiset(Members(b, key))[h] {
      MembersCount(a, key, h);
      MembersCount(b, key, h);
    }
  }

  lemma MembersAreHits(hits: seq<ChildHit>, key: string, h: ChildHit)
    ensures h in Members(hits, key) <==> h in hits && Key(h) == key
  {
    MembersCount(hits, key, h);
    assert h in Members(hits, key) <==> h in multiset(Members(hits, key));
    assert h in hits <==> h in multiset(hits);
  }

  // -------------------------------------------------- reading one group

  /** Hits of one key have one parent: no parent id is the reserved prefix and the id of a
      flat hit. */
  ghost predicate SharesParent(hits: seq<ChildHit>) {
    forall a, b | a in hits && b in hits && Key(a) == Key(b) :: a.parentId == b.parentId
  }

  /** What the final sort ranks a hit's group by, besides its score. */
  function Rank(h: ChildHit): string {
    if h.parentId == "" then h.childId else h.parentId
  }

  /** No hit of the same key scores higher. */
  ghost predicate Tops(hits: seq<ChildHit>, a: ChildHit) {
    a in hits && forall h | h in hits && Key(h) == Key(a) :: h.score <= a.score
  }

  /** Groups with equal best scores are ranked apart. */
  ghost predicate NoTies(hits: seq<ChildHit>) {
    forall a, b | Tops(hits, a) && Tops(hits, b) && Key(a) != Key(b) && a.score == b.score :: Rank(a) != Rank(b)
  }

  ghost predicate Unclashing(hits: seq<ChildHit>) {
    SharesParent(hits) && NoTies(hits)
  }

  /** Ids that never clash: no parent id is the child id of a flat hit, with or without
      the reserved prefix. */
  lemma DisjointIdsAreUnclashing(hits: seq<ChildHit>)
    requires forall a, b | a in hits && b in hits && a.parentId != "" && b.parentId == "" ::
               a.parentId != b.childId && a.parentId != "\U{0001}" + b.childId
    ensures Unclashing(hits)
  {
  }

  lemma MembersShareParent(hits: seq<ChildHit>, key: string, a: ChildHit, b: ChildHit)
    requires SharesParent(hits) && a in Members(hits, key) && b in Members(hits, key)
    ensures a.parentId == b.parentId
    ensures a.parentId == "" ==> a.childId == b.childId
  {
    MembersAreHits(hits, key, a);
    MembersAreHits(hits, key, b);
    if a.parentId == "" && b.parentId == "" {
      assert a.childId == Key(a)[1..] && b.childId == Key(b)[1..];
    }
  }

  /** A group leads with its best hit, lists all its hits once each from best to worst,
      and offers the reranker a non-empty prefix of at most `cap`. */
  lemma GroupIsBestFirst(hits: seq<ChildHit>, key: string, cap: nat, g: Group) returns (ordered: seq<ChildHit>)
    requires Presents(hits, key, cap, g) && cap >= 1
    ensures multiset(ordered) == multiset(Members(hits, key)) && g.allHitChildIds == Ids(ordered)
    ensures ordered != [] && g.primaryChildId == ordered[0].childId && g.topScore == ordered[0].score
    ensures forall i, j | 0 <= i < j < |ordered| ::
              ordered[i].score > ordered[j].score
              || (ordered[i].score == ordered[j].score && !Strings.Less(ordered[j].childId, ordered[i].childId))
    ensures forall h | h in hits && Key(h) == key ::
              h.score < g.topScore || (h.score == g.topScore && !Strings.Less(h.childId, g.primaryChildId))
    ensures 1 <= |g.rerankChildIds| <= cap && g.rerankChildIds <= g.allHitChildIds
    ensures |g.rerankChildIds| < cap ==> g.rerankChildIds == g.allHitChildIds
  {
    var members := Members(hits, key);
    ordered :| ordered != [] && IsOrderingOf(ordered, members) && g == GroupOf(members[0].parentId, ordered, cap);
    assert forall i, j | 0 <= i < j < |ordered| :: !HitBefore(ordered[j], ordered[i]);
    forall h | h in hits && Key(h) == key
      ensures h.score < g.topScore || (h.score == g.topScore && !Strings.Less(h.childId, g.primaryChildId))
    {
      MembersAreHits(hits, key, h);
      assert h in multiset(members) && h in multiset(ordered);
      Strings.LessIrreflexive(h.childId);
      HeadIsLeast(ordered, HitBefore, h);
    }
  }

  /** The groups come best first: a higher top score before a lower one, and equal ones in
      the order of the parent id, or of the primary child id where there is no parent. */
  lemma GroupsAreBestFirst(hits: seq<ChildHit>, cap: nat, result: seq<Group>, i: nat, j: nat)
    requires IsDedup(hits, cap, result) && i < j < |result|
    ensures var (x, y) := (result[i], result[j]);
            || x.topScore > y.topScore
            || (x.topScore == y.topScore
                && !Strings.Less(if y.parentId == "" then y.primaryChildId else y.parentId,
                                 if x.parentId == "" then x.primaryChildId else x.parentId))
  {
    assert !GroupBefore(result[j], result[i]);
  }

  /** Which hits share a group: those of one parent; flat hits only with flat hits of the
      same child; and, through the reserved prefix alone, a flat hit with the hits of a
      parent named by the prefix and its id. */
  lemma SameKeyIff(a: ChildHit, b: ChildHit)
    ensures Key(a) == Key(b) <==>
      || (a.parentId == b.parentId && (a.parentId == "" ==> a.childId == b.childId))
      || (a.parentId == "" && b.parentId == "\U{0001}" + a.childId)
      || (b.parentId == "" && a.parentId == "\U{0001}" + b.childId)
  {
    if a.parentId == "" { assert a.childId == Key(a)[1..]; }
    if b.parentId == "" { assert b.childId == Key(b)[1..]; }
  }

  /** Every hit is in a group of its parent's name, or of none if it is flat, and its score
      is at most the group's. */
  lemma HitIsGrouped(hits: seq<ChildHit>, cap: nat, result: seq<Group>, h: ChildHit) returns (i: nat)
    requires SharesParent(hits) && IsDedup(hits, cap, result) && h in hits && cap >= 1
    ensures i < |result| && result[i].parentId == h.parentId && h.childId in result[i].allHitChildIds
    ensures h.score <= result[i].topScore
  {
    var keys, groups :| OnePerKey(hits, cap, keys, groups) && multiset(groups) == multiset(result);
    HitHasKey(hits, h);
    assert Key(h) in Elements(keys);
    var j :| 0 <= j < |keys| && keys[j] == Key(h);
    PresentedHit(hits, Key(h), cap, groups[j], h);
    assert groups[j] in multiset(result);
    i :| 0 <= i < |result| && result[i] == groups[j];
  }

  lemma PresentedHit(hits: seq<ChildHit>, key: string, cap: nat, g: Group, h: ChildHit)
    requires SharesParent(hits) && Presents(hits, key, cap, g) && h in hits && Key(h) == key && cap >= 1
    ensures g.parentId == h.parentId && h.childId in g.allHitChildIds && h.score <= g.topScore
  {
    var members := Members(hits, key);
    var ordered: seq<ChildHit> :|
      ordered != [] && IsOrderingOf(ordered, members) && g == GroupOf(members[0].parentId, ordered, cap);
    MembersAreHits(hits, key, h);
    MembersShareParent(hits, key, members[0], h);
    assert h in multiset(members) && h in multiset(ordered);
    var k :| 0 <= k < |ordered| && ordered[k] == h;
    assert g.allHitChildIds[k] == h.childId;
    HeadIsLeast(ordered, HitBefore, h);
  }

  // --------------------------------------------------- one possible result

  lemma HitTiesAreEqual(hits: seq<ChildHit>, key: string, ordered: seq<ChildHit>)
    requires SharesParent(hits) && multiset(ordered) == multiset(Members(hits, key))
    ensures OnlyEqualsTie(ordered, HitBefore)
  {
    forall x, y | x in ordered && y in ordered && !HitBefore(x, y) && !HitBefore(y, x) ensures x == y {
      assert x in multiset(ordered) && y in multiset(ordered);
      MembersShareParent(hits, key, x, y);
      Strings.LessTotal(x.childId, y.childId);
    }
  }

  lemma GroupIsUnique(a: seq<ChildHit>, b: seq<ChildHit>, key: string, cap: nat, x: Group, y: Group)
    requires SharesParent(a) && multiset(a) == multiset(b)
    requires Presents(a, key, cap, x) && Presents(b, key, cap, y)
    ensures x == y
  {
    var (p, q) := (Members(a, key), Members(b, key));
    var r :| r != [] && IsOrderingOf(r, p) && x == GroupOf(p[0].parentId, r, cap);
    var s :| s != [] && IsOrderingOf(s, q) && y == GroupOf(q[0].parentId, s, cap);
    SameMembers(a, b, key);
    HitTiesAreEqual(a, key, r);
    SortedIsUnique(r, s, HitBefore);
    assert q[0] in multiset(q) && q[0] in multiset(p);
    MembersShareParent(a, key, p[0], q[0]);
  }

  /** A group is ranked by a best hit of its key. */
  lemma GroupHasTop(hits: seq<ChildHit>, key: string, cap: nat, g: Group) returns (h: ChildHit)
    requires SharesParent(hits) && Presents(hits, key, cap, g)
    ensures Tops(hits, h) && Key(h) == key && g.topScore == h.score && g.parentId == h.parentId && RankKey(g) == Rank(h)
  {
    var members := Members(hits, key);
    var ordered :| ordered != [] && IsOrderingOf(ordered, members) && g == GroupOf(members[0].parentId, ordered, cap);
    h := ordered[0];
    assert h in multiset(ordered) && h in multiset(members);
    MembersShareParent(hits, key, members[0], h);
    MembersAreHits(hits, key, h);
    forall other | other in hits && Key(other) == key ensures other.score <= h.score {
      MembersAreHits(hits, key, other);
      assert other in multiset(members) && other in multiset(ordered);
      HeadIsLeast(ordered, HitBefore, other);
    }
  }

  lemma GroupsAreRankedApart(hits: seq<ChildHit>, k1: string, k2: string, cap: nat, x: Group, y: Group)
    requires Unclashing(hits) && Presents(hits, k1, cap, x) && Presents(hits, k2, cap, y) && k1 != k2
    ensures GroupBefore(x, y) || GroupBefore(y, x)
  {
    var a := GroupHasTop(hits, k1, cap, x);
    var b := GroupHasTop(hits, k2, cap, y);
    Strings.LessTotal(Rank(a), Rank(b));
  }

  lemma PlaceOf(groups: seq<Group>, result: seq<Group>, g: Group) returns (i: nat)
    requires multiset(groups) == multiset(result) && g in result
    ensures i < |groups| && groups[i] == g
  {
    assert g in multiset(groups);
    i :| 0 <= i < |groups| && groups[i] == g;
  }

  lemma GroupTiesAreEqual(hits: seq<ChildHit>, cap: nat, keys: seq<string>, groups: seq<Group>, result: seq<Group>)
    requires Unclashing(hits) && OnePerKey(hits, cap, keys, groups) && multiset(groups) == multiset(result)
    ensures OnlyEqualsTie(result, GroupBefore)
  {
    forall x, y | x in result && y in result && !GroupBefore(x, y) && !GroupBefore(y, x) ensures x == y {
      var i := PlaceOf(groups, result, x);
      var j := PlaceOf(groups, result, y);
      if i != j { GroupsAreRankedApart(hits, keys[i], keys[j], cap, x, y); }
    }
  }

  function Without<T>(s: seq<T>, i: nat): seq<T>
    requires i < |s|
  {
    s[..i] + s[i + 1..]
  }

  lemma MultisetWithout<T>(s: seq<T>, i: nat)
    requires i < |s|
    ensures multiset(s) == multiset(Without(s, i)) + multiset{s[i]}
  {
    assert s == s[..i] + [s[i]] + s[i + 1..];
  }

  lemma SameWithout<T>(a: seq<T>, b: seq<T>, j: nat)
    requires multiset(a) == multiset(b) && a != [] && j < |b| && b[j] == a[0]
    ensures multiset(Without(a, 0)) == multiset(Without(b, j))
  {
    MultisetWithout(a, 0);
    MultisetWithout(b, j);
    assert multiset(Without(a, 0)) == multiset(a) - multiset{a[0]};
    assert multiset(Without(b, j)) == multiset(b) - multiset{a[0]};
  }

  lemma FindIn<T>(a: seq<T>, b: seq<T>) returns (j: nat)
    requires multiset(a) == multiset(b) && a != []
    ensures j < |b| && b[j] == a[0] && |a| == |b|
  {
    assert |multiset(a)| == |a| && |multiset(b)| == |b|;
    assert a[0] in multiset(b);
    j :| 0 <= j < |b| && b[j] == a[0];
  }

  lemma WithoutAt<T>(s: seq<T>, i: nat, j: nat)
    requires i < |s| && j < |s| - 1
    ensures |Without(s, i)| == |s| - 1 && Without(s, i)[j] == s[if j < i then j else j + 1]
  {
  }

  lemma DistinctWithout<T>(s: seq<T>, i: nat)
    requires Distinct(s) && i < |s|
    ensures Distinct(Without(s, i)) && forall x :: x in Without(s, i) <==> x in s && x != s[i]
  {
    var w := Without(s, i);
    forall j | 0 <= j < |w| ensures w[j] == s[if j < i then j else j + 1] {
    }
    forall j | 0 <= j < |s| && j != i ensures s[j] in w {
      assert s[j] == w[if j < i then j else j - 1];
    }
  }

  /** Two lists of groups over the same keys, in some orders, with equal groups for equal
      keys. */
  ghost predicate Matching(k1: seq<string>, g1: seq<Group>, k2: seq<string>, g2: seq<Group>) {
    && Distinct(k1) && Distinct(k2) && |k1| == |g1| && |k2| == |g2|
    && (forall key :: key in k1 <==> key in k2)
    && forall i, j | 0 <= i < |k1| && 0 <= j < |k2| && k1[i] == k2[j] :: g1[i] == g2[j]
  }

  lemma MatchingWithout(k1: seq<string>, g1: seq<Group>, k2: seq<string>, g2: seq<Group>, j: nat)
    requires Matching(k1, g1, k2, g2) && k1 != [] && j < |k2| && k2[j] == k1[0]
    ensures Matching(Without(k1, 0), Without(g1, 0), Without(k2, j), Without(g2, j))
  {
    DistinctWithout(k1, 0);
    DistinctWithout(k2, j);
    var (k1', g1', k2', g2') := (Without(k1, 0), Without(g1, 0), Without(k2, j), Without(g2, j));
    forall a, b | 0 <= a < |k1'| && 0 <= b < |k2'| && k1'[a] == k2'[b] ensures g1'[a] == g2'[b] {
      WithoutAt(k1, 0, a);
      WithoutAt(g1, 0, a);
      WithoutAt(k2, j, b);
      WithoutAt(g2, j, b);
    }
  }

  lemma FirstKeyIn(k1: seq<string>, g1: seq<Group>, k2: seq<string>, g2: seq<Group>) returns (j: nat)
    requires Matching(k1, g1, k2, g2) && k1 != []
    ensures j < |k2| && k2[j] == k1[0] && g2[j] == g1[0]
  {
    assert k1[0] in k2;
    j :| 0 <= j < |k2| && k2[j] == k1[0];
  }

  /** Groups that depend only on their keys form the same multiset in any key order. */
  lemma {:induction false} SameKeysSameGroups(k1: seq<string>, g1: seq<Group>, k2: seq<string>, g2: seq<Group>)
    requires Matching(k1, g1, k2, g2)
    ensures multiset(g1) == multiset(g2)
    decreases |k1|
  {
    if k2 != [] { assert k2[0] in k1; }
    if k1 != [] {
      var j := FirstKeyIn(k1, g1, k2, g2);
      MatchingWithout(k1, g1, k2, g2, j);
      SameKeysSameGroups(Without(k1, 0), Without(g1, 0), Without(k2, j), Without(g2, j));
      MultisetWithout(g1, 0);
      MultisetWithout(g2, j);
    }
  }

  lemma SameKeySet(a: seq<ChildHit>, b: seq<ChildHit>)
    requires multiset(a) == multiset(b)
    ensures KeySet(a) == KeySet(b)
  {
    forall h ensures h in a <==> h in b {
      assert h in a <==> h in multiset(a);
      assert h in b <==> h in multiset(b);
    }
    forall key ensures key in KeySet(a) <==> key in KeySet(b) {
      KeySetIsKeys(a, key);
      KeySetIsKeys(b, key);
    }
  }

  /** The result is a function of the multiset of hits: whatever order they come in and
      however the sorts treat ties, there is one result. */
  lemma ResultIsUnordered(a: seq<ChildHit>, b: seq<ChildHit>, cap: nat, ra: seq<Group>, rb: seq<Group>)
    requires Unclashing(a) && multiset(a) == multiset(b)
    requires IsDedup(a, cap, ra) && IsDedup(b, cap, rb)
    ensures ra == rb
  {
    var k1, g1 :| OnePerKey(a, cap, k1, g1) && multiset(g1) == multiset(ra);
    var k2, g2 :| OnePerKey(b, cap, k2, g2) && multiset(g2) == multiset(rb);
    SameKeySet(a, b);
    forall i, j | 0 <= i < |k1| && 0 <= j < |k2| && k1[i] == k2[j] ensures g1[i] == g2[j] {
      GroupIsUnique(a, b, k1[i], cap, g1[i], g2[j]);
    }
    forall key ensures key in k1 <==> key in k2 {
      assert key in k1 <==> key in Elements(k1);
      assert key in k2 <==> key in Elements(k2);
    }
    SameKeysSameGroups(k1, g1, k2, g2);
    GroupTiesAreEqual(a, cap, k1, g1, ra);
    SortedIsUnique(ra, rb, GroupBefore);
  }

  // --------------------------------------------------------- conservation

  /** Every child id a result records, once per occurrence. */
  function Recorded(groups: seq<Group>): multiset<string> {
    if groups == [] then multiset{} else multiset(groups[0].allHitChildIds) + Recorded(groups[1..])
  }

  lemma {:induction false} RecordedOfConcat(a: seq<Group>, b: seq<Group>)
    ensures Recorded(a + b) == Recorded(a) + Recorded(b)
  {
    if a == [] {
      assert a + b == b;
    } else {
      assert (a + b)[0] == a[0] && (a + b)[1..] == a[1..] + b;
      RecordedOfConcat(a[1..], b);
    }
  }

  lemma RecordedWithout(groups: seq<Group>, i: nat)
    requires i < |groups|
    ensures Recorded(groups) == Recorded(Without(groups, i)) + multiset(groups[i].allHitChildIds)
  {
    assert groups == groups[..i] + groups[i..];
    RecordedOfConcat(groups[..i], groups[i..]);
    RecordedOfConcat(groups[..i], groups[i + 1..]);
    assert groups[i..][1..] == groups[i + 1..];
  }

  lemma {:induction false} RecordedIsUnordered(a: seq<Group>, b: seq<Group>)
    requires multiset(a) == multiset(b)
    ensures Recorded(a) == Recorded(b)
    decreases |a|
  {
    assert |multiset(a)| == |a| && |multiset(b)| == |b|;
    if a != [] {
      var j := FindIn(a, b);
      SameWithout(a, b, j);
      RecordedWithout(a, 0);
      RecordedWithout(b, j);
      RecordedIsUnordered(Without(a, 0), Without(b, j));
    }
  }

  lemma IdsWithout(hits: seq<ChildHit>, i: nat)
    requires i < |hits|
    ensures multiset(Ids(hits)) == multiset(Ids(Without(hits, i))) + multiset{hits[i].childId}
  {
    MultisetWithout(Ids(hits), i);
    assert Without(Ids(hits), i) == Ids(Without(hits, i));
  }

  lemma {:induction false} IdsAreUnordered(a: seq<ChildHit>, b: seq<ChildHit>)
    requires multiset(a) == multiset(b)
    ensures multiset(Ids(a)) == multiset(Ids(b))
    decreases |a|
  {
    assert |multiset(a)| == |a| && |multiset(b)| == |b|;
    if a != [] {
      var j := FindIn(a, b);
      SameWithout(a, b, j);
      IdsWithout(a, 0);
      IdsWithout(b, j);
      IdsAreUnordered(Without(a, 0), Without(b, j));
    }
  }

  /** The hits of the listed keys, key by key. */
  function Gathered(hits: seq<ChildHit>, keys: seq<string>): seq<ChildHit> {
    if keys == [] then [] else Members(hits, keys[0]) + Gathered(hits, keys[1..])
  }

  lemma {:induction false} GatheredCount(hits: seq<ChildHit>, keys: seq<string>, h: ChildHit)
    requires Distinct(keys)
    ensures multiset(Gathered(hits, keys))[h] == if Key(h) in keys then multiset(hits)[h] else 0
    decreases keys
  {
    if keys != [] {
      assert Without(keys, 0) == keys[1..];
      DistinctWithout(keys, 0);
      GatheredCount(hits, keys[1..], h);
      MembersCount(hits, keys[0], h);
    }
  }

  lemma GroupRecords(hits: seq<ChildHit>, key: string, cap: nat, g: Group)
    requires Presents(hits, key, cap, g)
    ensures multiset(g.allHitChildIds) == multiset(Ids(Members(hits, key)))
  {
    var members := Members(hits, key);
    var ordered :| ordered != [] && IsOrderingOf(ordered, members) && g == GroupOf(members[0].parentId, ordered, cap);
    IdsAreUnordered(ordered, members);
  }

  lemma IdsOfConcat(a: seq<ChildHit>, b: seq<ChildHit>)
    ensures multiset(Ids(a + b)) == multiset(Ids(a)) + multiset(Ids(b))
  {
    assert Ids(a + b) == Ids(a) + Ids(b);
  }

  lemma {:induction false} RecordedIsGathered(hits: seq<ChildHit>, cap: nat, keys: seq<string>, groups: seq<Group>)
    requires |groups| == |keys| && forall i | 0 <= i < |keys| :: Presents(hits, keys[i], cap, groups[i])
    ensures Recorded(groups) == multiset(Ids(Gathered(hits, keys)))
    decreases keys
  {
    if keys != [] {
      RecordedIsGathered(hits, cap, keys[1..], groups[1..]);
      GroupRecords(hits, keys[0], cap, groups[0]);
      IdsOfConcat(Members(hits, keys[0]), Gathered(hits, keys[1..]));
    }
  }

  lemma GatheredIsAll(hits: seq<ChildHit>, keys: seq<string>)
    requires KeysExactly(hits, keys)
    ensures multiset(Gathered(hits, keys)) == multiset(hits)
  {
    forall h ensures multiset(Gathered(hits, keys))[h] == multiset(hits)[h] {
      GatheredCount(hits, keys, h);
      if h in multiset(hits) {
        HitHasKey(hits, h);
        assert Key(h) in Elements(keys);
      }
    }
  }

  /** No hit is dropped and none is counted twice: the groups together record exactly the
      child ids of the hits, whatever the cap. */
  lemma EveryHitIsRecordedOnce(hits: seq<ChildHit>, cap: nat, result: seq<Group>)
    requires IsDedup(hits, cap, result)
    ensures Recorded(result) == multiset(Ids(hits))
  {
    var keys, groups :| OnePerKey(hits, cap, keys, groups) && multiset(groups) == multiset(result);
    RecordedIsUnordered(groups, result);
    RecordedIsGathered(hits, cap, keys, groups);
    GatheredIsAll(hits, keys);
    IdsAreUnordered(Gathered(hits, keys), hits);
  }

  function Manifest(meta: seq<ChildrenHits>): multiset<string> {
    if meta == [] then multiset{} else multiset(meta[0].hits) + Manifest(meta[1..])
  }

  /** The response metadata is as complete. */
  lemma {:induction false} MetaRecordsEveryHit(groups: seq<Group>)
    ensures Manifest(Meta(groups)) == Recorded(groups)
  {
    if groups != [] {
      MetaRecordsEveryHit(groups[1..]);
      assert Meta(groups)[1..] == Meta(groups[1..]);
    }
  }

  lemma PresentedIdIsHit(hits: seq<ChildHit>, key: string, cap: nat, g: Group, c: string)
    requires SharesParent(hits) && Presents(hits, key, cap, g) && c in g.allHitChildIds
    ensures g.primaryChildId == g.allHitChildIds[0]
    ensures exists h | h in hits :: h.childId == c && h.parentId == g.parentId
  {
    var members := Members(hits, key);
    var ordered: seq<ChildHit> :| ordered != [] && IsOrderingOf(ordered, members)
      && g == GroupOf(members[0].parentId, ordered, cap);
    var k :| 0 <= k < |ordered| && ordered[k].childId == c;
    assert ordered[k] in multiset(ordered) && ordered[k] in multiset(members);
    MembersAreHits(hits, key, ordered[k]);
    MembersShareParent(hits, key, members[0], ordered[k]);
  }

  /** And it is right: an entry leads with its primary child, and each of its ids is that
      of a hit of the entry's parent. */
  lemma MetaNamesTheParent(hits: seq<ChildHit>, cap: nat, result: seq<Group>, i: nat, c: string)
    requires SharesParent(hits) && IsDedup(hits, cap, result) && i < |result| && c in Meta(result)[i].hits
    ensures Meta(result)[i].primaryChild == Meta(result)[i].hits[0]
    ensures exists h | h in hits :: h.childId == c && h.parentId == Meta(result)[i].parentId
  {
    var keys, groups :| OnePerKey(hits, cap, keys, groups) && multiset(groups) == multiset(result);
    assert result[i] in multiset(groups);
    var j :| 0 <= j < |groups| && groups[j] == result[i];
    PresentedIdIsHit(hits, keys[j], cap, result[i], c);
  }
}
