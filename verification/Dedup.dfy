/**
 Child-to-parent dedup of search hits (src/chunker/child_parent_dedup.cpp): hits are
 grouped by parent, each group keeps a capped prefix for the reranker, and the rest is
 recorded.  Scores are totally ordered numbers.
 */
module Dedup {
  import opened Sorting
  import Strings

  datatype ChildHit = ChildHit(childId: string, parentId: string, score: real)

  datatype Group = Group(
    parentId: string, primaryChildId: string,
    rerankChildIds: seq<string>, allHitChildIds: seq<string>, topScore: real)

  datatype ChildrenHits = ChildrenHits(parentId: string, hits: seq<string>, primaryChild: string)

  /** A flat hit, without a parent, is keyed by its own child id. */
  function Key(h: ChildHit): string {
    if h.parentId == "" then "\U{0001}" + h.childId else h.parentId
  }

  predicate HitBefore(x: ChildHit, y: ChildHit) {
    if x.score != y.score then x.score > y.score else Strings.Less(x.childId, y.childId)
  }

  function RankKey(g: Group): string {
    if g.parentId == "" then g.primaryChildId else g.parentId
  }

  predicate GroupBefore(x: Group, y: Group) {
    if x.topScore != y.topScore then x.topScore > y.topScore else Strings.Less(RankKey(x), RankKey(y))
  }

  function Cap(childrenPerParent: int): nat {
    if childrenPerParent < 1 then 1 else childrenPerParent
  }

  function Ids(hits: seq<ChildHit>): seq<string> {
    seq(|hits|, i requires 0 <= i < |hits| => hits[i].childId)
  }

  /** The hits with the given key, in input order. */
  function Members(hits: seq<ChildHit>, key: string): seq<ChildHit> {
    if hits == [] then []
    else
      var n := |hits| - 1;
      Members(hits[..n], key) + if Key(hits[n]) == key then [hits[n]] else []
  }

  // ------------------------------------------------------------ the promise

  ghost predicate IsOrderingOf(ordered: seq<ChildHit>, members: seq<ChildHit>) {
    Sorted(ordered, HitBefore) && multiset(ordered) == multiset(members)
  }

  function GroupOf(parentId: string, ordered: seq<ChildHit>, cap: nat): Group
    requires ordered != []
  {
    Group(parentId, ordered[0].childId,
          Ids(if |ordered| < cap then ordered else ordered[..cap]), Ids(ordered), ordered[0].score)
  }

  /** `g` lists these hits: all of them, best first. */
  ghost predicate Lists(parentId: string, members: seq<ChildHit>, cap: nat, g: Group) {
    exists ordered :: ordered != [] && IsOrderingOf(ordered, members) && g == GroupOf(parentId, ordered, cap)
  }

  /** `g` presents the hits with this key. */
  ghost predicate Presents(hits: seq<ChildHit>, key: string, cap: nat, g: Group) {
    Members(hits, key) != [] && Lists(Members(hits, key)[0].parentId, Members(hits, key), cap, g)
  }

  ghost predicate Distinct<T>(s: seq<T>) {
    forall i, j | 0 <= i < |s| && 0 <= j < |s| && s[i] == s[j] :: i == j
  }

  function KeySet(hits: seq<ChildHit>): set<string> {
    if hits == [] then {} else KeySet(hits[..|hits| - 1]) + {Key(hits[|hits| - 1])}
  }

  lemma {:induction false} KeySetIsKeys(hits: seq<ChildHit>, key: string)
    ensures key in KeySet(hits) <==> exists h | h in hits :: Key(h) == key
  {
    if hits != [] {
      var (rest, last) := (hits[..|hits| - 1], hits[|hits| - 1]);
      KeySetIsKeys(rest, key);
      assert hits == rest + [last];
    }
  }

  lemma HitHasKey(hits: seq<ChildHit>, h: ChildHit)
    requires h in hits
    ensures Key(h) in KeySet(hits)
  {
    KeySetIsKeys(hits, Key(h));
  }

  function Elements<T>(s: seq<T>): set<T> {
    set x | x in s
  }

  ghost predicate KeysExactly(hits: seq<ChildHit>, keys: seq<string>) {
    Distinct(keys) && Elements(keys) == KeySet(hits)
  }

  /** One group per key of the hits. */
  ghost predicate OnePerKey(hits: seq<ChildHit>, cap: nat, keys: seq<string>, groups: seq<Group>) {
    && KeysExactly(hits, keys)
    && |groups| == |keys|
    && forall i | 0 <= i < |keys| :: Presents(hits, keys[i], cap, groups[i])
  }

  /** What the result must be: one group per key, the groups best first.  Nothing is said
      about how the sorts break ties. */
  ghost predicate IsDedup(hits: seq<ChildHit>, cap: nat, result: seq<Group>) {
    && Sorted(result, GroupBefore)
    && exists keys, groups :: OnePerKey(hits, cap, keys, groups) && multiset(groups) == multiset(result)
  }

  // ------------------------------------------------------------- the orders

  lemma LessIsOrder()
    ensures forall a, b :: Strings.Less(a, b) ==> !Strings.Less(b, a)
    ensures forall a, b :: a == b || Strings.Less(a, b) || Strings.Less(b, a)
    ensures forall a, b, c :: Strings.Less(a, b) && Strings.Less(b, c) ==> Strings.Less(a, c)
  {
    forall a, b, c | Strings.Less(a, b) && Strings.Less(b, c) ensures Strings.Less(a, c) {
      Strings.LessTransitive(a, b, c);
    }
    forall a, b ensures a == b || Strings.Less(a, b) || Strings.Less(b, a) {
      Strings.LessTotal(a, b);
    }
    forall a, b | Strings.Less(a, b) ensures !Strings.Less(b, a) {
      if Strings.Less(b, a) { Strings.LessTransitive(a, b, a); Strings.LessIrreflexive(a); }
    }
  }

  lemma OrdersAreStrictWeak()
    ensures StrictWeak(HitBefore) && StrictWeak(GroupBefore)
  {
    LessIsOrder();
    forall a, b, c | !GroupBefore(a, b) && !GroupBefore(b, c) ensures !GroupBefore(a, c) {
    }
    forall a, b, c | !HitBefore(a, b) && !HitBefore(b, c) ensures !HitBefore(a, c) {
    }
  }

  // ---------------------------------------------------------- the algorithm

  datatype Accum = Accum(parentId: string, hits: seq<ChildHit>)

  ghost predicate Accumulated(hits: seq<ChildHit>, byKey: map<string, Accum>, keyOrder: seq<string>) {
    && KeysExactly(hits, keyOrder)
    && byKey.Keys == KeySet(hits)
    && forall key | key in byKey :: Holds(hits, key, byKey[key])
  }

  ghost predicate Holds(hits: seq<ChildHit>, key: string, a: Accum) {
    a.hits == Members(hits, key) && a.hits != [] && a.parentId == a.hits[0].parentId
  }

  lemma MembersExtend(hits: seq<ChildHit>, h: ChildHit, key: string)
    ensures Members(hits + [h], key) == Members(hits, key) + if Key(h) == key then [h] else []
  {
    assert (hits + [h])[..|hits|] == hits;
  }

  lemma {:induction false} NoMembers(hits: seq<ChildHit>, key: string)
    requires key !in KeySet(hits)
    ensures Members(hits, key) == []
  {
    if hits != [] {
      NoMembers(hits[..|hits| - 1], key);
    }
  }

  lemma KeysExtend(hits: seq<ChildHit>, h: ChildHit, keys: seq<string>)
    requires KeysExactly(hits, keys)
    ensures KeySet(hits + [h]) == KeySet(hits) + {Key(h)}
    ensures KeysExactly(hits + [h], if Key(h) in KeySet(hits) then keys else keys + [Key(h)])
  {
    assert (hits + [h])[..|hits|] == hits;
    assert Key(h) in keys <==> Key(h) in Elements(keys);
    assert Elements(keys + [Key(h)]) == Elements(keys) + {Key(h)};
  }

  lemma HoldsExtends(hits: seq<ChildHit>, h: ChildHit, key: string, a: Accum)
    requires Holds(hits, key, a)
    ensures Holds(hits + [h], key, if key == Key(h) then a.(hits := a.hits + [h]) else a)
  {
    MembersExtend(hits, h, key);
  }

  lemma HoldsFirst(hits: seq<ChildHit>, h: ChildHit)
    requires Key(h) !in KeySet(hits)
    ensures Holds(hits + [h], Key(h), Accum(h.parentId, [h]))
  {
    NoMembers(hits, Key(h));
    MembersExtend(hits, h, Key(h));
  }

  function Joined(byKey: map<string, Accum>, h: ChildHit): map<string, Accum> {
    var key := Key(h);
    byKey[key := if key in byKey then byKey[key].(hits := byKey[key].hits + [h]) else Accum(h.parentId, [h])]
  }

  lemma JoinedHolds(hits: seq<ChildHit>, h: ChildHit, byKey: map<string, Accum>, key: string)
    requires byKey.Keys == KeySet(hits) && key in Joined(byKey, h) && (key in byKey ==> Holds(hits, key, byKey[key]))
    ensures Holds(hits + [h], key, Joined(byKey, h)[key])
  {
    if key in byKey { HoldsExtends(hits, h, key, byKey[key]); } else { HoldsFirst(hits, h); }
  }

  /** A hit joins the group of its key, or opens it. */
  lemma AccumulatedExtends(hits: seq<ChildHit>, h: ChildHit, byKey: map<string, Accum>, keyOrder: seq<string>)
    requires Accumulated(hits, byKey, keyOrder)
    ensures Accumulated(hits + [h], Joined(byKey, h), if Key(h) in byKey then keyOrder else keyOrder + [Key(h)])
  {
    KeysExtend(hits, h, keyOrder);
    assert Joined(byKey, h).Keys == byKey.Keys + {Key(h)};
    forall key | key in Joined(byKey, h) ensures Holds(hits + [h], key, Joined(byKey, h)[key]) {
      JoinedHolds(hits, h, byKey, key);
    }
  }

  datatype Table = Table(byKey: map<string, Accum>, keyOrder: seq<string>)

  function Grouped(hits: seq<ChildHit>): Table {
    if hits == [] then Table(map[], [])
    else
      var n := |hits| - 1;
      var t := Grouped(hits[..n]);
      Table(Joined(t.byKey, hits[n]), if Key(hits[n]) in t.byKey then t.keyOrder else t.keyOrder + [Key(hits[n])])
  }

  lemma NothingAccumulated()
    ensures Accumulated([], map[], [])
  {
  }

  lemma GroupedExtends(hits: seq<ChildHit>, h: ChildHit)
    ensures Grouped(hits + [h]) ==
            Table(Joined(Grouped(hits).byKey, h),
                  if Key(h) in Grouped(hits).byKey then Grouped(hits).keyOrder else Grouped(hits).keyOrder + [Key(h)])
  {
    assert (hits + [h])[..|hits|] == hits;
  }

  ghost predicate GroupsRightly(hits: seq<ChildHit>) {
    Accumulated(hits, Grouped(hits).byKey, Grouped(hits).keyOrder)
  }

  lemma GroupsNextRightly(hits: seq<ChildHit>, h: ChildHit)
    requires GroupsRightly(hits)
    ensures GroupsRightly(hits + [h])
  {
    AccumulatedExtends(hits, h, Grouped(hits).byKey, Grouped(hits).keyOrder);
    GroupedExtends(hits, h);
  }

  lemma {:induction false} GroupedIsAccumulated(hits: seq<ChildHit>)
    ensures GroupsRightly(hits)
  {
    if hits == [] {
      NothingAccumulated();
    } else {
      var (rest, h) := (hits[..|hits| - 1], hits[|hits| - 1]);
      GroupedIsAccumulated(rest);
      GroupsNextRightly(rest, h);
      assert rest + [h] == hits;
    }
  }

  method Accumulate(hits: seq<ChildHit>) returns (byKey: map<string, Accum>, keyOrder: seq<string>)
    ensures Accumulated(hits, byKey, keyOrder)
  {
    byKey, keyOrder := map[], [];
    for i := 0 to |hits|
      invariant Table(byKey, keyOrder) == Grouped(hits[..i])
    {
      var h := hits[i];
      assert hits[..i + 1][..i] == hits[..i];
      if Key(h) !in byKey {
        byKey, keyOrder := byKey[Key(h) := Accum(h.parentId, [h])], keyOrder + [Key(h)];
      } else {
        byKey := byKey[Key(h) := byKey[Key(h)].(hits := byKey[Key(h)].hits + [h])];
      }
    }
    assert hits[..|hits|] == hits;
    GroupedIsAccumulated(hits);
  }

  /** One group: order the hits, then list every id and the first `cap` again. */
  method BuildGroup(a: Accum, cap: nat) returns (g: Group)
    requires a.hits != [] && cap >= 1
    ensures Lists(a.parentId, a.hits, cap, g)
  {
    OrdersAreStrictWeak();
    var sorted := Sort(a.hits, HitBefore);
    assert |multiset(sorted)| == |sorted| && |multiset(a.hits)| == |a.hits|;
    var all, rerank := [], [];
    for i := 0 to |sorted|
      invariant all == Ids(sorted[..i])
      invariant rerank == Ids(if i < cap then sorted[..i] else sorted[..cap])
    {
      all := all + [sorted[i].childId];
      if i < cap { rerank := rerank + [sorted[i].childId]; }
    }
    assert sorted[..|sorted|] == sorted;
    g := Group(a.parentId, sorted[0].childId, rerank, all, sorted[0].score);
    assert g == GroupOf(a.parentId, sorted, cap);
  }

  method DedupChildrenToParents(hits: seq<ChildHit>, childrenPerParent: int) returns (result: seq<Group>)
    ensures IsDedup(hits, if childrenPerParent < 1 then 1 else childrenPerParent, result)
  {
    var cap := Cap(childrenPerParent);
    var byKey, keyOrder := Accumulate(hits);
    var groups := [];
    for i := 0 to |keyOrder|
      invariant |groups| == i
      invariant forall j | 0 <= j < i :: Presents(hits, keyOrder[j], cap, groups[j])
    {
      var g := BuildGroup(byKey[keyOrder[i]], cap);
      groups := groups + [g];
    }
    OrdersAreStrictWeak();
    result := Sort(groups, GroupBefore);
    assert OnePerKey(hits, cap, keyOrder, groups);
  }

  method BuildChildrenHitsMeta(groups: seq<Group>) returns (meta: seq<ChildrenHits>)
    ensures meta == Meta(groups)
    ensures |meta| == |groups|
    ensures forall i | 0 <= i < |groups| ::
      && meta[i].parentId == groups[i].parentId && meta[i].hits == groups[i].allHitChildIds
      && meta[i].primaryChild == groups[i].primaryChildId
  {
    meta := [];
    for i := 0 to |groups|
      invariant meta == Meta(groups[..i])
    {
      var g := groups[i];
      meta := meta + [ChildrenHits(g.parentId, g.allHitChildIds, g.primaryChildId)];
    }
    assert groups[..|groups|] == groups;
  }

  function Meta(groups: seq<Group>): seq<ChildrenHits> {
    seq(|groups|, i requires 0 <= i < |groups| =>
      ChildrenHits(groups[i].parentId, groups[i].allHitChildIds, groups[i].primaryChildId))
  }
}
