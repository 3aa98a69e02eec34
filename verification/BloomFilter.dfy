/**
 The Bloom filter over file hashes (src/catalog/bloom_filter.cpp): 64-bit words, k
 probe positions per key by double hashing with 64-bit wrap-around, and a rebuild
 window during which every query is answered "maybe".
 */
module BloomFilters {
  import opened Wrappers

  newtype Byte = b: int | 0 <= b < 256

  type Key = seq<Byte>

  const TWO64: nat := 0x1_0000_0000_0000_0000

  // ---------------------------------------------------------------- hashing

  /** Exclusive or, bit by bit. */
  function Xor(a: nat, b: nat): nat {
    if a == 0 && b == 0 then 0 else 2 * Xor(a / 2, b / 2) + (a % 2 + b % 2) % 2
  }

  /** One round of FNV-1a in 64-bit arithmetic. */
  function Mix(h: nat, b: Byte): nat {
    Xor(h, b as nat) * 1099511628211 % TWO64
  }

  /** The accumulation loop of Fnv1a. */
  function Fold(h: nat, key: Key): nat
    decreases key
  {
    if key == [] then h else Fold(Mix(h, key[0]), key[1..])
  }

  function Avalanche(h: nat): nat {
    var a := Xor(h, h / 0x2_0000_0000) * 0xff51afd7ed558ccd % TWO64;
    Xor(a, a / 0x2_0000_0000)
  }

  function Fnv1a(salt: nat, key: Key): nat {
    Avalanche(Fold(Xor(1469598103934665603, salt), key))
  }

  /** A key's base hash and its stride, which is never zero. */
  datatype Hashes = Hashes(base: nat, stride: nat)

  function HashKey(key: Key): Hashes {
    var h2 := Fnv1a(0xc2b2ae3d27d4eb4f, key);
    Hashes(Fnv1a(0x9e3779b97f4a7c15, key), if h2 == 0 then 1 else h2)
  }

  /** The i-th bit position of a key: h1 + i * h2 in 64-bit arithmetic, modulo m. */
  function Probe(h: Hashes, i: nat, words: nat): (bit: nat)
    requires words > 0
    ensures bit < 64 * words
  {
    (h.base + i * h.stride) % TWO64 % (64 * words)
  }

  // ------------------------------------------------------------------- bits

  /** A position within a word. */
  type Position = bv6

  function Mask(k: Position): bv64 {
    1 << k
  }

  predicate TestAt(words: seq<bv64>, w: nat, k: Position)
    requires w < |words|
  {
    words[w] & Mask(k) != 0
  }

  function SetAt(words: seq<bv64>, w: nat, k: Position): seq<bv64>
    requires w < |words|
  {
    words[w := words[w] | Mask(k)]
  }

  predicate TestBit(words: seq<bv64>, bit: nat)
    requires bit < 64 * |words|
  {
    TestAt(words, bit / 64, (bit % 64) as Position)
  }

  function SetBit(words: seq<bv64>, bit: nat): seq<bv64>
    requires bit < 64 * |words|
  {
    SetAt(words, bit / 64, (bit % 64) as Position)
  }

  lemma WordBit(word: bv64, k: Position, j: Position)
    ensures (word | Mask(k)) & Mask(j) != 0 <==> j == k || word & Mask(j) != 0
  {
  }

  lemma SetAtIsExact(words: seq<bv64>, w: nat, k: Position, v: nat, j: Position)
    requires w < |words| && v < |words|
    ensures TestAt(SetAt(words, w, k), v, j) <==> (v == w && j == k) || TestAt(words, v, j)
  {
    WordBit(words[w], k, j);
  }

  lemma PositionIsKept(k: nat)
    requires k < 64
    ensures (k as Position) as nat == k
  {
  }

  lemma SamePlace(bit: nat, other: nat)
    requires bit / 64 == other / 64 && (bit % 64) as Position == (other % 64) as Position
    ensures bit == other
  {
    PositionIsKept(bit % 64);
    PositionIsKept(other % 64);
    assert bit == 64 * (bit / 64) + bit % 64 && other == 64 * (other / 64) + other % 64;
  }

  /** Setting a bit sets that bit and no other. */
  lemma SetBitIsExact(words: seq<bv64>, bit: nat, other: nat)
    requires bit < 64 * |words| && other < 64 * |words|
    ensures TestBit(SetBit(words, bit), other) <==> other == bit || TestBit(words, other)
  {
    SetAtIsExact(words, bit / 64, (bit % 64) as Position, other / 64, (other % 64) as Position);
    if bit / 64 == other / 64 && (bit % 64) as Position == (other % 64) as Position { SamePlace(bit, other); }
  }

  // ----------------------------------------------------------- bit writes

  predicate InRange(words: seq<bv64>, positions: seq<nat>) {
    forall i | 0 <= i < |positions| :: positions[i] < 64 * |words|
  }

  /** A sequence of atomic bit writes, by however many threads. */
  function WriteAll(words: seq<bv64>, positions: seq<nat>): (r: seq<bv64>)
    requires InRange(words, positions)
    ensures |r| == |words|
    decreases positions
  {
    if positions == [] then words else WriteAll(SetBit(words, positions[0]), positions[1..])
  }

  /** Whatever the order and the repetitions, exactly the written bits are added. */
  lemma {:induction false} WritesAreExact(words: seq<bv64>, positions: seq<nat>, bit: nat)
    requires InRange(words, positions) && bit < 64 * |words|
    ensures TestBit(WriteAll(words, positions), bit) <==> bit in positions || TestBit(words, bit)
    decreases positions
  {
    if positions != [] {
      SetBitIsExact(words, positions[0], bit);
      WritesAreExact(SetBit(words, positions[0]), positions[1..], bit);
      assert bit in positions <==> bit == positions[0] || bit in positions[1..];
    }
  }

  lemma {:induction false} WriteOneMore(words: seq<bv64>, positions: seq<nat>, bit: nat)
    requires InRange(words, positions + [bit]) && InRange(words, positions) && bit < 64 * |words|
    ensures WriteAll(words, positions + [bit]) == SetBit(WriteAll(words, positions), bit)
    decreases positions
  {
    if positions == [] {
      assert positions + [bit] == [bit];
    } else {
      assert (positions + [bit])[1..] == positions[1..] + [bit];
      WriteOneMore(SetBit(words, positions[0]), positions[1..], bit);
    }
  }

  // ------------------------------------------------------------- the filter

  function Probes(h: Hashes, hashes: nat, words: nat): (r: seq<nat>)
    requires words > 0
    ensures |r| == hashes && forall i | 0 <= i < hashes :: r[i] == Probe(h, i, words) < 64 * words
  {
    if hashes == 0 then [] else Probes(h, hashes - 1, words) + [Probe(h, hashes - 1, words)]
  }

  predicate AllBitsSet(words: seq<bv64>, h: Hashes, hashes: nat)
    requires |words| > 0
  {
    forall i | 0 <= i < hashes :: TestBit(words, Probe(h, i, |words|))
  }

  /** Whatever other bit writes are interleaved with them, once all of a key's own
      writes have happened the key is reported. */
  lemma InterleavedWritesAreSeen(words: seq<bv64>, writes: seq<nat>, h: Hashes, hashes: nat)
    requires |words| > 0 && InRange(words, writes)
    requires forall i | 0 <= i < hashes :: Probe(h, i, |words|) in writes
    ensures AllBitsSet(WriteAll(words, writes), h, hashes)
  {
    forall i | 0 <= i < hashes ensures TestBit(WriteAll(words, writes), Probe(h, i, |words|)) {
      WritesAreExact(words, writes, Probe(h, i, |words|));
    }
  }

  datatype Filter = Filter(words: seq<bv64>, hashes: nat, ready: bool)

  predicate Wf(f: Filter) {
    |f.words| > 0
  }

  predicate Present(f: Filter, key: Key)
    requires Wf(f)
  {
    AllBitsSet(f.words, HashKey(key), f.hashes)
  }

  /** MightContain. */
  predicate Reports(f: Filter, key: Key)
    requires Wf(f)
  {
    !f.ready || Present(f, key)
  }

  /** Set the bits of a key with these hashes. */
  function AddHash(f: Filter, h: Hashes): (r: Filter)
    requires Wf(f)
    ensures Wf(r) && |r.words| == |f.words|
  {
    f.(words := WriteAll(f.words, Probes(h, f.hashes, |f.words|)))
  }

  function AddKey(f: Filter, key: Key): (r: Filter)
    requires Wf(f)
    ensures Wf(r) && |r.words| == |f.words|
  {
    AddHash(f, HashKey(key))
  }

  /** What may happen to a filter.  A catalog load is a begin, one step per row (a NULL
      hash is skipped) and, unless its scan cannot be prepared, an end; adds and queries
      may fall in between. */
  datatype Op = Add(key: Key) | BeginLoad | LoadRow(row: Option<Key>) | MarkReady

  function ApplyOp(f: Filter, op: Op): (r: Filter)
    requires Wf(f)
    ensures Wf(r) && |r.words| == |f.words| && r.hashes == f.hashes
  {
    match op
    case Add(key) => AddKey(f, key)
    case BeginLoad => f.(ready := false)
    case LoadRow(row) => if row.Some? then AddKey(f, row.value) else f
    case MarkReady => f.(ready := true)
  }

  function RunOps(f: Filter, ops: seq<Op>): (r: Filter)
    requires Wf(f)
    ensures Wf(r) && |r.words| == |f.words| && r.hashes == f.hashes
    decreases ops
  {
    if ops == [] then f else RunOps(ApplyOp(f, ops[0]), ops[1..])
  }

  /** The key an operation adds, or reads from a catalog row. */
  function Entering(op: Op): Option<Key> {
    match op
    case Add(key) => Some(key)
    case LoadRow(row) => row
    case _ => None
  }

  predicate ProbesBit(h: Hashes, hashes: nat, words: nat, bit: nat)
    requires words > 0
  {
    exists i | 0 <= i < hashes :: Probe(h, i, words) == bit
  }

  predicate Sets(op: Op, hashes: nat, words: nat, bit: nat)
    requires words > 0
  {
    Entering(op).Some? && ProbesBit(HashKey(Entering(op).value), hashes, words, bit)
  }

  lemma AddHashBit(f: Filter, h: Hashes, bit: nat)
    requires Wf(f) && bit < 64 * |f.words|
    ensures TestBit(AddHash(f, h).words, bit) <==> TestBit(f.words, bit) || ProbesBit(h, f.hashes, |f.words|, bit)
  {
    var writes := Probes(h, f.hashes, |f.words|);
    WritesAreExact(f.words, writes, bit);
    if i :| 0 <= i < f.hashes && Probe(h, i, |f.words|) == bit { assert writes[i] == bit; }
    if bit in writes {
      var i :| 0 <= i < |writes| && writes[i] == bit;
      assert Probe(h, i, |f.words|) == bit;
    }
  }

  lemma OpBit(f: Filter, op: Op, bit: nat)
    requires Wf(f) && bit < 64 * |f.words|
    ensures TestBit(ApplyOp(f, op).words, bit) <==> TestBit(f.words, bit) || Sets(op, f.hashes, |f.words|, bit)
  {
    if Entering(op).Some? { AddHashBit(f, HashKey(Entering(op).value), bit); }
  }

  /** The bit was set before, or some operation of the run sets it. */
  predicate SetBy(f: Filter, ops: seq<Op>, bit: nat)
    requires Wf(f) && bit < 64 * |f.words|
  {
    TestBit(f.words, bit) || exists k | 0 <= k < |ops| :: Sets(ops[k], f.hashes, |f.words|, bit)
  }

  lemma {:induction false} RunBit(f: Filter, ops: seq<Op>, bit: nat)
    requires Wf(f) && bit < 64 * |f.words|
    ensures TestBit(RunOps(f, ops).words, bit) <==> SetBy(f, ops, bit)
    decreases ops
  {
    if ops != [] {
      var next := ApplyOp(f, ops[0]);
      OpBit(f, ops[0], bit);
      RunBit(next, ops[1..], bit);
      if k :| 0 <= k < |ops| && Sets(ops[k], f.hashes, |f.words|, bit) {
        if k > 0 { assert ops[1..][k - 1] == ops[k]; }
      }
      if k :| 0 <= k < |ops[1..]| && Sets(ops[1..][k], f.hashes, |f.words|, bit) {
        assert ops[k + 1] == ops[1..][k];
      }
    }
  }

  /** All of the key's positions are set by the run. */
  predicate CoveredBy(f: Filter, ops: seq<Op>, h: Hashes)
    requires Wf(f)
  {
    forall i | 0 <= i < f.hashes :: SetBy(f, ops, Probe(h, i, |f.words|))
  }

  /** Exactly which keys a filter reports after any run: in the rebuild window all, else
      those whose every position was set before or is a position of a key that entered.
      Nothing else sets a bit, and nothing clears one. */
  lemma PresentIsCovered(f: Filter, ops: seq<Op>, h: Hashes)
    requires Wf(f)
    ensures AllBitsSet(RunOps(f, ops).words, h, f.hashes) <==> CoveredBy(f, ops, h)
  {
    forall i | 0 <= i < f.hashes
      ensures TestBit(RunOps(f, ops).words, Probe(h, i, |f.words|)) <==> SetBy(f, ops, Probe(h, i, |f.words|))
    {
      RunBit(f, ops, Probe(h, i, |f.words|));
    }
  }

  lemma EnteredIsCovered(f: Filter, ops: seq<Op>, k: nat, key: Key)
    requires Wf(f) && k < |ops| && Entering(ops[k]) == Some(key)
    ensures CoveredBy(f, ops, HashKey(key))
  {
    var h := HashKey(key);
    forall i | 0 <= i < f.hashes ensures SetBy(f, ops, Probe(h, i, |f.words|)) {
      assert Sets(ops[k], f.hashes, |f.words|, Probe(h, i, |f.words|));
    }
  }

  /** No false negatives: after any run, whatever its size and whether or not a load is
      under way, every key that entered during the run is reported. */
  lemma NoFalseNegatives(f: Filter, ops: seq<Op>, k: nat, key: Key)
    requires Wf(f) && k < |ops| && Entering(ops[k]) == Some(key)
    ensures Present(RunOps(f, ops), key) && Reports(RunOps(f, ops), key)
  {
    EnteredIsCovered(f, ops, k, key);
    PresentIsCovered(f, ops, HashKey(key));
  }

  // ------------------------------------------------------------- the object

  /** The constructor's sizing in 64-bit arithmetic. */
  function WordCount(capacity: nat): (words: nat)
    ensures 0 < words && 64 * words < TWO64
  {
    var bits := (if capacity == 0 then 1 else capacity) * 8 % TWO64;
    var words := (bits + 63) % TWO64 / 64;
    if words == 0 then 1 else words
  }

  class BloomFilter {
    const hashes: nat
    var words: array<bv64>
    var ready: bool

    ghost predicate Valid()
      reads this
    {
      words.Length > 0 && 1 <= hashes <= 30
    }

    ghost function Value(): Filter
      reads this, words
    {
      Filter(words[..], hashes, ready)
    }

    /** `rounded` is lround(-log2(p)) for the target rate p. */
    constructor (capacity: nat, rounded: int)
      ensures Valid() && fresh(words) && words.Length == WordCount(capacity) && !ready && Blank(Value())
      ensures hashes == if rounded < 1 then 1 else if rounded > 30 then 30 else rounded
    {
      hashes := if rounded < 1 then 1 else if rounded > 30 then 30 else rounded;
      words := new bv64[WordCount(capacity)](_ => 0);
      ready := false;
      new;
      ZeroIsBlank(Value());
    }

    static method Hash(salt: nat, key: Key) returns (h: nat)
      ensures h == Fnv1a(salt, key)
    {
      h := Xor(1469598103934665603, salt);
      for i := 0 to |key|
        invariant Fold(h, key[i..]) == Fold(Xor(1469598103934665603, salt), key)
      {
        assert key[i..][1..] == key[i + 1..];
        h := Mix(h, key[i]);
      }
      h := Avalanche(h);
    }

    static method Digest(key: Key) returns (h: Hashes)
      ensures h == HashKey(key)
    {
      var h1 := Hash(0x9e3779b97f4a7c15, key);
      var h2 := Hash(0xc2b2ae3d27d4eb4f, key);
      h := Hashes(h1, if h2 == 0 then 1 else h2);
    }

    method Set(bit: nat)
      requires Valid() && bit < 64 * words.Length
      modifies words
      ensures words[..] == SetBit(old(words[..]), bit)
    {
      words[bit / 64] := words[bit / 64] | Mask((bit % 64) as Position);
    }

    method Test(bit: nat) returns (isSet: bool)
      requires Valid() && bit < 64 * words.Length
      ensures isSet == TestBit(words[..], bit)
    {
      isSet := words[bit / 64] & Mask((bit % 64) as Position) != 0;
    }

    method SetAll(h: Hashes)
      requires Valid()
      modifies words
      ensures words[..] == WriteAll(old(words[..]), Probes(h, hashes, words.Length))
    {
      ghost var before := words[..];
      for i := 0 to hashes
        invariant words[..] == WriteAll(before, Probes(h, i, words.Length))
      {
        var bit := Probe(h, i, words.Length);
        WriteOneMore(before, Probes(h, i, words.Length), bit);
        Set(bit);
      }
    }

    method TestAll(h: Hashes) returns (all: bool)
      requires Valid()
      ensures all == AllBitsSet(words[..], h, hashes)
    {
      ghost var bits := words[..];
      for i := 0 to hashes
        invariant AllBitsSet(bits, h, i)
      {
        var isSet := Test(Probe(h, i, words.Length));
        if !isSet { return false; }
      }
      all := true;
    }

    method Add(key: Key)
      requires Valid()
      modifies words
      ensures Value() == AddKey(old(Value()), key)
    {
      var h := Digest(key);
      SetAll(h);
    }

    method MightContain(key: Key) returns (maybe: bool)
      requires Valid()
      ensures maybe == Reports(Value(), key)
    {
      if !ready { return true; }
      var h := Digest(key);
      maybe := TestAll(h);
    }

    /** `catalog` is file_locations.  When the scan cannot be prepared the filter stays in
        its rebuild window; when a step fails the scan ends after `yielded` rows and the
        load succeeds all the same. */
    method LoadFromCatalog(catalog: seq<Option<Key>>, fails: bool, yielded: nat) returns (ok: bool)
      requires Valid()
      modifies this`ready, words
      ensures ok == !fails
      ensures fails ==> Value() == RunOps(old(Value()), [BeginLoad])
      ensures !fails ==> Value() == RunOps(old(Value()), LoadOps(Scanned(catalog, yielded)))
    {
      ghost var before := Value();
      ready := false;
      if fails { return false; }
      var rows := Scanned(catalog, yielded);
      ghost var done: seq<Op> := [BeginLoad];
      for i := 0 to |rows|
        invariant Valid() && !ready
        invariant done == [BeginLoad] + RowOps(rows[..i])
        invariant Value() == RunOps(before, done)
      {
        assert rows[..i + 1][..i] == rows[..i];
        RunOneMore(before, done, LoadRow(rows[i]));
        done := done + [LoadRow(rows[i])];
        if rows[i].Some? { Add(rows[i].value); }
      }
      assert rows[..|rows|] == rows;
      RunOneMore(before, done, MarkReady);
      ready := true;
      ok := true;
    }
  }

  function RowOps(rows: seq<Option<Key>>): seq<Op> {
    if rows == [] then [] else RowOps(rows[..|rows| - 1]) + [LoadRow(rows[|rows| - 1])]
  }

  /** What a scan that may stop early yields. */
  function Scanned(catalog: seq<Option<Key>>, yielded: nat): seq<Option<Key>> {
    if yielded < |catalog| then catalog[..yielded] else catalog
  }

  function LoadOps(rows: seq<Option<Key>>): seq<Op> {
    [BeginLoad] + RowOps(rows) + [MarkReady]
  }

  lemma {:induction false} RunOneMore(f: Filter, ops: seq<Op>, op: Op)
    requires Wf(f)
    ensures RunOps(f, ops + [op]) == ApplyOp(RunOps(f, ops), op)
    decreases ops
  {
    if ops == [] {
      assert ops + [op] == [op];
    } else {
      assert (ops + [op])[1..] == ops[1..] + [op];
      RunOneMore(ApplyOp(f, ops[0]), ops[1..], op);
    }
  }

  lemma {:induction false} RowsEnter(rows: seq<Option<Key>>, key: Key)
    requires Some(key) in rows
    ensures LoadRow(Some(key)) in RowOps(rows)
  {
    var last := |rows| - 1;
    if rows[last] != Some(key) {
      RowsEnter(rows[..last], key);
    }
  }

  lemma LoadedIsEntered(rows: seq<Option<Key>>, later: seq<Op>, key: Key) returns (k: nat)
    requires Some(key) in rows
    ensures k < |LoadOps(rows) + later| && Entering((LoadOps(rows) + later)[k]) == Some(key)
  {
    RowsEnter(rows, key);
    var i :| 0 <= i < |RowOps(rows)| && RowOps(rows)[i] == LoadRow(Some(key));
    k := i + 1;
    assert (LoadOps(rows) + later)[k] == LoadRow(Some(key));
  }

  /** Every hash the scan yielded is reported, then and after anything that follows. */
  lemma LoadedKeysAreReported(f: Filter, rows: seq<Option<Key>>, later: seq<Op>, key: Key)
    requires Wf(f) && Some(key) in rows
    ensures Reports(RunOps(f, LoadOps(rows) + later), key)
  {
    var k := LoadedIsEntered(rows, later, key);
    NoFalseNegatives(f, LoadOps(rows) + later, k, key);
  }

  lemma {:induction false} LoadedIsReady(f: Filter, rows: seq<Option<Key>>)
    requires Wf(f)
    ensures RunOps(f, LoadOps(rows)).ready
  {
    RunOneMore(f, [BeginLoad] + RowOps(rows), MarkReady);
  }

  /** A load whose scan stops early marks the filter ready nevertheless.  It then reports
      the whole catalog if and only if every key it missed is covered by bits that were
      set before or by the keys it saw. */
  lemma LoadReportsCatalogIff(f: Filter, catalog: seq<Option<Key>>, yielded: nat)
    requires Wf(f) && yielded <= |catalog|
    ensures var ops := LoadOps(catalog[..yielded]);
            (forall key | Some(key) in catalog :: Reports(RunOps(f, ops), key))
            <==> forall key | Some(key) in catalog[yielded..] :: CoveredBy(f, ops, HashKey(key))
  {
    var ops := LoadOps(catalog[..yielded]);
    LoadedIsReady(f, catalog[..yielded]);
    assert catalog == catalog[..yielded] + catalog[yielded..];
    forall key | Some(key) in catalog[..yielded] ensures Reports(RunOps(f, ops), key) {
      LoadedKeysAreReported(f, catalog[..yielded], [], key);
      assert ops + [] == ops;
    }
    forall key ensures Reports(RunOps(f, ops), key) <==> CoveredBy(f, ops, HashKey(key)) {
      PresentIsCovered(f, ops, HashKey(key));
    }
  }

  predicate Blank(f: Filter) {
    forall bit | 0 <= bit < 64 * |f.words| :: !TestBit(f.words, bit)
  }

  lemma ZeroIsBlank(f: Filter)
    requires forall w | 0 <= w < |f.words| :: f.words[w] == 0
    ensures Blank(f)
  {
    forall bit | 0 <= bit < 64 * |f.words| ensures !TestBit(f.words, bit) {
      ZeroHasNoBit((bit % 64) as Position);
    }
  }

  lemma ZeroHasNoBit(k: Position)
    ensures (0 as bv64) & Mask(k) == 0
  {
  }

  lemma BlankCoversNothing(f: Filter, ops: seq<Op>, h: Hashes)
    requires Wf(f) && Blank(f) && f.hashes >= 1 && forall k | 0 <= k < |ops| :: Entering(ops[k]).None?
    ensures !CoveredBy(f, ops, h)
  {
    var bit := Probe(h, 0, |f.words|);
    assert !SetBy(f, ops, bit);
  }

  lemma {:induction false} NullRowsEnterNothing(rows: seq<Option<Key>>)
    requires forall i | 0 <= i < |rows| :: rows[i].None?
    ensures forall k | 0 <= k < |RowOps(rows)| :: Entering(RowOps(rows)[k]).None?
  {
    if rows != [] { NullRowsEnterNothing(rows[..|rows| - 1]); }
  }

  /** The failing family: a fresh filter whose scan fails before the first hash, at once
      say, is ready and reports no key at all. */
  lemma FailedScanReportsNothing(f: Filter, yielded: seq<Option<Key>>, key: Key)
    requires Wf(f) && Blank(f) && f.hashes >= 1 && forall i | 0 <= i < |yielded| :: yielded[i].None?
    ensures !Reports(RunOps(f, LoadOps(yielded)), key)
  {
    LoadedIsReady(f, yielded);
    NullRowsEnterNothing(yielded);
    BlankCoversNothing(f, LoadOps(yielded), HashKey(key));
    PresentIsCovered(f, LoadOps(yielded), HashKey(key));
  }
}
