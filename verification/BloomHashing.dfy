/**
 What the Bloom filter's hashing keeps apart (src/catalog/bloom_filter.cpp): every round is
 a bijection of the 64-bit state, so keys that differ in one byte have different hashes,
 and a key's two hashes differ from each other.
 */
module BloomHashing {
  import opened Division
  import opened BloomFilters

  // ------------------------------------------------------------ exclusive or

  /** It works bit by bit. */
  lemma XorBits(a: nat, b: nat)
    ensures Xor(a, b) / 2 == Xor(a / 2, b / 2)
    ensures Xor(a, b) % 2 == if a % 2 == b % 2 then 0 else 1
  {
    var bit := (a % 2 + b % 2) % 2;
    assert bit == if a % 2 == b % 2 then 0 else 1;
    if a != 0 || b != 0 {
      DivMod(Xor(a, b), 2, Xor(a / 2, b / 2), bit);
    }
  }

  lemma SameBits(a: nat, b: nat)
    requires a / 2 == b / 2 && a % 2 == b % 2
    ensures a == b
  {
    assert a == 2 * (a / 2) + a % 2 && b == 2 * (b / 2) + b % 2;
  }

  lemma {:induction false} XorUndoes(a: nat, b: nat)
    ensures Xor(Xor(a, b), b) == a
    decreases a + b
  {
    if a != 0 || b != 0 {
      XorUndoes(a / 2, b / 2);
      XorBits(a, b);
      XorBits(Xor(a, b), b);
      SameBits(Xor(Xor(a, b), b), a);
    }
  }

  lemma {:induction false} XorCommutes(a: nat, b: nat)
    ensures Xor(a, b) == Xor(b, a)
  {
    if a != 0 || b != 0 { XorCommutes(a / 2, b / 2); }
  }

  function Pow2(k: nat): nat {
    if k == 0 then 1 else 2 * Pow2(k - 1)
  }

  lemma {:induction false} Pow2Positive(k: nat)
    ensures Pow2(k) > 0
  {
    if k > 0 { Pow2Positive(k - 1); }
  }

  lemma {:induction false} XorBelow(a: nat, b: nat, k: nat)
    requires a < Pow2(k) && b < Pow2(k)
    ensures Xor(a, b) < Pow2(k)
  {
    if k > 0 && (a != 0 || b != 0) {
      XorBelow(a / 2, b / 2, k - 1);
    }
  }

  lemma DivideTwice(n: nat, d: nat)
    requires d > 0
    ensures n / 2 / d == n / (2 * d)
  {
    var (h, q) := (n / 2, n / 2 / d);
    assert n == 2 * h + n % 2 && h == d * q + h % d;
    DivMod(n, 2 * d, q, 2 * (h % d) + n % 2);
  }

  /** A right shift by k bits. */
  function Shifted(n: nat, k: nat): nat {
    if k == 0 then n else Shifted(n / 2, k - 1)
  }

  lemma {:induction false} ShiftedIsDivided(n: nat, k: nat)
    ensures Pow2(k) > 0 && Shifted(n, k) == n / Pow2(k)
    decreases k
  {
    Pow2Positive(k);
    if k > 0 {
      ShiftedIsDivided(n / 2, k - 1);
      DivideTwice(n, Pow2(k - 1));
    }
  }

  lemma {:induction false} XorShifts(a: nat, b: nat, k: nat)
    ensures Shifted(Xor(a, b), k) == Xor(Shifted(a, k), Shifted(b, k))
    decreases k
  {
    if k > 0 {
      XorBits(a, b);
      XorShifts(a / 2, b / 2, k - 1);
    }
  }

  lemma {:induction false} XorZero(a: nat)
    ensures Xor(a, 0) == a
  {
    if a != 0 { XorZero(a / 2); }
  }

  // ---------------------------------------------------------- multiplication

  /** Multiplying by a number with an inverse modulo n loses nothing. */
  lemma TimesUndone(x: nat, m: nat, inverse: nat, times: nat, n: nat)
    requires x < n && m * inverse == 1 + n * times
    ensures x * m % n * inverse % n == x
  {
    var (q, r) := (x * m / n, x * m % n);
    assert x * m == n * q + r;
    assert r * inverse == x * (m * inverse) - n * q * inverse;
    assert r * inverse == x + n * (x * times - q * inverse);
    DivMod(r * inverse, n, x * times - q * inverse, x);
  }

  const PRIME: nat := 1099511628211
  const PRIME_INVERSE: nat := 14886173955864302971

  const FACTOR: nat := 0xff51afd7ed558ccd
  const FACTOR_INVERSE: nat := 5725274745694666757

  lemma Inverses()
    ensures PRIME * PRIME_INVERSE == 1 + TWO64 * 887285111055
    ensures FACTOR * FACTOR_INVERSE == 1 + TWO64 * 5710046619856821070
  {
  }

  lemma Powers()
    ensures Pow2(8) == 256 && Pow2(33) == 0x2_0000_0000 && Pow2(64) == TWO64
  {
    assert Pow2(8) == 256;
    assert Pow2(16) == 65536;
    assert Pow2(24) == 0x100_0000;
    assert Pow2(33) == 0x2_0000_0000;
    assert Pow2(40) == 0x100_0000_0000;
    assert Pow2(48) == 0x1_0000_0000_0000;
    assert Pow2(56) == 0x100_0000_0000_0000;
  }

  // -------------------------------------------------------------- the rounds

  lemma XorIsWord(a: nat, b: nat)
    requires a < TWO64 && b < TWO64
    ensures Xor(a, b) < TWO64
  {
    Powers();
    XorBelow(a, b, 64);
  }

  lemma XorInjective(a: nat, b: nat, c: nat)
    requires Xor(a, c) == Xor(b, c)
    ensures a == b
  {
    XorUndoes(a, c);
    XorUndoes(b, c);
  }

  lemma PrimeInjective(x: nat, y: nat)
    requires x < TWO64 && y < TWO64 && x * 1099511628211 % TWO64 == y * 1099511628211 % TWO64
    ensures x == y
  {
    Inverses();
    TimesUndone(x, PRIME, PRIME_INVERSE, 887285111055, TWO64);
    TimesUndone(y, PRIME, PRIME_INVERSE, 887285111055, TWO64);
  }

  lemma FactorInjective(x: nat, y: nat)
    requires x < TWO64 && y < TWO64 && x * 0xff51afd7ed558ccd % TWO64 == y * 0xff51afd7ed558ccd % TWO64
    ensures x == y
  {
    Inverses();
    TimesUndone(x, FACTOR, FACTOR_INVERSE, 5710046619856821070, TWO64);
    TimesUndone(y, FACTOR, FACTOR_INVERSE, 5710046619856821070, TWO64);
  }

  /** A round keeps different states apart, and different bytes. */
  lemma MixInjective(h: nat, g: nat, b: Byte, c: Byte)
    requires h < TWO64 && g < TWO64 && Mix(h, b) == Mix(g, c)
    ensures b == c ==> h == g
    ensures h == g ==> b == c
  {
    XorIsWord(h, b as nat);
    XorIsWord(g, c as nat);
    PrimeInjective(Xor(h, b as nat), Xor(g, c as nat));
    if b == c { XorInjective(h, g, b as nat); }
    if h == g {
      XorCommutes(h, b as nat);
      XorCommutes(g, c as nat);
      XorInjective(b as nat, c as nat, h);
    }
  }

  lemma {:induction false} FoldInjective(h: nat, g: nat, key: Key)
    requires h < TWO64 && g < TWO64 && Fold(h, key) == Fold(g, key)
    ensures h == g
    decreases key
  {
    if key != [] {
      FoldInjective(Mix(h, key[0]), Mix(g, key[0]), key[1..]);
      MixInjective(h, g, key[0], key[0]);
    }
  }

  lemma {:induction false} FoldIsWord(h: nat, key: Key)
    requires h < TWO64
    ensures Fold(h, key) < TWO64
    decreases key
  {
    if key != [] { FoldIsWord(Mix(h, key[0]), key[1..]); }
  }

  lemma {:induction false} FoldOfConcat(h: nat, a: Key, b: Key)
    ensures Fold(h, a + b) == Fold(Fold(h, a), b)
    decreases a
  {
    if a == [] {
      assert a + b == b;
    } else {
      assert (a + b)[0] == a[0] && (a + b)[1..] == a[1..] + b;
      FoldOfConcat(Mix(h, a[0]), a[1..], b);
    }
  }

  /** Folding the top bits of a word onto its bottom loses nothing. */
  lemma ShiftUndone(h: nat)
    requires h < TWO64
    ensures var y := Xor(h, h / 0x2_0000_0000);
            y < TWO64 && Xor(y, y / 0x2_0000_0000) == h
  {
    var top := h / 0x2_0000_0000;
    Powers();
    XorIsWord(h, top);
    XorShifts(h, top, 33);
    ShiftedIsDivided(h, 33);
    ShiftedIsDivided(top, 33);
    ShiftedIsDivided(Xor(h, top), 33);
    assert top / 0x2_0000_0000 == 0;
    XorZero(top);
    XorUndoes(h, top);
  }

  lemma AvalancheInjective(h: nat, g: nat)
    requires h < TWO64 && g < TWO64 && Avalanche(h) == Avalanche(g)
    ensures h == g
  {
    var (x, y) := (Xor(h, h / 0x2_0000_0000), Xor(g, g / 0x2_0000_0000));
    ShiftUndone(h);
    ShiftUndone(g);
    ShiftUndone(x * 0xff51afd7ed558ccd % TWO64);
    ShiftUndone(y * 0xff51afd7ed558ccd % TWO64);
    FactorInjective(x, y);
  }

  // --------------------------------------------------------------- the hashes

  /** Keys that differ in one byte have different hashes. */
  lemma OneByteTells(salt: nat, before: Key, b: Byte, c: Byte, after: Key)
    requires salt < TWO64 && b != c
    ensures Fnv1a(salt, before + [b] + after) != Fnv1a(salt, before + [c] + after)
  {
    var start := Xor(1469598103934665603, salt);
    XorIsWord(1469598103934665603, salt);
    FoldIsWord(start, before);
    var h := Fold(start, before);
    FoldOneByte(start, before, b, after);
    FoldOneByte(start, before, c, after);
    var (x, y) := (Fold(Mix(h, b), after), Fold(Mix(h, c), after));
    FoldIsWord(Mix(h, b), after);
    FoldIsWord(Mix(h, c), after);
    if Avalanche(x) == Avalanche(y) {
      AvalancheInjective(x, y);
      FoldInjective(Mix(h, b), Mix(h, c), after);
      MixInjective(h, h, b, c);
    }
  }

  lemma FoldOneByte(h: nat, before: Key, b: Byte, after: Key)
    ensures Fold(h, before + [b] + after) == Fold(Mix(Fold(h, before), b), after)
  {
    FoldOfConcat(h, before + [b], after);
    FoldOfConcat(h, before, [b]);
    assert [b][1..] == [];
    assert Fold(Fold(h, before), [b]) == Mix(Fold(h, before), b);
  }

  /** Different salts give a key different hashes, so its base and its stride differ unless
      the stride is the one put in place of zero. */
  lemma SaltsTell(s: nat, t: nat, key: Key)
    requires s < TWO64 && t < TWO64 && s != t
    ensures Fnv1a(s, key) != Fnv1a(t, key)
  {
    var (x, y) := (Xor(1469598103934665603, s), Xor(1469598103934665603, t));
    XorIsWord(1469598103934665603, s);
    XorIsWord(1469598103934665603, t);
    FoldIsWord(x, key);
    FoldIsWord(y, key);
    if Fnv1a(s, key) == Fnv1a(t, key) {
      AvalancheInjective(Fold(x, key), Fold(y, key));
      FoldInjective(x, y, key);
      XorCommutes(1469598103934665603, s);
      XorCommutes(1469598103934665603, t);
      XorInjective(s, t, 1469598103934665603);
    }
  }

  lemma StrideIsNotBase(key: Key)
    ensures HashKey(key).stride != 0
    ensures HashKey(key).stride == HashKey(key).base ==> HashKey(key).stride == 1
  {
    SaltsTell(0x9e3779b97f4a7c15, 0xc2b2ae3d27d4eb4f, key);
  }

  /** The positions of a key are a progression by its stride in 64-bit arithmetic, from its
      base, each reduced to the filter's size. */
  lemma ProbesProgress(h: Hashes, i: nat, words: nat) returns (at: nat, next: nat)
    requires words > 0
    ensures at < TWO64 && next == (at + h.stride) % TWO64
    ensures Probe(h, i, words) == at % (64 * words) && Probe(h, i + 1, words) == next % (64 * words)
    ensures i == 0 && h.base < TWO64 ==> at == h.base
  {
    var sum := h.base + i * h.stride;
    at := sum % TWO64;
    next := (at + h.stride) % TWO64;
    var (q, p) := (sum / TWO64, (at + h.stride) / TWO64);
    assert sum + h.stride == TWO64 * (q + p) + next;
    assert h.base + (i + 1) * h.stride == sum + h.stride;
    DivMod(sum + h.stride, TWO64, q + p, next);
  }

  // --------------------------------------------------------------- the sizing

  /** The filter has as many bits as asked for, rounded up to whole words, exactly while
      the rounding does not wrap around, that is up to 2^61 - 8 bytes. */
  lemma WordsCoverCapacityIff(capacity: nat)
    requires capacity > 0
    ensures 8 * capacity <= 64 * WordCount(capacity) < 8 * capacity + 64
            <==> capacity <= 0x1fff_ffff_ffff_fff8
  {
    var words := WordCount(capacity);
    if capacity <= 0x1fff_ffff_ffff_fff8 {
      var sum := 8 * capacity + 63;
      DivMod(8 * capacity, TWO64, 0, 8 * capacity);
      DivMod(sum, TWO64, 0, sum);
      assert sum == 64 * (sum / 64) + sum % 64;
    }
  }

  /** The first capacity for which it does wrap: one word of 64 bits for 2^61 - 7 bytes. */
  lemma WrappedCapacity()
    ensures WordCount(0x1fff_ffff_ffff_fff9) == 1
  {
  }
}
