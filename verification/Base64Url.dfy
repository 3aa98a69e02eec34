/**
 base64url without padding (src/auth/jwt_utils.cpp; section 5 of RFC 4648, section 2 of
 RFC 7515).  Shifts and masks on the 24-bit groups are written as division and
 remainder by powers of two.
 */
module Base64Url {
  import opened Wrappers
  import opened Division

  type Byte = b: int | 0 <= b < 256

  type Sextet = v: int | 0 <= v < 64

  datatype CodecError = InvalidChar | InvalidLength

  // --------------------------------------------------------------- alphabet

  /** kStdAlphabet, written as its four runs. */
  function StdChar(v: Sextet): char {
    if v < 26 then 'A' + v as char
    else if v < 52 then 'a' + (v - 26) as char
    else if v < 62 then '0' + (v - 52) as char
    else if v == 62 then '+' else '/'
  }

  function UrlSafe(c: char): char {
    if c == '+' then '-' else if c == '/' then '_' else c
  }

  function UrlChar(v: Sextet): char {
    UrlSafe(StdChar(v))
  }

  /** DecodeChar: both alphabets are accepted. */
  function CharValue(c: char): Option<Sextet> {
    if 'A' <= c <= 'Z' then Some((c - 'A') as int)
    else if 'a' <= c <= 'z' then Some((c - 'a') as int + 26)
    else if '0' <= c <= '9' then Some((c - '0') as int + 52)
    else if c == '+' || c == '-' then Some(62)
    else if c == '/' || c == '_' then Some(63)
    else None
  }

  lemma CharRoundTrip(v: Sextet)
    ensures CharValue(UrlChar(v)) == Some(v) && UrlChar(v) != '=' && UrlChar(v) != '.'
  {
  }

  // --------------------------------------------------- bytes and sextets

  /** The sextets of a byte string, most significant bit first; a short last group is
      filled with zero bits. */
  function Sextets(data: seq<Byte>): seq<Sextet> {
    if |data| >= 3 then Split(data[0], data[1], data[2]) + Sextets(data[3..])
    else if |data| == 2 then Split(data[0], data[1], 0)[..3]
    else if |data| == 1 then Split(data[0], 0, 0)[..2]
    else []
  }

  function Split(a: Byte, b: Byte, c: Byte): (r: seq<Sextet>)
    ensures |r| == 4
  {
    var (x: int, y: int, z: int) := (a, b, c);
    [x / 4, x % 4 * 16 + y / 16, y % 16 * 4 + z / 64, z % 64]
  }

  /** The bytes of a sextet string; a lone last sextet is an error. */
  function Bytes(vals: seq<Sextet>): Result<seq<Byte>, CodecError> {
    if |vals| >= 4 then
      match Bytes(vals[4..])
      case Ok(rest) => Ok(Merge(vals[0], vals[1], vals[2], vals[3]) + rest)
      case Err(e) => Err(e)
    else if |vals| == 3 then Ok(Merge(vals[0], vals[1], vals[2], 0)[..2])
    else if |vals| == 2 then Ok(Merge(vals[0], vals[1], 0, 0)[..1])
    else if |vals| == 1 then Err(InvalidLength)
    else Ok([])
  }

  function Merge(v0: Sextet, v1: Sextet, v2: Sextet, v3: Sextet): (r: seq<Byte>)
    ensures |r| == 3
  {
    var (w: int, x: int, y: int, z: int) := (v0, v1, v2, v3);
    [w * 4 + x / 16, x % 16 * 16 + y / 4, y % 4 * 64 + z]
  }

  /** One group survives the trip through its sextets. */
  lemma MergeUndoesSplit(a: Byte, b: Byte, c: Byte)
    ensures var r := Split(a, b, c); Merge(r[0], r[1], r[2], r[3]) == [a, b, c]
  {
    var (x: int, y: int, z: int) := (a, b, c);
    DivMod(x % 4 * 16 + y / 16, 16, x % 4, y / 16);
    DivMod(y % 16 * 4 + z / 64, 4, y % 16, z / 64);
    assert x == 4 * (x / 4) + x % 4 && y == 16 * (y / 16) + y % 16 && z == 64 * (z / 64) + z % 64;
  }

  lemma BytesOfSplit(a: Byte, b: Byte, c: Byte, rest: seq<Sextet>)
    requires Bytes(rest).Ok?
    ensures Bytes(Split(a, b, c) + rest) == Ok([a, b, c] + Bytes(rest).value)
  {
    var vals := Split(a, b, c) + rest;
    assert vals[..4] == Split(a, b, c) && vals[4..] == rest;
    MergeUndoesSplit(a, b, c);
  }

  lemma BytesOfTwo(a: Byte, b: Byte)
    ensures Bytes(Split(a, b, 0)[..3]) == Ok([a, b])
  {
    MergeUndoesSplit(a, b, 0);
    assert [a, b, 0][..2] == [a, b];
  }

  lemma BytesOfOne(a: Byte)
    ensures Bytes(Split(a, 0, 0)[..2]) == Ok([a])
  {
    MergeUndoesSplit(a, 0, 0);
    assert [a, 0, 0][..1] == [a];
  }

  lemma {:induction false} BytesUndoSextets(data: seq<Byte>)
    ensures Bytes(Sextets(data)) == Ok(data)
  {
    if |data| >= 3 {
      BytesUndoSextets(data[3..]);
      BytesOfSplit(data[0], data[1], data[2], Sextets(data[3..]));
      assert data == [data[0], data[1], data[2]] + data[3..];
    } else if |data| == 2 {
      BytesOfTwo(data[0], data[1]);
      assert data == [data[0], data[1]];
    } else if |data| == 1 {
      BytesOfOne(data[0]);
      assert data == [data[0]];
    }
  }

  // -------------------------------------------- the source's 24-bit groups

  /** The source assembles three bytes into one number and shifts the sextets out. */
  function Group(a: int, b: int, c: int): int {
    a * 65536 + b * 256 + c
  }

  lemma GroupTop(a: int, b: int, c: int)
    requires 0 <= a < 256 && 0 <= b < 256 && 0 <= c < 256
    ensures Group(a, b, c) / 262144 == a / 4
  {
    DivMod(Group(a, b, c), 262144, a / 4, 65536 * (a % 4) + 256 * b + c);
  }

  lemma GroupSecond(a: int, b: int, c: int)
    requires 0 <= a < 256 && 0 <= b < 256 && 0 <= c < 256
    ensures Group(a, b, c) / 4096 % 64 == a % 4 * 16 + b / 16
  {
    DivMod(Group(a, b, c), 4096, 16 * a + b / 16, 256 * (b % 16) + c);
    DivMod(16 * a + b / 16, 64, a / 4, 16 * (a % 4) + b / 16);
  }

  lemma GroupThird(a: int, b: int, c: int)
    requires 0 <= a < 256 && 0 <= b < 256 && 0 <= c < 256
    ensures Group(a, b, c) / 64 % 64 == b % 16 * 4 + c / 64 && Group(a, b, c) % 64 == c % 64
  {
    DivMod(Group(a, b, c), 64, 1024 * a + 4 * b + c / 64, c % 64);
    DivMod(1024 * a + 4 * b + c / 64, 64, 16 * a + b / 16, 4 * (b % 16) + c / 64);
  }

  /** And the other way round: four sextets into one number, bytes shifted out. */
  function Joined(v0: int, v1: int, v2: int, v3: int): int {
    v0 * 262144 + v1 * 4096 + v2 * 64 + v3
  }

  lemma JoinedTop(v0: int, v1: int, v2: int, v3: int)
    requires 0 <= v0 < 64 && 0 <= v1 < 64 && 0 <= v2 < 64 && 0 <= v3 < 64
    ensures Joined(v0, v1, v2, v3) / 65536 == v0 * 4 + v1 / 16
  {
    DivMod(Joined(v0, v1, v2, v3), 65536, 4 * v0 + v1 / 16, 4096 * (v1 % 16) + 64 * v2 + v3);
  }

  lemma JoinedRest(v0: int, v1: int, v2: int, v3: int)
    requires 0 <= v0 < 64 && 0 <= v1 < 64 && 0 <= v2 < 64 && 0 <= v3 < 64
    ensures Joined(v0, v1, v2, v3) / 256 % 256 == v1 % 16 * 16 + v2 / 4
    ensures Joined(v0, v1, v2, v3) % 256 == v2 % 4 * 64 + v3
  {
    DivMod(Joined(v0, v1, v2, v3), 256, 1024 * v0 + 16 * v1 + v2 / 4, 64 * (v2 % 4) + v3);
    DivMod(1024 * v0 + 16 * v1 + v2 / 4, 256, 4 * v0 + v1 / 16, 16 * (v1 % 16) + v2 / 4);
  }

  // ------------------------------------------------------------------- text

  function Spell(vals: seq<Sextet>): string {
    if vals == [] then "" else [UrlChar(vals[0])] + Spell(vals[1..])
  }

  function Encode(data: seq<Byte>): string {
    Spell(Sextets(data))
  }

  /** The values of the characters, skipping padding, or an error. */
  function Read(text: string): Result<seq<Sextet>, CodecError> {
    if text == "" then Ok([])
    else if text[0] == '=' then Read(text[1..])
    else match CharValue(text[0])
      case None => Err(InvalidChar)
      case Some(v) =>
        match Read(text[1..])
        case Ok(rest) => Ok([v] + rest)
        case Err(e) => Err(e)
  }

  function Decode(text: string): Result<seq<Byte>, CodecError> {
    match Read(text)
    case Ok(vals) => Bytes(vals)
    case Err(e) => Err(e)
  }

  lemma {:induction false} ReadUndoesSpell(vals: seq<Sextet>)
    ensures Read(Spell(vals)) == Ok(vals) && |Spell(vals)| == |vals|
    ensures '.' !in Spell(vals) && '=' !in Spell(vals)
  {
    if vals != [] {
      CharRoundTrip(vals[0]);
      ReadUndoesSpell(vals[1..]);
      assert Spell(vals)[1..] == Spell(vals[1..]);
      assert vals == [vals[0]] + vals[1..];
    }
  }

  /** Decoding undoes encoding on every byte string, and an encoding holds neither
      padding nor the separator of compact tokens. */
  lemma DecodeUndoesEncode(data: seq<Byte>)
    ensures Decode(Encode(data)) == Ok(data)
    ensures '.' !in Encode(data) && '=' !in Encode(data)
  {
    ReadUndoesSpell(Sextets(data));
    BytesUndoSextets(data);
  }

  predicate UrlSafeChar(c: char) {
    'A' <= c <= 'Z' || 'a' <= c <= 'z' || '0' <= c <= '9' || c == '-' || c == '_'
  }

  /** An encoding is safe in a URL: letters, digits, '-' and '_' only. */
  lemma {:induction false} SpellingIsUrlSafe(vals: seq<Sextet>)
    ensures |Spell(vals)| == |vals| && forall i | 0 <= i < |vals| :: UrlSafeChar(Spell(vals)[i])
  {
    if vals != [] { SpellingIsUrlSafe(vals[1..]); }
  }

  lemma EncodingIsUrlSafe(data: seq<Byte>)
    ensures forall i | 0 <= i < |Encode(data)| :: UrlSafeChar(Encode(data)[i])
  {
    SpellingIsUrlSafe(Sextets(data));
  }

  /** The order of the bits: four sextets and three bytes are the same number, most
      significant first. */
  lemma GroupsAreBigEndian(a: Byte, b: Byte, c: Byte)
    ensures var r := Split(a, b, c);
            var (p: int, q: int, s: int, t: int) := (r[0], r[1], r[2], r[3]);
            var (x: int, y: int, z: int) := (a, b, c);
            p * 262144 + q * 4096 + s * 64 + t == x * 65536 + y * 256 + z
  {
    var (x: int, y: int, z: int) := (a, b, c);
    assert x == 4 * (x / 4) + x % 4 && y == 16 * (y / 16) + y % 16 && z == 64 * (z / 64) + z % 64;
  }

  /** The alphabet (table 2 of RFC 4648), read from a character to its value. */
  lemma AlphabetIsUrlTable(v: Sextet)
    ensures var (c, n: int) := (UrlChar(v), v);
            if 'A' <= c <= 'Z' then n == c as int - 'A' as int
            else if 'a' <= c <= 'z' then n == 26 + c as int - 'a' as int
            else if '0' <= c <= '9' then n == 52 + c as int - '0' as int
            else if c == '-' then n == 62 else c == '_' && n == 63
  {
  }

  /** The test vectors of section 10 of RFC 4648, without padding. */
  lemma TestVectors()
    ensures Encode([]) == "" && Encode([102]) == "Zg" && Encode([102, 111]) == "Zm8"
    ensures Encode([102, 111, 111]) == "Zm9v"
  {
    assert Sextets([102]) == [25, 32];
    assert Sextets([102, 111]) == [25, 38, 60];
    assert Split(102, 111, 111) == [25, 38, 61, 47];
    assert [102, 111, 111][3..] == [];
    assert Sextets([102, 111, 111]) == [25, 38, 61, 47];
    SpellTwo(25, 32);
    SpellThree(25, 38, 60);
    SpellFour(25, 38, 61, 47);
  }

  lemma SpellTwo(a: Sextet, b: Sextet)
    ensures Spell([a, b]) == [UrlChar(a), UrlChar(b)]
  {
    assert [a, b][1..] == [b] && [b][1..] == [];
    assert Spell([b]) == [UrlChar(b)] + Spell([]);
  }

  lemma SpellThree(a: Sextet, b: Sextet, c: Sextet)
    ensures Spell([a, b, c]) == [UrlChar(a), UrlChar(b), UrlChar(c)]
  {
    assert [a, b, c][1..] == [b, c];
    SpellTwo(b, c);
  }

  lemma SpellFour(a: Sextet, b: Sextet, c: Sextet, d: Sextet)
    ensures Spell([a, b, c, d]) == [UrlChar(a), UrlChar(b), UrlChar(c), UrlChar(d)]
  {
    assert [a, b, c, d][1..] == [b, c, d];
    SpellThree(b, c, d);
  }

  lemma EncodeIsInjective(a: seq<Byte>, b: seq<Byte>)
    requires Encode(a) == Encode(b)
    ensures a == b
  {
    DecodeUndoesEncode(a);
    DecodeUndoesEncode(b);
  }

  /** Exactly what the decoder accepts: alphabet characters and padding, with a number
      of alphabet characters that is not one more than a multiple of four. */
  function Significant(text: string): nat {
    if text == "" then 0 else (if text[0] == '=' then 0 else 1) + Significant(text[1..])
  }

  lemma FourMore(n: int)
    requires n >= 4
    ensures n % 4 == (n - 4) % 4
  {
    DivMod(n, 4, (n - 4) / 4 + 1, (n - 4) % 4);
  }

  lemma BytesOfGroup(vals: seq<Sextet>)
    requires |vals| >= 4
    ensures Bytes(vals).Ok? <==> Bytes(vals[4..]).Ok?
  {
  }

  lemma {:induction false} BytesDefined(vals: seq<Sextet>)
    ensures Bytes(vals).Ok? <==> |vals| % 4 != 1
  {
    if |vals| >= 4 {
      BytesDefined(vals[4..]);
      BytesOfGroup(vals);
      FourMore(|vals|);
    }
  }

  lemma {:induction false} ReadDefined(text: string)
    ensures Read(text).Ok? <==> forall i | 0 <= i < |text| :: text[i] == '=' || CharValue(text[i]).Some?
    ensures Read(text).Ok? ==> |Read(text).value| == Significant(text)
  {
    if text != "" {
      ReadDefined(text[1..]);
      if Read(text).Ok? {
        forall i | 0 <= i < |text| ensures text[i] == '=' || CharValue(text[i]).Some? {
          if i > 0 { assert text[i] == text[1..][i - 1]; }
        }
      }
    }
  }

  lemma DecodeAccepts(text: string)
    ensures Decode(text).Ok? <==>
      && (forall i | 0 <= i < |text| :: text[i] == '=' || CharValue(text[i]).Some?)
      && Significant(text) % 4 != 1
  {
    ReadDefined(text);
    if Read(text).Ok? { BytesDefined(Read(text).value); }
  }

  // ------------------------------------------------------------------ loops

  lemma {:induction false} SpellAppend(a: seq<Sextet>, b: seq<Sextet>)
    ensures Spell(a + b) == Spell(a) + Spell(b)
  {
    if a == [] {
      assert a + b == b;
    } else {
      assert (a + b)[1..] == a[1..] + b;
      SpellAppend(a[1..], b);
    }
  }

  /** The sextets of one group as the source shifts them out. */
  method ShiftOut(a: Byte, b: Byte, c: Byte) returns (r: seq<Sextet>)
    ensures r == Split(a, b, c)
  {
    var n := Group(a, b, c);
    GroupTop(a, b, c);
    GroupSecond(a, b, c);
    GroupThird(a, b, c);
    r := [n / 262144, n / 4096 % 64, n / 64 % 64, n % 64];
  }

  method Base64UrlEncode(data: seq<Byte>) returns (out: string)
    ensures out == Encode(data)
  {
    var std: seq<Sextet> := [];
    var i := 0;
    assert std + Sextets(data) == Sextets(data) && data[0..] == data;
    while i + 3 <= |data|
      invariant 0 <= i <= |data| && std + Sextets(data[i..]) == Sextets(data)
    {
      var group := ShiftOut(data[i], data[i + 1], data[i + 2]);
      assert data[i..][3..] == data[i + 3..];
      assert std + Sextets(data[i..]) == std + group + Sextets(data[i + 3..]);
      std := std + group;
      i := i + 3;
    }
    var rest := |data| - i;
    if rest == 1 {
      var group := ShiftOut(data[i], 0, 0);
      std := std + group[..2];
    } else if rest == 2 {
      var group := ShiftOut(data[i], data[i + 1], 0);
      std := std + group[..3];
    }
    assert std == Sextets(data);
    out := Translate(std);
  }

  /** The final pass: table lookup, then '+' and '/' to their URL-safe forms. */
  method Translate(std: seq<Sextet>) returns (out: string)
    ensures out == Spell(std)
  {
    out := "";
    for k := 0 to |std|
      invariant out == Spell(std[..k])
    {
      assert std[..k + 1] == std[..k] + [std[k]];
      SpellAppend(std[..k], [std[k]]);
      out := out + [UrlSafe(StdChar(std[k]))];
    }
    assert std[..|std|] == std;
  }

  lemma {:induction false} ReadAppend(a: string, c: char)
    ensures Read(a).Err? ==> Read(a + [c]) == Read(a)
    ensures Read(a).Ok? ==>
      Read(a + [c]) == if c == '=' then Read(a)
                       else if CharValue(c).None? then Err(InvalidChar)
                       else Ok(Read(a).value + [CharValue(c).value])
  {
    if a == "" {
      assert a + [c] == [c] && Read([c][1..]) == Ok([]);
      if CharValue(c).Some? { assert [CharValue(c).value] + [] == [] + [CharValue(c).value]; }
    } else {
      assert (a + [c])[1..] == a[1..] + [c];
      ReadAppend(a[1..], c);
      if Read(a).Ok? && a[0] != '=' && CharValue(c).Some? {
        var (v, rest, x) := (CharValue(a[0]).value, Read(a[1..]).value, CharValue(c).value);
        assert [v] + (rest + [x]) == [v] + rest + [x];
      }
    }
  }

  lemma {:induction false} ReadStuck(a: string, b: string)
    requires Read(a).Err?
    ensures Read(a + b) == Read(a)
  {
    if a != "" {
      assert (a + b)[1..] == a[1..] + b;
      if Read(a[1..]).Err? { ReadStuck(a[1..], b); }
    }
  }

  /** The values of the text's characters, or the error of the first bad one. */
  method ReadValues(text: string) returns (r: Result<seq<Sextet>, CodecError>)
    ensures r == Read(text)
  {
    var vals: seq<Sextet> := [];
    for k := 0 to |text|
      invariant Read(text[..k]) == Ok(vals)
    {
      assert text[..k + 1] == text[..k] + [text[k]];
      ReadAppend(text[..k], text[k]);
      if text[k] != '=' {
        var v := CharValue(text[k]);
        if v.None? {
          ReadStuck(text[..k + 1], text[k + 1..]);
          assert text == text[..k + 1] + text[k + 1..];
          return Err(InvalidChar);
        }
        vals := vals + [v.value];
      }
    }
    assert text[..|text|] == text;
    r := Ok(vals);
  }

  method ShiftIn(v0: Sextet, v1: Sextet, v2: Sextet, v3: Sextet) returns (r: seq<Byte>)
    ensures r == Merge(v0, v1, v2, v3)
  {
    var n := Joined(v0, v1, v2, v3);
    JoinedTop(v0, v1, v2, v3);
    JoinedRest(v0, v1, v2, v3);
    r := [n / 65536, n / 256 % 256, n % 256];
  }

  method Base64UrlDecode(text: string) returns (r: Result<seq<Byte>, CodecError>)
    ensures r == Decode(text)
  {
    var values := ReadValues(text);
    if values.Err? { return Err(values.error); }
    var vals := values.value;
    var out: seq<Byte> := [];
    var i := 0;
    assert vals[0..] == vals && forall rest: seq<Byte> :: [] + rest == rest;
    while i + 4 <= |vals|
      invariant 0 <= i <= |vals|
      invariant Bytes(vals) == Prepend(out, Bytes(vals[i..]))
    {
      var group := ShiftIn(vals[i], vals[i + 1], vals[i + 2], vals[i + 3]);
      assert vals[i..][4..] == vals[i + 4..];
      assert forall rest: seq<Byte> :: out + (group + rest) == out + group + rest;
      out := out + group;
      i := i + 4;
    }
    var rest := |vals| - i;
    assert out + [] == out;
    if rest == 1 { return Err(InvalidLength); }
    if rest == 2 {
      var group := ShiftIn(vals[i], vals[i + 1], 0, 0);
      out := out + group[..1];
    } else if rest == 3 {
      var group := ShiftIn(vals[i], vals[i + 1], vals[i + 2], 0);
      out := out + group[..2];
    }
    r := Ok(out);
  }

  function Prepend(out: seq<Byte>, r: Result<seq<Byte>, CodecError>): Result<seq<Byte>, CodecError> {
    if r.Ok? then Ok(out + r.value) else r
  }
}
