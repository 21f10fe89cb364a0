/** What the libcutils string converters compute, as functions on values.

    A C string is given by its contents, the bytes before the terminating NUL.
    `Decode` and `Encode` are the two copy passes, `Length8` and `Length16` the
    two length passes; the methods of `StrDup8to16` and `StrDup16to8` are proved
    equal to them.  The lemmas relate the passes to each other and to the
    formats: UTF-8 (section 3 of RFC 3629), UTF-16 (section 2.1 of RFC 2781) and
    modified UTF-8 (section 4.4.7 of The Java Virtual Machine Specification). */
module ModifiedUtf8 {
  import opened Bits

  const REPLACEMENT: u16 := 0xFFFD
  const UPPER_LIMIT := 0x10FFFD

  // ----- bytes to units -----

  predicate IsExtension(b: byte) { 0x80 <= b < 0xC0 }

  /** Length announced by a leader; stray extension bytes count one. */
  function SeqLength(b: byte): (n: nat)
    ensures 1 <= n <= 4
  {
    if b < 0xC0 then 1 else if b < 0xE0 then 2 else if b < 0xF0 then 3 else 4
  }

  /** The payload bits of a leader. */
  function LeaderBits(b: byte): nat {
    match SeqLength(b)
    case 1 => b
    case 2 => b % 0x20
    case 3 => b % 0x10
    case _ => b % 0x08
  }

  /** How many of the first n bytes are extension bytes in a row. */
  function ExtensionRun(t: seq<byte>, n: nat): (k: nat)
    ensures k <= n && k <= |t|
  {
    if n == 0 || t == [] || !IsExtension(t[0]) then 0 else 1 + ExtensionRun(t[1..], n - 1)
  }

  /** Appends the six payload bits of each byte to v. */
  function AppendBits(v: nat, t: seq<byte>): nat
    decreases |t|
  {
    if t == [] then v else AppendBits(v * 0x40 + t[0] % 0x40, t[1..])
  }

  /** Number of bytes that one decoding step takes. */
  function CharBytes(t: seq<byte>): (k: nat)
    requires t != []
    ensures 1 <= k <= |t|
  {
    if IsExtension(t[0]) then 1 else 1 + ExtensionRun(t[1..], SeqLength(t[0]) - 1)
  }

  /** The code that one decoding step yields. */
  function CharValue(t: seq<byte>): nat
    requires t != []
  {
    if IsExtension(t[0]) || CharBytes(t) < SeqLength(t[0]) then REPLACEMENT
    else AppendBits(LeaderBits(t[0]), t[1..SeqLength(t[0])])
  }

  /** The units written for one code. */
  function UnitsOf(v: nat): (u: seq<u16>)
    ensures 1 <= |u| <= 2
    ensures |u| == 2 <==> 0x1_0000 <= v <= UPPER_LIMIT
  {
    if v <= 0xFFFF then [v]
    else if v <= UPPER_LIMIT then [0xD800 + (v - 0x1_0000) / 0x400, 0xDC00 + (v - 0x1_0000) % 0x400]
    else [REPLACEMENT]
  }

  function Decode(t: seq<byte>): seq<u16> {
    if t == [] then [] else UnitsOf(CharValue(t)) + Decode(t[CharBytes(t)..])
  }

  /** Decoding of at least the first n bytes: steps are taken while fewer than n bytes are used. */
  function DecodeRange(t: seq<byte>, n: int): seq<u16>
    decreases |t|
  {
    if n <= 0 || t == [] then []
    else UnitsOf(CharValue(t)) + DecodeRange(t[CharBytes(t)..], n - CharBytes(t))
  }

  /** The byte-counting length pass, started with e extension bytes expected. */
  function Length8(t: seq<byte>, e: int): nat
    decreases |t|
  {
    if t == [] then 0
    else if IsExtension(t[0]) then (if e - 1 < 0 then 1 else 0) + Length8(t[1..], e - 1)
    else (if SeqLength(t[0]) == 4 then 2 else 1) + Length8(t[1..], SeqLength(t[0]) - 1)
  }

  /** A four-byte leader that is cut short, or whose code needs no surrogate pair. */
  predicate IsBadQuad(t: seq<byte>) {
    t != [] && 0xF0 <= t[0]
    && !(|t| >= 4 && IsExtension(t[1]) && IsExtension(t[2]) && IsExtension(t[3])
         && 0x1_0000 <= QuadValue(t[0], t[1], t[2], t[3]) <= UPPER_LIMIT)
  }

  function PairValue(a: byte, b: byte): nat { a % 0x20 * 0x40 + b % 0x40 }

  function TripleValue(a: byte, b: byte, c: byte): nat { a % 0x10 * 0x1000 + b % 0x40 * 0x40 + c % 0x40 }

  function QuadValue(a: byte, b: byte, c: byte, d: byte): nat {
    a % 8 * 0x4_0000 + b % 0x40 * 0x1000 + c % 0x40 * 0x40 + d % 0x40
  }

  /** Number of positions of t that hold such a leader. */
  function BadQuads(t: seq<byte>): nat {
    if t == [] then 0 else (if IsBadQuad(t) then 1 else 0) + BadQuads(t[1..])
  }

  // ----- units to bytes -----

  function EncodeUnit(x: u16): (s: seq<byte>)
    ensures 1 <= |s| <= 3
    ensures forall i :: 0 <= i < |s| ==> s[i] != 0
  {
    if x > 0x7FF then [0xE0 + x / 0x1000, 0x80 + x / 0x40 % 0x40, 0x80 + x % 0x40]
    else if x > 0x7F || x == 0 then [0xC0 + x / 0x40, 0x80 + x % 0x40]
    else [x]
  }

  function Encode(u: seq<u16>): seq<byte> {
    if u == [] then [] else EncodeUnit(u[0]) + Encode(u[1..])
  }

  function Length16(u: seq<u16>): nat {
    if u == [] then 0 else |EncodeUnit(u[0])| + Length16(u[1..])
  }

  predicate NoZero(t: seq<byte>) { forall i :: 0 <= i < |t| ==> t[i] != 0 }

  // ----- C strings -----

  /** Memory that starts at the string and holds its terminator. */
  predicate IsCString(s: seq<byte>) { 0 in s }

  function Contents(s: seq<byte>): (t: seq<byte>)
    requires IsCString(s)
    ensures |t| < |s| && t == s[..|t|] && s[|t|] == 0
    ensures NoZero(t)
  {
    if s[0] == 0 then [] else [s[0]] + Contents(s[1..])
  }

  // ----- the formats -----

  /** Modified UTF-8: shortest forms of one to three bytes, with zero as C0 80. */
  predicate IsCanonical(t: seq<byte>) {
    if t == [] then true
    else if 0x01 <= t[0] <= 0x7F then IsCanonical(t[1..])
    else if 0xC0 <= t[0] <= 0xDF then
      |t| >= 2 && IsExtension(t[1]) && (t[0] >= 0xC2 || (t[0] == 0xC0 && t[1] == 0x80))
      && IsCanonical(t[2..])
    else if 0xE0 <= t[0] <= 0xEF then
      |t| >= 3 && IsExtension(t[1]) && IsExtension(t[2]) && (t[0] == 0xE0 ==> t[1] >= 0xA0)
      && IsCanonical(t[3..])
    else false
  }

  /** Unicode scalar values other than zero. */
  predicate IsScalar(v: nat) { 0 < v < 0xD800 || 0xE000 <= v <= 0x10FFFF }

  predicate AreScalars(vs: seq<nat>) { forall i :: 0 <= i < |vs| ==> IsScalar(vs[i]) }

  /** The UTF-8 form of one character, section 3 of RFC 3629. */
  function Utf8Char(v: nat): (s: seq<byte>)
    requires v <= 0x10FFFF
    ensures 1 <= |s| <= 4
  {
    if v <= 0x7F then [v]
    else if v <= 0x7FF then [0xC0 + v / 0x40, 0x80 + v % 0x40]
    else if v <= 0xFFFF then [0xE0 + v / 0x1000, 0x80 + v / 0x40 % 0x40, 0x80 + v % 0x40]
    else [0xF0 + v / 0x4_0000, 0x80 + v / 0x1000 % 0x40, 0x80 + v / 0x40 % 0x40, 0x80 + v % 0x40]
  }

  function Utf8(vs: seq<nat>): seq<byte>
    requires AreScalars(vs)
  {
    if vs == [] then [] else Utf8Char(vs[0]) + Utf8(vs[1..])
  }

  /** The UTF-16 form of one character, section 2.1 of RFC 2781. */
  function Utf16Char(v: nat): (s: seq<u16>)
    requires v <= 0x10FFFF
  {
    if v < 0x1_0000 then [v]
    else var w := v - 0x1_0000; [0xD800 + w / 0x400, 0xDC00 + w % 0x400]
  }

  function Utf16(vs: seq<nat>): seq<u16>
    requires AreScalars(vs)
  {
    if vs == [] then [] else Utf16Char(vs[0]) + Utf16(vs[1..])
  }

  // ----- the length pass against the copy pass -----

  /** Expecting no extension byte, or fewer, makes no difference to the count... */
  lemma {:induction false} NothingExpected(t: seq<byte>, e: int)
    requires e <= 0
    ensures Length8(t, e) == Length8(t, 0)
  {
    if t != [] && IsExtension(t[0]) {
      NothingExpected(t[1..], e - 1);
      NothingExpected(t[1..], -1);
    }
  }

  /** ...and neither does what is expected where no extension byte follows. */
  lemma {:induction false} ExpectationDropped(t: seq<byte>, e: int)
    requires t == [] || !IsExtension(t[0]) || e <= 0
    ensures Length8(t, e) == Length8(t, 0)
  {
    if e <= 0 {
      NothingExpected(t, e);
    }
  }

  /** Expected extension bytes are not counted, up to where the decoder stops. */
  lemma {:induction false} RunNotCounted(t: seq<byte>, n: nat)
    ensures Length8(t, n) == Length8(t[ExtensionRun(t, n)..], 0)
  {
    var k := ExtensionRun(t, n);
    if k == 0 {
      assert t[0..] == t;
      ExpectationDropped(t, n);
    } else {
      RunNotCounted(t[1..], n - 1);
      assert t[1..][k - 1..] == t[k..];
    }
  }

  lemma {:induction false} RunIsExtensions(t: seq<byte>, n: nat)
    ensures forall i :: 0 <= i < ExtensionRun(t, n) ==> IsExtension(t[i])
    ensures ExtensionRun(t, n) < n && ExtensionRun(t, n) < |t| ==> !IsExtension(t[ExtensionRun(t, n)])
  {
    if n == 0 || t == [] || !IsExtension(t[0]) {
    } else {
      RunIsExtensions(t[1..], n - 1);
    }
  }

  /** The converse: n extension bytes in a row are a run of n. */
  lemma {:induction false} RunReached(t: seq<byte>, n: nat)
    requires n <= |t| && forall i :: 0 <= i < n ==> IsExtension(t[i])
    ensures ExtensionRun(t, n) == n
  {
    if n > 0 {
      RunReached(t[1..], n - 1);
    }
  }

  lemma {:induction false} BadQuadsSkip(t: seq<byte>, k: nat)
    requires k <= |t| && forall i :: 0 <= i < k ==> t[i] < 0xF0
    ensures BadQuads(t) == BadQuads(t[k..])
  {
    if k == 0 {
      assert t[0..] == t;
    } else {
      BadQuadsSkip(t[1..], k - 1);
      assert t[1..][k - 1..] == t[k..];
    }
  }

  lemma {:induction false} FourByteValue(t: seq<byte>)
    requires |t| >= 4 && t[0] >= 0xF0
    requires IsExtension(t[1]) && IsExtension(t[2]) && IsExtension(t[3])
    ensures CharBytes(t) == 4
    ensures CharValue(t) == QuadValue(t[0], t[1], t[2], t[3])
  {
    RunReached(t[1..], 3);
    var e := t[1..4];
    assert e[1..] == [t[2], t[3]] && e[1..][1..] == [t[3]];
    var v: nat := t[0] % 8;
    calc {
      CharValue(t);
      AppendBits(v, e);
      AppendBits(v * 0x40 + t[1] % 0x40, e[1..]);
      AppendBits((v * 0x40 + t[1] % 0x40) * 0x40 + t[2] % 0x40, e[1..][1..]);
      ((v * 0x40 + t[1] % 0x40) * 0x40 + t[2] % 0x40) * 0x40 + t[3] % 0x40;
    }
  }

  /** Codes of at most three bytes never need a pair. */
  lemma {:induction false} ShortValue(t: seq<byte>)
    requires t != [] && t[0] < 0xF0
    ensures CharValue(t) <= 0xFFFF
  {
    var n := SeqLength(t[0]);
    if !IsExtension(t[0]) && CharBytes(t) == n {
      var e, v := t[1..n], LeaderBits(t[0]);
      if n == 1 {
        assert AppendBits(v, e) == v;
      } else if n == 2 {
        assert e[1..] == [];
        assert AppendBits(v, e) == v * 0x40 + t[1] % 0x40;
      } else {
        assert e[1..] == [t[2]] && e[1..][1..] == [];
        assert AppendBits(v, e) == AppendBits(v * 0x40 + t[1] % 0x40, e[1..]);
        assert AppendBits(v, e) == (v * 0x40 + t[1] % 0x40) * 0x40 + t[2] % 0x40;
      }
    }
  }

  /** Per step: a pair is written exactly for a good four-byte sequence. */
  lemma {:induction false} UnitsOfStep(t: seq<byte>)
    requires t != []
    ensures |UnitsOf(CharValue(t))| == if t[0] >= 0xF0 && !IsBadQuad(t) then 2 else 1
  {
    if t[0] < 0xF0 {
      ShortValue(t);
    } else {
      RunIsExtensions(t[1..], 3);
      if CharBytes(t) == 4 {
        assert forall i :: 0 <= i < 3 ==> IsExtension(t[1..][i]);
        assert t[1..][0] == t[1] && t[1..][1] == t[2] && t[1..][2] == t[3];
        FourByteValue(t);
      } else if |t| >= 4 && IsExtension(t[1]) && IsExtension(t[2]) && IsExtension(t[3]) {
        FourByteValue(t);
        assert false;
      }
    }
  }

  /** What one decoding step adds to the two lengths and to the count of bad leaders. */
  lemma {:induction false} LengthOfStep(t: seq<byte>)
    requires t != []
    ensures Length8(t, 0) - Length8(t[CharBytes(t)..], 0)
         == |UnitsOf(CharValue(t))| + BadQuads(t) - BadQuads(t[CharBytes(t)..])
  {
    UnitsOfStep(t);
    if IsExtension(t[0]) {
      NothingExpected(t[1..], -1);
    } else {
      var k := CharBytes(t);
      var n := SeqLength(t[0]) - 1;
      RunNotCounted(t[1..], n);
      RunIsExtensions(t[1..], n);
      assert t[1..][k - 1..] == t[k..];
      BadQuadsSkip(t[1..], k - 1);
    }
  }

  /** The length pass exceeds the copy pass by exactly the number of bad four-byte leaders. */
  lemma {:induction false} LengthExcess(t: seq<byte>)
    ensures Length8(t, 0) == |Decode(t)| + BadQuads(t)
  {
    if t != [] {
      LengthOfStep(t);
      LengthExcess(t[CharBytes(t)..]);
    }
  }

  /** Every byte counts at most two, so the counter stays below twice the string length. */
  lemma {:induction false} LengthBound(t: seq<byte>, e: int)
    ensures Length8(t, e) <= 2 * |t|
  {
    if t != [] {
      LengthBound(t[1..], if IsExtension(t[0]) then e - 1 else SeqLength(t[0]) - 1);
    }
  }

  // ----- decoding distributes over concatenation -----

  /** A step does not look past a byte that is not an extension byte. */
  lemma {:induction false} RunOfConcat(a: seq<byte>, b: seq<byte>, n: nat)
    requires b == [] || !IsExtension(b[0])
    ensures ExtensionRun(a + b, n) == ExtensionRun(a, n)
  {
    if a == [] {
      assert a + b == b;
    } else if n > 0 {
      assert (a + b)[1..] == a[1..] + b;
      RunOfConcat(a[1..], b, n - 1);
    }
  }

  lemma {:induction false} StepOfConcat(a: seq<byte>, b: seq<byte>)
    requires a != []
    requires b == [] || !IsExtension(b[0])
    ensures CharBytes(a + b) == CharBytes(a)
    ensures CharValue(a + b) == CharValue(a)
  {
    var n := SeqLength(a[0]);
    assert (a + b)[1..] == a[1..] + b;
    RunOfConcat(a[1..], b, n - 1);
    if CharBytes(a) >= n {
      assert (a + b)[1..n] == a[1..n];
    }
  }

  lemma {:induction false} DecodeStep(t: seq<byte>)
    requires t != []
    ensures Decode(t) == UnitsOf(CharValue(t)) + Decode(t[CharBytes(t)..])
  {}

  lemma {:induction false} DropOfConcat(a: seq<byte>, b: seq<byte>, k: nat)
    requires k <= |a|
    ensures (a + b)[k..] == a[k..] + b
  {}

  lemma {:induction false} Associated(a: seq<u16>, b: seq<u16>, c: seq<u16>)
    ensures (a + b) + c == a + (b + c)
  {}

  lemma {:induction false} DecodeConcat(a: seq<byte>, b: seq<byte>)
    requires b == [] || !IsExtension(b[0])
    ensures Decode(a + b) == Decode(a) + Decode(b)
  {
    if a == [] {
      assert a + b == b;
    } else {
      var k := CharBytes(a);
      var u := UnitsOf(CharValue(a));
      StepOfConcat(a, b);
      DecodeStep(a);
      DecodeStep(a + b);
      DropOfConcat(a, b, k);
      hide Decode, CharBytes, CharValue, UnitsOf;
      DecodeConcat(a[k..], b);
      Associated(u, Decode(a[k..]), Decode(b));
    }
  }

  /** Decoding a range by length agrees with decoding the range alone, unless the byte after the
      range is an extension byte. */
  lemma {:induction false} RangeOfConcat(a: seq<byte>, b: seq<byte>)
    requires b == [] || !IsExtension(b[0])
    ensures DecodeRange(a + b, |a|) == Decode(a)
  {
    if a != [] {
      var k := CharBytes(a);
      var t, rest := a + b, a[k..];
      StepOfConcat(a, b);
      assert t[k..] == rest + b;
      RangeOfConcat(rest, b);
      assert DecodeRange(t, |a|) == UnitsOf(CharValue(t)) + DecodeRange(t[k..], |rest|);
    }
  }

  lemma {:induction false} RangeIsPrefix(t: seq<byte>, n: nat)
    requires n <= |t|
    requires n == |t| || !IsExtension(t[n])
    ensures DecodeRange(t, n) == Decode(t[..n])
  {
    assert t == t[..n] + t[n..];
    RangeOfConcat(t[..n], t[n..]);
  }

  // ----- well-formed UTF-8 decodes to UTF-16 -----

  lemma {:induction false} TwoByteValue(t: seq<byte>)
    requires |t| >= 2 && 0xC0 <= t[0] < 0xE0 && IsExtension(t[1])
    ensures CharBytes(t) == 2 && CharValue(t) == PairValue(t[0], t[1])
  {
    RunReached(t[1..], 1);
    var e := t[1..2];
    assert e[1..] == [];
    var v: nat := t[0] % 0x20;
    calc {
      CharValue(t);
      AppendBits(v, e);
      v * 0x40 + t[1] % 0x40;
    }
  }

  lemma {:induction false} ThreeByteValue(t: seq<byte>)
    requires |t| >= 3 && 0xE0 <= t[0] < 0xF0 && IsExtension(t[1]) && IsExtension(t[2])
    ensures CharBytes(t) == 3
    ensures CharValue(t) == TripleValue(t[0], t[1], t[2])
  {
    RunReached(t[1..], 2);
    var e := t[1..3];
    assert e[1..] == [t[2]] && e[1..][1..] == [];
    var v: nat := t[0] % 0x10;
    calc {
      CharValue(t);
      AppendBits(v, e);
      AppendBits(v * 0x40 + t[1] % 0x40, e[1..]);
      (v * 0x40 + t[1] % 0x40) * 0x40 + t[2] % 0x40;
    }
  }

  /** The three low digits of a code in base 64. */
  lemma {:induction false} Digits(v: nat)
    ensures v == v / 0x40 * 0x40 + v % 0x40
    ensures v == v / 0x1000 * 0x1000 + v / 0x40 % 0x40 * 0x40 + v % 0x40
  {}

  /** The fourth digit. */
  lemma {:induction false} FourthDigit(v: nat)
    ensures v / 0x1000 == v / 0x4_0000 * 0x40 + v / 0x1000 % 0x40
  {
    assert v / 0x1000 / 0x40 == v / 0x4_0000;
  }

  lemma {:induction false} Utf8CharDecodes(v: nat)
    requires IsScalar(v)
    ensures !IsExtension(Utf8Char(v)[0])
    ensures CharBytes(Utf8Char(v)) == |Utf8Char(v)|
    ensures CharValue(Utf8Char(v)) == v
  {
    var s := Utf8Char(v);
    if v <= 0x7F {
      OneByteValue(s);
    } else if v <= 0x7FF {
      PairDigits(v);
      TwoByteValue(s);
    } else if v <= 0xFFFF {
      TripleDigits(v);
      ThreeByteValue(s);
    } else {
      FourByteValue(s);
      QuadDigits(v);
    }
  }

  lemma {:induction false} PairDigits(v: nat)
    requires v <= 0x7FF
    ensures PairValue(0xC0 + v / 0x40, 0x80 + v % 0x40) == v
  {
    Digits(v);
    assert (0xC0 + v / 0x40) % 0x20 == v / 0x40;
    assert (0x80 + v % 0x40) % 0x40 == v % 0x40;
  }

  lemma {:induction false} TripleDigits(v: nat)
    requires v <= 0xFFFF
    ensures TripleValue(0xE0 + v / 0x1000, 0x80 + v / 0x40 % 0x40, 0x80 + v % 0x40) == v
  {
    Digits(v);
    assert (0xE0 + v / 0x1000) % 0x10 == v / 0x1000;
    assert (0x80 + v / 0x40 % 0x40) % 0x40 == v / 0x40 % 0x40;
    assert (0x80 + v % 0x40) % 0x40 == v % 0x40;
  }

  lemma {:induction false} QuadDigits(v: nat)
    requires 0x1_0000 <= v <= 0x10FFFF
    ensures QuadValue(0xF0 + v / 0x4_0000, 0x80 + v / 0x1000 % 0x40, 0x80 + v / 0x40 % 0x40, 0x80 + v % 0x40) == v
  {
    Digits(v);
    FourthDigit(v);
    assert (0xF0 + v / 0x4_0000) % 8 == v / 0x4_0000;
    assert (0x80 + v / 0x1000 % 0x40) % 0x40 == v / 0x1000 % 0x40;
    assert (0x80 + v / 0x40 % 0x40) % 0x40 == v / 0x40 % 0x40;
    assert (0x80 + v % 0x40) % 0x40 == v % 0x40;
  }

  lemma {:induction false} Utf8StartsWithLeader(vs: seq<nat>)
    requires AreScalars(vs)
    ensures Utf8(vs) == [] || !IsExtension(Utf8(vs)[0])
  {
    if vs != [] {
      Utf8CharDecodes(vs[0]);
    }
  }

  lemma {:induction false} DecodeOneStep(c: seq<byte>)
    requires c != [] && CharBytes(c) == |c|
    ensures Decode(c) == UnitsOf(CharValue(c))
  {
    assert c[|c|..] == [];
    assert Decode([]) == [];
  }

  /** Number of characters above the converter's upper limit. */
  function AboveLimit(vs: seq<nat>): nat {
    if vs == [] then 0 else (if vs[0] > UPPER_LIMIT then 1 else 0) + AboveLimit(vs[1..])
  }

  lemma {:induction false} AboveLimitZero(vs: seq<nat>)
    ensures AboveLimit(vs) == 0 <==> forall i :: 0 <= i < |vs| ==> vs[i] <= UPPER_LIMIT
  {
    if vs != [] {
      AboveLimitZero(vs[1..]);
      if AboveLimit(vs) == 0 {
        assert forall i :: 1 <= i < |vs| ==> vs[i] == vs[1..][i - 1];
      } else if AboveLimit(vs[1..]) != 0 {
        var i :| 0 <= i < |vs[1..]| && vs[1..][i] > UPPER_LIMIT;
        assert vs[i + 1] > UPPER_LIMIT;
      }
    }
  }

  /** A decoded UTF-8 text is its UTF-16 form, one unit shorter for each character above the limit. */
  lemma {:induction false} Utf8Decoded(vs: seq<nat>)
    requires AreScalars(vs)
    ensures |Utf16(vs)| == |Decode(Utf8(vs))| + AboveLimit(vs)
    ensures AboveLimit(vs) == 0 ==> Decode(Utf8(vs)) == Utf16(vs)
  {
    if vs != [] {
      var v := vs[0];
      var c, rest := Utf8Char(v), Utf8(vs[1..]);
      Utf8Decoded(vs[1..]);
      Utf8StartsWithLeader(vs[1..]);
      Utf8CharDecodes(v);
      DecodeConcat(c, rest);
      DecodeOneStep(c);
    }
  }

  /** The converter is faithful to the standards on exactly the texts within its upper limit. */
  lemma {:induction false} Utf8ToUtf16(vs: seq<nat>)
    requires AreScalars(vs)
    ensures Decode(Utf8(vs)) == Utf16(vs) <==> forall i :: 0 <= i < |vs| ==> vs[i] <= UPPER_LIMIT
  {
    Utf8Decoded(vs);
    AboveLimitZero(vs);
  }

  // ----- what each sequence decodes to -----

  /** A plain byte stands for itself. */
  lemma {:induction false} PlainByteDecodes(b: byte, rest: seq<byte>)
    requires b < 0x80
    ensures Decode([b] + rest) == [b] + Decode(rest)
  {
    OneByteValue([b] + rest);
    assert ([b] + rest)[1..] == rest;
  }

  /** An extension byte without a leader is replaced. */
  lemma {:induction false} StrayByteDecodes(b: byte, rest: seq<byte>)
    requires 0x80 <= b < 0xC0
    ensures Decode([b] + rest) == [0xFFFD] + Decode(rest)
  {
    assert ([b] + rest)[1..] == rest;
  }

  /** A leader that is cut short after i extension bytes is replaced, together with those. */
  lemma {:induction false} CutShortDecodes(t: seq<byte>, i: nat)
    requires i < |t| && 0xC0 <= t[0]
    requires i < (if t[0] < 0xE0 then 1 else if t[0] < 0xF0 then 2 else 3)
    requires forall j :: 1 <= j <= i ==> 0x80 <= t[j] < 0xC0
    requires i + 1 < |t| ==> !(0x80 <= t[i + 1] < 0xC0)
    ensures Decode(t) == [0xFFFD] + Decode(t[i + 1..])
  {
    RunIs(t[1..], SeqLength(t[0]) - 1, i);
  }

  lemma {:induction false} RunIs(t: seq<byte>, n: nat, i: nat)
    requires i < n && i <= |t| && (forall j :: 0 <= j < i ==> IsExtension(t[j])) && (i < |t| ==> !IsExtension(t[i]))
    ensures ExtensionRun(t, n) == i
  {
    if i > 0 {
      RunIs(t[1..], n - 1, i - 1);
    }
  }

  lemma {:induction false} TwoBytesDecode(a: byte, b: byte, rest: seq<byte>)
    requires 0xC0 <= a < 0xE0 && 0x80 <= b < 0xC0
    ensures (a - 0xC0) * 0x40 + (b - 0x80) <= 0x7FF
    ensures Decode([a, b] + rest) == [(a - 0xC0) * 0x40 + (b - 0x80)] + Decode(rest)
  {
    TwoByteValue([a, b] + rest);
    StepDecodes([a, b], rest);
    hide CharValue, CharBytes, Decode;
    assert a % 0x20 == a - 0xC0 && b % 0x40 == b - 0x80;
  }

  lemma {:induction false} ThreeBytesDecode(a: byte, b: byte, c: byte, rest: seq<byte>)
    requires 0xE0 <= a < 0xF0 && 0x80 <= b < 0xC0 && 0x80 <= c < 0xC0
    ensures (a - 0xE0) * 0x1000 + (b - 0x80) * 0x40 + (c - 0x80) <= 0xFFFF
    ensures Decode([a, b, c] + rest) == [(a - 0xE0) * 0x1000 + (b - 0x80) * 0x40 + (c - 0x80)] + Decode(rest)
  {
    ThreeByteValue([a, b, c] + rest);
    StepDecodes([a, b, c], rest);
    hide CharValue, CharBytes, Decode;
    assert a % 0x10 == a - 0xE0 && b % 0x40 == b - 0x80 && c % 0x40 == c - 0x80;
  }

  lemma {:induction false} QuadPayload(a: byte, b: byte, c: byte, d: byte)
    requires 0xF0 <= a && 0x80 <= b < 0xC0 && 0x80 <= c < 0xC0 && 0x80 <= d < 0xC0
    ensures QuadValue(a, b, c, d)
            == (a - (if a < 0xF8 then 0xF0 else 0xF8)) * 0x4_0000
               + (b - 0x80) * 0x1000 + (c - 0x80) * 0x40 + (d - 0x80)
  {
    assert a % 8 == a - (if a < 0xF8 then 0xF0 else 0xF8);
    assert b % 0x40 == b - 0x80 && c % 0x40 == c - 0x80 && d % 0x40 == d - 0x80;
  }

  lemma {:induction false} StepDecodes(c: seq<byte>, rest: seq<byte>)
    requires c != [] && CharBytes(c + rest) == |c|
    ensures Decode(c + rest) == UnitsOf(CharValue(c + rest)) + Decode(rest)
  {
    DecodeStep(c + rest);
    assert (c + rest)[|c|..] == rest;
  }

  /** Four bytes give a surrogate pair, a single unit for a code that is too small for one, and the replacement for a
      code above the limit; the leader's fifth bit is not looked at. */
  lemma {:induction false} FourBytesDecode(a: byte, b: byte, c: byte, d: byte, rest: seq<byte>)
    requires 0xF0 <= a && 0x80 <= b < 0xC0 && 0x80 <= c < 0xC0 && 0x80 <= d < 0xC0
    ensures var v := (a - (if a < 0xF8 then 0xF0 else 0xF8)) * 0x4_0000
                     + (b - 0x80) * 0x1000 + (c - 0x80) * 0x40 + (d - 0x80);
            if v > 0x10_FFFD then Decode([a, b, c, d] + rest) == [0xFFFD] + Decode(rest)
            else if v > 0xFFFF then
              Decode([a, b, c, d] + rest)
              == [0xD800 + (v - 0x1_0000) / 0x400, 0xDC00 + (v - 0x1_0000) % 0x400] + Decode(rest)
            else Decode([a, b, c, d] + rest) == [v] + Decode(rest)
  {
    FourByteValue([a, b, c, d] + rest);
    QuadPayload(a, b, c, d);
    hide CharValue, CharBytes, Decode, QuadValue;
    StepDecodes([a, b, c, d], rest);
  }

  // ----- encoding and decoding back -----

  lemma {:induction false} EncodeUnitDecodes(x: u16)
    ensures !IsExtension(EncodeUnit(x)[0])
    ensures CharBytes(EncodeUnit(x)) == |EncodeUnit(x)|
    ensures CharValue(EncodeUnit(x)) == x
  {
    var s := EncodeUnit(x);
    if |s| == 2 {
      PairDigits(x);
      TwoByteValue(s);
    } else if |s| == 3 {
      TripleDigits(x);
      ThreeByteValue(s);
    }
  }

  lemma {:induction false} EncodeStartsWithLeader(u: seq<u16>)
    ensures Encode(u) == [] || !IsExtension(Encode(u)[0])
  {
    if u != [] {
      EncodeUnitDecodes(u[0]);
    }
  }

  /** Any 16-bit text survives encoding and decoding, and no zero byte is emitted. */
  lemma {:induction false} RoundTrip(u: seq<u16>)
    ensures NoZero(Encode(u))
    ensures Decode(Encode(u)) == u
  {
    if u != [] {
      var c, rest := EncodeUnit(u[0]), Encode(u[1..]);
      RoundTrip(u[1..]);
      calc {
        Decode(c + rest);
        { EncodeStartsWithLeader(u[1..]); DecodeConcat(c, rest); }
        Decode(c) + Decode(rest);
        { EncodeUnitDecodes(u[0]); DecodeOneStep(c); }
        [u[0]] + u[1..];
        u;
      }
    }
  }

  lemma {:induction false} NoQuadsInEncoding(u: seq<u16>)
    ensures BadQuads(Encode(u)) == 0
  {
    if u != [] {
      var c, rest := EncodeUnit(u[0]), Encode(u[1..]);
      NoQuadsInEncoding(u[1..]);
      BadQuadsSkip(c + rest, |c|);
      assert (c + rest)[|c|..] == rest;
    }
  }

  /** Both length passes are exact on encoded text. */
  lemma {:induction false} LengthsOfEncoding(u: seq<u16>)
    ensures Length8(Encode(u), 0) == |u|
    ensures Length16(u) == |Encode(u)|
  {
    LengthExcess(Encode(u));
    NoQuadsInEncoding(u);
    RoundTrip(u);
    EncodedLength(u);
  }

  lemma {:induction false} EncodedLength(u: seq<u16>)
    ensures Length16(u) == |Encode(u)| && |u| <= Length16(u) <= 3 * |u|
  {
    if u != [] {
      EncodedLength(u[1..]);
    }
  }

  lemma {:induction false} ContentsOfTerminated(t: seq<byte>)
    requires NoZero(t)
    ensures IsCString(t + [0])
    ensures Contents(t + [0]) == t
  {
    assert (t + [0])[|t|] == 0;
    if t != [] {
      ContentsOfTerminated(t[1..]);
      assert (t + [0])[1..] == t[1..] + [0];
    }
  }

  /** The string that the encoder writes is read back as the same units, into a buffer of exactly
      their number. */
  lemma {:induction false} ThereAndBack(u: seq<u16>)
    ensures IsCString(Encode(u) + [0])
    ensures Decode(Contents(Encode(u) + [0])) == u
    ensures Length8(Contents(Encode(u) + [0]), 0) == |u|
  {
    RoundTrip(u);
    ContentsOfTerminated(Encode(u));
    LengthsOfEncoding(u);
  }

  // ----- canonical form -----

  lemma {:induction false} EncodeUnitCanonical(x: u16, rest: seq<byte>)
    requires IsCanonical(rest)
    ensures IsCanonical(EncodeUnit(x) + rest)
  {
    var c := EncodeUnit(x);
    assert (c + rest)[|c|..] == rest;
  }

  lemma {:induction false} EncodeCanonical(u: seq<u16>)
    ensures IsCanonical(Encode(u))
  {
    if u != [] {
      EncodeCanonical(u[1..]);
      EncodeUnitCanonical(u[0], Encode(u[1..]));
    }
  }

  lemma {:induction false} OneByteValue(t: seq<byte>)
    requires t != [] && t[0] < 0x80
    ensures CharBytes(t) == 1 && CharValue(t) == t[0]
  {
    assert t[1..1] == [];
  }

  lemma {:induction false} EncodePair(a: byte, b: byte)
    requires 0xC2 <= a < 0xE0 || (a == 0xC0 && b == 0x80)
    requires IsExtension(b)
    ensures PairValue(a, b) <= 0xFFFF && EncodeUnit(PairValue(a, b)) == [a, b]
  {
    var x: u16 := PairValue(a, b);
    assert x / 0x40 == a % 0x20 && x % 0x40 == b % 0x40;
  }

  lemma {:induction false} SplitDigits(p: nat, q: nat, r: nat)
    requires q < 0x40 && r < 0x40
    ensures var x := p * 0x1000 + q * 0x40 + r;
      x / 0x1000 == p && x / 0x40 % 0x40 == q && x % 0x40 == r
  {
    var x := p * 0x1000 + q * 0x40 + r;
    assert x / 0x40 == p * 0x40 + q;
  }

  lemma {:induction false} EncodeTriple(a: byte, b: byte, c: byte)
    requires 0xE0 <= a < 0xF0 && IsExtension(b) && IsExtension(c)
    requires a == 0xE0 ==> b >= 0xA0
    ensures TripleValue(a, b, c) <= 0xFFFF && EncodeUnit(TripleValue(a, b, c)) == [a, b, c]
  {
    SplitDigits(a % 0x10, b % 0x40, c % 0x40);
  }

  lemma {:induction false} CanonicalStep(t: seq<byte>)
    requires IsCanonical(t) && t != []
    ensures CharValue(t) <= 0xFFFF
    ensures EncodeUnit(CharValue(t)) == t[..CharBytes(t)]
    ensures IsCanonical(t[CharBytes(t)..])
  {
    if t[0] < 0x80 {
      OneByteValue(t);
    } else if t[0] < 0xE0 {
      TwoByteValue(t);
      EncodePair(t[0], t[1]);
      assert t[..2] == [t[0], t[1]];
    } else {
      ThreeByteValue(t);
      EncodeTriple(t[0], t[1], t[2]);
      assert t[..3] == [t[0], t[1], t[2]];
    }
  }

  lemma {:induction false} CanonicalReencodes(t: seq<byte>)
    requires IsCanonical(t)
    ensures Encode(Decode(t)) == t
  {
    if t != [] {
      var k := CharBytes(t);
      var v := CharValue(t);
      CanonicalStep(t);
      calc {
        Encode(Decode(t));
        { assert Decode(t)[0] == v && Decode(t)[1..] == Decode(t[k..]); }
        EncodeUnit(v) + Encode(Decode(t[k..]));
        { CanonicalReencodes(t[k..]); }
        t[..k] + t[k..];
        t;
      }
    }
  }

  /** Decoding loses nothing on exactly the canonical byte strings. */
  lemma {:induction false} ReencodesIffCanonical(t: seq<byte>)
    ensures Encode(Decode(t)) == t <==> IsCanonical(t)
  {
    EncodeCanonical(Decode(t));
    if IsCanonical(t) {
      CanonicalReencodes(t);
    }
  }

  // ----- termination of the range copy -----

  /** Position of the range copy after k iterations; a NUL is never passed. */
  function PositionAfter(t: seq<byte>, k: nat): (p: nat)
    ensures p <= |t|
  {
    if k == 0 then 0
    else
      var p := PositionAfter(t, k - 1);
      if p < |t| then p + CharBytes(t[p..]) else p
  }

  lemma {:induction false} PositionAdvances(t: seq<byte>, k: nat)
    requires k <= |t|
    ensures PositionAfter(t, k) >= k
  {
    if k > 0 {
      PositionAdvances(t, k - 1);
    }
  }

  /** The copy by length takes whole characters: those that start within the first n bytes, and what it leaves is what
      follows the last of them. */
  lemma {:induction false} RangeIsWholeCharacters(t: seq<byte>, n: nat, k: nat)
    requires n <= |t| && PositionAfter(t, k) >= n && (k == 0 || PositionAfter(t, k - 1) < n)
    ensures DecodeRange(t, n) + Decode(t[PositionAfter(t, k)..]) == Decode(t)
    decreases k
  {
    hide Decode, DecodeRange, CharBytes, PositionAfter;
    FirstPosition(t);
    if k == 0 {
      RangeIsEmpty(t, n);
    } else {
      var b := CharBytes(t);
      var rest := t[b..];
      FirstPosition(rest);
      LaterPosition(t, k);
      if k > 1 {
        LaterPosition(t, k - 1);
        RangeIsWholeCharacters(rest, n - b, k - 1);
      } else {
        RangeIsEmpty(rest, n - b);
      }
      RangeStep(t, n, PositionAfter(rest, k - 1));
    }
  }

  lemma {:induction false} FirstPosition(t: seq<byte>)
    ensures PositionAfter(t, 0) == 0
  {}

  /** Beyond the range nothing is taken. */
  lemma {:induction false} RangeIsEmpty(t: seq<byte>, n: int)
    requires n <= 0
    ensures PositionAfter(t, 0) == 0 && DecodeRange(t, n) + Decode(t[PositionAfter(t, 0)..]) == Decode(t)
  {
    assert t[0..] == t && [] + Decode(t) == Decode(t);
  }

  lemma {:induction false} RangeStep(t: seq<byte>, n: nat, p: nat)
    requires t != [] && n > 0 && CharBytes(t) + p <= |t|
    requires var rest := t[CharBytes(t)..]; DecodeRange(rest, n - CharBytes(t)) + Decode(rest[p..]) == Decode(rest)
    ensures DecodeRange(t, n) + Decode(t[CharBytes(t) + p..]) == Decode(t)
  {
    var b, u := CharBytes(t), UnitsOf(CharValue(t));
    DecodeStep(t);
    RestAgain(t, b, p);
    assert DecodeRange(t, n) == u + DecodeRange(t[b..], n - b);
    hide Decode, DecodeRange, CharBytes, CharValue, UnitsOf;
    Associated(u, DecodeRange(t[b..], n - b), Decode(t[b + p..]));
  }

  lemma {:induction false} RestAgain(t: seq<byte>, b: nat, p: nat)
    requires b + p <= |t|
    ensures t[b..][p..] == t[b + p..]
  {}

  lemma {:induction false} LaterPosition(t: seq<byte>, k: nat)
    requires t != [] && k > 0
    ensures PositionAfter(t, k) == CharBytes(t) + PositionAfter(t[CharBytes(t)..], k - 1)
  {
    hide CharBytes;
    if k == 1 {
      assert t[0..] == t;
    } else {
      LaterPosition(t, k - 1);
      RestAgain(t, CharBytes(t), PositionAfter(t[CharBytes(t)..], k - 2));
    }
  }

  /** The range copy ends exactly when no NUL lies inside the range. */
  lemma {:induction false} RangeCopyTerminates(t: seq<byte>, n: int)
    ensures (exists k :: PositionAfter(t, k) >= n) <==> n <= |t|
  {
    if n <= |t| {
      PositionAdvances(t, |t|);
    }
  }
}
