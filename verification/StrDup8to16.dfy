/** The modified UTF-8 to UTF-16 converters of libcutils, statement by statement.

    Pointers into a string are positions in the memory that starts at it; the
    destination is an array.  `sizeMax` is SIZE_MAX. */
module StrDup8to16 {
  import opened Bits
  import opened ModifiedUtf8

  const LEADER_MASK: seq<byte> := [0xFF, 0x1F, 0x0F, 0x07]

  /** The table lookup that gives a sequence length from the top four bits of a leader. */
  function SeqLengthMacro(ch: byte): nat {
    And(Shr(0xE500_0000, And(Shr(ch, 3), 0x1E)), 3) + 1
  }

  // ----- the bit expressions -----

  lemma {:induction false} TopTwoBits(b: byte)
    ensures And(b, 0xC0) == b / 0x40 * 0x40
  {
    var h: nat := b / 0x40;
    calc {
      And(b, 0xC0);
      { assert Shl(3, 6) == 0xC0; }
      And(b, Shl(3, 6));
      { AndShifted(b, 3, 6); }
      Shl(And(Shr(b, 6), 3), 6);
      { ShrIsDiv(b, 6); assert Pow2(6) == 0x40; }
      Shl(And(h, 3), 6);
      { AndLowTwo(h); }
      Shl(h, 6);
      { ShlIsTimes(h, 6); assert Pow2(6) == 0x40; }
      h * 0x40;
    }
  }

  lemma {:induction false} ExtensionTest(b: byte)
    ensures And(b, 0xC0) == 0x80 <==> IsExtension(b)
  {
    TopTwoBits(b);
    ExtensionRange(b, And(b, 0xC0));
  }

  lemma {:induction false} ExtensionRange(b: byte, top: nat)
    requires top == b / 0x40 * 0x40
    ensures top == 0x80 <==> IsExtension(b)
  {}

  lemma {:induction false} TopNibble(ch: byte)
    ensures And(Shr(ch, 3), 0x1E) == ch / 0x10 * 2
  {
    var h: nat := ch / 0x10;
    assert Shr(ch, 3) / 2 == h;
    assert Pow2(4) == 0x10;
    hide And, Shr, Pow2;
    AndDouble(Shr(ch, 3), 0x0F);
    AndLowMask(h, 4);
    ShrIsDiv(h, 4);
  }

  lemma {:induction false} TableIsShifted()
    ensures Shl(0xE5, 24) == 0xE500_0000
  {
    assert Pow2(8) == 0x100;
    Pow2Add(8, 8);
    Pow2Add(16, 8);
    ShlIsTimes(0xE5, 24);
  }

  lemma {:induction false} ShiftedTable(h: nat)
    requires h < 0x10
    ensures Shr(0xE500_0000, 2 * h) % 4 == if h < 12 then 0 else if h < 14 then 1 else if h < 15 then 2 else 3
  {
    TableIsShifted();
    if h < 12 {
      ShrOfShl(0xE5, 24 - 2 * h, 2 * h);
      ShlTwice(0xE5, 22 - 2 * h);
    } else {
      ShrOfShl(0xE5, 0, 24);
      ShrAdd(0xE500_0000, 24, 2 * h - 24);
      LastShifts(h - 12);
    }
  }

  lemma {:induction false} ShlTwice(x: nat, k: nat)
    ensures Shl(x, k + 2) % 4 == 0
  {
    assert Shl(x, k + 2) == 2 * Shl(x, k + 1);
  }

  lemma {:induction false} LastShifts(i: nat)
    requires i < 4
    ensures Shr(0xE5, 2 * i) % 4 == if i < 2 then 1 else if i == 2 then 2 else 3
  {
    if i == 0 {
    } else if i == 1 {
      assert Shr(0xE5, 2) == 0x39;
    } else if i == 2 {
      assert Shr(0xE5, 4) == 0x0E;
    } else {
      assert Shr(0xE5, 6) == 0x03;
    }
  }

  lemma {:induction false} SeqLengthIsTable(ch: byte)
    ensures SeqLengthMacro(ch) == SeqLength(ch)
  {
    hide And, Shr;
    TopNibble(ch);
    AndLowTwo(Shr(0xE500_0000, ch / 0x10 * 2));
    ShiftedTable(ch / 0x10);
  }

  lemma {:induction false} LowBits(b: byte, k: nat, m: nat)
    requires m == Pow2(k)
    ensures And(b, m - 1) == b % m
  {
    AndLowMask(b, k);
    ShrIsDiv(b, k);
  }

  lemma {:induction false} LeaderMaskKeeps(b: byte)
    ensures And(b, LEADER_MASK[SeqLength(b) - 1]) == LeaderBits(b)
  {
    hide And;
    match SeqLength(b)
    case 1 => LowBits(b, 8, 0x100);
    case 2 => LowBits(b, 5, 0x20);
    case 3 => LowBits(b, 4, 0x10);
    case _ => LowBits(b, 3, 0x08);
  }

  /** The shift-and-mask macro appends six bits. */
  lemma {:induction false} ShiftAndMask(v: nat, b: byte)
    ensures Or(Shl(v, 6), And(0x3F, b)) == v * 0x40 + b % 0x40
  {
    assert Pow2(6) == 0x40;
    AndCommutes(0x3F, b);
    AndLowMask(b, 6);
    ShrIsDiv(b, 6);
    OrDisjoint(v, b % 0x40, 6);
    ShlIsTimes(v, 6);
  }

  lemma {:induction false} TwoToTen()
    ensures Pow2(10) == 0x400
  {
    assert Pow2(5) == 0x20;
    Pow2Add(5, 5);
  }

  lemma {:induction false} SurrogateHigh(w: nat)
    requires w < 0x10_0000
    ensures Or(0xD800, Shr(w, 10)) == 0xD800 + w / 0x400
  {
    TwoToTen();
    ShrIsDiv(w, 10);
    ShlIsTimes(54, 10);
    OrDisjoint(54, w / 0x400, 10);
  }

  lemma {:induction false} SurrogateLow(w: nat)
    requires w < 0x10_0000
    ensures Or(0xDC00, And(w, 0x3FF)) == 0xDC00 + w % 0x400
  {
    TwoToTen();
    ShrIsDiv(w, 10);
    AndLowMask(w, 10);
    ShlIsTimes(55, 10);
    OrDisjoint(55, w % 0x400, 10);
  }

  // ----- one decoding step -----

  lemma {:induction false} AppendLast(v: nat, t: seq<byte>, b: byte)
    ensures AppendBits(v, t + [b]) == AppendBits(v, t) * 0x40 + b % 0x40
    decreases |t|
  {
    if t == [] {
      assert ([] + [b])[1..] == [];
    } else {
      assert (t + [b])[1..] == t[1..] + [b];
      AppendLast(v * 0x40 + t[0] % 0x40, t[1..], b);
    }
  }

  /** The first i bytes are a leader and its extension bytes, as far as its length allows. */
  predicate IsPartial(t: seq<byte>, i: nat) {
    1 <= i <= |t| && !IsExtension(t[0]) && i <= SeqLength(t[0])
    && forall j :: 1 <= j < i ==> IsExtension(t[j])
  }

  lemma {:induction false} RunStops(t: seq<byte>, n: nat, k: nat)
    requires k <= |t| && k <= n && forall i :: 0 <= i < k ==> IsExtension(t[i])
    requires k == n || k == |t| || !IsExtension(t[k])
    ensures ExtensionRun(t, n) == k
  {
    if k > 0 {
      RunStops(t[1..], n - 1, k - 1);
    }
  }

  /** A sequence that ends early yields the replacement character and its own length. */
  lemma {:induction false} CutShort(t: seq<byte>, i: nat)
    requires IsPartial(t, i) && i < SeqLength(t[0])
    requires i == |t| || !IsExtension(t[i])
    ensures CharBytes(t) == i && CharValue(t) == REPLACEMENT
  {
    RunStops(t[1..], SeqLength(t[0]) - 1, i - 1);
  }

  lemma {:induction false} Complete(t: seq<byte>)
    requires t != [] && IsPartial(t, SeqLength(t[0]))
    ensures CharBytes(t) == SeqLength(t[0])
    ensures CharValue(t) == AppendBits(LeaderBits(t[0]), t[1..SeqLength(t[0])])
  {
    RunStops(t[1..], SeqLength(t[0]) - 1, SeqLength(t[0]) - 1);
  }

  lemma {:induction false} AppendNext(t: seq<byte>, i: nat)
    requires 1 <= i < |t|
    ensures AppendBits(LeaderBits(t[0]), t[1..i + 1])
         == AppendBits(LeaderBits(t[0]), t[1..i]) * 0x40 + t[i] % 0x40
  {
    AppendLast(LeaderBits(t[0]), t[1..i], t[i]);
    assert t[1..i + 1] == t[1..i] + [t[i]];
  }

  /** The memory from position p on holds the rest of the string and its terminator. */
  lemma {:induction false} RestOfString(s: seq<byte>, p: nat)
    requires IsCString(s) && p <= |Contents(s)|
    ensures forall j :: 0 <= j < |Contents(s)| - p ==> s[p + j] == Contents(s)[p..][j] != 0
    ensures s[|Contents(s)|] == 0
  {}

  // The macros and mask expressions of the decoder.

  method IsExtensionByte(b: byte) returns (r: bool)
    ensures r == IsExtension(b)
  {
    ExtensionTest(b);
    r := And(b, 0xC0) == 0x80;
  }

  method Utf8SeqLength(ch: byte) returns (n: nat)
    ensures n == SeqLength(ch)
  {
    SeqLengthIsTable(ch);
    n := SeqLengthMacro(ch);
  }

  method MaskLeader(b: byte, seqLen: nat) returns (v: nat)
    requires seqLen == SeqLength(b)
    ensures v == LeaderBits(b)
  {
    LeaderMaskKeeps(b);
    v := And(b, LEADER_MASK[seqLen - 1]);
  }

  method Utf8ShiftAndMask(v: nat, b: byte) returns (w: nat)
    ensures w == v * 0x40 + b % 0x40
  {
    ShiftAndMask(v, b);
    w := Or(Shl(v, 6), And(0x3F, b));
  }

  method SurrogatePair(v: nat) returns (high: u16, low: u16)
    requires 0x1_0000 <= v <= UPPER_LIMIT
    ensures [high, low] == UnitsOf(v)
  {
    hide Or, And, Shr;
    SurrogateHigh(v - 0x1_0000);
    SurrogateLow(v - 0x1_0000);
    high := Or(0xD800, Shr(v - 0x1_0000, 10));
    low := Or(0xDC00, And(v - 0x1_0000, 0x3FF));
  }

  /** Retrieves the next code and the position after it; a NUL is not passed. */
  method GetUtf32FromUtf8(s: seq<byte>, p: nat) returns (ret: nat, q: nat)
    requires IsCString(s) && p <= |Contents(s)|
    ensures p == |Contents(s)| ==> ret == 0 && q == p
    ensures p < |Contents(s)| ==>
      ret == CharValue(Contents(s)[p..]) && q == p + CharBytes(Contents(s)[p..])
  {
    ghost var t := Contents(s)[p..];
    RestOfString(s, p);
    var stray := IsExtensionByte(s[p]);
    if stray {
      return REPLACEMENT, p + 1;
    }
    var seqLen := Utf8SeqLength(s[p]);
    ret := MaskLeader(s[p], seqLen);
    if s[p] == 0 {
      return ret, p;
    }
    q := p + 1;
    var i := 1;
    assert s[p] == t[0] && t[1..1] == [];
    while i < seqLen
      invariant IsPartial(t, i) && i <= seqLen && q == p + i
      invariant ret == AppendBits(LeaderBits(t[0]), t[1..i])
    {
      assert i < |t| ==> s[q] == t[i];
      var extension := IsExtensionByte(s[q]);
      if s[q] == 0 {
        CutShort(t, i);
        return REPLACEMENT, q;
      }
      if !extension {
        CutShort(t, i);
        return REPLACEMENT, q;
      }
      AppendNext(t, i);
      ret := Utf8ShiftAndMask(ret, s[q]);
      i, q := i + 1, q + 1;
    }
    Complete(t);
  }

  // ----- the length pass -----

  /** Number of units, modulo SIZE_MAX + 1. */
  method StrLen8to16(s: seq<byte>, sizeMax: nat) returns (len: nat)
    requires IsCString(s) && sizeMax > 0
    ensures len == Length8(Contents(s), 0) % (sizeMax + 1)
  {
    ghost var t := Contents(s);
    var p: nat, expected: int := 0, 0;
    len := 0;
    ghost var total: nat := 0;
    assert t[0..] == t;
    while s[p] != 0
      invariant p <= |t| && (p < |t| ==> s[p] == t[p])
      invariant total + Length8(t[p..], expected) == Length8(t, 0)
      invariant len == total % (sizeMax + 1)
      decreases |t| - p
    {
      assert t[p..][1..] == t[p + 1..];
      var extension := IsExtensionByte(s[p]);
      if extension {
        expected := expected - 1;
        if expected < 0 {
          len, total := CountOne(len, total, sizeMax);
        }
      } else {
        len, total := CountOne(len, total, sizeMax);
        var n := Utf8SeqLength(s[p]);
        expected := n - 1;
        if expected == 3 {
          len, total := CountOne(len, total, sizeMax);
        }
      }
      p := p + 1;
    }
    assert t[|t|..] == [];
  }

  /** Increments a counter of type size_t; `total` is the count without wrap-around. */
  method CountOne(len: nat, ghost total: nat, sizeMax: nat) returns (len': nat, ghost total': nat)
    requires len == total % (sizeMax + 1) && sizeMax > 0
    ensures total' == total + 1 && len' == total' % (sizeMax + 1)
  {
    len' := if len == sizeMax then 0 else len + 1;
    total' := total + 1;
    ghost var m := sizeMax + 1;
    ghost var q: nat := total / m;
    if len == sizeMax {
      assert total == q * m + len;
      DivModUnique(total', m, q + 1, 0);
    } else {
      DivModUnique(total', m, q, len + 1);
    }
  }

  // ----- the copy passes -----

  /** Writes the units of one code at position d. */
  method WriteUnits(dst: array<u16>, d: nat, v: nat) returns (d': nat)
    requires d + |UnitsOf(v)| <= dst.Length
    modifies dst
    ensures d' == d + |UnitsOf(v)|
    ensures dst[..] == old(dst[..d]) + UnitsOf(v) + old(dst[d + |UnitsOf(v)|..])
  {
    if v <= 0xFFFF {
      dst[d] := v;
      d' := d + 1;
    } else if v <= UPPER_LIMIT {
      var high, low := SurrogatePair(v);
      dst[d], dst[d + 1] := high, low;
      d' := d + 2;
    } else {
      dst[d] := REPLACEMENT;
      d' := d + 1;
    }
  }

  lemma {:induction false} WholeRange(t: seq<byte>, n: int)
    requires n >= |t|
    ensures DecodeRange(t, n) == Decode(t)
    decreases |t|
  {
    if t != [] {
      WholeRange(t[CharBytes(t)..], n - CharBytes(t));
    }
  }

  lemma {:induction false} EmptyRange(t: seq<byte>, n: int)
    requires n <= 0 || t == []
    ensures DecodeRange(t, n) == []
  {}

  /** The body that both copy loops share: decodes at p, writes at d, advances both.
      `t` is what is left of the string, of which the loop copies `n` bytes. */
  method CopyCharacter(dst: array<u16>, d: nat, s: seq<byte>, p: nat, ghost t: seq<byte>, ghost n: int)
    returns (d': nat, q: nat, ghost u: seq<u16>, ghost t': seq<byte>, ghost n': int)
    requires IsCString(s) && p <= |Contents(s)| && t == Contents(s)[p..]
    requires t != [] && n > 0 && d + |DecodeRange(t, n)| <= dst.Length
    modifies dst
    ensures p < q <= |Contents(s)| && n' == n - (q - p) && t' == Contents(s)[q..]
    ensures DecodeRange(t, n) == u + DecodeRange(t', n')
    ensures d' == d + |u| <= dst.Length
    ensures dst[..] == old(dst[..d]) + u + old(dst[d + |u|..])
  {
    hide CharBytes, CharValue, UnitsOf, Contents;
    var v;
    v, q := GetUtf32FromUtf8(s, p);
    u, t', n' := UnitsOf(v), t[q - p..], n - (q - p);
    d' := WriteUnits(dst, d, v);
  }

  lemma {:induction false} Splice(done: seq<u16>, u: seq<u16>, rest: seq<u16>, was: seq<u16>)
    requires |done| + |u| <= |was|
    ensures var a := done + was[|done|..];
      a[..|done|] + u + a[|done| + |u|..] == (done + u) + was[|done + u|..]
    ensures done + (u + rest) == (done + u) + rest
  {}

  /** Copies a whole string. */
  method StrCpy8to16(dst: array<u16>, s: seq<byte>) returns (outLen: nat)
    requires IsCString(s) && |Decode(Contents(s))| <= dst.Length
    modifies dst
    ensures outLen == |Decode(Contents(s))|
    ensures dst[..] == Decode(Contents(s)) + old(dst[outLen..])
  {
    hide Decode, DecodeRange, Contents;
    ghost var t, was := Contents(s), dst[..];
    ghost var n: int :| n >= |t|;  // any range that holds the whole string
    WholeRange(t, n);
    ghost var all, done := DecodeRange(t, n), [];
    var p, d := 0, 0;
    while s[p] != 0
      invariant p <= |Contents(s)| && t == Contents(s)[p..] && n >= |t|
      invariant done + DecodeRange(t, n) == all
      invariant d == |done| <= |all| && dst[..] == done + was[d..]
      decreases |t|
    {
      ghost var u;
      d, p, u, t, n := CopyCharacter(dst, d, s, p, t, n);
      Splice(done, u, DecodeRange(t, n), was);
      done := done + u;
    }
    EmptyRange(t, n);
    assert done + [] == done;
    outLen := d;
  }

  /** Copies the characters that start within the first `length` bytes. */
  method StrCpyLen8to16(dst: array<u16>, s: seq<byte>, length: int) returns (outLen: nat)
    requires IsCString(s) && length <= |Contents(s)|
    requires |DecodeRange(Contents(s), length)| <= dst.Length
    modifies dst
    ensures outLen == |DecodeRange(Contents(s), length)|
    ensures dst[..] == DecodeRange(Contents(s), length) + old(dst[outLen..])
  {
    hide DecodeRange, Contents;
    ghost var t, n, was := Contents(s), length, dst[..];
    ghost var all, done := DecodeRange(t, n), [];
    var p, d := 0, 0;
    while p < length
      invariant p <= |Contents(s)| && t == Contents(s)[p..] && n == length - p
      invariant done + DecodeRange(t, n) == all
      invariant d == |done| <= |all| && dst[..] == done + was[d..]
      decreases |t|
    {
      ghost var u;
      d, p, u, t, n := CopyCharacter(dst, d, s, p, t, n);
      Splice(done, u, DecodeRange(t, n), was);
      done := done + u;
    }
    EmptyRange(t, n);
    assert done + [] == done;
    outLen := d;
  }

  /** Sizes a buffer with the length pass and fills it with the copy pass. */
  method StrDup8to16(s: Option<seq<byte>>, sizeMax: nat) returns (ret: array?<u16>, outLen: nat)
    requires s.Some? ==> IsCString(s.value) && 2 * |Contents(s.value)| <= sizeMax
    requires sizeMax > 0
    ensures ret == null <==> s.None? || (var n := Length8(Contents(s.value), 0); n != 0 && sizeMax / n < 2)
    ensures ret != null ==> fresh(ret) && ret.Length == Length8(Contents(s.value), 0)
    ensures ret != null ==> outLen == ret.Length - BadQuads(Contents(s.value))
    ensures ret != null ==> ret[..outLen] == Decode(Contents(s.value))
  {
    outLen := 0;
    if s.None? {
      return null, outLen;
    }
    ghost var t := Contents(s.value);
    LengthBound(t, 0);
    LengthExcess(t);
    var len := StrLen8to16(s.value, sizeMax);
    assert len == Length8(t, 0) by { SmallMod(Length8(t, 0), sizeMax + 1); }
    if len != 0 && sizeMax / len < 2 {
      return null, outLen;
    }
    ret := new u16[len];
    outLen := StrCpy8to16(ret, s.value);
    assert ret[..outLen] == Decode(t);
  }
}
