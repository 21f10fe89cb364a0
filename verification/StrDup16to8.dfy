/** The UTF-16 to modified UTF-8 converters of libcutils, statement by statement.

    `sizeMax` is SIZE_MAX; arithmetic on lengths wraps around modulo
    `sizeMax + 1`. */
module StrDup16to8 {
  import opened Bits
  import opened ModifiedUtf8

  function Min(a: nat, b: nat): nat { if a < b then a else b }

  // ----- the length pass -----

  lemma {:induction false} Length16Snoc(u: seq<u16>, x: u16)
    ensures Length16(u + [x]) == Length16(u) + |EncodeUnit(x)|
  {
    if u == [] {
      assert [] + [x] == [x] && [x][1..] == [];
    } else {
      assert (u + [x])[1..] == u[1..] + [x];
      Length16Snoc(u[1..], x);
    }
  }

  lemma {:induction false} Length16Prefix(u: seq<u16>, i: nat)
    requires i < |u|
    ensures Length16(u[..i + 1]) == Length16(u[..i]) + |EncodeUnit(u[i])|
  {
    assert u[..i + 1] == u[..i] + [u[i]];
    Length16Snoc(u[..i], u[i]);
  }

  lemma {:induction false} Length16Monotone(u: seq<u16>, i: nat)
    requires i <= |u|
    ensures Length16(u[..i]) <= Length16(u)
    decreases |u| - i
  {
    if i == |u| {
      assert u[..i] == u;
    } else {
      Length16Prefix(u, i);
      Length16Monotone(u, i + 1);
    }
  }

  /** Number of bytes that one unit takes. */
  method UnitBytes(uic: u16) returns (k: nat)
    ensures k == |EncodeUnit(uic)|
  {
    if uic > 0x07FF {
      k := 3;
    } else if uic > 0x7F || uic == 0 {
      k := 2;
    } else {
      k := 1;
    }
  }

  /** Sum of two values of type size_t, the second one small. */
  function WrapAdd(a: nat, k: nat, sizeMax: nat): nat {
    if a + k <= sizeMax then a + k else a + k - (sizeMax + 1)
  }

  /** Length in bytes, saturating below SIZE_MAX. */
  method StrNLen16to8(u: seq<u16>, sizeMax: nat) returns (utf8Len: nat)
    requires sizeMax >= 4 && |u| <= sizeMax
    ensures utf8Len == Min(Length16(u), sizeMax - 1)
  {
    utf8Len := 0;
    var len: nat, p: nat := |u|, 0;
    assert u[..|u|] == u && u[..0] == [];
    EncodedLength(u);
    if len < (sizeMax - 1) / 3 {
      while len != 0
        invariant p + len == |u| && utf8Len == Length16(u[..p])
      {
        len := len - 1;
        Length16Prefix(u, p);
        Length16Monotone(u, p + 1);
        var k := UnitBytes(u[p]);
        utf8Len := WrapAdd(utf8Len, k, sizeMax);
        p := p + 1;
      }
      return utf8Len;
    }
    while len != 0
      invariant p + len == |u| && utf8Len == Length16(u[..p]) <= sizeMax
    {
      len := len - 1;
      Length16Prefix(u, p);
      Length16Monotone(u, p + 1);
      var utf8Cur := utf8Len;
      var k := UnitBytes(u[p]);
      utf8Len := WrapAdd(utf8Len, k, sizeMax);
      p := p + 1;
      if utf8Len < utf8Cur {  // overflow
        return sizeMax - 1;
      }
    }
    if utf8Len == sizeMax {
      utf8Len := sizeMax - 1;
    }
  }

  // ----- the copy pass -----

  lemma {:induction false} EncodeSnoc(u: seq<u16>, x: u16)
    ensures Encode(u + [x]) == Encode(u) + EncodeUnit(x)
  {
    if u == [] {
      assert [] + [x] == [x] && [x][1..] == [];
      assert EncodeUnit(x) + [] == EncodeUnit(x);
    } else {
      assert (u + [x])[1..] == u[1..] + [x];
      EncodeSnoc(u[1..], x);
      assert EncodeUnit(u[0]) + (Encode(u[1..]) + EncodeUnit(x)) == (EncodeUnit(u[0]) + Encode(u[1..])) + EncodeUnit(x);
    }
  }

  lemma {:induction false} EncodePrefix(u: seq<u16>, i: nat)
    requires i < |u|
    ensures Encode(u[..i + 1]) == Encode(u[..i]) + EncodeUnit(u[i])
  {
    assert u[..i + 1] == u[..i] + [u[i]];
    EncodeSnoc(u[..i], u[i]);
  }

  lemma {:induction false} PrefixFits(u: seq<u16>, i: nat)
    requires i < |u|
    ensures |Encode(u[..i])| + |EncodeUnit(u[i])| <= Length16(u)
  {
    EncodedLength(u[..i]);
    Length16Prefix(u, i);
    Length16Monotone(u, i + 1);
  }

  lemma {:induction false} ContinuationByte(x: u16)
    ensures Or(And(x, 0x3F), 0x80) == 0x80 + x % 0x40
    ensures Or(And(Shr(x, 6), 0x3F), 0x80) == 0x80 + x / 0x40 % 0x40
  {
    LowSixBits(x);
    ShrIsDiv(x, 6);
    assert Pow2(6) == 0x40;
    LowSixBits(x / 0x40);
  }

  lemma {:induction false} LowSixBits(x: nat)
    ensures Or(And(x, 0x3F), 0x80) == 0x80 + x % 0x40
  {
    assert Pow2(6) == 0x40;
    AndLowMask(x, 6);
    ShrIsDiv(x, 6);
    OrDisjoint(2, x % 0x40, 6);
    ShlIsTimes(2, 6);
  }

  lemma {:induction false} LeaderByteOfThree(x: u16)
    ensures Or(Shr(x, 12), 0xE0) == 0xE0 + x / 0x1000
  {
    assert Pow2(4) == 0x10;
    Pow2Add(4, 4);
    Pow2Add(8, 4);
    ShrIsDiv(x, 12);
    OrDisjoint(14, x / 0x1000, 4);
    ShlIsTimes(14, 4);
  }

  lemma {:induction false} LeaderByteOfTwo(x: u16)
    requires x <= 0x7FF
    ensures Or(Shr(x, 6), 0xC0) == 0xC0 + x / 0x40
  {
    assert Pow2(6) == 0x40 && Pow2(5) == 0x20;
    ShrIsDiv(x, 6);
    OrDisjoint(6, x / 0x40, 5);
    ShlIsTimes(6, 5);
  }

  method WriteUnit(dst: array<byte>, d: nat, uic: u16) returns (d': nat)
    requires d + |EncodeUnit(uic)| <= dst.Length
    modifies dst
    ensures d' == d + |EncodeUnit(uic)|
    ensures dst[..] == old(dst[..d]) + EncodeUnit(uic) + old(dst[d'..])
  {
    hide And, Or, Shr;
    ContinuationByte(uic);
    LeaderByteOfThree(uic);
    if uic > 0x07FF {
      dst[d] := Or(Shr(uic, 12), 0xE0);
      dst[d + 1] := Or(And(Shr(uic, 6), 0x3F), 0x80);
      dst[d + 2] := Or(And(uic, 0x3F), 0x80);
      d' := d + 3;
    } else if uic > 0x7F || uic == 0 {
      LeaderByteOfTwo(uic);
      dst[d] := Or(Shr(uic, 6), 0xC0);
      dst[d + 1] := Or(And(uic, 0x3F), 0x80);
      d' := d + 2;
    } else {
      dst[d] := uic;  // never zero here, so the loop's break is not reached
      d' := d + 1;
    }
  }

  lemma {:induction false} SpliceBytes(done: seq<byte>, e: seq<byte>, was: seq<byte>)
    requires |done| + |e| <= |was|
    ensures var a := done + was[|done|..];
      a[..|done|] + e + a[|done| + |e|..] == (done + e) + was[|done + e|..]
  {}

  lemma {:induction false} Terminated(done: seq<byte>, was: seq<byte>)
    requires |done| < |was|
    ensures (done + was[|done|..])[|done| := 0] == done + [0] + was[|done| + 1..]
  {}

  /** The copy loop. */
  method CopyUnits(dst: array<byte>, u: seq<u16>) returns (d: nat)
    requires Length16(u) < dst.Length
    modifies dst
    ensures d == |Encode(u)| == Length16(u)
    ensures dst[..] == Encode(u) + old(dst[d..])
  {
    hide *;
    ghost var was := dst[..];
    ghost var done: seq<byte> := Encode(u[..0]);
    EncodedLength(u[..0]);
    EncodedLength(u);
    assert u[..0] == [];
    var len: nat, p: nat := |u|, 0;
    d := 0;
    while len != 0
      invariant p + len == |u|
      invariant done == Encode(u[..p])
      invariant d == |done| <= Length16(u)
      invariant dst[..] == done + was[d..]
    {
      len := len - 1;
      PrefixFits(u, p);
      EncodePrefix(u, p);
      SpliceBytes(done, EncodeUnit(u[p]), was);
      done := done + EncodeUnit(u[p]);
      d := WriteUnit(dst, d, u[p]);
      p := p + 1;
    }
    assert u[..|u|] == u;
  }

  /** Copies the units and terminates the string. */
  method StrNCpy16to8(dst: array<byte>, u: seq<u16>)
    requires Length16(u) < dst.Length
    modifies dst
    ensures |Encode(u)| == Length16(u)
    ensures dst[..] == Encode(u) + [0] + old(dst[Length16(u) + 1..])
  {
    hide *;
    ghost var was := dst[..];
    var utf8cur := CopyUnits(dst, u);
    ghost var unterminated := dst[..];
    dst[utf8cur] := 0;
    assert dst[..] == unterminated[utf8cur := 0];
    Terminated(Encode(u), was);
  }

  /** Sizes a buffer with the length pass and fills it; `mallocOk` is the answer of malloc. */
  method StrNDup16to8(s: Option<seq<u16>>, sizeMax: nat, mallocOk: bool) returns (ret: array?<byte>)
    requires sizeMax >= 4 && (s.Some? ==> |s.value| <= sizeMax)
    ensures ret == null <==> s.None? || Length16(s.value) >= sizeMax - 1 || !mallocOk
    ensures ret != null ==> fresh(ret) && ret[..] == Encode(s.value) + [0]
  {
    hide Length16, Encode;
    if s.None? {
      return null;
    }
    var len := StrNLen16to8(s.value, sizeMax);
    if len >= sizeMax - 1 {
      return null;
    }
    if !mallocOk {
      return null;
    }
    ret := new byte[len + 1];
    StrNCpy16to8(ret, s.value);
  }
}
