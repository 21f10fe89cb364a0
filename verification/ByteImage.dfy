/** What the image tools have in common: little-endian fields, pages, a zeroed
    buffer that is filled from the front, and files. */
module ByteImage {
  import opened Bits

  // ----- little-endian fields -----

  function Le32(v: nat): (s: seq<byte>)
    ensures |s| == 4
  {
    [v % 0x100, v / 0x100 % 0x100, v / 0x1_0000 % 0x100, v / 0x100_0000 % 0x100]
  }

  function FromLe32(s: seq<byte>): u32
    requires |s| == 4
  {
    var b0: nat := s[0];
    var b1: nat := s[1];
    var b2: nat := s[2];
    var b3: nat := s[3];
    b0 + 0x100 * b1 + 0x1_0000 * b2 + 0x100_0000 * b3
  }

  lemma {:induction false} Le32RoundTrip(v: nat)
    ensures FromLe32(Le32(v)) == v % TWO_32
  {
    var a := v / 0x100;
    var b := v / 0x1_0000;
    var c := v / 0x100_0000;
    assert a / 0x100 == b && b / 0x100 == c;
    assert v == 0x100 * a + v % 0x100;
    assert a == 0x100 * b + a % 0x100;
    assert b == 0x100 * c + b % 0x100;
    assert c == 0x100 * (c / 0x100) + c % 0x100;
  }

  /** The field at an offset. */
  function FieldAt(s: seq<byte>, at: nat): u32
    requires at + 4 <= |s|
  {
    FromLe32(s[at..at + 4])
  }

  /** The low byte comes first. */
  lemma {:induction false} FieldBytes(s: seq<byte>, at: nat)
    requires at + 4 <= |s|
    ensures var b0: nat, b1: nat, b2: nat, b3: nat := s[at], s[at + 1], s[at + 2], s[at + 3];
            FieldAt(s, at) == b0 + 0x100 * b1 + 0x1_0000 * b2 + 0x100_0000 * b3
  {
    var f := s[at..at + 4];
    assert f[0] == s[at] && f[1] == s[at + 1] && f[2] == s[at + 2] && f[3] == s[at + 3];
  }

  function Zeros(n: nat): (s: seq<byte>)
    ensures |s| == n && forall k :: 0 <= k < n ==> s[k] == 0
  {
    seq(n, _ => 0)
  }

  // ----- pages -----

  /** The least multiple of the page size that is at least x. */
  function RoundUp(x: nat, page: nat): nat
    requires page > 0
  {
    (x + page - 1) / page * page
  }

  lemma {:induction false} NextMultiple(q: nat, d: nat, page: nat)
    requires q < d
    ensures q * page + page <= d * page
  {
    MulMonotone(q + 1, d, page);
    assert (q + 1) * page == q * page + page;
  }

  lemma {:induction false} RoundUpIsLeast(x: nat, page: nat)
    requires page > 0
    ensures x <= RoundUp(x, page) < x + page
    ensures RoundUp(x, page) % page == 0
    ensures forall q: nat :: x <= q * page ==> RoundUp(x, page) <= q * page
  {
    var y := x + page - 1;
    var d := y / page;
    assert y == page * d + y % page;
    DivModUnique(d * page, page, d, 0);
    forall q: nat | x <= q * page
      ensures RoundUp(x, page) <= q * page
    {
      if q < d {
        NextMultiple(q, d, page);
        assert false;
      }
      MulMonotone(d, q, page);
    }
  }

  lemma {:induction false} RoundUpMonotone(x: nat, y: nat, page: nat)
    requires page > 0 && x <= y
    ensures RoundUp(x, page) <= RoundUp(y, page)
  {
    RoundUpIsLeast(x, page);
    RoundUpIsLeast(y, page);
    assert y <= (y + page - 1) / page * page;
  }

  /** A multiple of the page that is less than a page above x is where x rounds up to. */
  lemma {:induction false} RoundUpUnique(x: nat, page: nat, q: nat)
    requires page > 0 && x <= q * page < x + page
    ensures RoundUp(x, page) == q * page
  {
    RoundUpIsLeast(x, page);
    var d := (x + page - 1) / page;
    if d < q {
      NextMultiple(d, q, page);
    } else if q < d {
      NextMultiple(q, d, page);
    }
  }

  lemma {:induction false} SumOfMultiples(a: nat, b: nat, page: nat)
    requires page > 0 && a % page == 0 && b % page == 0
    ensures (a + b) % page == 0
  {
    assert a == page * (a / page) && b == page * (b / page);
    var q := a / page + b / page;
    assert a + b == q * page;
    DivModUnique(a + b, page, q, 0);
  }

  /** `(x + mask) & ~mask` on 32-bit unsigned values. */
  function MaskUp(x: nat, page: nat): nat
    requires 0 < page <= TWO_32
  {
    And((x + (page - 1)) % TWO_32, TWO_32 - page)
  }

  /** It rounds up, for a page size that is a power of two, unless the rounded value needs more than 32 bits. */
  lemma {:induction false} MaskUpRoundsUp(x: nat, k: nat)
    requires k <= 32 && RoundUp(x, Pow2(k)) < TWO_32
    ensures Pow2(k) <= TWO_32 && MaskUp(x, Pow2(k)) == RoundUp(x, Pow2(k))
  {
    hide And, Pow2;
    var page := Pow2(k);
    var y := x + page - 1;
    AndNotLowMask(0, k);
    RoundUpIsLeast(x, page);
    PagesIn32(k, y / page);
    DropRemainder(y, page);
    SmallMod(y, TWO_32);
    AndNotLowMask(y, k);
  }

  lemma {:induction false} DropRemainder(y: nat, page: nat)
    requires page > 0
    ensures y - y % page == y / page * page
  {}

  /** The last page below 2^32 ends there. */
  lemma {:induction false} PagesIn32(k: nat, d: nat)
    requires k <= 32 && d * Pow2(k) < TWO_32
    ensures d * Pow2(k) + Pow2(k) <= TWO_32
  {
    Pow2Of32();
    Pow2Add(32 - k, k);
    if d + 1 > Pow2(32 - k) {
      MulMonotone(Pow2(32 - k), d, Pow2(k));
      assert false;
    }
    MulMonotone(d + 1, Pow2(32 - k), Pow2(k));
    assert (d + 1) * Pow2(k) == d * Pow2(k) + Pow2(k);
  }

  // ----- a zeroed buffer, filled from the front -----

  ghost predicate IsFilled(a: array<byte>, done: seq<byte>)
    reads a
  {
    |done| <= a.Length && a[..|done|] == done && forall k :: |done| <= k < a.Length ==> a[k] == 0
  }

  lemma {:induction false} SkipZeros(a: array<byte>, done: seq<byte>, n: nat)
    requires IsFilled(a, done) && |done| + n <= a.Length
    ensures IsFilled(a, done + Zeros(n))
  {
    assert a[..|done| + n] == done + Zeros(n);
  }

  method NewBuffer(n: nat) returns (a: array<byte>)
    ensures fresh(a) && a.Length == n && IsFilled(a, [])
  {
    a := new byte[n](_ => 0);
  }

  method Put(a: array<byte>, at: nat, data: seq<byte>, ghost done: seq<byte>)
    requires IsFilled(a, done) && at == |done| && at + |data| <= a.Length
    modifies a
    ensures IsFilled(a, done + data)
  {
    for i := 0 to |data|
      invariant IsFilled(a, done + data[..i])
    {
      assert IsFilled(a, done + data[..i]);
      ghost var was := a[..at + i];
      a[at + i] := data[i];
      assert a[..at + i + 1] == was + [data[i]];
      assert done + data[..i + 1] == (done + data[..i]) + [data[i]];
    }
    assert data[..|data|] == data;
  }

  // ----- files -----

  /** A file being read. */
  class InputFile {
    const data: seq<byte>
    var pos: nat

    constructor (data: seq<byte>)
      ensures this.data == data && pos == 0
    {
      this.data := data;
      pos := 0;
    }

    method Seek(to: nat)
      modifies this
      ensures pos == to
    {
      pos := to;
    }

    /** Reads up to n bytes: fewer only at the end of the file. */
    method Read(n: nat) returns (r: seq<byte>)
      modifies this
      ensures r == Slice(data, old(pos), n) && pos == old(pos) + |r|
    {
      r := Slice(data, pos, n);
      pos := pos + |r|;
    }
  }

  /** The n bytes from an offset, or what there is of them. */
  function Slice(data: seq<byte>, at: nat, n: nat): (r: seq<byte>)
    ensures |r| <= n
    ensures at + n <= |data| ==> r == data[at..at + n]
  {
    if at >= |data| then []
    else if at + n <= |data| then data[at..at + n]
    else data[at..]
  }

  lemma {:induction false} SliceOfSlice<T>(s: seq<T>, from: nat, to: nat, a: nat, b: nat)
    requires from <= to <= |s| && a <= b <= to - from
    ensures s[from..to][a..b] == s[from + a..from + b]
  {
    var l, r := s[from..to][a..b], s[from + a..from + b];
    assert forall k :: 0 <= k < |l| ==> l[k] == s[from..to][a + k];
    assert forall k :: 0 <= k < |l| ==> l[k] == r[k];
  }

  /** What fits. */
  function Cut(s: seq<byte>, room: nat): seq<byte> { if |s| <= room then s else s[..room] }

  lemma {:induction false} CutStays(s: seq<byte>, t: seq<byte>, room: nat)
    requires |s| > room
    ensures Cut(s + t, room) == Cut(s, room)
  {}

  /** A file on a disk with so much room. */
  class OutputFile {
    const room: nat
    var data: seq<byte>
    var removed: bool

    constructor (room: nat)
      ensures data == [] && !removed && this.room == room
    {
      data, removed, this.room := [], false, room;
    }

    /** A write that does not fit is cut short. */
    method Write(s: seq<byte>) returns (ok: bool)
      modifies `data
      ensures data == Cut(old(data) + s, room) && ok == (|old(data) + s| <= room)
    {
      ok := |data + s| <= room;
      data := Cut(data + s, room);
    }

    method Remove()
      modifies `removed
      ensures removed
    {
      removed := true;
    }
  }
}
