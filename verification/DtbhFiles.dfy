/** The files that the unpacker writes: each is named by the numbers of its entry, and a file of the same name is
    overwritten.

    The name is cut where its buffer ends, so the theorems show first that the cut never takes a digit. */
module DtbhFiles {
  import opened Bits
  import opened Dtbh
  import opened DtbhTool

  // ----- numbers in a name -----

  predicate IsDigit(c: char) { '0' <= c <= '9' || 'a' <= c <= 'f' }

  function DigitOf(d: nat): (c: char)
    requires d < 16
    ensures IsDigit(c)
  {
    if d < 10 then '0' + d as char else 'a' + (d - 10) as char
  }

  function Digits(x: nat, base: nat): (s: string)
    requires 2 <= base <= 16
    ensures |s| > 0 && forall i :: 0 <= i < |s| ==> IsDigit(s[i])
  {
    if x < base then [DigitOf(x)] else Digits(x / base, base) + [DigitOf(x % base)]
  }

  function DigitValue(c: char): nat
    requires IsDigit(c)
  {
    if c <= '9' then c as nat - '0' as nat else c as nat - 'a' as nat + 10
  }

  /** The number that a string of digits stands for. */
  function Value(s: string, base: nat): nat
    requires forall i :: 0 <= i < |s| ==> IsDigit(s[i])
  {
    if s == [] then 0 else Value(s[..|s| - 1], base) * base + DigitValue(s[|s| - 1])
  }

  lemma {:induction false} DigitStandsFor(d: nat)
    requires d < 16
    ensures DigitValue(DigitOf(d)) == d
  {}

  lemma {:induction false} ValueOfLonger(s: string, c: char, base: nat)
    requires IsDigit(c) && forall i :: 0 <= i < |s| ==> IsDigit(s[i])
    ensures Value(s + [c], base) == Value(s, base) * base + DigitValue(c)
  {
    assert (s + [c])[..|s|] == s;
  }

  /** The digits of a number stand for it. */
  lemma {:induction false} DigitsReadBack(x: nat, base: nat)
    requires 2 <= base <= 16
    ensures Value(Digits(x, base), base) == x
    decreases x
  {
    hide DigitValue, DigitOf, IsDigit;
    if x < base {
      DigitStandsFor(x);
      ValueOfLonger([], DigitOf(x), base);
      assert [] + [DigitOf(x)] == [DigitOf(x)] && Value([], base) == 0;
    } else {
      assert Digits(x, base) == Digits(x / base, base) + [DigitOf(x % base)];
      QuotientIsLess(x, base);
      hide Digits, Value;
      DigitsReadBack(x / base, base);
      DigitStandsFor(x % base);
      ValueOfLonger(Digits(x / base, base), DigitOf(x % base), base);
    }
  }

  lemma {:induction false} QuotientIsLess(x: nat, base: nat)
    requires 2 <= base <= x
    ensures x / base < x && x == x / base * base + x % base
  {
    MulMonotone(2, base, x);
    DivLess(x, base, x);
  }

  function Power(base: nat, n: nat): nat { if n == 0 then 1 else base * Power(base, n - 1) }

  lemma {:induction false} DigitsLength(x: nat, base: nat, n: nat)
    requires 2 <= base <= 16 && n > 0 && x < Power(base, n)
    ensures |Digits(x, base)| <= n
    decreases n
  {
    if x >= base {
      DivLess(x, base, Power(base, n - 1));
      DigitsLength(x / base, base, n - 1);
    }
  }

  lemma {:induction false} DivLess(x: nat, base: nat, p: nat)
    requires base > 0 && x < base * p
    ensures x / base < p
  {
    if x / base >= p {
      MulMonotone(p, x / base, base);
    }
  }

  lemma {:induction false} NumberLengths(x: u32)
    ensures |Digits(x, 10)| <= 10 && |Digits(x, 16)| <= 8
  {
    assert Power(10, 10) == 10_000_000_000;
    assert Power(16, 8) == 0x1_0000_0000;
    DigitsLength(x, 10, 10);
    DigitsLength(x, 16, 8);
  }

  predicate EndsNumber(s: string) { s != [] && !IsDigit(s[0]) }

  lemma {:induction false} NumberStops(a: string, u: string)
    requires EndsNumber(u) && forall i :: 0 <= i < |a| ==> IsDigit(a[i])
    ensures !IsDigit((a + u)[|a|]) && forall i :: 0 <= i < |a| ==> IsDigit((a + u)[i])
  {}

  /** A number at the front of a string is read in one way only. */
  lemma {:induction false} NumberUnique(x: nat, y: nat, base: nat, u: string, v: string)
    requires 2 <= base <= 16 && EndsNumber(u) && EndsNumber(v) && Digits(x, base) + u == Digits(y, base) + v
    ensures x == y && u == v
  {
    var a, b := Digits(x, base), Digits(y, base);
    NumberStops(a, u);
    NumberStops(b, v);
    hide Digits, IsDigit;
    assert a == (a + u)[..|a|] && b == (b + v)[..|b|];
    assert u == (a + u)[|a|..] && v == (b + v)[|b|..];
    DigitsReadBack(x, base);
    DigitsReadBack(y, base);
  }

  lemma {:induction false} SameLead(lead: string, u: string, v: string)
    requires lead + u == lead + v
    ensures u == v
  {
    assert u == (lead + u)[|lead|..] && v == (lead + v)[|lead|..];
  }

  // ----- the name -----

  const DT_NAME_LEN: nat := 64

  function Revisions(d: Dump, ending: string): string {
    "_rev" + (Digits(d.hwRev, 10) + ("-" + (Digits(d.hwRevEnd, 10) + ending)))
  }

  function Name(d: Dump, ending: string): string {
    "/chip" + (Digits(d.chip, 10) + ("-0x" + (Digits(d.platform, 16) + ("-0x" + (Digits(d.subtype, 16)
                                                                                   + Revisions(d, ending))))))
  }

  /** The name behind the directory, as far as it fits, with the byte that ends it. */
  function FileName(d: Dump): string {
    var s := Name(d, ".dtb");
    if |s| < DT_NAME_LEN then s else s[..DT_NAME_LEN - 1]
  }

  predicate SameNumbers(d: Dump, e: Dump) {
    d.chip == e.chip && d.platform == e.platform && d.subtype == e.subtype && d.hwRev == e.hwRev
    && d.hwRevEnd == e.hwRevEnd
  }

  lemma {:induction false} NameSplits(d: Dump, ending: string)
    ensures Name(d, ending) == Name(d, []) + ending
  {
    hide Digits;
  }

  /** No digit is cut. */
  lemma {:induction false} CutInEnding(d: Dump) returns (n: nat)
    ensures 1 <= n <= 4 && FileName(d) == Name(d, ".dtb"[..n])
  {
    var stem := Name(d, []);
    NumberLengths(d.chip);
    NumberLengths(d.platform);
    NumberLengths(d.subtype);
    NumberLengths(d.hwRev);
    NumberLengths(d.hwRevEnd);
    assert |stem| <= 62 by {
      hide Digits;
    }
    hide Name, Digits;
    n := if |stem| <= 59 then 4 else 63 - |stem|;
    NameSplits(d, ".dtb");
    NameSplits(d, ".dtb"[..n]);
    assert n == 4 ==> ".dtb"[..n] == ".dtb";
    assert (stem + ".dtb")[..|stem| + n] == stem + ".dtb"[..n];
  }

  lemma {:induction false} RevisionsUnique(d: Dump, e: Dump, u: string, v: string)
    requires EndsNumber(u) && EndsNumber(v) && Revisions(d, u) == Revisions(e, v)
    ensures d.hwRev == e.hwRev && d.hwRevEnd == e.hwRevEnd
  {
    hide Digits;
    var s, t := Digits(d.hwRevEnd, 10) + u, Digits(e.hwRevEnd, 10) + v;
    SameLead("_rev", Digits(d.hwRev, 10) + ("-" + s), Digits(e.hwRev, 10) + ("-" + t));
    NumberUnique(d.hwRev, e.hwRev, 10, "-" + s, "-" + t);
    SameLead("-", s, t);
    NumberUnique(d.hwRevEnd, e.hwRevEnd, 10, u, v);
  }

  lemma {:induction false} NameUnique(d: Dump, e: Dump, u: string, v: string)
    requires EndsNumber(u) && EndsNumber(v) && Name(d, u) == Name(e, v)
    ensures SameNumbers(d, e)
  {
    var r, s := Revisions(d, u), Revisions(e, v);
    assert EndsNumber(r) && EndsNumber(s);
    hide Digits, Revisions;
    var a, b := Digits(d.subtype, 16) + r, Digits(e.subtype, 16) + s;
    var f, g := Digits(d.platform, 16) + ("-0x" + a), Digits(e.platform, 16) + ("-0x" + b);
    SameLead("/chip", Digits(d.chip, 10) + ("-0x" + f), Digits(e.chip, 10) + ("-0x" + g));
    NumberUnique(d.chip, e.chip, 10, "-0x" + f, "-0x" + g);
    SameLead("-0x", f, g);
    NumberUnique(d.platform, e.platform, 16, "-0x" + a, "-0x" + b);
    SameLead("-0x", a, b);
    NumberUnique(d.subtype, e.subtype, 16, r, s);
    RevisionsUnique(d, e, u, v);
  }

  /** Two files have one name exactly when all five numbers are equal, also where the name is cut. */
  lemma {:induction false} SameNameExactlyWhen(d: Dump, e: Dump)
    ensures FileName(d) == FileName(e) <==> SameNumbers(d, e)
  {
    var m := CutInEnding(d);
    var n := CutInEnding(e);
    if FileName(d) == FileName(e) {
      hide Name, FileName;
      NameUnique(d, e, ".dtb"[..m], ".dtb"[..n]);
    }
  }

  // ----- the directory -----

  /** Which dump each file holds in the end. */
  function Files(dumps: seq<Dump>): map<string, nat> {
    if dumps == [] then map[]
    else
      var n := |dumps| - 1;
      Files(dumps[..n])[FileName(dumps[n]) := n]
  }

  predicate Stays(dumps: seq<Dump>, i: nat)
    requires i < |dumps|
  {
    FileName(dumps[i]) in Files(dumps) && Files(dumps)[FileName(dumps[i])] == i
  }

  /** A dump is what its file holds in the end exactly when no later one has the same numbers. */
  lemma {:induction false} StaysExactlyWhen(dumps: seq<Dump>, i: nat)
    requires i < |dumps|
    ensures Stays(dumps, i) <==> forall j :: i < j < |dumps| ==> !SameNumbers(dumps[i], dumps[j])
    decreases |dumps|
  {
    var n := |dumps| - 1;
    hide FileName, SameNumbers;
    SameNameExactlyWhen(dumps[i], dumps[n]);
    if i < n {
      StaysExactlyWhen(dumps[..n], i);
      assert forall j :: i < j < n ==> dumps[..n][j] == dumps[j];
      HoldsEarlier(dumps[..n]);
    }
  }

  lemma {:induction false} HoldsEarlier(dumps: seq<Dump>)
    ensures forall s :: s in Files(dumps) ==> Files(dumps)[s] < |dumps|
    decreases |dumps|
  {
    if dumps != [] {
      HoldsEarlier(dumps[..|dumps| - 1]);
    }
  }

  // ----- after the round trip -----

  /** The trees that the unpacker would write to one file. */
  predicate Collide(d: Dtb, e: Dtb) { d.chip == e.chip && d.hwRev == e.hwRev && d.hwRevEnd == e.hwRevEnd }

  lemma {:induction false} CountsTwice<T>(s: seq<T>, c: nat, d: nat)
    requires c < d < |s| && s[c] == s[d]
    ensures multiset(s)[s[c]] >= 2
  {
    assert s == s[..d] + s[d..];
    assert s[c] in s[..d] && s[d] in s[d..];
  }

  lemma {:induction false} CountsOnce<T>(s: seq<T>, x: T)
    requires forall i, j :: 0 <= i < j < |s| ==> s[i] != s[j]
    ensures multiset(s)[x] <= 1
    decreases |s|
  {
    if s != [] {
      assert s == [s[0]] + s[1..];
      CountsOnce(s[1..], x);
      assert s[0] !in s[1..];
    }
  }

  /** The order has no tree twice. */
  lemma {:induction false} BlobsDiffer(order: seq<DtEntry>, dtbs: seq<Dtb>, c: nat, d: nat)
    requires IsArrangement(order, dtbs) && IsIndexed(order, dtbs) && c < d < |order|
    ensures order[c].blob != order[d].blob
  {
    if order[c].blob == order[d].blob {
      assert order[c] == order[d];
      CountsTwice(order, c, d);
      CountsOnce(NewEntries(dtbs), order[c]);
    }
  }

  lemma {:induction false} CollideExactlyWhen(d: Dtb, e: Dtb, page: nat)
    requires page > 0
    ensures SameNumbers(DumpOf(d, page), DumpOf(e, page)) <==> Collide(d, e)
  {}

  /** Two places of the order whose dumps have one name. */
  lemma {:induction false} NamesMeet(order: seq<DtEntry>, dtbs: seq<Dtb>, i: nat, j: nat) returns (c: nat, d: nat)
    requires IsArrangement(order, dtbs) && IsIndexed(order, dtbs) && i < j < |dtbs|
    ensures c < d < |order| && {order[c].blob, order[d].blob} == {i, j}
  {
    c := TreeIsInOrder(order, dtbs, i);
    d := TreeIsInOrder(order, dtbs, j);
    if d < c {
      c, d := d, c;
    }
  }

  /** A block that comes back whole is also on disk whole exactly when no two trees have chip and revisions in
      common. */
  lemma {:induction false} AllStayExactlyWhen(order: seq<DtEntry>, dtbs: seq<Dtb>, page: nat)
    requires page >= HEADER_SIZE && IsArrangement(order, dtbs) && dtbs != [] && BufferSize(dtbs, page) < TWO_32
    requires 16 + 16 * |dtbs| * (|dtbs| + 1) <= page
    ensures IsIndexed(order, dtbs)
    ensures var r := Unpack(Image(order, dtbs, page), page);
            r.Unpacked?
            && ((forall c :: 0 <= c < |r.dumps| ==> Stays(r.dumps, c))
                <==> forall i, j :: 0 <= i < j < |dtbs| ==> !Collide(dtbs[i], dtbs[j]))
  {
    RoundTrip(order, dtbs, page);
    var dumps := Unpack(Image(order, dtbs, page), page).dumps;
    hide Image, Unpack, IsArrangement, IsIndexed, DumpOf, Collide, Stays;
    DumpsStay(order, dtbs, dumps, page);
  }

  lemma {:induction false} DumpsStay(order: seq<DtEntry>, dtbs: seq<Dtb>, dumps: seq<Dump>, page: nat)
    requires page > 0 && IsArrangement(order, dtbs) && IsIndexed(order, dtbs) && |order| == |dumps|
    requires forall d :: 0 <= d < |dumps| ==> dumps[d] == DumpOf(dtbs[order[d].blob], page)
    ensures (forall c :: 0 <= c < |dumps| ==> Stays(dumps, c))
            <==> forall i, j :: 0 <= i < j < |dtbs| ==> !Collide(dtbs[i], dtbs[j])
  {
    hide IsArrangement, DumpOf, Collide, Stays;
    forall c | 0 <= c < |dumps|
      ensures Stays(dumps, c) <==> forall d :: c < d < |dumps| ==> !Collide(dtbs[order[c].blob], dtbs[order[d].blob])
    {
      PlaceStays(order, dtbs, dumps, c, page);
    }
    PairsOfOrder(order, dtbs);
  }

  lemma {:induction false} PlaceStays(order: seq<DtEntry>, dtbs: seq<Dtb>, dumps: seq<Dump>, c: nat, page: nat)
    requires page > 0 && IsIndexed(order, dtbs) && c < |order| == |dumps|
    requires forall d :: 0 <= d < |dumps| ==> dumps[d] == DumpOf(dtbs[order[d].blob], page)
    ensures Stays(dumps, c) <==> forall d :: c < d < |dumps| ==> !Collide(dtbs[order[c].blob], dtbs[order[d].blob])
  {
    StaysExactlyWhen(dumps, c);
    hide DumpOf, SameNumbers, Collide, Stays;
    forall d | c < d < |dumps|
      ensures SameNumbers(dumps[c], dumps[d]) <==> Collide(dtbs[order[c].blob], dtbs[order[d].blob])
    {
      CollideExactlyWhen(dtbs[order[c].blob], dtbs[order[d].blob], page);
    }
  }

  lemma {:induction false} PairsOfOrder(order: seq<DtEntry>, dtbs: seq<Dtb>)
    requires IsArrangement(order, dtbs) && IsIndexed(order, dtbs)
    ensures (forall c, d :: 0 <= c < d < |order| ==> !Collide(dtbs[order[c].blob], dtbs[order[d].blob]))
            <==> forall i, j :: 0 <= i < j < |dtbs| ==> !Collide(dtbs[i], dtbs[j])
  {
    forall i, j | 0 <= i < j < |dtbs|
      ensures exists c, d :: 0 <= c < d < |order|
                             && (Collide(dtbs[i], dtbs[j]) <==> Collide(dtbs[order[c].blob], dtbs[order[d].blob]))
    {
      var c, d := NamesMeet(order, dtbs, i, j);
    }
    forall c, d | 0 <= c < d < |order|
      ensures order[c].blob != order[d].blob
    {
      BlobsDiffer(order, dtbs, c, d);
    }
  }
}
