/** The order of the entries of a device tree block.

    The comparator subtracts unsigned 32-bit numbers and takes the difference as a
    signed one.  An insertion sort stands for the library's sort. */
module DtbhSort {
  import opened Bits
  import opened Dtbh

  function AsInt32(x: u32): int { if x < 0x8000_0000 then x else x - 0x1_0000_0000 }

  function Cmp(a: DtEntry, b: DtEntry): int {
    if a.chip != b.chip then AsInt32((a.chip - b.chip) % 0x1_0000_0000)
    else AsInt32((a.hwRev - b.hwRev) % 0x1_0000_0000)
  }

  predicate IsBefore(a: DtEntry, b: DtEntry) { a.chip < b.chip || (a.chip == b.chip && a.hwRev < b.hwRev) }

  /** The comparator orders a pair by chip and revision. */
  predicate IsOrdered(a: DtEntry, b: DtEntry) {
    (Cmp(a, b) < 0 <==> IsBefore(a, b)) && (Cmp(a, b) > 0 <==> IsBefore(b, a))
  }

  /** The first numbers in which they differ are at most 2^31 - 1 apart, or 2^31 if the first is the smaller. */
  predicate IsClose(a: DtEntry, b: DtEntry) {
    if a.chip != b.chip then -0x8000_0000 <= a.chip - b.chip < 0x8000_0000
    else -0x8000_0000 <= a.hwRev - b.hwRev < 0x8000_0000
  }

  lemma {:induction false} DifferenceSign(x: u32, y: u32)
    ensures x == y <==> AsInt32((x - y) % 0x1_0000_0000) == 0
    ensures x != y ==> (-0x8000_0000 <= x - y < 0x8000_0000 <==>
                        (AsInt32((x - y) % 0x1_0000_0000) < 0 <==> x < y))
    ensures -0x8000_0000 <= x - y < 0x8000_0000 ==> AsInt32((x - y) % 0x1_0000_0000) == x - y
  {
    if x >= y {
      assert (x - y) % 0x1_0000_0000 == x - y;
    } else {
      assert (x - y) % 0x1_0000_0000 == x - y + 0x1_0000_0000;
    }
  }

  lemma {:induction false} OrderedExactlyWhen(a: DtEntry, b: DtEntry)
    ensures IsOrdered(a, b) <==> IsClose(a, b)
  {
    DifferenceSign(a.chip, b.chip);
    DifferenceSign(a.hwRev, b.hwRev);
  }

  /** The difference of the first numbers in which two entries differ, as a signed 32-bit number. */
  lemma {:induction false} CmpWraps(a: DtEntry, b: DtEntry)
    ensures var d := if a.chip != b.chip then a.chip - b.chip else a.hwRev - b.hwRev;
            Cmp(a, b) == if d >= 0x8000_0000 then d - 0x1_0000_0000
                         else if d < -0x8000_0000 then d + 0x1_0000_0000 else d
  {
    var d := if a.chip != b.chip then a.chip - b.chip else a.hwRev - b.hwRev;
    assert d % 0x1_0000_0000 == if d >= 0 then d else d + 0x1_0000_0000;
  }

  /** On chips far apart the comparator runs in a circle. */
  lemma {:induction false} CmpCycles(e: DtEntry)
    ensures var a, b, c := e.(chip := 0), e.(chip := 0x6000_0000), e.(chip := 0xC000_0000);
            Cmp(a, b) < 0 && Cmp(b, c) < 0 && Cmp(c, a) < 0
  {
    DifferenceSign(0, 0x6000_0000);
    DifferenceSign(0x6000_0000, 0xC000_0000);
    assert (0xC000_0000 - 0) % 0x1_0000_0000 == 0xC000_0000;
  }

  // ----- the sort -----

  /** `e` put behind the last entry that does not compare greater. */
  function Insert(e: DtEntry, es: seq<DtEntry>): (r: seq<DtEntry>)
    ensures |r| == |es| + 1
    decreases |es|
  {
    if es == [] || Cmp(es[|es| - 1], e) <= 0 then es + [e]
    else Insert(e, es[..|es| - 1]) + [es[|es| - 1]]
  }

  function Sort(es: seq<DtEntry>): (r: seq<DtEntry>)
    ensures |r| == |es|
    decreases |es|
  {
    if es == [] then [] else Insert(es[|es| - 1], Sort(es[..|es| - 1]))
  }

  lemma {:induction false} InsertPermutes(e: DtEntry, es: seq<DtEntry>)
    ensures multiset(Insert(e, es)) == multiset(es) + multiset{e}
    decreases |es|
  {
    if es == [] || Cmp(es[|es| - 1], e) <= 0 {
    } else {
      InsertPermutes(e, es[..|es| - 1]);
      assert es == es[..|es| - 1] + [es[|es| - 1]];
    }
  }

  /** Whatever the comparator says, nothing is lost. */
  lemma {:induction false} SortPermutes(es: seq<DtEntry>)
    ensures multiset(Sort(es)) == multiset(es)
    decreases |es|
  {
    if es == [] {
    } else {
      SortPermutes(es[..|es| - 1]);
      InsertPermutes(es[|es| - 1], Sort(es[..|es| - 1]));
      assert es == es[..|es| - 1] + [es[|es| - 1]];
    }
  }

  ghost predicate IsSorted(es: seq<DtEntry>) { forall i, j :: 0 <= i < j < |es| ==> !IsBefore(es[j], es[i]) }

  lemma {:induction false} InsertSorts(e: DtEntry, es: seq<DtEntry>)
    requires IsSorted(es) && forall x :: x in es ==> IsOrdered(x, e)
    ensures IsSorted(Insert(e, es))
    decreases |es|
  {
    if es == [] {
    } else {
      var front, last := es[..|es| - 1], es[|es| - 1];
      assert last in es;
      if Cmp(last, e) <= 0 {
        assert forall i :: 0 <= i < |es| ==> !IsBefore(e, es[i]);
      } else {
        assert forall x :: x in front ==> x in es;
        InsertSorts(e, front);
        InsertPermutes(e, front);
        var r := Insert(e, front);
        forall i | 0 <= i < |r|
          ensures !IsBefore(last, r[i])
        {
          assert r[i] in multiset(r);
          assert r[i] == e || r[i] in front;
        }
      }
    }
  }

  /** If every two entries are close enough for the comparator, the result is in order of chip and revision. */
  lemma {:induction false} SortSorts(es: seq<DtEntry>)
    requires forall i, j :: 0 <= i < |es| && 0 <= j < |es| ==> IsClose(es[i], es[j])
    ensures IsSorted(Sort(es))
    decreases |es|
  {
    if es == [] {
    } else {
      var front, e := es[..|es| - 1], es[|es| - 1];
      SortSorts(front);
      SortPermutes(front);
      forall x | x in Sort(front)
        ensures IsOrdered(x, e)
      {
        assert x in multiset(Sort(front));
        assert x in front;
        OrderedExactlyWhen(x, e);
      }
      InsertSorts(e, Sort(front));
    }
  }

  /** That is so when chips and revisions are below 2^31. */
  lemma {:induction false} SortSortsSmall(es: seq<DtEntry>)
    requires forall e :: e in es ==> e.chip < 0x8000_0000 && e.hwRev < 0x8000_0000
    ensures IsSorted(Sort(es)) && multiset(Sort(es)) == multiset(es)
  {
    SortSorts(es);
    SortPermutes(es);
  }

  /** No entry compares greater than the next. */
  predicate AreNeighbours(es: seq<DtEntry>) { forall i :: 0 <= i < |es| - 1 ==> Cmp(es[i], es[i + 1]) <= 0 }

  lemma {:induction false} InsertNeighbours(e: DtEntry, es: seq<DtEntry>)
    requires AreNeighbours(es)
    ensures AreNeighbours(Insert(e, es))
    ensures var last := Insert(e, es)[|es|]; last == e || (es != [] && last == es[|es| - 1])
    decreases |es|
  {
    if es != [] && Cmp(es[|es| - 1], e) > 0 {
      var front, last := es[..|es| - 1], es[|es| - 1];
      InsertNeighbours(e, front);
      CmpWraps(last, e);
      CmpWraps(e, last);
      hide Cmp;
      var r := Insert(e, front);
      assert Cmp(r[|r| - 1], last) <= 0;
    }
  }

  /** Whatever the numbers, the result runs on in the comparator's order, and it is a permutation. */
  lemma {:induction false} SortIsByComparator(es: seq<DtEntry>)
    ensures multiset(Sort(es)) == multiset(es)
    ensures forall i :: 0 <= i < |es| - 1 ==> Cmp(Sort(es)[i], Sort(es)[i + 1]) <= 0
    decreases |es|
  {
    SortPermutes(es);
    if es != [] {
      SortIsByComparator(es[..|es| - 1]);
      InsertNeighbours(es[|es| - 1], Sort(es[..|es| - 1]));
    }
  }

  /** Entries from j on stay behind the new one. */
  ghost predicate IsPassed(e: DtEntry, es: seq<DtEntry>, j: nat)
    requires j <= |es|
  {
    Insert(e, es) == Insert(e, es[..j]) + es[j..]
  }

  lemma {:induction false} PassedNone(e: DtEntry, es: seq<DtEntry>)
    ensures IsPassed(e, es, |es|)
  {
    assert es[..|es|] == es && es[|es|..] == [] && Insert(e, es) == Insert(e, es) + [];
  }

  lemma {:induction false} PassOne(e: DtEntry, es: seq<DtEntry>, j: nat)
    requires 0 < j <= |es| && Cmp(es[j - 1], e) > 0 && IsPassed(e, es, j)
    ensures IsPassed(e, es, j - 1)
  {
    assert es[..j][..j - 1] == es[..j - 1];
    assert es[j - 1..] == [es[j - 1]] + es[j..];
  }

  lemma {:induction false} PassedAll(e: DtEntry, es: seq<DtEntry>, j: nat)
    requires j <= |es| && (j == 0 || Cmp(es[j - 1], e) <= 0) && IsPassed(e, es, j)
    ensures Insert(e, es) == es[..j] + [e] + es[j..]
  {}

  /** Entries from j on have moved up by one, and `e` is at j. */
  ghost predicate HasRoomAt(a: array<DtEntry>, i: nat, j: nat, es: seq<DtEntry>)
    requires j <= i < a.Length && |es| == i
    reads a
  {
    (forall k :: 0 <= k < j ==> a[k] == es[k]) && (forall k :: j < k <= i ==> a[k] == es[k - 1])
  }

  /** Moves the entries before i that compare greater than `e` up by one. */
  method ShiftGreater(a: array<DtEntry>, i: nat, e: DtEntry) returns (j: nat)
    requires i < a.Length
    modifies a
    ensures j <= i && HasRoomAt(a, i, j, old(a[..i])) && a[i + 1..] == old(a[i + 1..])
    ensures Insert(e, old(a[..i])) == old(a[..i])[..j] + [e] + old(a[..i])[j..]
  {
    ghost var es := a[..i];
    j := i;
    PassedNone(e, es);
    hide Insert, Cmp, IsPassed;
    while j > 0 && Cmp(a[j - 1], e) > 0
      invariant j <= i && HasRoomAt(a, i, j, es)
      invariant forall k :: i < k < a.Length ==> a[k] == old(a[k])
      invariant IsPassed(e, es, j)
    {
      PassOne(e, es, j);
      a[j] := a[j - 1];
      j := j - 1;
    }
    PassedAll(e, es, j);
  }

  /** Moves entry i to its place among those before it. */
  method InsertAt(a: array<DtEntry>, i: nat)
    requires i < a.Length
    modifies a
    ensures a[..i + 1] == Insert(old(a[i]), old(a[..i])) && a[i + 1..] == old(a[i + 1..])
  {
    ghost var es, rest := a[..i], a[i + 1..];
    var e := a[i];
    hide Insert;
    var j := ShiftGreater(a, i, e);
    assert a[i + 1..] == rest;
    a[j] := e;
    assert a[..i + 1] == es[..j] + [e] + es[j..];
    assert forall k :: i < k < a.Length ==> a[k] == rest[k - i - 1];
  }

  /** Sorts in place. */
  method SortEntries(a: array<DtEntry>)
    modifies a
    ensures a[..] == Sort(old(a[..]))
  {
    ghost var was := a[..];
    for i := 0 to a.Length
      invariant a[..i] == Sort(was[..i]) && a[i..] == was[i..]
    {
      assert was[..i + 1][..i] == was[..i];
      InsertAt(a, i);
    }
    assert was[..a.Length] == was;
  }
}
