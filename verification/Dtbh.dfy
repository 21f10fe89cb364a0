/** The device tree block: its layout, its packer and its unpacker.

    A block is a 12-byte header, one 32-byte entry for each device tree, zeros to
    a page boundary, and the trees, each padded to a page.  The packer adds up the
    size of the header while it reads the trees, counting entry i as 32 * i bytes,
    so the size it reserves, from which the recorded offsets start, exceeds the
    place where it copies the trees to once there are enough of them. */
module Dtbh {
  import opened Bits
  import opened ByteImage

  const MAGIC: seq<byte> := [0x44, 0x54, 0x42, 0x48]  // "DTBH"
  const VERSION: nat := 2
  const PLATFORM_CODE: u32 := 0x50a6
  const SUBTYPE_CODE: u32 := 0x217584da
  const SPACE: u32 := 0x20
  const HEADER_SIZE := 12
  const ENTRY_SIZE := 32

  /** A device tree file with the properties that the packer reads from it. */
  datatype Dtb = Dtb(chip: u32, hwRev: u32, hwRevEnd: u32, payload: seq<byte>)

  /** `blob` is the number of the tree, in the order of reading. */
  datatype DtEntry = DtEntry(
    chip: u32, platform: u32, subtype: u32, hwRev: u32, hwRevEnd: u32, offset: nat, size: nat, space: u32, blob: nat)

  // ----- the layout -----

  function Padded(payload: seq<byte>, page: nat): (s: seq<byte>)
    requires page > 0
    ensures |s| == RoundUp(|payload|, page) && payload <= s
  {
    RoundUpIsLeast(|payload|, page);
    payload + Zeros(RoundUp(|payload|, page) - |payload|)
  }

  /** The padded trees, in the order of reading. */
  function Blobs(dtbs: seq<Dtb>, page: nat): seq<byte>
    requires page > 0
  {
    if dtbs == [] then [] else Blobs(dtbs[..|dtbs| - 1], page) + Padded(dtbs[|dtbs| - 1].payload, page)
  }

  /** Where tree i starts among them. */
  function BlobStart(dtbs: seq<Dtb>, i: nat, page: nat): nat
    requires page > 0 && i <= |dtbs|
  {
    |Blobs(dtbs[..i], page)|
  }

  /** The size of the header as it is added up, with the end marker. */
  function Accumulated(n: nat): nat { HEADER_SIZE + 16 * n * (n + 1) + 4 }

  function ReservedSize(n: nat, page: nat): nat
    requires page > 0
  {
    RoundUp(Accumulated(n), page)
  }

  /** Where the first tree is copied to. */
  function CopyStart(n: nat, page: nat): nat
    requires page > 0
  {
    RoundUp(HEADER_SIZE + ENTRY_SIZE * n, page)
  }

  function NewEntry(dtb: Dtb, i: nat): DtEntry {
    DtEntry(dtb.chip, PLATFORM_CODE, SUBTYPE_CODE, dtb.hwRev, dtb.hwRevEnd, 0, 0, SPACE, i)
  }

  function NewEntries(dtbs: seq<Dtb>): seq<DtEntry> { seq(|dtbs|, i requires 0 <= i < |dtbs| => NewEntry(dtbs[i], i)) }

  /** An entry, with the offset and size recorded for its tree. */
  function Place(e: DtEntry, dtbs: seq<Dtb>, page: nat): DtEntry
    requires page > 0 && e.blob < |dtbs|
  {
    e.(offset := ReservedSize(|dtbs|, page) + BlobStart(dtbs, e.blob, page),
       size := RoundUp(|dtbs[e.blob].payload|, page))
  }

  /** Any arrangement of the new entries: all that the recorded offsets need from the sort. */
  predicate IsArrangement(order: seq<DtEntry>, dtbs: seq<Dtb>) { multiset(order) == multiset(NewEntries(dtbs)) }

  /** Every entry is the new entry of some tree. */
  predicate IsIndexed(order: seq<DtEntry>, dtbs: seq<Dtb>) {
    |order| == |dtbs|
    && forall c :: 0 <= c < |order| ==>
         order[c].blob < |dtbs| && order[c] == NewEntry(dtbs[order[c].blob], order[c].blob)
  }

  lemma {:induction false} Arranged(order: seq<DtEntry>, dtbs: seq<Dtb>)
    requires IsArrangement(order, dtbs)
    ensures IsIndexed(order, dtbs)
    ensures forall i :: 0 <= i < |dtbs| ==> NewEntry(dtbs[i], i) in order
  {
    var es := NewEntries(dtbs);
    assert |order| == |multiset(order)| == |multiset(es)| == |es|;
    forall c | 0 <= c < |order|
      ensures order[c].blob < |dtbs| && order[c] == NewEntry(dtbs[order[c].blob], order[c].blob)
    {
      assert order[c] in multiset(order);
      assert order[c] in es;
    }
    forall i | 0 <= i < |dtbs|
      ensures NewEntry(dtbs[i], i) in order
    {
      assert es[i] in multiset(es);
      assert es[i] in multiset(order);
    }
  }

  function EntryBytes(e: DtEntry): (s: seq<byte>)
    ensures |s| == ENTRY_SIZE
  {
    Le32(e.chip) + Le32(e.platform) + Le32(e.subtype) + Le32(e.hwRev)
    + Le32(e.hwRevEnd) + Le32(e.offset) + Le32(e.size) + Le32(e.space)
  }

  function EntryTable(es: seq<DtEntry>): (s: seq<byte>)
    ensures |s| == ENTRY_SIZE * |es|
  {
    if es == [] then [] else EntryTable(es[..|es| - 1]) + EntryBytes(es[|es| - 1])
  }

  function Placed(order: seq<DtEntry>, dtbs: seq<Dtb>, page: nat): (es: seq<DtEntry>)
    requires page > 0 && IsIndexed(order, dtbs)
    ensures |es| == |order|
  {
    seq(|order|, c requires 0 <= c < |order| => Place(order[c], dtbs, page))
  }

  function Header(n: nat): (s: seq<byte>)
    ensures |s| == HEADER_SIZE
  {
    MAGIC + Le32(VERSION) + Le32(n)
  }

  /** The block for an arrangement of the entries. */
  function Image(order: seq<DtEntry>, dtbs: seq<Dtb>, page: nat): seq<byte>
    requires page > 0 && dtbs != [] && IsIndexed(order, dtbs)
  {
    var n := |dtbs|;
    StartsAreOrdered(n, page);
    Header(n) + EntryTable(Placed(order, dtbs, page)) + Zeros(CopyStart(n, page) - HEADER_SIZE - ENTRY_SIZE * n)
    + Blobs(dtbs, page) + Zeros(ReservedSize(n, page) - CopyStart(n, page))
  }

  // ----- where things are -----

  /** The copies start at or before the reserved end of the header. */
  lemma {:induction false} StartsAreOrdered(n: nat, page: nat)
    requires page > 0 && n > 0
    ensures HEADER_SIZE + ENTRY_SIZE * n <= CopyStart(n, page) <= ReservedSize(n, page)
    ensures Accumulated(n) <= ReservedSize(n, page)
  {
    MulMonotone(1, n, n - 1);
    assert 16 * n * (n + 1) == 16 * (n * (n - 1)) + 32 * n;
    RoundUpIsLeast(HEADER_SIZE + ENTRY_SIZE * n, page);
    RoundUpIsLeast(Accumulated(n), page);
    RoundUpMonotone(HEADER_SIZE + ENTRY_SIZE * n, Accumulated(n), page);
  }

  lemma {:induction false} BlobStartNext(dtbs: seq<Dtb>, i: nat, page: nat)
    requires page > 0 && i < |dtbs|
    ensures BlobStart(dtbs, i + 1, page) == BlobStart(dtbs, i, page) + RoundUp(|dtbs[i].payload|, page)
    ensures Blobs(dtbs[..i + 1], page) == Blobs(dtbs[..i], page) + Padded(dtbs[i].payload, page)
  {
    assert dtbs[..i + 1][..i] == dtbs[..i];
  }

  lemma {:induction false} BlobStartsOrdered(dtbs: seq<Dtb>, i: nat, j: nat, page: nat)
    requires page > 0 && i <= j <= |dtbs|
    ensures BlobStart(dtbs, i, page) <= BlobStart(dtbs, j, page)
    ensures Blobs(dtbs[..i], page) <= Blobs(dtbs[..j], page)
    decreases j
  {
    if i < j {
      BlobStartsOrdered(dtbs, i, j - 1, page);
      BlobStartNext(dtbs, j - 1, page);
    }
  }

  lemma {:induction false} BlobStartsAligned(dtbs: seq<Dtb>, i: nat, page: nat)
    requires page > 0 && i <= |dtbs|
    ensures BlobStart(dtbs, i, page) % page == 0
  {
    if i == 0 {
      assert dtbs[..0] == [];
      DivModUnique(0, page, 0, 0);
    } else {
      BlobStartsAligned(dtbs, i - 1, page);
      BlobStartNext(dtbs, i - 1, page);
      hide RoundUp, BlobStart, Blobs;
      RoundUpIsLeast(|dtbs[i - 1].payload|, page);
      SumOfMultiples(BlobStart(dtbs, i - 1, page), RoundUp(|dtbs[i - 1].payload|, page), page);
    }
  }

  /** Where tree i is copied to. */
  function CopyOffset(dtbs: seq<Dtb>, i: nat, page: nat): nat
    requires page > 0 && i <= |dtbs|
  {
    CopyStart(|dtbs|, page) + BlobStart(dtbs, i, page)
  }

  function BufferSize(dtbs: seq<Dtb>, page: nat): nat
    requires page > 0
  {
    ReservedSize(|dtbs|, page) + |Blobs(dtbs, page)|
  }

  /** Every tree is copied to a page boundary behind the entries and inside the buffer. */
  lemma {:induction false} CopiesFit(dtbs: seq<Dtb>, i: nat, page: nat)
    requires page > 0 && i < |dtbs|
    ensures CopyOffset(dtbs, i, page) % page == 0
    ensures HEADER_SIZE + ENTRY_SIZE * |dtbs| <= CopyOffset(dtbs, i, page)
    ensures CopyOffset(dtbs, i, page) + RoundUp(|dtbs[i].payload|, page) <= BufferSize(dtbs, page)
  {
    StartsAreOrdered(|dtbs|, page);
    BlobStartNext(dtbs, i, page);
    BlobStartsOrdered(dtbs, i + 1, |dtbs|, page);
    BlobStartsAligned(dtbs, i, page);
    assert dtbs[..|dtbs|] == dtbs;
    RoundUpIsLeast(HEADER_SIZE + ENTRY_SIZE * |dtbs|, page);
    SumOfMultiples(CopyStart(|dtbs|, page), BlobStart(dtbs, i, page), page);
  }

  /** The copies do not overlap, padding included. */
  lemma {:induction false} CopiesAreDisjoint(dtbs: seq<Dtb>, i: nat, j: nat, page: nat)
    requires page > 0 && i < j < |dtbs|
    ensures CopyOffset(dtbs, i, page) + RoundUp(|dtbs[i].payload|, page) <= CopyOffset(dtbs, j, page)
  {
    BlobStartNext(dtbs, i, page);
    BlobStartsOrdered(dtbs, i + 1, j, page);
  }

  lemma {:induction false} ResidueOfEntries(n: nat, p: nat)
    requires p > 0
    ensures 12 <= (12 + 32 * n) % (32 * p) <= 32 * p - 20
  {
    var x, m := 12 + 32 * n, 32 * p;
    var d := x / m;
    assert x == m * d + x % m;
    assert m * d == 32 * (p * d);
    assert x % m == 12 + 32 * (n - p * d);
  }

  /** On pages of at least 32 bytes the entries do not end at a page boundary: at least 20 bytes are left. */
  lemma {:induction false} RoomForMarker(n: nat, k: nat)
    requires k >= 5
    ensures HEADER_SIZE + ENTRY_SIZE * n + 20 <= CopyStart(n, Pow2(k))
    ensures CopyStart(n, Pow2(k)) == HEADER_SIZE + ENTRY_SIZE * n + (Pow2(k) - (HEADER_SIZE + ENTRY_SIZE * n) % Pow2(k))
  {
    assert Pow2(5) == 32;
    Pow2Add(5, k - 5);
    hide Pow2, RoundUp;
    ResidueOfEntries(n, Pow2(k - 5));
    NextPage(HEADER_SIZE + ENTRY_SIZE * n, Pow2(k));
  }

  lemma {:induction false} NextPage(x: nat, page: nat)
    requires page > 0 && x % page != 0
    ensures RoundUp(x, page) == x + (page - x % page)
  {
    var d := x / page;
    assert x == page * d + x % page;
    assert (d + 1) * page == page * d + page;
    RoundUpUnique(x, page, d + 1);
  }

  // ----- what is in the block -----

  lemma {:induction false} Middle<T>(a: seq<T>, b: seq<T>, c: seq<T>)
    ensures (a + b + c)[|a|..|a| + |b|] == b
  {}

  lemma {:induction false} ImageLength(order: seq<DtEntry>, dtbs: seq<Dtb>, page: nat)
    requires page > 0 && dtbs != [] && IsIndexed(order, dtbs)
    ensures |Image(order, dtbs, page)| == BufferSize(dtbs, page)
  {
    var n := |dtbs|;
    StartsAreOrdered(n, page);
    var front :=
      Header(n) + EntryTable(Placed(order, dtbs, page)) + Zeros(CopyStart(n, page) - HEADER_SIZE - ENTRY_SIZE * n);
    var back := Zeros(ReservedSize(n, page) - CopyStart(n, page));
    assert Image(order, dtbs, page) == front + Blobs(dtbs, page) + back;
  }

  lemma {:induction false} BlobAmongBlobs(dtbs: seq<Dtb>, i: nat, page: nat)
    requires page > 0 && i < |dtbs|
    ensures BlobStart(dtbs, i, page) + RoundUp(|dtbs[i].payload|, page) <= |Blobs(dtbs, page)|
    ensures Blobs(dtbs, page)[BlobStart(dtbs, i, page)..BlobStart(dtbs, i, page) + RoundUp(|dtbs[i].payload|, page)]
            == Padded(dtbs[i].payload, page)
  {
    BlobStartNext(dtbs, i, page);
    BlobStartsOrdered(dtbs, i + 1, |dtbs|, page);
    assert dtbs[..|dtbs|] == dtbs;
    hide Blobs, Padded, RoundUp;
    var a, b, all := Blobs(dtbs[..i], page), Padded(dtbs[i].payload, page), Blobs(dtbs, page);
    assert all == a + b + all[|a + b|..];
  }

  /** The image holds tree i, padded, where it is copied to. */
  lemma {:induction false} BlobInImage(order: seq<DtEntry>, dtbs: seq<Dtb>, i: nat, page: nat)
    requires page > 0 && IsIndexed(order, dtbs)
    requires i < |dtbs|
    ensures CopyOffset(dtbs, i, page) + RoundUp(|dtbs[i].payload|, page) <= |Image(order, dtbs, page)|
    ensures var at := CopyOffset(dtbs, i, page);
            Image(order, dtbs, page)[at..at + RoundUp(|dtbs[i].payload|, page)] == Padded(dtbs[i].payload, page)
  {
    var n := |dtbs|;
    StartsAreOrdered(n, page);
    BlobAmongBlobs(dtbs, i, page);
    ghost var front :=
      Header(n) + EntryTable(Placed(order, dtbs, page)) + Zeros(CopyStart(n, page) - HEADER_SIZE - ENTRY_SIZE * n);
    var blobs, back := Blobs(dtbs, page), Zeros(ReservedSize(n, page) - CopyStart(n, page));
    var image := Image(order, dtbs, page);
    assert image == front + blobs + back && |front| == CopyStart(n, page);
    hide Image, Blobs, Padded, RoundUp, BlobStart, CopyStart, ReservedSize, EntryTable, Header, Placed;
    Middle(front, blobs, back);
    SliceOfSlice(image, |front|, |front| + |blobs|, BlobStart(dtbs, i, page),
                 BlobStart(dtbs, i, page) + RoundUp(|dtbs[i].payload|, page));
  }

  /** On pages of at least 32 bytes, the entries are followed by at least 20 zeros: room for the end marker. */
  lemma {:induction false} MarkerInImage(order: seq<DtEntry>, dtbs: seq<Dtb>, k: nat)
    requires k >= 5 && dtbs != [] && IsIndexed(order, dtbs)
    ensures var end := HEADER_SIZE + ENTRY_SIZE * |dtbs|;
            end + 20 <= CopyStart(|dtbs|, Pow2(k)) <= |Image(order, dtbs, Pow2(k))|
            && Image(order, dtbs, Pow2(k))[end..CopyStart(|dtbs|, Pow2(k))] == Zeros(CopyStart(|dtbs|, Pow2(k)) - end)
  {
    var n, page := |dtbs|, Pow2(k);
    RoomForMarker(n, k);
    StartsAreOrdered(n, page);
    var front := Header(n) + EntryTable(Placed(order, dtbs, page));
    var gap := Zeros(CopyStart(n, page) - HEADER_SIZE - ENTRY_SIZE * n);
    var back := Blobs(dtbs, page) + Zeros(ReservedSize(n, page) - CopyStart(n, page));
    var image := Image(order, dtbs, page);
    assert image == front + gap + back;
    hide *;
    Middle(front, gap, back);
  }

  lemma {:induction false} EntryAmongEntries(es: seq<DtEntry>, c: nat)
    requires c < |es|
    ensures EntryTable(es)[ENTRY_SIZE * c..ENTRY_SIZE * c + ENTRY_SIZE] == EntryBytes(es[c])
  {
    var rest := es[..|es| - 1];
    if c < |rest| {
      EntryAmongEntries(rest, c);
      hide EntryBytes;
      var t := EntryTable(rest);
      assert EntryTable(es) == t + EntryBytes(es[|es| - 1]);
      assert EntryTable(es)[ENTRY_SIZE * c..ENTRY_SIZE * c + ENTRY_SIZE]
          == t[ENTRY_SIZE * c..ENTRY_SIZE * c + ENTRY_SIZE];
    } else {
      hide EntryBytes;
    }
  }

  /** The image begins with the header and the entries, in their order. */
  lemma {:induction false} EntriesInFront(order: seq<DtEntry>, dtbs: seq<Dtb>, page: nat) returns (back: seq<byte>)
    requires page > 0 && dtbs != [] && IsIndexed(order, dtbs)
    ensures Image(order, dtbs, page) == Header(|dtbs|) + EntryTable(Placed(order, dtbs, page)) + back
  {
    var n := |dtbs|;
    StartsAreOrdered(n, page);
    back := Zeros(CopyStart(n, page) - HEADER_SIZE - ENTRY_SIZE * n)
            + Blobs(dtbs, page) + Zeros(ReservedSize(n, page) - CopyStart(n, page));
    hide EntryTable, Header, Blobs, CopyStart, ReservedSize;
  }

  lemma {:induction false} EntryInImage(order: seq<DtEntry>, dtbs: seq<Dtb>, c: nat, page: nat)
    requires page > 0 && IsIndexed(order, dtbs)
    requires c < |order|
    ensures HEADER_SIZE + ENTRY_SIZE * c + ENTRY_SIZE <= |Image(order, dtbs, page)|
    ensures Image(order, dtbs, page)[..HEADER_SIZE] == Header(|dtbs|)
    ensures Image(order, dtbs, page)[HEADER_SIZE + ENTRY_SIZE * c..HEADER_SIZE + ENTRY_SIZE * c + ENTRY_SIZE]
            == EntryBytes(Place(order[c], dtbs, page))
  {
    var n := |dtbs|;
    StartsAreOrdered(n, page);
    var es := Placed(order, dtbs, page);
    var head, table := Header(n), EntryTable(es);
    var image := Image(order, dtbs, page);
    EntryAmongEntries(es, c);
    hide Image, Header, EntryTable, EntryBytes, CopyStart;
    var back := EntriesInFront(order, dtbs, page);
    EntryInside(image, head, table, back, c);
  }

  lemma {:induction false} EntryInside(image: seq<byte>, head: seq<byte>, table: seq<byte>, back: seq<byte>, c: nat)
    requires image == head + table + back && |head| == HEADER_SIZE && ENTRY_SIZE * c + ENTRY_SIZE <= |table|
    ensures image[..HEADER_SIZE] == head
    ensures image[HEADER_SIZE + ENTRY_SIZE * c..HEADER_SIZE + ENTRY_SIZE * c + ENTRY_SIZE]
            == table[ENTRY_SIZE * c..ENTRY_SIZE * c + ENTRY_SIZE]
  {
    Middle(head, table, back);
    SliceOfSlice(image, HEADER_SIZE, HEADER_SIZE + |table|, ENTRY_SIZE * c, ENTRY_SIZE * c + ENTRY_SIZE);
  }

  // ----- are the recorded offsets right? -----

  /** An entry of the block, wherever the sort has put it, records the place its own tree is copied to exactly when
      the accumulated header size rounds up to the same page as the real one. */
  lemma {:induction false} OffsetRightExactlyWhen(order: seq<DtEntry>, dtbs: seq<Dtb>, c: nat, page: nat)
    requires page > 0 && IsArrangement(order, dtbs) && c < |order|
    ensures order[c].blob < |dtbs|
    ensures Place(order[c], dtbs, page).offset == CopyOffset(dtbs, order[c].blob, page)
            <==> RoundUp(16 + 16 * |dtbs| * (|dtbs| + 1), page) == RoundUp(12 + 32 * |dtbs|, page)
  {
    Arranged(order, dtbs);
  }

  /** It does as long as the accumulated size fits one page, which is also where the real header is in one page. */
  lemma {:induction false} OffsetsRightOnOnePage(n: nat, page: nat)
    requires page > 0 && n > 0
    ensures Accumulated(n) <= page <==> ReservedSize(n, page) == page
    ensures Accumulated(n) <= page ==> CopyStart(n, page) == page
    ensures HEADER_SIZE + ENTRY_SIZE * n <= page && ReservedSize(n, page) == CopyStart(n, page) ==>
              Accumulated(n) <= page
  {
    StartsAreOrdered(n, page);
    hide RoundUp;
    if Accumulated(n) <= page {
      RoundUpUnique(Accumulated(n), page, 1);
      RoundUpUnique(HEADER_SIZE + ENTRY_SIZE * n, page, 1);
    } else if HEADER_SIZE + ENTRY_SIZE * n <= page {
      RoundUpUnique(HEADER_SIZE + ENTRY_SIZE * n, page, 1);
    }
  }

  /** With the default page size, the recorded offsets are right for up to ten trees, and wrong for more. */
  lemma {:induction false} DefaultPageLimit(n: nat)
    requires n > 0
    ensures ReservedSize(n, 2048) == CopyStart(n, 2048) <==> n <= 10
  {
    if n <= 10 {
      MulMonotone(n, 10, n + 1);
      assert 16 * n * (n + 1) == 16 * (n * (n + 1));
      OffsetsRightOnOnePage(n, 2048);
    } else {
      MulMonotone(11, n, n + 1);
      assert 16 * n * (n + 1) == 16 * (n * (n + 1));
      if n <= 63 {
        OffsetsRightOnOnePage(n, 2048);
      } else {
        MulMonotone(64, n, n + 1);
        RoundUpIsLeast(12 + 32 * n, 2048);
        RoundUpIsLeast(Accumulated(n), 2048);
      }
    }
  }
}
