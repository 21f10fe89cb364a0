/** The packer of device tree blocks, step by step, and the unpacker. */
module DtbhTool {
  import opened Bits
  import opened ByteImage
  import opened Dtbh
  import opened DtbhSort

  // ----- packing -----

  /** The arithmetic of the packer does not wrap. */
  ghost predicate FitsIn32(dtbs: seq<Dtb>, k: nat) {
    5 <= k < 32 && BufferSize(dtbs, Pow2(k)) < TWO_32
  }

  lemma {:induction false} PaddedSize(dtbs: seq<Dtb>, i: nat, k: nat)
    requires FitsIn32(dtbs, k) && i < |dtbs|
    ensures Pow2(k) <= TWO_32
    ensures MaskUp(|dtbs[i].payload|, Pow2(k)) == RoundUp(|dtbs[i].payload|, Pow2(k))
    ensures BlobStart(dtbs, i + 1, Pow2(k)) == BlobStart(dtbs, i, Pow2(k)) + RoundUp(|dtbs[i].payload|, Pow2(k))
    ensures BlobStart(dtbs, i + 1, Pow2(k)) <= |Blobs(dtbs, Pow2(k))|
  {
    BlobStartNext(dtbs, i, Pow2(k));
    BlobStartsOrdered(dtbs, i + 1, |dtbs|, Pow2(k));
    assert dtbs[..|dtbs|] == dtbs;
    hide RoundUp, Blobs, MaskUp;
    MaskUpRoundsUp(|dtbs[i].payload|, k);
  }

  lemma {:induction false} AccumulatedNext(i: nat, n: nat, page: nat)
    requires i < n && page > 0
    ensures Accumulated(i + 1) == Accumulated(i) + (i + 1) * ENTRY_SIZE
    ensures Accumulated(i + 1) <= ReservedSize(n, page)
  {
    assert 16 * (i + 1) * (i + 2) == 16 * i * (i + 1) + 32 * (i + 1);
    AccumulatedGrows(i + 1, n);
    hide Accumulated, RoundUp;
    RoundUpIsLeast(Accumulated(n), page);
  }

  lemma {:induction false} AccumulatedGrows(i: nat, n: nat)
    requires i <= n
    ensures Accumulated(i) <= Accumulated(n)
  {
    MulMonotone(i, n, i + 1);
    MulMonotone(i + 1, n + 1, n);
  }

  /** Reads the trees: one entry for each, and the sizes of the header, without the marker, and of the padded trees. */
  method ReadTrees(dtbs: seq<Dtb>, page: nat, ghost k: nat) returns (entries: seq<DtEntry>, hdrSize: u32, blobSize: u32)
    requires FitsIn32(dtbs, k) && page == Pow2(k)
    ensures entries == NewEntries(dtbs) && blobSize == |Blobs(dtbs, page)|
    ensures hdrSize == Accumulated(|dtbs|) - 4
  {
    entries, hdrSize, blobSize := [], HEADER_SIZE, 0;
    assert dtbs[..0] == [] && BlobStart(dtbs, 0, page) == 0;
    hide RoundUp, MaskUp, Blobs, ReservedSize, Pow2;
    for i := 0 to |dtbs|
      invariant |entries| == i && forall j :: 0 <= j < i ==> entries[j] == NewEntry(dtbs[j], j)
      invariant hdrSize == Accumulated(i) - 4
      invariant blobSize == BlobStart(dtbs, i, page)
    {
      PaddedSize(dtbs, i, k);
      AccumulatedNext(i, |dtbs|, page);
      blobSize := blobSize + MaskUp(|dtbs[i].payload|, page);
      entries := entries + [NewEntry(dtbs[i], i)];
      hdrSize := hdrSize + |entries| * ENTRY_SIZE;
    }
    assert dtbs[..|dtbs|] == dtbs;
  }

  /** The offset of every tree, in the order of reading. */
  method PlaceTrees(dtbs: seq<Dtb>, page: nat, hdrSize: u32, ghost k: nat) returns (offsets: seq<u32>)
    requires FitsIn32(dtbs, k) && page == Pow2(k) && hdrSize == ReservedSize(|dtbs|, page)
    ensures |offsets| == |dtbs|
    ensures forall i :: 0 <= i < |dtbs| ==> offsets[i] == ReservedSize(|dtbs|, page) + BlobStart(dtbs, i, page)
  {
    offsets := [];
    var offset: u32 := hdrSize;
    assert dtbs[..0] == [] && BlobStart(dtbs, 0, page) == 0;
    hide RoundUp, MaskUp, Blobs, ReservedSize, Pow2;
    for i := 0 to |dtbs|
      invariant |offsets| == i && offset == hdrSize + BlobStart(dtbs, i, page)
      invariant forall j :: 0 <= j < i ==> offsets[j] == hdrSize + BlobStart(dtbs, j, page)
    {
      PaddedSize(dtbs, i, k);
      offsets := offsets + [offset];
      offset := offset + MaskUp(|dtbs[i].payload|, page);
    }
  }

  method UpdateEntries(entries: array<DtEntry>, offsets: seq<u32>, dtbs: seq<Dtb>, page: nat, ghost k: nat)
    requires FitsIn32(dtbs, k) && page == Pow2(k) && |offsets| == |dtbs|
    requires forall i :: 0 <= i < |dtbs| ==> offsets[i] == ReservedSize(|dtbs|, page) + BlobStart(dtbs, i, page)
    requires IsIndexed(entries[..], dtbs)
    modifies entries
    ensures entries[..] == Placed(old(entries[..]), dtbs, page)
  {
    hide RoundUp, MaskUp, Blobs, ReservedSize, Pow2, FitsIn32, BlobStart;
    for c := 0 to entries.Length
      invariant forall j :: c <= j < entries.Length ==> entries[j] == old(entries[j])
      invariant forall j :: 0 <= j < c ==> entries[j] == Place(old(entries[j]), dtbs, page)
    {
      var e := entries[c];
      PaddedSize(dtbs, e.blob, k);
      entries[c] := e.(offset := offsets[e.blob], size := MaskUp(|dtbs[e.blob].payload|, page));
    }
  }

  method WriteEntries(image: array<byte>, entries: seq<DtEntry>, start: nat, ghost done: seq<byte>)
    returns (offset: nat)
    requires IsFilled(image, done) && start == |done| && start + ENTRY_SIZE * |entries| <= image.Length
    modifies image
    ensures IsFilled(image, done + EntryTable(entries)) && offset == start + ENTRY_SIZE * |entries|
  {
    offset := start;
    hide IsFilled, EntryBytes;
    assert entries[..0] == [] && done + EntryTable(entries[..0]) == done;
    for c := 0 to |entries|
      invariant offset == start + ENTRY_SIZE * c && IsFilled(image, done + EntryTable(entries[..c]))
    {
      Put(image, offset, EntryBytes(entries[c]), done + EntryTable(entries[..c]));
      offset := offset + ENTRY_SIZE;
      assert entries[..c + 1][..c] == entries[..c];
      assert (done + EntryTable(entries[..c])) + EntryBytes(entries[c]) == done + EntryTable(entries[..c + 1]);
    }
    assert entries[..|entries|] == entries;
  }

  method WriteTrees(image: array<byte>, dtbs: seq<Dtb>, start: nat, page: nat, ghost k: nat, ghost done: seq<byte>)
    requires FitsIn32(dtbs, k) && page == Pow2(k)
    requires IsFilled(image, done) && start == |done| && start + |Blobs(dtbs, page)| <= image.Length
    modifies image
    ensures IsFilled(image, done + Blobs(dtbs, page))
  {
    var offset := start;
    assert dtbs[..0] == [] && done + Blobs(dtbs[..0], page) == done;
    assert dtbs[..|dtbs|] == dtbs;
    hide IsFilled, Blobs, Pow2, RoundUp, MaskUp, FitsIn32;
    for i := 0 to |dtbs|
      invariant offset == start + BlobStart(dtbs, i, page)
      invariant IsFilled(image, done + Blobs(dtbs[..i], page))
    {
      WriteTree(image, dtbs, i, offset, page, k, done);
      PaddedSize(dtbs, i, k);
      offset := offset + MaskUp(|dtbs[i].payload|, page);
    }
  }

  /** Copies tree i; the padding is there already. */
  method WriteTree(image: array<byte>, dtbs: seq<Dtb>, i: nat, offset: nat, page: nat, ghost k: nat,
                   ghost done: seq<byte>)
    requires FitsIn32(dtbs, k) && page == Pow2(k) && i < |dtbs|
    requires IsFilled(image, done + Blobs(dtbs[..i], page))
    requires offset == |done| + BlobStart(dtbs, i, page) && |done| + |Blobs(dtbs, page)| <= image.Length
    modifies image
    ensures IsFilled(image, done + Blobs(dtbs[..i + 1], page))
  {
    PaddedSize(dtbs, i, k);
    BlobStartNext(dtbs, i, page);
    ghost var payload, before := dtbs[i].payload, done + Blobs(dtbs[..i], page);
    ghost var gap := RoundUp(|payload|, page) - |payload|;
    RoundUpIsLeast(|payload|, page);
    assert (before + payload) + Zeros(gap) == done + Blobs(dtbs[..i + 1], page);
    hide IsFilled, Blobs, Pow2, RoundUp, MaskUp, FitsIn32;
    Put(image, offset, dtbs[i].payload, before);
    SkipZeros(image, before + payload, gap);
  }

  /** The header, and the entries behind it. */
  method WriteFront(image: array<byte>, entries: seq<DtEntry>) returns (offset: nat)
    requires IsFilled(image, []) && HEADER_SIZE + ENTRY_SIZE * |entries| <= image.Length
    modifies image
    ensures IsFilled(image, Header(|entries|) + EntryTable(entries))
    ensures offset == HEADER_SIZE + ENTRY_SIZE * |entries|
  {
    hide IsFilled, EntryTable, Le32;
    Put(image, 0, MAGIC, []);
    Put(image, 4, Le32(VERSION), [] + MAGIC);
    Put(image, 8, Le32(|entries|), ([] + MAGIC) + Le32(VERSION));
    assert (([] + MAGIC) + Le32(VERSION)) + Le32(|entries|) == Header(|entries|);
    offset := HEADER_SIZE;
    offset := WriteEntries(image, entries, offset, Header(|entries|));
  }

  /** The header and the entries, with zeros to the next page. */
  ghost function Head(entries: seq<DtEntry>, page: nat): (s: seq<byte>)
    requires page > 0 && HEADER_SIZE + ENTRY_SIZE * |entries| <= CopyStart(|entries|, page)
    ensures |s| == CopyStart(|entries|, page)
  {
    Header(|entries|) + EntryTable(entries) + Zeros(CopyStart(|entries|, page) - HEADER_SIZE - ENTRY_SIZE * |entries|)
  }

  method WriteHead(image: array<byte>, entries: seq<DtEntry>, page: nat, ghost k: nat) returns (offset: nat)
    requires 5 <= k < 32 && page == Pow2(k) && IsFilled(image, [])
    requires HEADER_SIZE + ENTRY_SIZE * |entries| <= CopyStart(|entries|, page) <= image.Length
    modifies image
    ensures IsFilled(image, Head(entries, page)) && offset == CopyStart(|entries|, page)
  {
    offset := WriteFront(image, entries);
    RoomForMarker(|entries|, k);
    AndLowMask(offset, k);
    ShrIsDiv(offset, k);
    ghost var front, gap := Header(|entries|) + EntryTable(entries), CopyStart(|entries|, page) - offset;
    assert Head(entries, page) == front + Zeros(gap);
    hide Pow2, And, Header, EntryTable, IsFilled, CopyStart, Head, Zeros;
    offset := offset + (page - And(offset, page - 1));
    SkipZeros(image, front, gap);
  }

  /** Builds the block in a zeroed buffer. */
  method BuildBlock(entries: seq<DtEntry>, dtbs: seq<Dtb>, page: nat, hdrSize: u32, blobSize: u32, ghost k: nat,
                    ghost order: seq<DtEntry>)
      returns (image: array<byte>)
    requires FitsIn32(dtbs, k) && page == Pow2(k) && dtbs != [] && IsIndexed(order, dtbs)
    requires entries == Placed(order, dtbs, page)
    requires hdrSize == ReservedSize(|dtbs|, page) && blobSize == |Blobs(dtbs, page)|
    ensures fresh(image) && image[..] == Image(order, dtbs, page)
  {
    StartsAreOrdered(|dtbs|, page);
    image := NewBuffer(hdrSize + blobSize);
    var offset := WriteHead(image, entries, page, k);
    hide IsFilled, Head, Blobs, CopyStart, ReservedSize, Placed, Image;
    WriteTrees(image, dtbs, offset, page, k, Head(entries, page));
    SkipZeros(image, Head(entries, page) + Blobs(dtbs, page), ReservedSize(|dtbs|, page) - CopyStart(|dtbs|, page));
    IsImage(image, order, dtbs, page);
  }

  lemma {:induction false} IsImage(image: array<byte>, order: seq<DtEntry>, dtbs: seq<Dtb>, page: nat)
    requires page > 0 && dtbs != [] && IsIndexed(order, dtbs) && image.Length == BufferSize(dtbs, page)
    requires HEADER_SIZE + ENTRY_SIZE * |dtbs| <= CopyStart(|dtbs|, page) <= ReservedSize(|dtbs|, page)
    requires IsFilled(image, Head(Placed(order, dtbs, page), page)
                             + Blobs(dtbs, page) + Zeros(ReservedSize(|dtbs|, page) - CopyStart(|dtbs|, page)))
    ensures image[..] == Image(order, dtbs, page)
  {
    ImageLength(order, dtbs, page);
    hide RoundUp, Blobs, Header, EntryTable, Placed;
    assert image[..|Image(order, dtbs, page)|] == image[..];
  }

  /** Reads the trees, sorts the entries, places the trees and builds the block; without trees there is none. */
  method LoadDtbhBlock(dtbs: seq<Dtb>, page: nat, ghost k: nat) returns (image: array?<byte>, size: nat)
    requires FitsIn32(dtbs, k) && page == Pow2(k)
    ensures image == null <==> dtbs == []
    ensures image != null ==> fresh(image) && size == image.Length
    ensures image != null ==>
      IsArrangement(Sort(NewEntries(dtbs)), dtbs)
      && IsIndexed(Sort(NewEntries(dtbs)), dtbs)
      && image[..] == Image(Sort(NewEntries(dtbs)), dtbs, page)
  {
    size := 0;
    hide Image, Sort, Placed, RoundUp, MaskUp, Blobs, Pow2, And;
    var list, hdrSize, blobSize := ReadTrees(dtbs, page, k);
    if |list| == 0 {
      return null, size;
    }
    StartsAreOrdered(|dtbs|, page);
    hdrSize := hdrSize + 4;
    MaskUpRoundsUp(hdrSize, k);
    hdrSize := MaskUp(hdrSize, page);
    var entries := new DtEntry[|list|](i requires 0 <= i < |list| => list[i]);
    assert entries[..] == list;
    SortEntries(entries);
    ghost var order := entries[..];
    SortPermutes(list);
    Arranged(order, dtbs);
    var offsets := PlaceTrees(dtbs, page, hdrSize, k);
    UpdateEntries(entries, offsets, dtbs, page, k);
    image := BuildBlock(entries[..], dtbs, page, hdrSize, blobSize, k, order);
    size := image.Length;
  }

  // ----- unpacking -----

  /** What the unpacker writes for an entry: the numbers that name the file, and the bytes; None for the bytes if the
      file ends before them. */
  datatype Dump = Dump(chip: u32, platform: u32, subtype: u32, hwRev: u32, hwRevEnd: u32, data: Option<seq<byte>>)

  /** The header is read as one page; the entries that the count promises may not be in it. */
  datatype Unpacked = NoHeader | EntriesBeyondHeader | Unpacked(dumps: seq<Dump>)

  function DumpAt(file: seq<byte>, at: nat): Dump
    requires at + ENTRY_SIZE <= |file|
  {
    var offset, size := FieldAt(file, at + 20), FieldAt(file, at + 24);
    var data := Slice(file, offset, size);
    Dump(FieldAt(file, at), FieldAt(file, at + 4), FieldAt(file, at + 8), FieldAt(file, at + 12),
         FieldAt(file, at + 16), if |data| == size then Some(data) else None)
  }

  function Unpack(file: seq<byte>, page: nat): Unpacked
    requires page >= HEADER_SIZE
  {
    if |file| < page then NoHeader
    else
      var n := FieldAt(file, 8);
      if HEADER_SIZE + ENTRY_SIZE * n > page then EntriesBeyondHeader
      else Unpacked(seq(n, i requires 0 <= i < n => DumpAt(file, HEADER_SIZE + ENTRY_SIZE * i)))
  }

  lemma {:induction false} HeaderFields(file: seq<byte>, page: nat, at: nat)
    requires page <= |file| && at + 4 <= page
    ensures FieldAt(file[..page], at) == FieldAt(file, at)
  {
    assert file[..page][at..at + 4] == file[at..at + 4];
  }

  lemma {:induction false} UnpackEach(file: seq<byte>, page: nat, dumps: seq<Dump>)
    requires HEADER_SIZE <= page <= |file| && FieldAt(file, 8) == |dumps|
    requires HEADER_SIZE + ENTRY_SIZE * |dumps| <= page
    requires forall i :: 0 <= i < |dumps| ==> DumpAt(file, HEADER_SIZE + ENTRY_SIZE * i) == dumps[i]
    ensures Unpack(file, page) == Unpacked(dumps)
  {
    hide DumpAt, FieldAt;
    var r := Unpack(file, page).dumps;
    assert |r| == |dumps| && forall i :: 0 <= i < |dumps| ==> r[i] == dumps[i];
  }

  /** What the unpacker makes of any file: the page it reads the header from, the entries in it, and for each its five
    numbers and the bytes from its offset on, if the file has so many. */
  lemma {:induction false} UnpackGives(file: seq<byte>, page: nat)
    requires page >= 12
    ensures Unpack(file, page) == NoHeader <==> |file| < page
    ensures |file| >= page ==>
              (Unpack(file, page) == EntriesBeyondHeader <==> 12 + 32 * FieldAt(file, 8) > page)
              && (12 + 32 * FieldAt(file, 8) <= page ==>
                    var r := Unpack(file, page);
                    r.Unpacked? && |r.dumps| == FieldAt(file, 8)
                    && forall c :: 0 <= c < |r.dumps| ==> IsDumpAt(file, 12 + 32 * c, r.dumps[c]))
  {
    hide FieldAt;
    if |file| >= page && 12 + 32 * FieldAt(file, 8) <= page {
      forall c | 0 <= c < FieldAt(file, 8)
        ensures IsDumpAt(file, 12 + 32 * c, DumpAt(file, 12 + 32 * c))
      {
        DumpIs(file, 12 + 32 * c);
      }
      hide DumpAt, IsDumpAt;
    }
  }

  predicate IsDumpAt(file: seq<byte>, at: nat, d: Dump)
    requires at + 32 <= |file|
  {
    d.chip == FieldAt(file, at) && d.platform == FieldAt(file, at + 4) && d.subtype == FieldAt(file, at + 8)
    && d.hwRev == FieldAt(file, at + 12) && d.hwRevEnd == FieldAt(file, at + 16)
    && (var offset, size := FieldAt(file, at + 20), FieldAt(file, at + 24);
        d.data == if size == 0 then Some([])
                  else if offset + size <= |file| then Some(file[offset..offset + size]) else None)
  }

  lemma {:induction false} DumpIs(file: seq<byte>, at: nat)
    requires at + ENTRY_SIZE <= |file|
    ensures IsDumpAt(file, at, DumpAt(file, at))
  {
    hide FieldAt;
    var offset, size := FieldAt(file, at + 20), FieldAt(file, at + 24);
    assert |Slice(file, offset, size)| == size <==> size == 0 || offset + size <= |file|;
  }

  lemma {:induction false} UnpackStops(file: seq<byte>, page: nat, i: nat)
    requires HEADER_SIZE <= page <= |file| && i < FieldAt(file, 8)
    requires HEADER_SIZE + ENTRY_SIZE * i + ENTRY_SIZE > page
    ensures Unpack(file, page) == EntriesBeyondHeader
  {}

  method UnpackFile(file: InputFile, page: nat) returns (r: Unpacked)
    requires page >= HEADER_SIZE && file.pos == 0
    modifies file
    ensures r == Unpack(file.data, page)
  {
    var header := file.Read(page);
    if |header| != page {
      return NoHeader;
    }
    assert header == file.data[..page];
    var n := FieldAt(header, 8);
    HeaderFields(file.data, page, 8);
    r := UnpackEntries(file, header, n);
  }

  method UnpackEntries(file: InputFile, header: seq<byte>, n: nat) returns (r: Unpacked)
    requires HEADER_SIZE <= |header| <= |file.data| && header == file.data[..|header|]
    requires n == FieldAt(file.data, 8)
    modifies file
    ensures r == Unpack(file.data, |header|)
  {
    var dumps: seq<Dump> := [];
    hide Slice, FieldAt, DumpAt, Unpack;
    for i := 0 to n
      invariant HEADER_SIZE + ENTRY_SIZE * i <= |header|
      invariant |dumps| == i
      invariant forall j :: 0 <= j < i ==> dumps[j] == DumpAt(file.data, HEADER_SIZE + ENTRY_SIZE * j)
    {
      var at := HEADER_SIZE + ENTRY_SIZE * i;
      if at + ENTRY_SIZE > |header| {
        UnpackStops(file.data, |header|, i);
        return EntriesBeyondHeader;
      }
      var dump := UnpackEntry(file, header, at);
      dumps := dumps + [dump];
    }
    UnpackEach(file.data, |header|, dumps);
    r := Unpacked(dumps);
  }

  method UnpackEntry(file: InputFile, header: seq<byte>, at: nat) returns (dump: Dump)
    requires |header| <= |file.data| && header == file.data[..|header|] && at + ENTRY_SIZE <= |header|
    modifies file
    ensures dump == DumpAt(file.data, at)
  {
    HeaderFields(file.data, |header|, at);
    HeaderFields(file.data, |header|, at + 4);
    HeaderFields(file.data, |header|, at + 8);
    HeaderFields(file.data, |header|, at + 12);
    HeaderFields(file.data, |header|, at + 16);
    HeaderFields(file.data, |header|, at + 20);
    HeaderFields(file.data, |header|, at + 24);
    hide FieldAt, Slice;
    var size := FieldAt(header, at + 24);
    file.Seek(FieldAt(header, at + 20));
    var data := file.Read(size);
    dump := Dump(FieldAt(header, at), FieldAt(header, at + 4), FieldAt(header, at + 8), FieldAt(header, at + 12),
                 FieldAt(header, at + 16), if |data| == size then Some(data) else None);
  }

  // ----- the round trip -----

  /** What should come back for an entry. */
  function DumpOf(dtb: Dtb, page: nat): Dump
    requires page > 0
  {
    Dump(dtb.chip, PLATFORM_CODE, SUBTYPE_CODE, dtb.hwRev, dtb.hwRevEnd, Some(Padded(dtb.payload, page)))
  }

  lemma {:induction false} FieldsOfEntry(e: DtEntry)
    ensures var s := EntryBytes(e);
            s[0..4] == Le32(e.chip) && s[4..8] == Le32(e.platform) && s[8..12] == Le32(e.subtype)
            && s[12..16] == Le32(e.hwRev) && s[16..20] == Le32(e.hwRevEnd)
            && s[20..24] == Le32(e.offset) && s[24..28] == Le32(e.size) && s[28..32] == Le32(e.space)
  {
    hide Le32;
  }

  lemma {:induction false} FieldIs(file: seq<byte>, at: nat, entry: seq<byte>, f: nat, v: nat)
    requires |entry| == ENTRY_SIZE && at + ENTRY_SIZE <= |file| && file[at..at + ENTRY_SIZE] == entry
    requires f + 4 <= ENTRY_SIZE && entry[f..f + 4] == Le32(v)
    ensures FieldAt(file, at + f) == v % TWO_32
  {
    hide Le32;
    SliceOfSlice(file, at, at + ENTRY_SIZE, f, f + 4);
    Le32RoundTrip(v);
  }

  lemma {:induction false} ReadEntry(file: seq<byte>, at: nat, e: DtEntry)
    requires at + ENTRY_SIZE <= |file| && file[at..at + ENTRY_SIZE] == EntryBytes(e)
    requires e.offset < TWO_32 && e.size < TWO_32
    ensures FieldAt(file, at) == e.chip && FieldAt(file, at + 4) == e.platform && FieldAt(file, at + 8) == e.subtype
    ensures FieldAt(file, at + 12) == e.hwRev && FieldAt(file, at + 16) == e.hwRevEnd
    ensures FieldAt(file, at + 20) == e.offset && FieldAt(file, at + 24) == e.size
  {
    FieldsOfEntry(e);
    hide FieldAt, Le32, EntryBytes;
    FieldIs(file, at, EntryBytes(e), 0, e.chip);
    FieldIs(file, at, EntryBytes(e), 4, e.platform);
    FieldIs(file, at, EntryBytes(e), 8, e.subtype);
    FieldIs(file, at, EntryBytes(e), 12, e.hwRev);
    FieldIs(file, at, EntryBytes(e), 16, e.hwRevEnd);
    FieldIs(file, at, EntryBytes(e), 20, e.offset);
    FieldIs(file, at, EntryBytes(e), 24, e.size);
  }

  lemma {:induction false} ReadCount(file: seq<byte>, n: nat)
    requires HEADER_SIZE <= |file| && file[..HEADER_SIZE] == Header(n) && n < TWO_32
    ensures FieldAt(file, 8) == n
  {
    hide Le32;
    assert Header(n)[8..12] == Le32(n);
    assert file[..HEADER_SIZE][8..12] == file[8..12];
    Le32RoundTrip(n);
  }

  lemma {:induction false} DumpOfEntry(file: seq<byte>, at: nat, e: DtEntry)
    requires at + ENTRY_SIZE <= |file| && file[at..at + ENTRY_SIZE] == EntryBytes(e)
    requires e.offset < TWO_32 && e.size < TWO_32 && e.offset + e.size <= |file|
    ensures DumpAt(file, at)
            == Dump(e.chip, e.platform, e.subtype, e.hwRev, e.hwRevEnd, Some(file[e.offset..e.offset + e.size]))
  {
    ReadEntry(file, at, e);
    hide FieldAt, EntryBytes;
  }

  /** The tree of an entry is found where the entry says, if that is right. */
  lemma {:induction false} TreeAtOffset(order: seq<DtEntry>, dtbs: seq<Dtb>, i: nat, e: DtEntry, page: nat)
    requires page > 0 && IsIndexed(order, dtbs) && i < |dtbs|
    requires BufferSize(dtbs, page) < TWO_32
    requires e.offset == CopyOffset(dtbs, i, page) && e.size == RoundUp(|dtbs[i].payload|, page)
    ensures e.offset < TWO_32 && e.size < TWO_32 && e.offset + e.size <= |Image(order, dtbs, page)|
    ensures Image(order, dtbs, page)[e.offset..e.offset + e.size] == Padded(dtbs[i].payload, page)
  {
    hide IsIndexed, Image, RoundUp, BlobStart, Blobs, CopyStart, ReservedSize, Padded;
    BlobInImage(order, dtbs, i, page);
    CopiesFit(dtbs, i, page);
  }

  /** Entry c comes back, with its tree padded to a page, when its recorded offset is right. */
  lemma {:induction false} EntryComesBack(order: seq<DtEntry>, dtbs: seq<Dtb>, c: nat, page: nat)
    requires page > 0 && IsIndexed(order, dtbs) && c < |order|
    requires BufferSize(dtbs, page) < TWO_32
    requires ReservedSize(|dtbs|, page) == CopyStart(|dtbs|, page)
    ensures HEADER_SIZE + ENTRY_SIZE * c + ENTRY_SIZE <= |Image(order, dtbs, page)|
    ensures DumpAt(Image(order, dtbs, page), HEADER_SIZE + ENTRY_SIZE * c) == DumpOf(dtbs[order[c].blob], page)
  {
    var i := order[c].blob;
    var e, image := Place(order[c], dtbs, page), Image(order, dtbs, page);
    hide IsIndexed, Image, EntryBytes, DumpAt, RoundUp, BlobStart, Blobs, CopyStart, ReservedSize, Padded;
    EntryInImage(order, dtbs, c, page);
    TreeAtOffset(order, dtbs, i, e, page);
    DumpOfEntry(image, HEADER_SIZE + ENTRY_SIZE * c, e);
  }

  /** The first bytes of a block. */
  lemma {:induction false} BlockHeader(order: seq<DtEntry>, dtbs: seq<Dtb>, page: nat)
    requires page > 0 && dtbs != [] && IsIndexed(order, dtbs) && |dtbs| < 0x1_0000_0000
    ensures var image := Image(order, dtbs, page);
            |image| >= 12 && image[..4] == [0x44, 0x54, 0x42, 0x48]
            && FieldAt(image, 4) == 2 && FieldAt(image, 8) == |dtbs|
  {
    EntryInImage(order, dtbs, 0, page);
    HeaderIs(Image(order, dtbs, page), |dtbs|);
  }

  lemma {:induction false} HeaderIs(image: seq<byte>, n: nat)
    requires |image| >= 12 && image[..12] == Header(n) && n < 0x1_0000_0000
    ensures image[..4] == [0x44, 0x54, 0x42, 0x48] && FieldAt(image, 4) == 2 && FieldAt(image, 8) == n
  {
    hide Le32;
    var h := Header(n);
    assert h[..4] == MAGIC && h[4..8] == Le32(2) && h[8..12] == Le32(n);
    assert image[..4] == h[..4] && image[4..8] == h[4..8] && image[8..12] == h[8..12];
    Le32RoundTrip(2);
    Le32RoundTrip(n);
  }

  /** The bytes of entry c: the numbers of its own tree, the fixed codes, and what is recorded about its place. */
  lemma {:induction false} BlockEntry(order: seq<DtEntry>, dtbs: seq<Dtb>, c: nat, page: nat)
    requires page > 0 && IsIndexed(order, dtbs) && c < |order| && BufferSize(dtbs, page) < 0x1_0000_0000
    ensures var n, i, at, image := |dtbs|, order[c].blob, 12 + 32 * c, Image(order, dtbs, page);
            at + 32 <= |image| && i < n
            && FieldAt(image, at) == dtbs[i].chip && FieldAt(image, at + 4) == 0x50a6
            && FieldAt(image, at + 8) == 0x217584da && FieldAt(image, at + 12) == dtbs[i].hwRev
            && FieldAt(image, at + 16) == dtbs[i].hwRevEnd
            && FieldAt(image, at + 20) == RoundUp(16 + 16 * n * (n + 1), page) + BlobStart(dtbs, i, page)
            && FieldAt(image, at + 24) == RoundUp(|dtbs[i].payload|, page) && FieldAt(image, at + 28) == 0x20
  {
    var i, at, image, e := order[c].blob, 12 + 32 * c, Image(order, dtbs, page), Place(order[c], dtbs, page);
    EntryInImage(order, dtbs, c, page);
    BlobEndsInside(dtbs, i, page);
    hide Image, EntryBytes, FieldAt, RoundUp, BlobStart, IsIndexed;
    ReadEntry(image, at, e);
    FieldsOfEntry(e);
    FieldIs(image, at, EntryBytes(e), 28, e.space);
  }

  lemma {:induction false} BlobEndsInside(dtbs: seq<Dtb>, i: nat, page: nat)
    requires page > 0 && i < |dtbs|
    ensures ReservedSize(|dtbs|, page) + BlobStart(dtbs, i, page) + RoundUp(|dtbs[i].payload|, page)
            <= BufferSize(dtbs, page)
  {
    BlobStartNext(dtbs, i, page);
    BlobStartsOrdered(dtbs, i + 1, |dtbs|, page);
    assert dtbs[..|dtbs|] == dtbs;
  }

  /** Tree i is in the block as it is, followed by zeros to the next tree; the first one begins at the page behind the
      entries. */
  lemma {:induction false} BlockTree(order: seq<DtEntry>, dtbs: seq<Dtb>, i: nat, page: nat)
    requires page > 0 && IsIndexed(order, dtbs) && i < |dtbs|
    ensures CopyOffset(dtbs, 0, page) == RoundUp(12 + 32 * |dtbs|, page)
    ensures CopyOffset(dtbs, i + 1, page) == CopyOffset(dtbs, i, page) + RoundUp(|dtbs[i].payload|, page)
    ensures var image, at, next := Image(order, dtbs, page), CopyOffset(dtbs, i, page), CopyOffset(dtbs, i + 1, page);
            at + |dtbs[i].payload| <= next <= |image| && image[at..at + |dtbs[i].payload|] == dtbs[i].payload
            && forall k :: at + |dtbs[i].payload| <= k < next ==> image[k] == 0
  {
    assert dtbs[..0] == [];
    BlobInImage(order, dtbs, i, page);
    BlobStartNext(dtbs, i, page);
    var payload, image, at := dtbs[i].payload, Image(order, dtbs, page), CopyOffset(dtbs, i, page);
    RoundUpIsLeast(|payload|, page);
    var size := RoundUp(|payload|, page);
    var padded := Padded(payload, page);
    assert padded == payload + Zeros(size - |payload|);
    hide Image, RoundUp, CopyStart, BlobStart, Blobs, IsIndexed, Padded;
    assert image[at..at + size] == padded;
    SliceOfSlice(image, at, at + size, 0, |payload|);
    forall k | at + |payload| <= k < at + size
      ensures image[k] == 0
    {
      assert image[k] == padded[k - at];
    }
  }

  /** Unpacking a packed block gives back every tree, padded with zeros to a page, in the order of the entries, as long
      as the header as it is added up fits one page. */
  lemma {:induction false} RoundTrip(order: seq<DtEntry>, dtbs: seq<Dtb>, page: nat)
    requires page >= HEADER_SIZE && IsArrangement(order, dtbs) && dtbs != [] && BufferSize(dtbs, page) < TWO_32
    requires 16 + 16 * |dtbs| * (|dtbs| + 1) <= page
    ensures IsIndexed(order, dtbs)
    ensures Unpack(Image(order, dtbs, page), page)
            == Unpacked(seq(|dtbs|, c requires 0 <= c < |order| => DumpOf(dtbs[order[c].blob], page)))
  {
    Arranged(order, dtbs);
    var n := |dtbs|;
    StartsAreOrdered(n, page);
    OffsetsRightOnOnePage(n, page);
    ImageLength(order, dtbs, page);
    EntryInImage(order, dtbs, 0, page);
    var image := Image(order, dtbs, page);
    assert HEADER_SIZE + ENTRY_SIZE * n <= page;
    hide DumpAt, DumpOf, Image, FieldAt, RoundUp, Header, EntryBytes, CopyStart, ReservedSize;
    ReadCount(image, n);
    var dumps := seq(n, c requires 0 <= c < |order| => DumpOf(dtbs[order[c].blob], page));
    forall c | 0 <= c < n
      ensures DumpAt(image, HEADER_SIZE + ENTRY_SIZE * c) == dumps[c]
    {
      EntryComesBack(order, dtbs, c, page);
    }
    UnpackEach(image, page, dumps);
  }

  lemma {:induction false} TreeIsInOrder(order: seq<DtEntry>, dtbs: seq<Dtb>, i: nat) returns (c: nat)
    requires IsArrangement(order, dtbs) && i < |dtbs|
    ensures c < |order| && order[c].blob == i
  {
    Arranged(order, dtbs);
    c :| c < |order| && order[c] == NewEntry(dtbs[i], i);
  }

  /** What the packer builds unpacks to every tree, in the order of chip and revision when those are below 2^31. */
  lemma {:induction false} PackedComesBackInOrder(dtbs: seq<Dtb>, page: nat)
    requires page >= HEADER_SIZE && dtbs != [] && BufferSize(dtbs, page) < TWO_32
    requires 16 + 16 * |dtbs| * (|dtbs| + 1) <= page
    requires forall i :: 0 <= i < |dtbs| ==> dtbs[i].chip < 0x8000_0000 && dtbs[i].hwRev < 0x8000_0000
    ensures IsIndexed(Sort(NewEntries(dtbs)), dtbs)
    ensures var r := Unpack(Image(Sort(NewEntries(dtbs)), dtbs, page), page);
            r.Unpacked? && |r.dumps| == |dtbs|
            && (forall i, j :: 0 <= i < j < |dtbs| ==>
                  r.dumps[i].chip < r.dumps[j].chip
                  || (r.dumps[i].chip == r.dumps[j].chip && r.dumps[i].hwRev <= r.dumps[j].hwRev))
            && (forall i :: 0 <= i < |dtbs| ==> DumpOf(dtbs[i], page) in r.dumps)
  {
    var es := NewEntries(dtbs);
    var order := Sort(es);
    SortSortsSmall(es);
    Arranged(order, dtbs);
    RoundTrip(order, dtbs, page);
    hide Sort, NewEntries, Image, Unpack, Padded, IsArrangement;
    var dumps := Unpack(Image(order, dtbs, page), page).dumps;
    forall i, j | 0 <= i < j < |dtbs|
      ensures dumps[i].chip < dumps[j].chip || (dumps[i].chip == dumps[j].chip && dumps[i].hwRev <= dumps[j].hwRev)
    {
      assert !IsBefore(order[j], order[i]);
    }
    forall i | 0 <= i < |dtbs|
      ensures DumpOf(dtbs[i], page) in dumps
    {
      hide DumpOf;
      var c := TreeIsInOrder(order, dtbs, i);
      assert dumps[c] == DumpOf(dtbs[order[c].blob], page);
    }
  }
}
