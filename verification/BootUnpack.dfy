/** The unpacker of boot images, and what it gets back from a packed one. */
module BootUnpack {
  import opened Bits
  import opened ByteImage
  import opened BootImage

  // ----- the scan for the magic -----

  /** A buffer after a read that may have come up short. */
  function Overlay(r: seq<byte>, buffer: seq<byte>): (s: seq<byte>)
    requires |r| <= |buffer|
    ensures |s| == |buffer|
  {
    r + buffer[|r|..]
  }

  /** The first offset from i on at which the magic is read, up to offset 512.  The buffer is read into again and
      again. */
  function Scan(file: seq<byte>, buffer: seq<byte>, i: nat): Option<nat>
    requires |buffer| == |MAGIC|
    decreases LAST_OFFSET + 1 - i
  {
    if i > LAST_OFFSET then None
    else
      var b := Overlay(Slice(file, i, |MAGIC|), buffer);
      if b == MAGIC then Some(i) else Scan(file, b, i + 1)
  }

  predicate IsAt(file: seq<byte>, at: nat, s: seq<byte>) { at + |s| <= |file| && file[at..at + |s|] == s }

  lemma {:induction false} ScanFrom(file: seq<byte>, buffer: seq<byte>, i: nat, at: nat)
    requires |buffer| == |MAGIC| && i <= at <= LAST_OFFSET && IsAt(file, at, MAGIC)
    ensures Scan(file, buffer, i) == Some(at) <==> forall j :: i <= j < at ==> !IsAt(file, j, MAGIC)
    ensures Scan(file, buffer, i).Some? && i <= Scan(file, buffer, i).value <= at
    decreases at - i
  {
    var b := Overlay(Slice(file, i, |MAGIC|), buffer);
    assert b == file[i..i + |MAGIC|];
    assert IsAt(file, i, MAGIC) <==> b == MAGIC;
    if i < at && b != MAGIC {
      ScanFrom(file, b, i + 1, at);
    }
  }

  /** No end of the magic is also its beginning: only its first letter is an A. */
  lemma {:induction false} MagicHasNoBorder(d: nat)
    requires 0 < d < |MAGIC|
    ensures MAGIC[d] != MAGIC[0]
  {}

  /** The image behind a prefix is found exactly when the prefix has no magic of its own. */
  lemma {:induction false} FoundExactlyWhen(prefix: seq<byte>, image: seq<byte>, buffer: seq<byte>)
    requires |prefix| <= LAST_OFFSET && |buffer| == |MAGIC| && IsAt(image, 0, MAGIC)
    ensures Scan(prefix + image, buffer, 0) == Some(|prefix|)
            <==> forall j :: 0 <= j < |prefix| ==> !IsAt(prefix, j, MAGIC)
  {
    var file := prefix + image;
    assert file[|prefix|..|prefix| + |MAGIC|] == image[0..|MAGIC|];
    ScanFrom(file, buffer, 0, |prefix|);
    forall j | 0 <= j < |prefix|
      ensures IsAt(file, j, MAGIC) <==> IsAt(prefix, j, MAGIC)
    {
      if j + |MAGIC| <= |prefix| {
        assert file[j..j + |MAGIC|] == prefix[j..j + |MAGIC|];
      } else {
        MagicHasNoBorder(|prefix| - j);
        assert file[j..j + |MAGIC|][|prefix| - j] == file[|prefix|] == image[0..|MAGIC|][0];
      }
    }
  }

  /** Behind the last eight bytes a read leaves the end of an earlier one in the buffer, and that never makes up the
      magic, since its last letter is in it only once. */
  lemma {:induction false} ScanTail(file: seq<byte>, buffer: seq<byte>, i: nat)
    requires |file| >= |MAGIC| == |buffer| && i + |MAGIC| > |file|
    requires buffer != MAGIC && buffer[7] == file[|file| - 1]
    ensures Scan(file, buffer, i) == None
    decreases LAST_OFFSET + 1 - i
  {
    if i <= LAST_OFFSET {
      var r := Slice(file, i, |MAGIC|);
      var b := Overlay(r, buffer);
      if i < |file| {
        assert b[7] == file[|file| - 1] && b[|r| - 1] == file[|file| - 1];
        assert MAGIC[|r| - 1] != MAGIC[7];
      } else {
        assert b == buffer;
      }
      ScanTail(file, b, i + 1);
    }
  }

  /** In any file of eight bytes or more, whatever the buffer held, the scan finds the first offset up to 512 at which
      the magic is, and nothing else. */
  lemma {:induction false} ScanExactlyWhen(file: seq<byte>, buffer: seq<byte>, i: nat)
    requires |file| >= |MAGIC| == |buffer| && i + |MAGIC| <= |file|
    ensures match Scan(file, buffer, i)
            case None => forall j :: i <= j <= 512 ==> !IsAt(file, j, MAGIC)
            case Some(at) =>
              i <= at <= 512 && IsAt(file, at, MAGIC) && forall j :: i <= j < at ==> !IsAt(file, j, MAGIC)
    decreases LAST_OFFSET + 1 - i
  {
    if i <= LAST_OFFSET {
      var b := Overlay(Slice(file, i, |MAGIC|), buffer);
      assert b == file[i..i + |MAGIC|];
      assert IsAt(file, i, MAGIC) <==> b == MAGIC;
      if b != MAGIC {
        hide Slice, Overlay;
        if i + 1 + |MAGIC| <= |file| {
          hide IsAt;
          ScanExactlyWhen(file, b, i + 1);
        } else {
          ScanTail(file, b, i + 1);
          assert forall j :: i + 1 <= j ==> !IsAt(file, j, MAGIC);
        }
      }
    }
  }

  // ----- reading on -----

  function SkipPadding(file: seq<byte>, pos: nat, size: nat, page: nat): nat
    requires page > 0
  {
    var rest := And(size, page - 1);
    if rest == 0 then pos else pos + |Slice(file, pos, page - rest)|
  }

  /** A section, or None if the file ends before it, and the position behind its padding. */
  function ReadSection(file: seq<byte>, pos: nat, size: nat, page: nat): (Option<seq<byte>>, nat)
    requires page > 0
  {
    var s := Slice(file, pos, size);
    (if |s| == size then Some(s) else None, SkipPadding(file, pos + |s|, size, page))
  }

  /** What is read; `at` is where the image was found, `dtAt` where the device tree is taken to start.  A header that is
      cut off, and a page size that is no positive int, are not read on from. */
  datatype Contents =
    | NotFound
    | ShortHeader(at: nat)
    | BadPageSize(at: nat)
    | Contents(at: nat, header: Hdr, cmdline: seq<byte>, offsets: Offsets, sections: Sections)

  datatype Sections = Sections(
    kernel: Option<seq<byte>>, ramdisk: Option<seq<byte>>, second: Option<seq<byte>>, dt: Option<seq<byte>>,
    signature: Option<seq<byte>>, dtAt: nat)

  function ReadSections(file: seq<byte>, pos: nat, h: Hdr, page: nat): Sections
    requires page > 0
  {
    var (kernel, p1) := ReadSection(file, pos, h.kernelSize, page);
    var (ramdisk, p2) := ReadSection(file, p1, h.ramdiskSize, page);
    var (second, p3) := ReadSection(file, p2, h.secondSize, page);
    var (dt, p4) := ReadSection(file, p3, h.dtSize, page);
    var s := Slice(file, p4, SIGNATURE_SIZE);
    Sections(kernel, ramdisk, second, dt, if |s| == SIGNATURE_SIZE then Some(s) else None, p3)
  }

  /** `pageSize` is the one asked for, or 0 to take the header's. */
  function Unpack(file: seq<byte>, buffer: seq<byte>, pageSize: u32): Contents
    requires |buffer| == |MAGIC|
  {
    match Scan(file, buffer, 0)
    case None => NotFound
    case Some(at) =>
      var bytes := Slice(file, at, HEADER_SIZE);
      if |bytes| < HEADER_SIZE then ShortHeader(at)
      else
        var h := HdrOf(bytes);
        var page := if pageSize == 0 then h.pageSize else pageSize;
        if page == 0 || page >= 0x8000_0000 then BadPageSize(at)
        else
          Contents(at, h, CString(h.cmdline), OffsetsOf(h.addresses),
                   ReadSections(file, SkipPadding(file, at + HEADER_SIZE, HEADER_SIZE, page), h, page))
  }

  /** How the unpacker ends on any file of eight bytes or more. */
  lemma {:induction false} UnpackOutcome(file: seq<byte>, buffer: seq<byte>, pageSize: u32)
    requires |file| >= 8 == |buffer|
    ensures Unpack(file, buffer, pageSize) == NotFound <==> forall j :: 0 <= j <= 512 ==> !IsAt(file, j, MAGIC)
    ensures var c := Unpack(file, buffer, pageSize);
            !c.NotFound? ==>
              c.at <= 512 && IsAt(file, c.at, MAGIC) && (forall j :: 0 <= j < c.at ==> !IsAt(file, j, MAGIC))
              && (c.ShortHeader? <==> |file| < c.at + 608)
              && (|file| >= c.at + 608 ==>
                    var page := if pageSize == 0 then FieldAt(file, c.at + 36) else pageSize;
                    c.BadPageSize? <==> page == 0 || page >= 0x8000_0000)
  {
    ScanExactlyWhen(file, buffer, 0);
    hide Scan, IsAt, ReadSections, SkipPadding, CString, OffsetsOf, HdrOf, FieldAt;
    match Scan(file, buffer, 0)
    case None =>
    case Some(at) =>
      if |file| >= at + 608 {
        PageSizeAt(file, at);
      }
  }

  lemma {:induction false} PageSizeAt(file: seq<byte>, at: nat)
    requires at + HEADER_SIZE <= |file|
    ensures HdrOf(Slice(file, at, HEADER_SIZE)).pageSize == FieldAt(file, at + 36)
  {
    SliceOfSlice(file, at, at + HEADER_SIZE, 36, 40);
  }

  /** A section is the bytes from a position in the file on, if there are so many. */
  lemma {:induction false} SectionIs(file: seq<byte>, pos: nat, size: nat, page: nat)
    requires page > 0 && pos <= |file|
    ensures ReadSection(file, pos, size, page).0
            == if pos + size <= |file| then Some(file[pos..pos + size]) else None
  {}

  /** Reads as many bytes as the buffer has, or what is left of the file. */
  method ReadInto(f: InputFile, tmp: array<byte>)
    modifies f, tmp
    ensures tmp[..] == Overlay(Slice(f.data, old(f.pos), tmp.Length), old(tmp[..]))
  {
    ghost var buffer := tmp[..];
    var r := f.Read(tmp.Length);
    hide Slice;
    for j := 0 to |r|
      invariant forall k :: 0 <= k < j ==> tmp[k] == r[k]
      invariant forall k :: j <= k < tmp.Length ==> tmp[k] == buffer[k]
    {
      tmp[j] := r[j];
    }
    assert tmp[..] == Overlay(r, buffer);
  }

  method ScanForMagic(f: InputFile, tmp: array<byte>) returns (found: Option<nat>)
    requires tmp.Length == |MAGIC|
    modifies f, tmp
    ensures found == Scan(f.data, old(tmp[..]), 0)
  {
    hide Slice, Overlay;
    for i := 0 to LAST_OFFSET + 1
      invariant Scan(f.data, old(tmp[..]), 0) == Scan(f.data, tmp[..], i)
    {
      f.Seek(i);
      ReadInto(f, tmp);
      if tmp[..] == MAGIC {
        return Some(i);
      }
    }
    return None;
  }

  method ReadPadding(f: InputFile, size: u32, page: u32)
    requires page > 0
    modifies f
    ensures f.pos == SkipPadding(f.data, old(f.pos), size, page)
  {
    if And(size, page - 1) != 0 {
      var _ := f.Read(page - And(size, page - 1));
    }
  }

  method ReadPart(f: InputFile, size: u32, page: u32) returns (data: Option<seq<byte>>)
    requires page > 0
    modifies f
    ensures (data, f.pos) == ReadSection(f.data, old(f.pos), size, page)
  {
    var s := f.Read(size);
    data := if |s| == size then Some(s) else None;
    ReadPadding(f, size, page);
  }

  method ReadParts(f: InputFile, h: Hdr, page: u32) returns (r: Sections)
    requires page > 0
    modifies f
    ensures r == ReadSections(f.data, old(f.pos), h, page)
  {
    hide Slice, ReadSection;
    var kernel := ReadPart(f, h.kernelSize, page);
    var ramdisk := ReadPart(f, h.ramdiskSize, page);
    var second := ReadPart(f, h.secondSize, page);
    var dtAt := f.pos;
    var dt := ReadPart(f, h.dtSize, page);
    var s := f.Read(SIGNATURE_SIZE);
    var signature := if |s| == SIGNATURE_SIZE then Some(s) else None;
    return Sections(kernel, ramdisk, second, dt, signature, dtAt);
  }

  method UnpackBootImg(f: InputFile, tmp: array<byte>, pageSize: u32) returns (c: Contents)
    requires tmp.Length == |MAGIC|
    modifies f, tmp
    ensures c == Unpack(f.data, old(tmp[..]), pageSize)
  {
    hide SkipPadding, ReadSections, HdrOf, Scan, CString, OffsetsOf;
    var found := ScanForMagic(f, tmp);
    if found == None {
      return NotFound;
    }
    f.Seek(found.value);
    var bytes := f.Read(HEADER_SIZE);
    if |bytes| < HEADER_SIZE {
      return ShortHeader(found.value);
    }
    var h := HdrOf(bytes);
    var page := if pageSize == 0 then h.pageSize else pageSize;
    if page == 0 || page >= 0x8000_0000 {
      return BadPageSize(found.value);
    }
    ReadPadding(f, HEADER_SIZE, page);
    var sections := ReadParts(f, h, page);
    return Contents(found.value, h, CString(h.cmdline), OffsetsOf(h.addresses), sections);
  }

  // ----- what comes back -----

  /** Padding is skipped as it was written. */
  lemma {:induction false} PaddingSkipped(file: seq<byte>, pos: nat, size: nat, page: u32)
    requires IsPageSize(page) && pos + Missing(size, page) <= |file|
    ensures SkipPadding(file, pos, size, page) == pos + Missing(size, page)
  {
    MaskIsRemainder(size, page);
  }

  lemma {:induction false} SectionRead(file: seq<byte>, pos: nat, s: seq<byte>, page: u32)
    requires IsPageSize(page) && IsAt(file, pos, s + Pad(|s|, page))
    ensures ReadSection(file, pos, |s|, page) == (Some(s), pos + |s| + Missing(|s|, page))
  {
    assert file[pos..pos + |s|] == (s + Pad(|s|, page))[..|s|];
    PaddingSkipped(file, pos + |s|, |s|, page);
  }

  /** The parts of a concatenation are where they are expected. */
  lemma {:induction false} IsAtNext(file: seq<byte>, a: seq<byte>, b: seq<byte>, rest: seq<byte>)
    requires file == a + b + rest
    ensures IsAt(file, |a|, b)
  {}

  lemma {:induction false} TailRead(file: seq<byte>, pos: nat, tail: seq<byte>)
    requires IsAt(file, pos, tail) && pos + |tail| == |file|
    ensures |Slice(file, pos, SIGNATURE_SIZE)| == SIGNATURE_SIZE <==> |tail| >= SIGNATURE_SIZE
    ensures |tail| >= SIGNATURE_SIZE ==> Slice(file, pos, SIGNATURE_SIZE) == tail[..SIGNATURE_SIZE]
  {}

  function Padded(s: seq<byte>, page: nat): seq<byte>
    requires page > 0
  {
    s + Pad(|s|, page)
  }

  /** All sections have been read; the signature is taken from what follows the device tree. */
  predicate HasSections(r: Sections, kernel: seq<byte>, ramdisk: seq<byte>, second: seq<byte>, dt: seq<byte>,
                        tail: seq<byte>) {
    r.kernel == Some(kernel) && r.ramdisk == Some(ramdisk) && r.second == Some(second) && r.dt == Some(dt)
    && r.signature == (if |tail| >= 256 then Some(tail[..256]) else None)
  }

  /** Five sections behind one another; behind the last may be anything. */
  lemma {:induction false} SectionsRead(file: seq<byte>, front: seq<byte>, h: Hdr, page: u32,
                                        kernel: seq<byte>, ramdisk: seq<byte>, second: seq<byte>, dt: seq<byte>,
                                        tail: seq<byte>)
    requires IsPageSize(page)
    requires h.kernelSize == |kernel| && h.ramdiskSize == |ramdisk| && h.secondSize == |second| && h.dtSize == |dt|
    requires file
             == front + Padded(kernel, page) + Padded(ramdisk, page) + Padded(second, page) + Padded(dt, page) + tail
    ensures HasSections(ReadSections(file, |front|, h, page), kernel, ramdisk, second, dt, tail)
  {
    hide ReadSection, Slice;
    var f1 := front + Padded(kernel, page);
    var f2 := f1 + Padded(ramdisk, page);
    var f3 := f2 + Padded(second, page);
    var f4 := f3 + Padded(dt, page);
    ReadBehind(file, front, kernel, page, Padded(ramdisk, page) + Padded(second, page) + Padded(dt, page) + tail);
    ReadBehind(file, f1, ramdisk, page, Padded(second, page) + Padded(dt, page) + tail);
    ReadBehind(file, f2, second, page, Padded(dt, page) + tail);
    ReadBehind(file, f3, dt, page, tail);
    hide Padded;
    TailRead(file, |f4|, tail);
  }

  lemma {:induction false} ReadBehind(file: seq<byte>, front: seq<byte>, s: seq<byte>, page: u32, rest: seq<byte>)
    requires IsPageSize(page) && file == front + Padded(s, page) + rest
    ensures ReadSection(file, |front|, |s|, page) == (Some(s), |front + Padded(s, page)|)
  {
    hide ReadSection;
    IsAtNext(file, front, Padded(s, page), rest);
    SectionRead(file, |front|, s, page);
  }

  /** Padding is skipped up to the end of the file. */
  lemma {:induction false} ReadToPadding(file: seq<byte>, front: seq<byte>, s: seq<byte>, page: u32, rest: seq<byte>)
    requires IsPageSize(page) && file == front + s + rest
    ensures ReadSection(file, |front|, |s|, page).1
            == |front + s| + if Missing(|s|, page) <= |rest| then Missing(|s|, page) else |rest|
  {
    MaskIsRemainder(|s|, page);
    hide And;
    IsAtNext(file, front, s, rest);
  }

  /** Where the device tree is taken to start. */
  lemma {:induction false} DtReadAt(file: seq<byte>, front: seq<byte>, h: Hdr, page: u32,
                                    kernel: seq<byte>, ramdisk: seq<byte>, second: seq<byte>, rest: seq<byte>)
    requires IsPageSize(page)
    requires h.kernelSize == |kernel| && h.ramdiskSize == |ramdisk| && h.secondSize == |second|
    requires file == front + Padded(kernel, page) + Padded(ramdisk, page) + second + rest
    ensures ReadSections(file, |front|, h, page).dtAt
            == |front + Padded(kernel, page) + Padded(ramdisk, page) + second|
               + if Missing(|second|, page) <= |rest| then Missing(|second|, page) else |rest|
  {
    hide ReadSection, Missing;
    var f1 := front + Padded(kernel, page);
    var f2 := f1 + Padded(ramdisk, page);
    ReadBehind(file, front, kernel, page, Padded(ramdisk, page) + second + rest);
    ReadBehind(file, f1, ramdisk, page, second + rest);
    hide Padded;
    ReadToPadding(file, f2, second, page, rest);
  }

  // ----- the theorems -----

  /** An image that can be found behind a prefix: the prefix is short and the magic does not occur in it.  The command
      line is a C string. */
  predicate IsFindable(prefix: seq<byte>, p: Parts) {
    IsLoaded(p) && IsAccepted(p) && 0 !in p.cmdline
    && |prefix| <= LAST_OFFSET && forall j :: 0 <= j < |prefix| ==> !IsAt(prefix, j, MAGIC)
  }

  /** What was packed has been read at an offset; the signature is taken from what follows the device tree. */
  predicate GivesBack(c: Contents, p: Parts, at: nat, tail: seq<byte>) {
    c.Contents? && c.at == at && c.cmdline == p.cmdline && c.offsets == OffsetsOf(AddressesOf(p.offsets))
    && HeaderGivesBack(c.header, p)
    && HasSections(c.sections, p.kernel, p.ramdisk, match p.second case None => [] case Some(x) => x,
                   match p.dt case None => [] case Some(x) => x, tail)
  }

  /** The header says what the parts are. */
  predicate HeaderGivesBack(h: Hdr, p: Parts) {
    h.kernelSize == |p.kernel| && h.ramdiskSize == |p.ramdisk| && h.pageSize == p.page && h.id == p.id
    && h.secondSize == (match p.second case None => 0 case Some(x) => |x|)
    && h.dtSize == (match p.dt case None => 0 case Some(x) => |x|)
    && h.addresses.kernel == (p.offsets.base + p.offsets.kernel) % 0x1_0000_0000
    && h.addresses.ramdisk == (p.offsets.base + p.offsets.ramdisk) % 0x1_0000_0000
    && h.addresses.second == (p.offsets.base + p.offsets.second) % 0x1_0000_0000
    && h.addresses.tags == (p.offsets.base + p.offsets.tags) % 0x1_0000_0000
    && (0 !in p.board ==> CString(h.name) == p.board) && (0 !in p.cmdline ==> CString(h.cmdline) == p.cmdline)
  }

  lemma {:induction false} HeaderIsRight(p: Parts)
    requires IsLoaded(p) && IsAccepted(p)
    ensures HeaderGivesBack(HdrFor(p), p)
  {
    HdrForIs(p);
    if 0 !in p.board {
      CStringOfField(p.board, NAME_SIZE);
    }
    if 0 !in p.cmdline {
      CStringOfField(p.cmdline, ARGS_SIZE);
    }
    hide CString, Field, AddressesOf;
  }

  lemma {:induction false} PadOfNothing(page: nat)
    requires page > 0
    ensures Pad(0, page) == [] && Padded([], page) == []
  {
    DivModUnique(0, page, 0, 0);
  }

  lemma {:induction false} BackIsPadded(p: Parts)
    requires p.page > 0
    requires p.second.Some? ==> Missing(|p.second.value|, p.page) == Missing(|p.ramdisk|, p.page)
    ensures SecondSection(p) == Padded(OrEmpty(p.second), p.page) && DtSection(p) == Padded(OrEmpty(p.dt), p.page)
  {
    PadOfNothing(p.page);
    hide Missing;
  }

  /** The front of an image, as the sections that are read from it. */
  lemma {:induction false} FrontIs(prefix: seq<byte>, p: Parts)
    requires IsLoaded(p) && IsAccepted(p)
    ensures prefix + Front(p)
            == prefix + HdrBytes(HdrFor(p)) + Pad(HEADER_SIZE, p.page)
               + Padded(p.kernel, p.page) + Padded(p.ramdisk, p.page)
  {
    hide HdrBytes, Pad;
  }

  /** The header is found and read. */
  lemma {:induction false} HeaderComesBack(prefix: seq<byte>, p: Parts, rest: seq<byte>, buffer: seq<byte>)
    requires IsFindable(prefix, p) && |buffer| == |MAGIC|
    ensures var front := prefix + HdrBytes(HdrFor(p)) + Pad(HEADER_SIZE, p.page);
            Unpack(front + rest, buffer, 0)
            == Contents(|prefix|, HdrFor(p), p.cmdline, OffsetsOf(AddressesOf(p.offsets)),
                        ReadSections(front + rest, |front|, HdrFor(p), p.page))
  {
    hide HdrBytes, ReadSections, CString, OffsetsOf, AddressesOf, Pad, Unpack;
    FrontRead(prefix, HdrFor(p), p.page, 0, rest, buffer);
    CStringOfField(p.cmdline, ARGS_SIZE);
  }

  lemma {:induction false} FrontRead(prefix: seq<byte>, h: Hdr, page: u32, pageSize: u32, rest: seq<byte>,
                                     buffer: seq<byte>)
    requires |prefix| <= LAST_OFFSET && forall j :: 0 <= j < |prefix| ==> !IsAt(prefix, j, MAGIC)
    requires IsHdr(h) && IsPageSize(page) && |buffer| == |MAGIC|
    requires page == if pageSize == 0 then h.pageSize else pageSize
    ensures var front := prefix + HdrBytes(h) + Pad(HEADER_SIZE, page);
            Unpack(front + rest, buffer, pageSize)
            == Contents(|prefix|, h, CString(h.cmdline), OffsetsOf(h.addresses),
                        ReadSections(front + rest, |front|, h, page))
  {
    hide HdrBytes, HdrOf, ReadSections, CString, OffsetsOf, Scan, Pad;
    var pad := Pad(HEADER_SIZE, page);
    var file := prefix + HdrBytes(h) + pad + rest;
    MagicComesBack(prefix, HdrBytes(h), pad + rest, buffer, h);
    assert file == prefix + HdrBytes(h) + (pad + rest);
    HdrRoundTrip(h);
    PaddingSkipped(file, |prefix| + HEADER_SIZE, HEADER_SIZE, page);
  }

  lemma {:induction false} MagicComesBack(prefix: seq<byte>, bytes: seq<byte>, rest: seq<byte>, buffer: seq<byte>,
                                          h: Hdr)
    requires |prefix| <= LAST_OFFSET && forall j :: 0 <= j < |prefix| ==> !IsAt(prefix, j, MAGIC)
    requires |buffer| == |MAGIC| && IsHdr(h) && bytes == HdrBytes(h)
    ensures Scan(prefix + bytes + rest, buffer, 0) == Some(|prefix|)
    ensures Slice(prefix + bytes + rest, |prefix|, HEADER_SIZE) == bytes
  {
    HdrSlices(h);
    hide HdrBytes, Scan;
    assert prefix + bytes + rest == prefix + (bytes + rest);
    assert (bytes + rest)[0..8] == bytes[..8];
    FoundExactlyWhen(prefix, bytes + rest, buffer);
  }

  /** The file, with the front taken apart. */
  lemma {:induction false} FileIs(prefix: seq<byte>, p: Parts, suffix: seq<byte>)
    requires IsLoaded(p) && IsAccepted(p)
    ensures prefix + ImageOf(p) + suffix
            == prefix + HdrBytes(HdrFor(p)) + Pad(HEADER_SIZE, p.page)
               + (Padded(p.kernel, p.page) + Padded(p.ramdisk, p.page)
                  + SecondSection(p) + DtSection(p) + (SignatureSection(p) + suffix))
  {
    FrontIs(prefix, p);
    Regroup(prefix + HdrBytes(HdrFor(p)) + Pad(HEADER_SIZE, p.page), Padded(p.kernel, p.page),
            Padded(p.ramdisk, p.page), SecondSection(p), DtSection(p), SignatureSection(p), suffix);
    hide HdrBytes, HdrFor, Front, Padded, Pad, SecondSection, DtSection, SignatureSection;
    assert prefix + ImageOf(p) + suffix
        == prefix + Front(p) + SecondSection(p) + DtSection(p) + SignatureSection(p) + suffix;
  }

  lemma {:induction false} Regroup(a: seq<byte>, b: seq<byte>, c: seq<byte>, d: seq<byte>, e: seq<byte>, f: seq<byte>,
                                   g: seq<byte>)
    ensures a + b + c + d + e + f + g == a + (b + c + d + e + (f + g))
  {}

  /** Unpacking gives back what was packed, behind any prefix of at most 512 bytes in which the magic does not occur,
      and whatever follows the image; a second stage has to need as much padding as the ramdisk. */
  lemma {:induction false} RoundTrip(prefix: seq<byte>, p: Parts, suffix: seq<byte>, buffer: seq<byte>)
    requires IsFindable(prefix, p) && |buffer| == |MAGIC|
    requires p.second.Some? ==> Missing(|p.second.value|, p.page) == Missing(|p.ramdisk|, p.page)
    ensures GivesBack(Unpack(prefix + ImageOf(p) + suffix, buffer, 0), p, |prefix|, SignatureSection(p) + suffix)
  {
    var front := prefix + HdrBytes(HdrFor(p)) + Pad(HEADER_SIZE, p.page);
    var tail := SignatureSection(p) + suffix;
    var second, dt := OrEmpty(p.second), OrEmpty(p.dt);
    BackIsPadded(p);
    HeaderIsRight(p);
    hide HeaderGivesBack, HdrBytes, Front, Padded, Pad, Unpack, ReadSections, AddressesOf, OffsetsOf, SecondSection;
    hide DtSection;
    hide SignatureSection, ImageOf, Missing, IsAt;
    FileIs(prefix, p, suffix);
    var file := prefix + ImageOf(p) + suffix;
    var rest :=
      Padded(p.kernel, p.page) + Padded(p.ramdisk, p.page) + Padded(second, p.page) + Padded(dt, p.page) + tail;
    HeaderComesBack(prefix, p, rest, buffer);
    SectionsAre(file, front, p, second, dt, tail);
  }

  lemma {:induction false} SectionsAre(file: seq<byte>, front: seq<byte>, p: Parts, second: seq<byte>, dt: seq<byte>,
                                       tail: seq<byte>)
    requires IsLoaded(p) && IsAccepted(p) && second == OrEmpty(p.second) && dt == OrEmpty(p.dt)
    requires file == front + (Padded(p.kernel, p.page) + Padded(p.ramdisk, p.page) + Padded(second, p.page)
                              + Padded(dt, p.page) + tail)
    ensures HasSections(ReadSections(file, |front|, HdrFor(p), p.page), p.kernel, p.ramdisk, second, dt, tail)
  {
    var h := HdrFor(p);
    hide Padded, ReadSections, HdrFor;
    FiveBehind(front, Padded(p.kernel, p.page), Padded(p.ramdisk, p.page), Padded(second, p.page), Padded(dt, p.page),
               tail);
    SectionsRead(file, front, h, p.page, p.kernel, p.ramdisk, second, dt, tail);
  }

  /** A page size that is asked for is the one that counts, whatever the header says. */
  lemma {:induction false} AskedPageCounts(prefix: seq<byte>, h: Hdr, page: u32, kernel: seq<byte>, ramdisk: seq<byte>,
                                           second: seq<byte>, dt: seq<byte>, tail: seq<byte>, buffer: seq<byte>,
                                           file: seq<byte>)
    requires |prefix| <= LAST_OFFSET && forall j :: 0 <= j < |prefix| ==> !IsAt(prefix, j, MAGIC)
    requires IsHdr(h) && IsPageSize(page) && |buffer| == |MAGIC|
    requires h.kernelSize == |kernel| && h.ramdiskSize == |ramdisk| && h.secondSize == |second| && h.dtSize == |dt|
    requires file == prefix + HdrBytes(h) + Pad(HEADER_SIZE, page)
                     + (Padded(kernel, page) + Padded(ramdisk, page) + Padded(second, page) + Padded(dt, page) + tail)
    ensures var c := Unpack(file, buffer, page);
            c.Contents? && c.at == |prefix| && c.header == h
            && HasSections(c.sections, kernel, ramdisk, second, dt, tail)
  {
    hide HdrBytes, HdrOf, ReadSections, CString, OffsetsOf, Scan, Pad, Padded, HasSections, Unpack, IsHdr;
    var front := prefix + HdrBytes(h) + Pad(HEADER_SIZE, page);
    var k, r, s, d := Padded(kernel, page), Padded(ramdisk, page), Padded(second, page), Padded(dt, page);
    FrontRead(prefix, h, page, page, k + r + s + d + tail, buffer);
    FiveBehind(front, k, r, s, d, tail);
    SectionsRead(file, front, h, page, kernel, ramdisk, second, dt, tail);
  }

  lemma {:induction false} FiveBehind(a: seq<byte>, b: seq<byte>, c: seq<byte>, d: seq<byte>, e: seq<byte>,
                                      f: seq<byte>)
    ensures a + (b + c + d + e + f) == a + b + c + d + e + f
  {}

  /** Where the packer puts the device tree. */
  function DtPutAt(prefix: seq<byte>, p: Parts): nat
    requires IsLoaded(p) && IsAccepted(p)
  {
    |prefix| + |Front(p)| + |SecondSection(p)|
  }

  lemma {:induction false} DtLookedForAt(file: seq<byte>, front: seq<byte>, p: Parts, second: seq<byte>,
                                         back: seq<byte>)
    requires IsLoaded(p) && IsAccepted(p) && p.second == Some(second)
    requires file == front + (Padded(p.kernel, p.page) + Padded(p.ramdisk, p.page) + SecondSection(p) + back)
    ensures var gap, room := Missing(|second|, p.page), Missing(|p.ramdisk|, p.page) + |back|;
            ReadSections(file, |front|, HdrFor(p), p.page).dtAt
            == |front| + |Padded(p.kernel, p.page)| + |Padded(p.ramdisk, p.page)| + |second|
               + if gap <= room then gap else room
  {
    var h, pad := HdrFor(p), Pad(|p.ramdisk|, p.page);
    assert SecondSection(p) == second + pad;
    hide Padded, Pad, Missing, ReadSections, HdrFor;
    assert file == front + Padded(p.kernel, p.page) + Padded(p.ramdisk, p.page) + second + (pad + back);
    DtReadAt(file, front, h, p.page, p.kernel, p.ramdisk, second, pad + back);
  }

  /** With a second stage, the device tree is looked for where it was put exactly when second stage and ramdisk need the
      same padding. */
  lemma {:induction false} DtFoundExactlyWhen(prefix: seq<byte>, p: Parts, suffix: seq<byte>, buffer: seq<byte>)
    requires IsFindable(prefix, p) && |buffer| == |MAGIC|
    requires p.second.Some? && p.dt.Some? && p.dt.value != []
    ensures Unpack(prefix + ImageOf(p) + suffix, buffer, 0).Contents?
    ensures Unpack(prefix + ImageOf(p) + suffix, buffer, 0).sections.dtAt == DtPutAt(prefix, p)
            <==> Missing(|p.second.value|, p.page) == Missing(|p.ramdisk|, p.page)
  {
    var front := prefix + HdrBytes(HdrFor(p)) + Pad(HEADER_SIZE, p.page);
    var back := DtSection(p) + (SignatureSection(p) + suffix);
    assert |back| > 0;
    DtPutAtIs(prefix, p);
    hide HdrBytes, Front, Padded, Pad, Missing, Unpack, ReadSections, AddressesOf, OffsetsOf, SecondSection, DtSection;
    hide SignatureSection, ImageOf, IsAt, DtPutAt;
    FileIs(prefix, p, suffix);
    var file := prefix + ImageOf(p) + suffix;
    var rest := Padded(p.kernel, p.page) + Padded(p.ramdisk, p.page) + SecondSection(p) + back;
    assert file == front + rest;
    HeaderComesBack(prefix, p, rest, buffer);
    DtLookedForAt(file, front, p, p.second.value, back);
  }

  lemma {:induction false} DtPutAtIs(prefix: seq<byte>, p: Parts)
    requires IsLoaded(p) && IsAccepted(p) && p.second.Some?
    ensures DtPutAt(prefix, p) == |prefix + HdrBytes(HdrFor(p)) + Pad(HEADER_SIZE, p.page)|
                                  + |Padded(p.kernel, p.page)| + |Padded(p.ramdisk, p.page)|
                                  + |p.second.value| + Missing(|p.ramdisk|, p.page)
  {
    FrontIs(prefix, p);
    hide HdrBytes, HdrFor, Front, Padded, Missing;
    assert |prefix + Front(p)| == |prefix| + |Front(p)|;
  }
}
