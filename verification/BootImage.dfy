/** Boot images: what mkbootimg writes and what unpackbootimg reads back.

    An image is a 608-byte header and up to five sections, each but the last
    padded to a page.  The unpacker looks for the magic in the first 513 offsets
    and then reads on, header, sections and padding, from the sizes in the header. */
module BootImage {
  import opened Bits
  import opened ByteImage

  const MAGIC: seq<byte> := [0x41, 0x4e, 0x44, 0x52, 0x4f, 0x49, 0x44, 0x21]  // "ANDROID!"
  const NAME_SIZE := 16
  const ARGS_SIZE := 512
  const HEADER_SIZE := 608
  const SIGNATURE_SIZE := 256
  const LAST_OFFSET := 512
  const KERNEL_OFFSET := 0x8000

  datatype Addresses = Addresses(kernel: u32, ramdisk: u32, second: u32, tags: u32)

  datatype Offsets = Offsets(base: u32, kernel: u32, ramdisk: u32, second: u32, tags: u32)

  /** What goes into an image.  A ramdisk named NONE is empty. */
  datatype Parts = Parts(
    kernel: seq<byte>, ramdisk: seq<byte>, second: Option<seq<byte>>, dt: Option<seq<byte>>,
    signature: Option<seq<byte>>,
    board: seq<byte>, cmdline: seq<byte>, id: seq<byte>, offsets: Offsets, page: u32)

  // ----- addresses -----

  function Wrap(x: int): u32 { x % TWO_32 }

  function AddressesOf(o: Offsets): Addresses {
    Addresses(Wrap(o.base + o.kernel), Wrap(o.base + o.ramdisk), Wrap(o.base + o.second), Wrap(o.base + o.tags))
  }

  /** What the unpacker prints: it takes the kernel to be at the default offset. */
  function OffsetsOf(a: Addresses): Offsets {
    Offsets(Wrap(a.kernel - KERNEL_OFFSET), KERNEL_OFFSET, Wrap(a.ramdisk - a.kernel + KERNEL_OFFSET),
            Wrap(a.second - a.kernel + KERNEL_OFFSET), Wrap(a.tags - a.kernel + KERNEL_OFFSET))
  }

  lemma {:induction false} WrapIs(x: int, q: int, r: int)
    requires x == q * TWO_32 + r && 0 <= r < TWO_32
    ensures Wrap(x) == r
  {
    DivModUnique(x, TWO_32, q, r);
  }

  lemma {:induction false} WrapOnce(x: int)
    requires 0 <= x < 2 * TWO_32
    ensures Wrap(x) == if x < TWO_32 then x else x - TWO_32
  {
    if x < TWO_32 { WrapIs(x, 0, x); } else { WrapIs(x, 1, x - TWO_32); }
  }

  /** One printed offset: the one that was given, displaced by as much as the kernel's offset is not the default. */
  lemma {:induction false} OffsetIs(base: u32, kernel: u32, offset: u32)
    ensures Wrap(Wrap(base + offset) - Wrap(base + kernel) + KERNEL_OFFSET) == Wrap(offset - kernel + KERNEL_OFFSET)
  {
    WrapOnce(base + offset);
    WrapOnce(base + kernel);
    var d := (offset - kernel + KERNEL_OFFSET) - (Wrap(base + offset) - Wrap(base + kernel) + KERNEL_OFFSET);
    var x := offset - kernel + KERNEL_OFFSET;
    assert x == x / TWO_32 * TWO_32 + Wrap(x);
    WrapIs(x - d, x / TWO_32 - d / TWO_32, Wrap(x));
  }

  /** Base and offsets are recovered exactly when the kernel was at the default offset. */
  lemma {:induction false} OffsetsRecoveredExactlyWhen(o: Offsets)
    ensures OffsetsOf(AddressesOf(o)) == o <==> o.kernel == KERNEL_OFFSET
    ensures OffsetsOf(AddressesOf(o)).base == o.base <==> o.kernel == KERNEL_OFFSET
    ensures OffsetsOf(AddressesOf(o)).ramdisk == o.ramdisk <==> o.kernel == KERNEL_OFFSET
    ensures OffsetsOf(AddressesOf(o)).second == o.second <==> o.kernel == KERNEL_OFFSET
    ensures OffsetsOf(AddressesOf(o)).tags == o.tags <==> o.kernel == KERNEL_OFFSET
  {
    hide Wrap;
    BaseIs(o.base, o.kernel);
    OffsetIs(o.base, o.kernel, o.ramdisk);
    OffsetIs(o.base, o.kernel, o.second);
    OffsetIs(o.base, o.kernel, o.tags);
    Displaced(o.ramdisk, o.kernel);
    Displaced(o.second, o.kernel);
    Displaced(o.tags, o.kernel);
  }

  lemma {:induction false} Displaced(x: u32, kernel: u32)
    ensures Wrap(x - kernel + KERNEL_OFFSET) == x <==> kernel == KERNEL_OFFSET
  {
    WrapBetween(x - kernel + KERNEL_OFFSET);
  }

  lemma {:induction false} WrapBetween(y: int)
    requires -1 * TWO_32 <= y < 2 * TWO_32
    ensures Wrap(y) == if y < 0 then y + TWO_32 else if y < TWO_32 then y else y - TWO_32
  {
    if y < 0 {
      WrapIs(y, -1, y + TWO_32);
    } else {
      WrapOnce(y);
    }
  }

  lemma {:induction false} BaseIs(base: u32, kernel: u32)
    ensures Wrap(Wrap(base + kernel) - KERNEL_OFFSET) == base <==> kernel == KERNEL_OFFSET
  {
    WrapOnce(base + kernel);
    WrapBetween(Wrap(base + kernel) - KERNEL_OFFSET);
  }

  /** Packing again what was printed puts everything at the same addresses. */
  lemma {:induction false} SameAddresses(a: Addresses)
    ensures AddressesOf(OffsetsOf(a)) == a
  {
    hide Wrap;
    Readdressed(a.kernel, a.kernel);
    Readdressed(a.kernel, a.ramdisk);
    Readdressed(a.kernel, a.second);
    Readdressed(a.kernel, a.tags);
    WrapIs(a.kernel - a.kernel + KERNEL_OFFSET, 0, KERNEL_OFFSET);
  }

  lemma {:induction false} Readdressed(kernel: u32, x: u32)
    ensures Wrap(Wrap(kernel - KERNEL_OFFSET) + Wrap(x - kernel + KERNEL_OFFSET)) == x
  {
    var b, o := kernel - KERNEL_OFFSET, x - kernel + KERNEL_OFFSET;
    assert b == b / TWO_32 * TWO_32 + Wrap(b);
    assert o == o / TWO_32 * TWO_32 + Wrap(o);
    WrapIs(Wrap(b) + Wrap(o), -(b / TWO_32) - o / TWO_32, x);
  }

  // ----- the header -----

  datatype Hdr = Hdr(
    kernelSize: u32, ramdiskSize: u32, secondSize: u32, dtSize: u32, addresses: Addresses, pageSize: u32,
    name: seq<byte>, cmdline: seq<byte>, id: seq<byte>)

  predicate IsHdr(h: Hdr) { |h.name| == NAME_SIZE && |h.cmdline| == ARGS_SIZE && |h.id| == 32 }

  function Numbers(h: Hdr): (s: seq<byte>)
    ensures |s| == 40
  {
    Le32(h.kernelSize) + Le32(h.addresses.kernel) + Le32(h.ramdiskSize) + Le32(h.addresses.ramdisk)
    + Le32(h.secondSize) + Le32(h.addresses.second) + Le32(h.addresses.tags) + Le32(h.pageSize)
    + Le32(h.dtSize) + Le32(0)
  }

  function HdrBytes(h: Hdr): (s: seq<byte>)
    requires IsHdr(h)
    ensures |s| == HEADER_SIZE
  {
    MAGIC + Numbers(h) + h.name + h.cmdline + h.id
  }

  function HdrOf(s: seq<byte>): (h: Hdr)
    requires |s| == HEADER_SIZE
    ensures IsHdr(h)
  {
    Hdr(FieldAt(s, 8), FieldAt(s, 16), FieldAt(s, 24), FieldAt(s, 40),
        Addresses(FieldAt(s, 12), FieldAt(s, 20), FieldAt(s, 28), FieldAt(s, 32)), FieldAt(s, 36),
        s[48..64], s[64..576], s[576..608])
  }

  lemma {:induction false} NumberSlices(h: Hdr)
    ensures var s := Numbers(h);
            s[0..4] == Le32(h.kernelSize) && s[4..8] == Le32(h.addresses.kernel) && s[8..12] == Le32(h.ramdiskSize)
            && s[12..16] == Le32(h.addresses.ramdisk) && s[16..20] == Le32(h.secondSize)
            && s[20..24] == Le32(h.addresses.second) && s[24..28] == Le32(h.addresses.tags)
            && s[28..32] == Le32(h.pageSize) && s[32..36] == Le32(h.dtSize)
  {
    hide Le32;
  }

  lemma {:induction false} NumberIs(s: seq<byte>, numbers: seq<byte>, f: nat, v: u32)
    requires |s| == HEADER_SIZE && |numbers| == 40 && s[8..48] == numbers
    requires f + 4 <= 40 && numbers[f..f + 4] == Le32(v)
    ensures FieldAt(s, 8 + f) == v
  {
    SliceOfSlice(s, 8, 48, f, f + 4);
    hide Le32, FieldAt;
    FieldOf(s, 8 + f, v);
  }

  lemma {:induction false} FieldOf(s: seq<byte>, at: nat, v: u32)
    requires at + 4 <= |s| && s[at..at + 4] == Le32(v)
    ensures FieldAt(s, at) == v
  {
    hide Le32, FromLe32;
    Le32RoundTrip(v);
  }

  lemma {:induction false} SizesRead(s: seq<byte>, h: Hdr)
    requires |s| == HEADER_SIZE && s[8..48] == Numbers(h)
    ensures FieldAt(s, 8) == h.kernelSize && FieldAt(s, 16) == h.ramdiskSize && FieldAt(s, 24) == h.secondSize
    ensures FieldAt(s, 36) == h.pageSize && FieldAt(s, 40) == h.dtSize
  {
    NumberSlices(h);
    hide Le32, Numbers, FieldAt;
    NumberIs(s, Numbers(h), 0, h.kernelSize);
    NumberIs(s, Numbers(h), 8, h.ramdiskSize);
    NumberIs(s, Numbers(h), 16, h.secondSize);
    NumberIs(s, Numbers(h), 28, h.pageSize);
    NumberIs(s, Numbers(h), 32, h.dtSize);
  }

  lemma {:induction false} AddressesRead(s: seq<byte>, h: Hdr)
    requires |s| == HEADER_SIZE && s[8..48] == Numbers(h)
    ensures FieldAt(s, 12) == h.addresses.kernel && FieldAt(s, 20) == h.addresses.ramdisk
    ensures FieldAt(s, 28) == h.addresses.second && FieldAt(s, 32) == h.addresses.tags
  {
    NumberSlices(h);
    hide Le32, Numbers, FieldAt;
    NumberIs(s, Numbers(h), 4, h.addresses.kernel);
    NumberIs(s, Numbers(h), 12, h.addresses.ramdisk);
    NumberIs(s, Numbers(h), 20, h.addresses.second);
    NumberIs(s, Numbers(h), 24, h.addresses.tags);
  }

  /** The header reads back as it was written. */
  lemma {:induction false} HdrRoundTrip(h: Hdr)
    requires IsHdr(h)
    ensures HdrOf(HdrBytes(h)) == h
  {
    var s := HdrBytes(h);
    HdrSlices(h);
    hide Numbers, FieldAt, HdrBytes;
    SizesRead(s, h);
    AddressesRead(s, h);
  }

  lemma {:induction false} HdrSlices(h: Hdr)
    requires IsHdr(h)
    ensures var s := HdrBytes(h);
            s[..8] == MAGIC && s[8..48] == Numbers(h) && s[48..64] == h.name && s[64..576] == h.cmdline
            && s[576..608] == h.id
  {
    hide Numbers;
  }

  // ----- strings in the header -----

  /** A string copied into a zeroed field. */
  function Field(text: seq<byte>, size: nat): (s: seq<byte>)
    requires |text| <= size
    ensures |s| == size
  {
    text + Zeros(size - |text|)
  }

  /** The string before the first zero. */
  function CString(s: seq<byte>): seq<byte> {
    if s == [] || s[0] == 0 then [] else [s[0]] + CString(s[1..])
  }

  /** A string without zeros that leaves room for its terminator is read back. */
  lemma {:induction false} CStringOfField(text: seq<byte>, size: nat)
    requires 0 !in text && |text| < size
    ensures CString(Field(text, size)) == text
  {
    var s := Field(text, size);
    if text == [] {
      assert s[0] == 0;
    } else {
      assert s[0] == text[0];
      assert s[1..] == Field(text[1..], size - 1);
      CStringOfField(text[1..], size - 1);
    }
  }

  // ----- the image -----

  predicate IsPageSize(page: u32) {
    page == 2048 || page == 4096 || page == 8192 || page == 16384 || page == 32768 || page == 65536 || page == 131072
  }

  /** How much is missing to a page boundary. */
  function Missing(size: nat, page: nat): nat
    requires page > 0
  {
    if size % page == 0 then 0 else page - size % page
  }

  function Pad(size: nat, page: nat): (s: seq<byte>)
    requires page > 0
    ensures |s| == Missing(size, page)
  {
    Zeros(Missing(size, page))
  }

  function OrEmpty(s: Option<seq<byte>>): seq<byte> { match s case None => [] case Some(v) => v }

  /** What load_file can give: sizes are int. */
  predicate IsLoaded(p: Parts) {
    |p.kernel| < 0x8000_0000 && |p.ramdisk| < 0x8000_0000 && |OrEmpty(p.second)| < 0x8000_0000
    && |OrEmpty(p.dt)| < 0x8000_0000 && |p.id| == 32
    && (p.signature.Some? ==> |p.signature.value| >= SIGNATURE_SIZE)
  }

  predicate IsAccepted(p: Parts) { IsPageSize(p.page) && |p.board| < NAME_SIZE && |p.cmdline| < ARGS_SIZE }

  function HdrFor(p: Parts): (h: Hdr)
    requires IsLoaded(p) && IsAccepted(p)
    ensures IsHdr(h)
  {
    Hdr(|p.kernel|, |p.ramdisk|, |OrEmpty(p.second)|, |OrEmpty(p.dt)|, AddressesOf(p.offsets), p.page,
        Field(p.board, NAME_SIZE), Field(p.cmdline, ARGS_SIZE), p.id)
  }

  /** A second stage is padded by the size of the ramdisk. */
  function SecondSection(p: Parts): seq<byte>
    requires p.page > 0
  {
    match p.second
    case None => []
    case Some(s) => s + Pad(|p.ramdisk|, p.page)
  }

  function DtSection(p: Parts): seq<byte>
    requires p.page > 0
  {
    match p.dt
    case None => []
    case Some(d) => d + Pad(|d|, p.page)
  }

  function SignatureSection(p: Parts): seq<byte>
    requires IsLoaded(p)
  {
    match p.signature
    case None => []
    case Some(s) => s[..SIGNATURE_SIZE]
  }

  /** What every image has. */
  function Front(p: Parts): seq<byte>
    requires IsLoaded(p) && IsAccepted(p)
  {
    HdrBytes(HdrFor(p)) + Pad(HEADER_SIZE, p.page)
    + p.kernel + Pad(|p.kernel|, p.page)
    + p.ramdisk + Pad(|p.ramdisk|, p.page)
  }

  function ImageOf(p: Parts): seq<byte>
    requires IsLoaded(p) && IsAccepted(p)
  {
    Front(p) + SecondSection(p) + DtSection(p) + SignatureSection(p)
  }

  // ----- the bytes of an image -----

  lemma {:induction false} ImageStartsWithHeader(p: Parts)
    requires IsLoaded(p) && IsAccepted(p)
    ensures |ImageOf(p)| >= HEADER_SIZE && ImageOf(p)[..HEADER_SIZE] == HdrBytes(HdrFor(p))
  {
    hide HdrBytes, HdrFor, Pad, SecondSection, DtSection, SignatureSection;
    var h := HdrBytes(HdrFor(p));
    assert Front(p)[..HEADER_SIZE] == h;
    assert ImageOf(p)[..HEADER_SIZE] == Front(p)[..HEADER_SIZE];
  }

  /** The numbers of the header, where bootimg.h has them. */
  predicate HasNumbers(i: seq<byte>, p: Parts)
    requires |i| >= 608
  {
    i[..8] == [0x41, 0x4e, 0x44, 0x52, 0x4f, 0x49, 0x44, 0x21]
    && FieldAt(i, 8) == |p.kernel| && FieldAt(i, 12) == (p.offsets.base + p.offsets.kernel) % 0x1_0000_0000
    && FieldAt(i, 16) == |p.ramdisk| && FieldAt(i, 20) == (p.offsets.base + p.offsets.ramdisk) % 0x1_0000_0000
    && FieldAt(i, 24) == (match p.second case None => 0 case Some(x) => |x|)
    && FieldAt(i, 28) == (p.offsets.base + p.offsets.second) % 0x1_0000_0000
    && FieldAt(i, 32) == (p.offsets.base + p.offsets.tags) % 0x1_0000_0000 && FieldAt(i, 36) == p.page
    && FieldAt(i, 40) == (match p.dt case None => 0 case Some(x) => |x|) && FieldAt(i, 44) == 0
  }

  lemma {:induction false} ImageNumbers(p: Parts)
    requires IsLoaded(p) && IsAccepted(p)
    ensures |ImageOf(p)| >= 608 && HasNumbers(ImageOf(p), p)
  {
    hide ImageOf, HdrBytes, FieldAt, HdrFor, IsLoaded, IsAccepted, AddressesOf;
    ImageStartsWithHeader(p);
    HdrForIs(p);
    HeaderInImage(ImageOf(p), HdrFor(p));
  }

  lemma {:induction false} HdrForIs(p: Parts)
    requires IsLoaded(p) && IsAccepted(p)
    ensures var h, o := HdrFor(p), p.offsets;
            h.kernelSize == |p.kernel| && h.ramdiskSize == |p.ramdisk| && h.pageSize == p.page
            && h.secondSize == (match p.second case None => 0 case Some(x) => |x|)
            && h.dtSize == (match p.dt case None => 0 case Some(x) => |x|)
            && h.addresses.kernel == (o.base + o.kernel) % 0x1_0000_0000
            && h.addresses.ramdisk == (o.base + o.ramdisk) % 0x1_0000_0000
            && h.addresses.second == (o.base + o.second) % 0x1_0000_0000
            && h.addresses.tags == (o.base + o.tags) % 0x1_0000_0000
  {}

  lemma {:induction false} HeaderInImage(image: seq<byte>, h: Hdr)
    requires |image| >= HEADER_SIZE && IsHdr(h) && image[..HEADER_SIZE] == HdrBytes(h)
    ensures image[..8] == MAGIC
    ensures FieldAt(image, 8) == h.kernelSize && FieldAt(image, 12) == h.addresses.kernel
    ensures FieldAt(image, 16) == h.ramdiskSize && FieldAt(image, 20) == h.addresses.ramdisk
    ensures FieldAt(image, 24) == h.secondSize && FieldAt(image, 28) == h.addresses.second
    ensures FieldAt(image, 32) == h.addresses.tags && FieldAt(image, 36) == h.pageSize
    ensures FieldAt(image, 40) == h.dtSize && FieldAt(image, 44) == 0
  {
    HdrSlices(h);
    var s := HdrBytes(h);
    hide HdrBytes, FieldAt, Numbers;
    assert image[..8] == s[..8];
    SizesRead(s, h);
    AddressesRead(s, h);
    UnusedRead(s, h);
    SameField(image, 8);
    SameField(image, 12);
    SameField(image, 16);
    SameField(image, 20);
    SameField(image, 24);
    SameField(image, 28);
    SameField(image, 32);
    SameField(image, 36);
    SameField(image, 40);
    SameField(image, 44);
  }

  lemma {:induction false} SameField(image: seq<byte>, at: nat)
    requires |image| >= HEADER_SIZE && at + 4 <= HEADER_SIZE
    ensures FieldAt(image, at) == FieldAt(image[..HEADER_SIZE], at)
  {
    assert image[at..at + 4] == image[..HEADER_SIZE][at..at + 4];
  }

  lemma {:induction false} UnusedRead(s: seq<byte>, h: Hdr)
    requires |s| == HEADER_SIZE && s[8..48] == Numbers(h)
    ensures FieldAt(s, 44) == 0
  {
    LastNumber(h);
    hide Le32, Numbers, FieldAt;
    NumberIs(s, Numbers(h), 36, 0);
  }

  lemma {:induction false} LastNumber(h: Hdr)
    ensures Numbers(h)[36..40] == Le32(0)
  {
    hide Le32;
  }

  /** The strings of the header: the board name and the command line, with zeros behind them, and the id. */
  lemma {:induction false} ImageStrings(p: Parts)
    requires IsLoaded(p) && IsAccepted(p)
    ensures |ImageOf(p)| >= 608
    ensures var i := ImageOf(p);
            i[48..48 + |p.board|] == p.board && (forall k :: 48 + |p.board| <= k < 64 ==> i[k] == 0)
            && i[64..64 + |p.cmdline|] == p.cmdline && (forall k :: 64 + |p.cmdline| <= k < 576 ==> i[k] == 0)
            && i[576..608] == p.id
  {
    var h, i := HdrFor(p), ImageOf(p);
    ImageStartsWithHeader(p);
    HdrSlices(h);
    var s := HdrBytes(h);
    hide HdrBytes, ImageOf, Field;
    FieldInImage(i, 48, p.board, NAME_SIZE);
    FieldInImage(i, 64, p.cmdline, ARGS_SIZE);
    assert i[576..608] == s[576..608];
  }

  lemma {:induction false} FieldInImage(image: seq<byte>, at: nat, text: seq<byte>, size: nat)
    requires |image| >= HEADER_SIZE && |text| <= size && at + size <= HEADER_SIZE
    requires image[..HEADER_SIZE][at..at + size] == Field(text, size)
    ensures image[at..at + |text|] == text && forall k :: at + |text| <= k < at + size ==> image[k] == 0
  {
    var f := Field(text, size);
    SliceOfSlice(image, 0, HEADER_SIZE, at, at + size);
    assert image[at..at + size] == f;
    SliceOfSlice(image, at, at + size, 0, |text|);
    assert f[..|text|] == text;
    forall k | at + |text| <= k < at + size
      ensures image[k] == 0
    {
      assert image[k] == image[at..at + size][k - at] == f[k - at];
    }
  }

  /** `part` is at an offset, and zeros behind it to the next page. */
  predicate IsPaddedAt(image: seq<byte>, at: nat, part: seq<byte>, end: nat) {
    at + |part| <= end <= |image| && image[at..at + |part|] == part
    && forall k :: at + |part| <= k < end ==> image[k] == 0
  }

  lemma {:induction false} PaddedAt(image: seq<byte>, front: seq<byte>, part: seq<byte>, gap: nat, rest: seq<byte>)
    requires image == front + (part + Zeros(gap)) + rest
    ensures IsPaddedAt(image, |front|, part, |front| + |part| + gap)
  {}

  lemma {:induction false} MissingToPage(size: nat, page: nat)
    requires page > 0
    ensures size + Missing(size, page) == RoundUp(size, page)
  {
    var q, r := size / page, size % page;
    assert size == page * q + r;
    if r == 0 {
      DivModUnique(size + page - 1, page, q, page - 1);
    } else {
      DivModUnique(size + page - 1, page, q + 1, r - 1);
    }
  }

  lemma {:induction false} ThreeBehind(a: seq<byte>, b: seq<byte>, c: seq<byte>, d: seq<byte>)
    ensures a + b + c + d == a + (b + c + d)
  {}

  /** Where the parts are: the kernel on the second page, the ramdisk on the next page behind it, a second stage on the
      next, and behind that, with as much padding as the ramdisk has, the device tree, and then the signature. */
  predicate HasParts(image: seq<byte>, page: nat, kernel: seq<byte>, ramdisk: seq<byte>, second: Option<seq<byte>>,
                     dt: Option<seq<byte>>, signature: seq<byte>)
    requires page > 0
  {
    HasFront(image, page, kernel, ramdisk)
    && HasBack(image, page + RoundUp(|kernel|, page) + RoundUp(|ramdisk|, page), page, |ramdisk|, second, dt, signature)
  }

  predicate HasFront(image: seq<byte>, page: nat, kernel: seq<byte>, ramdisk: seq<byte>)
    requires page > 0
  {
    var r := page + RoundUp(|kernel|, page);
    IsPaddedAt(image, page, kernel, r) && IsPaddedAt(image, r, ramdisk, r + RoundUp(|ramdisk|, page))
  }

  /** `at` is where the ramdisk's padding ends. */
  predicate HasBack(image: seq<byte>, at: nat, page: nat, ramdiskSize: nat, second: Option<seq<byte>>,
                    dt: Option<seq<byte>>, signature: seq<byte>)
    requires page > 0
  {
    var d := at + (match second case None => 0 case Some(x) => |x| + (page - ramdiskSize % page) % page);
    var end := d + (match dt case None => 0 case Some(x) => RoundUp(|x|, page));
    (second.Some? ==> IsPaddedAt(image, at, second.value, d)) && (dt.Some? ==> IsPaddedAt(image, d, dt.value, end))
    && end <= |image| && image[end..] == signature
  }

  lemma {:induction false} SmallestGap(size: nat, page: nat)
    requires page > 0
    ensures Missing(size, page) == (page - size % page) % page
  {
    if size % page == 0 {
      DivModUnique(page, page, 1, 0);
    } else {
      DivModUnique(page - size % page, page, 0, page - size % page);
    }
  }

  lemma {:induction false} ConcatHasParts(image: seq<byte>, page: nat, header: seq<byte>, kernel: seq<byte>,
                                          ramdisk: seq<byte>, second: Option<seq<byte>>, dt: Option<seq<byte>>,
                                          signature: seq<byte>, s: seq<byte>, d: seq<byte>)
    requires page > 0 && |header| == page
    requires s == match second case None => [] case Some(x) => x + Pad(|ramdisk|, page)
    requires d == match dt case None => [] case Some(x) => x + Pad(|x|, page)
    requires image == header + (kernel + Pad(|kernel|, page)) + (ramdisk + Pad(|ramdisk|, page)) + s + d + signature
    ensures HasParts(image, page, kernel, ramdisk, second, dt, signature)
  {
    hide RoundUp, HasFront, HasBack, Missing, Pad;
    var front := header + (kernel + Pad(|kernel|, page)) + (ramdisk + Pad(|ramdisk|, page));
    FrontLength(page, header, kernel, ramdisk);
    ThreeBehind(front, s, d, signature);
    FrontHasParts(image, page, header, kernel, ramdisk, s + d + signature);
    BackHasParts(image, page, front, |ramdisk|, second, dt, signature);
  }

  lemma {:induction false} FrontLength(page: nat, header: seq<byte>, kernel: seq<byte>, ramdisk: seq<byte>)
    requires page > 0 && |header| == page
    ensures |header + (kernel + Pad(|kernel|, page)) + (ramdisk + Pad(|ramdisk|, page))|
            == page + RoundUp(|kernel|, page) + RoundUp(|ramdisk|, page)
  {
    MissingToPage(|kernel|, page);
    MissingToPage(|ramdisk|, page);
    hide Missing, RoundUp;
  }

  lemma {:induction false} FrontHasParts(image: seq<byte>, page: nat, header: seq<byte>, kernel: seq<byte>,
                                         ramdisk: seq<byte>, rest: seq<byte>)
    requires page > 0 && |header| == page
    requires image == header + (kernel + Pad(|kernel|, page)) + (ramdisk + Pad(|ramdisk|, page)) + rest
    ensures HasFront(image, page, kernel, ramdisk)
  {
    MissingToPage(|kernel|, page);
    MissingToPage(|ramdisk|, page);
    hide Missing, RoundUp, IsPaddedAt;
    var k, r := kernel + Pad(|kernel|, page), ramdisk + Pad(|ramdisk|, page);
    assert image == header + k + (r + rest);
    PaddedAt(image, header, kernel, Missing(|kernel|, page), r + rest);
    PaddedAt(image, header + k, ramdisk, Missing(|ramdisk|, page), rest);
  }

  lemma {:induction false} BackHasParts(image: seq<byte>, page: nat, front: seq<byte>, size: nat,
                                        second: Option<seq<byte>>, dt: Option<seq<byte>>, signature: seq<byte>)
    requires page > 0
    requires image == front + (match second case None => [] case Some(x) => x + Pad(size, page))
                      + (match dt case None => [] case Some(x) => x + Pad(|x|, page)) + signature
    ensures HasBack(image, |front|, page, size, second, dt, signature)
  {
    MissingToPage(|OrEmpty(dt)|, page);
    SmallestGap(size, page);
    hide Missing, RoundUp, IsPaddedAt;
    var s := match second case None => [] case Some(x) => x + Pad(size, page);
    var d := match dt case None => [] case Some(x) => x + Pad(|x|, page);
    if second.Some? {
      assert image == front + s + (d + signature);
      PaddedAt(image, front, second.value, Missing(size, page), d + signature);
    }
    if dt.Some? {
      PaddedAt(image, front + s, dt.value, Missing(|dt.value|, page), signature);
    }
    assert image[|front + s + d|..] == signature;
  }

  /** The signature is the first 256 bytes of the one given, or nothing. */
  lemma {:induction false} ImageParts(p: Parts)
    requires IsLoaded(p) && IsAccepted(p)
    ensures HasParts(ImageOf(p), p.page, p.kernel, p.ramdisk, p.second, p.dt,
                     match p.signature case None => [] case Some(x) => x[..256])
  {
    var header := HdrBytes(HdrFor(p)) + Pad(HEADER_SIZE, p.page);
    MissingToPage(HEADER_SIZE, p.page);
    HeaderPage(p.page);
    FrontInParts(p);
    hide HasParts, HdrBytes, HdrFor, Pad, Missing, RoundUp, Front;
    ConcatHasParts(ImageOf(p), p.page, header, p.kernel, p.ramdisk, p.second, p.dt, SignatureSection(p),
                   SecondSection(p), DtSection(p));
  }

  lemma {:induction false} FrontInParts(p: Parts)
    requires IsLoaded(p) && IsAccepted(p)
    ensures Front(p) == (HdrBytes(HdrFor(p)) + Pad(HEADER_SIZE, p.page)) + (p.kernel + Pad(|p.kernel|, p.page))
                        + (p.ramdisk + Pad(|p.ramdisk|, p.page))
  {
    hide HdrBytes, HdrFor, Pad;
  }

  lemma {:induction false} HeaderPage(page: u32)
    requires IsPageSize(page)
    ensures RoundUp(HEADER_SIZE, page) == page
  {
    RoundUpUnique(HEADER_SIZE, page, 1);
  }

  lemma {:induction false} SupportedPage(page: u32)
    requires IsPageSize(page)
    ensures exists k: nat :: 11 <= k <= 17 && page == Pow2(k)
  {
    assert Pow2(3) == 8 && Pow2(4) == 16 && Pow2(5) == 32 && Pow2(6) == 64 && Pow2(7) == 128 && Pow2(8) == 0x100;
    Pow2Add(3, 8);
    Pow2Add(4, 8);
    Pow2Add(5, 8);
    Pow2Add(6, 8);
    Pow2Add(7, 8);
    Pow2Add(8, 8);
    Pow2Add(9, 8);
    Pow2Add(1, 8);
  }

  /** `size & (page - 1)` is the remainder, for these page sizes. */
  lemma {:induction false} MaskIsRemainder(size: nat, page: u32)
    requires IsPageSize(page)
    ensures And(size, page - 1) == size % page
  {
    SupportedPage(page);
    hide And, Pow2;
    var k: nat :| 11 <= k <= 17 && page == Pow2(k);
    AndLowMask(size, k);
    ShrIsDiv(size, k);
  }

  // ----- packing -----

  datatype Packed = UnsupportedPage | NameTooLarge | CmdlineTooLarge | WriteFailed | Written

  method WritePadding(f: OutputFile, page: u32, size: u32) returns (ok: bool)
    requires IsPageSize(page) && |f.data| <= f.room
    modifies f`data
    ensures f.data == Cut(old(f.data) + Pad(size, page), f.room) && ok == (|old(f.data) + Pad(size, page)| <= f.room)
  {
    MaskIsRemainder(size, page);
    if And(size, page - 1) == 0 {
      return true;
    }
    var count := page - And(size, page - 1);
    ok := f.Write(Zeros(count));
  }

  method WriteSection(f: OutputFile, data: seq<byte>, page: u32, size: u32) returns (ok: bool)
    requires IsPageSize(page)
    modifies f`data
    ensures var all := old(f.data) + (data + Pad(size, page)); f.data == Cut(all, f.room) && ok == (|all| <= f.room)
  {
    hide Pad;
    ok := f.Write(data);
    assert old(f.data) + (data + Pad(size, page)) == old(f.data) + data + Pad(size, page);
    if ok {
      ok := WritePadding(f, page, size);
    } else {
      CutStays(old(f.data) + data, Pad(size, page), f.room);
    }
  }

  /** What every image has, from an empty file. */
  method WriteFront(p: Parts, f: OutputFile) returns (ok: bool)
    requires IsLoaded(p) && IsAccepted(p) && f.data == []
    modifies f`data
    ensures f.data == Cut(Front(p), f.room) && ok == (|Front(p)| <= f.room)
  {
    hide HdrBytes, HdrFor, Pad, Cut;
    ghost var header := HdrBytes(HdrFor(p)) + Pad(HEADER_SIZE, p.page);
    ghost var kernel, ramdisk := p.kernel + Pad(|p.kernel|, p.page), p.ramdisk + Pad(|p.ramdisk|, p.page);
    assert Front(p) == header + kernel + ramdisk;
    assert [] + header == header;
    ok := WriteSection(f, HdrBytes(HdrFor(p)), p.page, HEADER_SIZE);
    if !ok {
      CutStays(header, kernel, f.room);
      CutStays(header + kernel, ramdisk, f.room);
      return;
    }
    CutFits(header, f.room);
    ok := WriteSection(f, p.kernel, p.page, |p.kernel|);
    if !ok {
      CutStays(header + kernel, ramdisk, f.room);
      return;
    }
    CutFits(header + kernel, f.room);
    ok := WriteSection(f, p.ramdisk, p.page, |p.ramdisk|);
  }

  lemma {:induction false} CutFits(s: seq<byte>, room: nat)
    ensures |s| <= room ==> Cut(s, room) == s
  {}

  method WriteSecond(p: Parts, f: OutputFile) returns (ok: bool)
    requires IsLoaded(p) && IsAccepted(p) && |f.data| <= f.room
    modifies f`data
    ensures f.data == Cut(old(f.data) + SecondSection(p), f.room) && ok == (|old(f.data) + SecondSection(p)| <= f.room)
  {
    ok := true;
    if p.second.Some? {
      ok := WriteSection(f, p.second.value, p.page, |p.ramdisk|);
    }
  }

  method WriteDt(p: Parts, f: OutputFile) returns (ok: bool)
    requires IsLoaded(p) && IsAccepted(p) && |f.data| <= f.room
    modifies f`data
    ensures f.data == Cut(old(f.data) + DtSection(p), f.room) && ok == (|old(f.data) + DtSection(p)| <= f.room)
  {
    ok := true;
    if p.dt.Some? {
      ok := WriteSection(f, p.dt.value, p.page, |p.dt.value|);
    }
  }

  method WriteSignature(p: Parts, f: OutputFile) returns (ok: bool)
    requires IsLoaded(p) && |f.data| <= f.room
    modifies f`data
    ensures f.data == Cut(old(f.data) + SignatureSection(p), f.room)
    ensures ok == (|old(f.data) + SignatureSection(p)| <= f.room)
  {
    ok := true;
    if p.signature.Some? {
      ok := f.Write(p.signature.value[..SIGNATURE_SIZE]);
    }
  }

  method WriteImage(p: Parts, f: OutputFile) returns (ok: bool)
    requires IsLoaded(p) && IsAccepted(p) && f.data == []
    modifies f`data
    ensures f.data == Cut(ImageOf(p), f.room) && ok == (|ImageOf(p)| <= f.room)
  {
    hide Front, SecondSection, DtSection, SignatureSection, Cut;
    ghost var front, second, dt := Front(p), SecondSection(p), DtSection(p);
    ok := WriteFront(p, f);
    if !ok {
      CutStays(front, second, f.room);
      CutStays(front + second, dt, f.room);
      CutStays(front + second + dt, SignatureSection(p), f.room);
      return;
    }
    CutFits(front, f.room);
    ok := WriteSecond(p, f);
    if !ok {
      CutStays(front + second, dt, f.room);
      CutStays(front + second + dt, SignatureSection(p), f.room);
      return;
    }
    CutFits(front + second, f.room);
    ok := WriteDt(p, f);
    if !ok {
      CutStays(front + second + dt, SignatureSection(p), f.room);
      return;
    }
    CutFits(front + second + dt, f.room);
    ok := WriteSignature(p, f);
  }

  /** Writes the image of the parts, unless the page size, the board name or the command line is refused; an image that
      does not fit on the disk is removed again. */
  method MkBootImg(p: Parts, f: OutputFile) returns (r: Packed)
    requires IsLoaded(p) && f.data == [] && !f.removed
    modifies f
    ensures r == Written <==> IsAccepted(p) && |ImageOf(p)| <= f.room
    ensures r == WriteFailed <==> IsAccepted(p) && |ImageOf(p)| > f.room
    ensures f.removed <==> r == WriteFailed
    ensures r == Written ==> f.data == ImageOf(p)
    ensures r !in {Written, WriteFailed} ==> f.data == []
    ensures !IsPageSize(p.page) ==> r == UnsupportedPage
    ensures r == CmdlineTooLarge ==> |p.cmdline| >= ARGS_SIZE && |p.board| < NAME_SIZE
  {
    if !IsPageSize(p.page) {
      return UnsupportedPage;
    }
    if |p.board| >= NAME_SIZE {
      return NameTooLarge;
    }
    if |p.cmdline| > ARGS_SIZE - 1 {
      return CmdlineTooLarge;
    }
    hide ImageOf;
    var ok := WriteImage(p, f);
    if !ok {
      f.Remove();
      return WriteFailed;
    }
    return Written;
  }
}
