/** The headless backend's shared-memory publication: two slots per output, a frame written
    byte by byte into the one no reader looks at, then made current. */
module HeadlessShm {
  import opened Machine
  import opened SceneTypes
  import opened Geometry
  import opened Blend
  import opened Pipeline

  const HEADLESS_SHM_BACKEND_INSTANCE_ID := 2
  const MAX_HEADLESS_PENDING_SUBMISSIONS := MAX_OUTPUTS
  const HEADLESS_SHM_MAGIC := 0x5455_4646
  const HEADLESS_SHM_VERSION := 1
  const HEADLESS_SHM_HEADER_LEN := 64

  type U16 = n: int | 0 <= n < 0x1_0000

  /** The parts of `FramePublication` this backend looks at. */
  datatype Publication = Publication(
    outputId: string, outputGeneration: U64, sceneGeneration: U64, frameId: U64,
    geometry: OutputGeometry, format: U32, stride: U32, pixels: seq<Word>)
  {
    function PayloadLen(): nat { stride * geometry.height }

    function SlotLen(): nat { HEADLESS_SHM_HEADER_LEN + PayloadLen() }
  }

  // ------------------------------------------------------------------------ validation

  /** The frames `validate_frame` lets through. */
  predicate FrameAccepted(p: Publication)
  {
    && p.geometry.outputId == p.outputId && p.geometry.outputGeneration == p.outputGeneration
    && p.geometry.stride == p.stride && p.geometry.format == p.format
    && p.geometry.width != 0 && p.geometry.height != 0
    && (p.format == FORMAT_ARGB8888 || p.format == FORMAT_XRGB8888)
    && p.geometry.width * 4 <= U32_MAX && p.geometry.width * 4 <= p.stride
    && p.stride * p.geometry.height <= MAX_OUTPUT_FRAMEBUFFER_BYTES
    && |p.pixels| == p.geometry.width * p.geometry.height
  }

  /** `validate_frame`; it answers with the payload length. */
  method ValidateFrame(p: Publication) returns (payloadLen: Option<nat>)
    ensures payloadLen == if FrameAccepted(p) then Some(p.PayloadLen()) else None
  {
    if p.geometry.outputId != p.outputId || p.geometry.outputGeneration != p.outputGeneration
       || p.geometry.stride != p.stride || p.geometry.format != p.format {
      return None;
    }
    if p.geometry.width == 0 || p.geometry.height == 0 {
      return None;
    }
    if p.format != FORMAT_ARGB8888 && p.format != FORMAT_XRGB8888 {
      return None;
    }
    var rowBytes := p.geometry.width * 4;
    if rowBytes > U32_MAX || p.stride < rowBytes {
      return None;
    }
    var bytes := p.stride * p.geometry.height;
    if bytes > MAX_OUTPUT_FRAMEBUFFER_BYTES {
      return None;
    }
    if |p.pixels| != p.geometry.width * p.geometry.height {
      return None;
    }
    payloadLen := Some(bytes);
  }

  /** The frame displayd hands to its backend. */
  function PublicationOf(f: Frame): Publication
  {
    var o := f.output;
    Publication(o.outputId, o.generation, f.version.generation, f.frameId,
                OutputGeometry(o.outputId, o.width, o.height, o.stride, FORMAT_XRGB8888, o.originX, o.originY, o.generation),
                FORMAT_XRGB8888, o.stride, f.pixels)
  }

  /** displayd's framebuffers hold whole rows, padding included, while this backend wants the
      visible pixels only: it takes a frame exactly when the output has no row padding. */
  lemma PaddedFramesAreRefused(f: Frame)
    requires |f.pixels| == f.output.Words()
    ensures FrameAccepted(PublicationOf(f)) <==> f.output.stride == 4 * f.output.width
  {
    var o := f.output;
    RowsDoNotOverlap(o.height, o.width, o.Pitch());
    assert o.width * o.height == o.height * o.width && o.Pitch() * o.height == o.height * o.Pitch();
  }

  /** One pixel in rows of eight bytes: a live output of displayd, a frame of its size. */
  lemma PaddedFrameExample()
    ensures exists f: Frame :: |f.pixels| == f.output.Words() && !FrameAccepted(PublicationOf(f))
  {
    var o: LiveOutput := OutputState("a", 1, 1, 8, 0, 0, 1);
    var f := Frame(1, 1, o, Version(1, 1), [BACKGROUND, BACKGROUND], [Rect(0, 0, 1, 1)]);
    PaddedFramesAreRefused(f);
    assert |f.pixels| == f.output.Words() && f.output.stride != 4 * f.output.width;
  }

  // ---------------------------------------------------------------------- byte layout

  /** `to_le_bytes` of an `n`-byte integer. */
  function LittleEndian(v: nat, n: nat): (r: seq<U8>)
    ensures |r| == n
  {
    if n == 0 then [] else [v % 0x100] + LittleEndian(v / 0x100, n - 1)
  }

  /** `from_le_bytes`. */
  function Value(bytes: seq<U8>): nat
  {
    if bytes == [] then 0 else bytes[0] + 0x100 * Value(bytes[1..])
  }

  function Radix(n: nat): nat
  {
    if n == 0 then 1 else 0x100 * Radix(n - 1)
  }

  lemma {:induction false} LittleEndianRoundTrip(v: nat, n: nat)
    requires v < Radix(n)
    ensures Value(LittleEndian(v, n)) == v
  {
    if n > 0 {
      LittleEndianRoundTrip(v / 0x100, n - 1);
    }
  }

  /** `HeadlessShmFrameHeader`. */
  datatype Header = Header(
    outputGeneration: U64, sceneGeneration: U64, frameId: U64,
    width: U32, height: U32, stride: U32, format: U32, payloadLen: U64, completionSequence: U64)

  function HeaderOf(p: Publication, completionSequence: U64): Header
    requires FrameAccepted(p)
  {
    Header(p.outputGeneration, p.sceneGeneration, p.frameId, p.geometry.width, p.geometry.height, p.stride, p.format,
           p.PayloadLen(), completionSequence)
  }

  function HeaderBytes(h: Header): (r: seq<U8>)
    ensures |r| == HEADLESS_SHM_HEADER_LEN
  {
    LittleEndian(HEADLESS_SHM_MAGIC, 4) + LittleEndian(HEADLESS_SHM_VERSION, 2) + LittleEndian(HEADLESS_SHM_HEADER_LEN, 2)
    + LittleEndian(h.outputGeneration, 8) + LittleEndian(h.sceneGeneration, 8) + LittleEndian(h.frameId, 8)
    + LittleEndian(h.width, 4) + LittleEndian(h.height, 4) + LittleEndian(h.stride, 4) + LittleEndian(h.format, 4)
    + LittleEndian(h.payloadLen, 8) + LittleEndian(h.completionSequence, 8)
  }

  /** Byte `k` of the payload: rows of little-endian pixels, then zeros up to the stride. */
  function PayloadByte(p: Publication, k: nat): U8
    requires FrameAccepted(p) && k < p.PayloadLen()
  {
    var row, j := k / p.stride, k % p.stride;
    if j < 4 * p.geometry.width then
      PixelInFrame(p, k);
      LittleEndian(p.pixels[row * p.geometry.width + j / 4], 4)[j % 4]
    else 0
  }

  lemma PixelInFrame(p: Publication, k: nat)
    requires FrameAccepted(p) && k < p.PayloadLen() && k % p.stride < 4 * p.geometry.width
    ensures 0 <= k / p.stride < p.geometry.height
    ensures 0 <= k / p.stride * p.geometry.width + k % p.stride / 4 < |p.pixels|
  {
    var row := k / p.stride;
    DivModDefinition(k, p.stride);
    RowsDoNotOverlap(p.stride, p.geometry.height, row);
    assert p.geometry.height * p.stride == p.stride * p.geometry.height;
    if row >= p.geometry.height {
      MulMonotone(p.geometry.height, row, p.stride);
    }
    MulNonNegative(row, p.geometry.width);
    RowsDoNotOverlap(p.geometry.width, row, p.geometry.height);
    assert p.geometry.height * p.geometry.width == p.geometry.width * p.geometry.height;
  }

  function Payload(p: Publication): (r: seq<U8>)
    requires FrameAccepted(p)
    ensures |r| == p.PayloadLen()
  {
    seq(p.PayloadLen(), k requires 0 <= k < p.PayloadLen() => PayloadByte(p, k))
  }

  /** What a slot holds after the frame was published in it. */
  function SlotBytes(p: Publication, completionSequence: U64): (r: seq<U8>)
    requires FrameAccepted(p)
    ensures |r| == p.SlotLen()
  {
    HeaderBytes(HeaderOf(p, completionSequence)) + Payload(p)
  }

  // ------------------------------------------------------------------------- a reader

  /** What a reader makes of a slot. */
  datatype Shown = Shown(header: Header, pixels: seq<Word>)

  function Field16(slot: seq<U8>, offset: nat): nat
    requires offset + 2 <= |slot|
  {
    Value(slot[offset..offset + 2])
  }

  function Field32(slot: seq<U8>, offset: nat): U32
    requires offset + 4 <= |slot|
  {
    ValueBounded(slot[offset..offset + 4]);
    assert Radix(4) == U32_MAX + 1;
    Value(slot[offset..offset + 4])
  }

  function Field64(slot: seq<U8>, offset: nat): U64
    requires offset + 8 <= |slot|
  {
    ValueBounded(slot[offset..offset + 8]);
    assert Radix(8) == U64_MAX + 1;
    Value(slot[offset..offset + 8])
  }

  lemma {:induction false} ValueBounded(bytes: seq<U8>)
    ensures Value(bytes) < Radix(|bytes|)
  {
    if bytes != [] {
      ValueBounded(bytes[1..]);
    }
  }

  function ReadHeader(slot: seq<U8>): Header
    requires |slot| >= HEADLESS_SHM_HEADER_LEN
  {
    Header(Field64(slot, 8), Field64(slot, 16), Field64(slot, 24), Field32(slot, 32), Field32(slot, 36), Field32(slot, 40),
           Field32(slot, 44), Field64(slot, 48), Field64(slot, 56))
  }

  /** Does the slot carry this format, with a payload of the size its header says? */
  predicate Readable(slot: seq<U8>)
    requires |slot| >= HEADLESS_SHM_HEADER_LEN
  {
    var h := ReadHeader(slot);
    && Field32(slot, 0) == HEADLESS_SHM_MAGIC && Field16(slot, 4) == HEADLESS_SHM_VERSION && Field16(slot, 6) == HEADLESS_SHM_HEADER_LEN
    && 4 * h.width <= h.stride && h.payloadLen == h.stride * h.height && |slot| == HEADLESS_SHM_HEADER_LEN + h.stride * h.height
  }

  /** Reads the header by its offsets, then the pixels at row times stride plus four times
      column; `None` when the slot holds no frame. */
  function Read(slot: seq<U8>): Option<Shown>
    requires |slot| >= HEADLESS_SHM_HEADER_LEN
  {
    if !Readable(slot) then None
    else
      var h := ReadHeader(slot);
      MulNonNegative(h.width, h.height);
      Some(Shown(h, seq(h.width * h.height, i requires 0 <= i < h.width * h.height => WordAt(slot, h.width, h.height, h.stride, i))))
  }

  function WordAt(slot: seq<U8>, width: nat, height: nat, stride: nat, i: nat): Word
    requires i < width * height && 4 * width <= stride && |slot| == HEADLESS_SHM_HEADER_LEN + stride * height
  {
    WordInSlot(width, height, stride, i);
    var at := HEADLESS_SHM_HEADER_LEN + i / width * stride + i % width * 4;
    FromLittleEndian(slot[at], slot[at + 1], slot[at + 2], slot[at + 3])
  }

  lemma WordInSlot(width: nat, height: nat, stride: nat, i: nat)
    requires i < width * height && 4 * width <= stride
    ensures width > 0 && 0 <= i / width < height
    ensures 0 <= i / width * stride + i % width * 4 && i / width * stride + i % width * 4 + 4 <= stride * height
  {
    MulNonNegative(width, height);
    assert width > 0;
    DivModDefinition(i, width);
    var row := i / width;
    assert height * width == width * height;
    if row >= height {
      MulMonotone(height, row, width);
    }
    MulNonNegative(row, stride);
    RowsDoNotOverlap(stride, row, height);
    assert height * stride == stride * height;
  }

  /** The fields lie where the reader looks for them. */
  lemma FieldsOfHeader(h: Header, payload: seq<U8>)
    ensures var slot := HeaderBytes(h) + payload;
      && slot[0..4] == LittleEndian(HEADLESS_SHM_MAGIC, 4) && slot[4..6] == LittleEndian(HEADLESS_SHM_VERSION, 2)
      && slot[6..8] == LittleEndian(HEADLESS_SHM_HEADER_LEN, 2)
      && slot[8..16] == LittleEndian(h.outputGeneration, 8) && slot[16..24] == LittleEndian(h.sceneGeneration, 8)
      && slot[24..32] == LittleEndian(h.frameId, 8)
      && slot[32..36] == LittleEndian(h.width, 4) && slot[36..40] == LittleEndian(h.height, 4)
      && slot[40..44] == LittleEndian(h.stride, 4) && slot[44..48] == LittleEndian(h.format, 4)
      && slot[48..56] == LittleEndian(h.payloadLen, 8) && slot[56..64] == LittleEndian(h.completionSequence, 8)
  {
    hide LittleEndian;
  }

  lemma ReadsHeader(h: Header, payload: seq<U8>)
    ensures var slot := HeaderBytes(h) + payload;
      && ReadHeader(slot) == h
      && Field32(slot, 0) == HEADLESS_SHM_MAGIC && Field16(slot, 4) == HEADLESS_SHM_VERSION && Field16(slot, 6) == HEADLESS_SHM_HEADER_LEN
  {
    hide LittleEndian, Value, HeaderBytes;
    FieldsOfHeader(h, payload);
    assert Radix(2) == 0x1_0000 && Radix(4) == U32_MAX + 1 && Radix(8) == U64_MAX + 1;
    LittleEndianRoundTrip(HEADLESS_SHM_MAGIC, 4);
    LittleEndianRoundTrip(HEADLESS_SHM_VERSION, 2);
    LittleEndianRoundTrip(HEADLESS_SHM_HEADER_LEN, 2);
    LittleEndianRoundTrip(h.outputGeneration, 8);
    LittleEndianRoundTrip(h.sceneGeneration, 8);
    LittleEndianRoundTrip(h.frameId, 8);
    LittleEndianRoundTrip(h.width, 4);
    LittleEndianRoundTrip(h.height, 4);
    LittleEndianRoundTrip(h.stride, 4);
    LittleEndianRoundTrip(h.format, 4);
    LittleEndianRoundTrip(h.payloadLen, 8);
    LittleEndianRoundTrip(h.completionSequence, 8);
  }

  lemma WordBytes(w: Word)
    ensures var b := LittleEndian(w, 4); FromLittleEndian(b[0], b[1], b[2], b[3]) == w
  {
    WordIsItsChannels(w);
    DivTwice(w);
    var second, third := w / 0x100, w / 0x1_0000;
    assert LittleEndian(w, 4) == [w % 0x100] + LittleEndian(second, 3);
    assert LittleEndian(second, 3) == [second % 0x100] + LittleEndian(third, 2);
    assert LittleEndian(third, 2) == [third % 0x100] + LittleEndian(third / 0x100, 1);
    assert LittleEndian(third / 0x100, 1) == [third / 0x100 % 0x100];
  }

  lemma Quotient(row: nat, j: nat, stride: nat)
    requires j < stride
    ensures 0 <= row * stride && (row * stride + j) / stride == row && (row * stride + j) % stride == j
  {
    MulNonNegative(row, stride);
    var k := row * stride + j;
    DivModDefinition(k, stride);
    RowsDoNotOverlap(stride, k / stride, row);
    RowsDoNotOverlap(stride, row, k / stride);
  }

  lemma ReadsPixel(p: Publication, completionSequence: U64, i: nat)
    requires FrameAccepted(p) && i < |p.pixels|
    ensures WordAt(SlotBytes(p, completionSequence), p.geometry.width, p.geometry.height, p.stride, i) == p.pixels[i]
  {
    hide LittleEndian, HeaderBytes;
    var width, height, stride := p.geometry.width, p.geometry.height, p.stride;
    WordInSlot(width, height, stride, i);
    DivModDefinition(i, width);
    var row, column := i / width, i % width;
    var slot := SlotBytes(p, completionSequence);
    var at := row * stride + column * 4;
    forall b | 0 <= b < 4
      ensures slot[HEADLESS_SHM_HEADER_LEN + at + b] == LittleEndian(p.pixels[i], 4)[b]
    {
      Quotient(row, column * 4 + b, stride);
      assert slot[HEADLESS_SHM_HEADER_LEN + at + b] == Payload(p)[at + b];
      assert at + b == row * stride + (column * 4 + b);
      assert (column * 4 + b) / 4 == column && (column * 4 + b) % 4 == b;
    }
    WordBytes(p.pixels[i]);
  }

  /** What is published is what is read: header and every pixel. */
  lemma PublishedIsRead(p: Publication, completionSequence: U64)
    requires FrameAccepted(p)
    ensures Read(SlotBytes(p, completionSequence)) == Some(Shown(HeaderOf(p, completionSequence), p.pixels))
    ensures var h := ReadHeader(SlotBytes(p, completionSequence));
      && h.frameId == p.frameId && h.outputGeneration == p.outputGeneration && h.sceneGeneration == p.sceneGeneration
      && h.width == p.geometry.width && h.height == p.geometry.height && h.stride == p.stride && h.format == p.format
      && h.completionSequence == completionSequence
  {
    hide HeaderBytes, Value, WordAt;
    ReadsHeader(HeaderOf(p, completionSequence), Payload(p));
    var slot := SlotBytes(p, completionSequence);
    assert Readable(slot);
    forall i | 0 <= i < |p.pixels|
      ensures WordAt(slot, p.geometry.width, p.geometry.height, p.stride, i) == p.pixels[i]
    {
      ReadsPixel(p, completionSequence, i);
    }
    assert Read(slot).value.pixels == p.pixels;
  }

  // ------------------------------------------------------------------------ the region

  /** How much of the payload is in place: bytes before `upTo` as published, zeros behind. */
  ghost predicate Filled(p: Publication, slot: seq<U8>, upTo: nat)
    requires FrameAccepted(p) && |slot| == p.SlotLen()
  {
    forall i :: HEADLESS_SHM_HEADER_LEN <= i < |slot| ==>
      slot[i] == if i - HEADLESS_SHM_HEADER_LEN < upTo then PayloadByte(p, i - HEADLESS_SHM_HEADER_LEN) else 0
  }

  ghost predicate Zeroed(slot: seq<U8>, upTo: nat)
  {
    forall i :: HEADLESS_SHM_HEADER_LEN <= i < upTo && i < |slot| ==> slot[i] == 0
  }

  /** Payload bytes `k` to `k + 3` are this word's. */
  ghost predicate WordPlaced(p: Publication, k: nat, w: Word)
    requires FrameAccepted(p) && k + 4 <= p.PayloadLen()
  {
    forall b :: 0 <= b < 4 ==> PayloadByte(p, k + b) == LittleEndian(w, 4)[b]
  }

  /** The first `k` bytes of the header are in place, the payload is as it was. */
  ghost predicate Headed(slot: seq<U8>, was: seq<U8>, header: seq<U8>, k: nat)
    requires |slot| == |was| >= HEADLESS_SHM_HEADER_LEN == |header| && k <= HEADLESS_SHM_HEADER_LEN
  {
    forall i :: 0 <= i < |slot| ==> slot[i] == if i < k then header[i] else was[i]
  }

  lemma HeadedNext(slot: seq<U8>, was: seq<U8>, header: seq<U8>, k: nat)
    requires |slot| == |was| >= HEADLESS_SHM_HEADER_LEN == |header| && k < HEADLESS_SHM_HEADER_LEN
    requires Headed(slot, was, header, k)
    ensures Headed(slot[k := header[k]], was, header, k + 1)
  {
  }

  lemma HeadedFull(p: Publication, completionSequence: U64, slot: seq<U8>, was: seq<U8>)
    requires FrameAccepted(p) && |slot| == |was| == p.SlotLen() && Filled(p, was, p.PayloadLen())
    requires Headed(slot, was, HeaderBytes(HeaderOf(p, completionSequence)), HEADLESS_SHM_HEADER_LEN)
    ensures slot == SlotBytes(p, completionSequence)
  {
    hide PayloadByte, HeaderBytes;
  }

  /** Freshly mapped memory. */
  ghost predicate Blank(slot: seq<U8>)
  {
    forall i :: 0 <= i < |slot| ==> slot[i] == 0
  }

  lemma BlankShowsNothing(slot: seq<U8>)
    requires |slot| >= HEADLESS_SHM_HEADER_LEN && Blank(slot)
    ensures Read(slot) == None
  {
    ZeroValue(slot[0..4]);
  }

  lemma {:induction false} ZeroValue(bytes: seq<U8>)
    requires Blank(bytes)
    ensures Value(bytes) == 0
  {
    if bytes != [] {
      ZeroValue(bytes[1..]);
    }
  }

  /** The mapping of one output. Every byte goes through `PutByte`; `seen` records what a
      reader of the active slot would have found after each of them. */
  class HeadlessShmOutput {
    const region: array<U8>
    const slotLen: nat
    var activeSlot: nat
    var generation: U64
    var latest: Option<Publication>
    ghost var latestSequence: U64
    ghost var seen: seq<seq<U8>>

    ghost predicate Mapped()
      reads this
    {
      activeSlot <= 1 && region.Length == 2 * slotLen && slotLen >= HEADLESS_SHM_HEADER_LEN
    }

    function Base(slot: nat): nat
      requires slot <= 1
    {
      if slot == 0 then 0 else slotLen
    }

    function Slot(slot: nat): (r: seq<U8>)
      reads region
      requires slot <= 1 && region.Length == 2 * slotLen
      ensures |r| == slotLen
    {
      region[Base(slot)..Base(slot) + slotLen]
    }

    /** The active slot holds exactly the latest frame. */
    ghost predicate Valid()
      reads this, region
    {
      && Mapped()
      && (latest.Some? ==>
            && FrameAccepted(latest.value) && latest.value.SlotLen() == slotLen
            && generation == latest.value.outputGeneration
            && Slot(activeSlot) == SlotBytes(latest.value, latestSequence))
    }

    constructor (slotLen: nat, generation: U64)
      requires slotLen >= HEADLESS_SHM_HEADER_LEN
      ensures Valid() && this.slotLen == slotLen && this.generation == generation && latest == None && activeSlot == 0
      ensures seen == [] && fresh(region) && Blank(Slot(0))
    {
      this.slotLen := slotLen;
      this.generation := generation;
      region := new U8[2 * slotLen](_ => 0);
      activeSlot := 0;
      latest := None;
      seen := [];
    }

    method PutByte(offset: nat, b: U8)
      requires Mapped() && offset < slotLen
      modifies region, this`seen
      ensures Slot(1 - activeSlot) == old(Slot(1 - activeSlot))[offset := b]
      ensures Slot(activeSlot) == old(Slot(activeSlot))
      ensures seen == old(seen) + [old(Slot(activeSlot))]
    {
      var at := Base(1 - activeSlot) + offset;
      ghost var whole := region[..];
      region[at] := b;
      assert region[..] == whole[at := b];
      assert Slot(activeSlot) == old(Slot(activeSlot));
      assert Slot(1 - activeSlot) == old(Slot(1 - activeSlot))[offset := b];
      seen := seen + [Slot(activeSlot)];
    }

    /** Nobody looking at the active slot since `before` saw anything but `bytes`. */
    ghost predicate Untouched(before: seq<seq<U8>>, bytes: seq<U8>)
      reads this, region
      requires Mapped()
    {
      && Slot(activeSlot) == bytes && before <= seen
      && forall i :: |before| <= i < |seen| ==> seen[i] == bytes
    }

    method ZeroPayload(p: Publication)
      requires Mapped() && FrameAccepted(p) && p.SlotLen() == slotLen
      modifies region, this`seen
      ensures Untouched(old(seen), old(Slot(activeSlot))) && Filled(p, Slot(1 - activeSlot), 0)
    {
      hide Slot;
      for k := 0 to p.PayloadLen()
        invariant Untouched(old(seen), old(Slot(activeSlot)))
        invariant Zeroed(Slot(1 - activeSlot), HEADLESS_SHM_HEADER_LEN + k)
      {
        PutByte(HEADLESS_SHM_HEADER_LEN + k, 0);
      }
    }

    /** Four bytes of one pixel. */
    method PutWord(p: Publication, k: nat, w: Word)
      requires Mapped() && FrameAccepted(p) && p.SlotLen() == slotLen && k + 4 <= p.PayloadLen()
      requires Filled(p, Slot(1 - activeSlot), k)
      requires WordPlaced(p, k, w)
      modifies region, this`seen
      ensures Untouched(old(seen), old(Slot(activeSlot))) && Filled(p, Slot(1 - activeSlot), k + 4)
    {
      hide PayloadByte, LittleEndian, Slot;
      var bytes := LittleEndian(w, 4);
      for b := 0 to 4
        invariant Untouched(old(seen), old(Slot(activeSlot))) && Filled(p, Slot(1 - activeSlot), k + b)
      {
        assert PayloadByte(p, k + b) == bytes[b];
        PutByte(HEADLESS_SHM_HEADER_LEN + k + b, bytes[b]);
      }
    }

    /** One row of pixels; its padding stays zero. */
    method PutRow(p: Publication, row: nat)
      requires Mapped() && FrameAccepted(p) && p.SlotLen() == slotLen && row < p.geometry.height
      requires Filled(p, Slot(1 - activeSlot), row * p.stride)
      modifies region, this`seen
      ensures Untouched(old(seen), old(Slot(activeSlot))) && Filled(p, Slot(1 - activeSlot), (row + 1) * p.stride)
    {
      hide PayloadByte, LittleEndian, Slot, Filled;
      var width := p.geometry.width;
      MulNonNegative(row, p.stride);
      for column := 0 to width
        invariant Untouched(old(seen), old(Slot(activeSlot))) && Filled(p, Slot(1 - activeSlot), row * p.stride + 4 * column)
      {
        RowFits(p, row);
        WordOfRow(p, row, column);
        PutWord(p, row * p.stride + 4 * column, p.pixels[row * width + column]);
      }
      PaddingOfRow(p, Slot(1 - activeSlot), row);
    }

    method PutRows(p: Publication)
      requires Mapped() && FrameAccepted(p) && p.SlotLen() == slotLen && Filled(p, Slot(1 - activeSlot), 0)
      modifies region, this`seen
      ensures Untouched(old(seen), old(Slot(activeSlot))) && Filled(p, Slot(1 - activeSlot), p.PayloadLen())
    {
      hide Slot, Filled;
      for row := 0 to p.geometry.height
        invariant Untouched(old(seen), old(Slot(activeSlot))) && 0 <= row * p.stride && Filled(p, Slot(1 - activeSlot), row * p.stride)
      {
        MulNonNegative(row + 1, p.stride);
        PutRow(p, row);
      }
      assert p.geometry.height * p.stride == p.PayloadLen();
    }

    method PutHeader(p: Publication, completionSequence: U64)
      requires Mapped() && FrameAccepted(p) && p.SlotLen() == slotLen && Filled(p, Slot(1 - activeSlot), p.PayloadLen())
      modifies region, this`seen
      ensures Untouched(old(seen), old(Slot(activeSlot))) && Slot(1 - activeSlot) == SlotBytes(p, completionSequence)
    {
      hide HeaderBytes, PayloadByte, Slot, Filled;
      var header := HeaderBytes(HeaderOf(p, completionSequence));
      for k := 0 to HEADLESS_SHM_HEADER_LEN
        invariant Untouched(old(seen), old(Slot(activeSlot)))
        invariant Headed(Slot(1 - activeSlot), old(Slot(1 - activeSlot)), header, k)
      {
        HeadedNext(Slot(1 - activeSlot), old(Slot(1 - activeSlot)), header, k);
        PutByte(k, header[k]);
      }
      HeadedFull(p, completionSequence, Slot(1 - activeSlot), old(Slot(1 - activeSlot)));
    }

    /** The copy and the switch of `publish_atomic`. */
    method Publish(p: Publication, completionSequence: U64)
      requires Valid() && FrameAccepted(p) && p.SlotLen() == slotLen
      modifies this, region
      ensures Valid() && latest == Some(p) && latestSequence == completionSequence && activeSlot == 1 - old(activeSlot)
      ensures generation == p.outputGeneration
      // up to the switch a reader found the old slot as it was, and it still is
      ensures old(seen) <= seen && forall i :: |old(seen)| <= i < |seen| ==> seen[i] == old(Slot(activeSlot))
      ensures Slot(1 - activeSlot) == old(Slot(activeSlot))
      ensures Read(Slot(activeSlot)) == Some(Shown(HeaderOf(p, completionSequence), p.pixels))
    {
      hide Slot, SlotBytes, Filled, Read, HeaderOf;
      ZeroPayload(p);
      PutRows(p);
      PutHeader(p, completionSequence);
      PublishedIsRead(p, completionSequence);
      activeSlot := 1 - activeSlot;
      generation := p.outputGeneration;
      latest := Some(p);
      latestSequence := completionSequence;
    }
  }

  /** `HeadlessShmDisplayBackend`: one mapping per output. */
  class HeadlessShmDisplayBackend {
    var outputs: map<string, HeadlessShmOutput>
    var nextSequence: U64
    var pending: map<Token, Publication>
    const backendInstanceId: U64

    ghost function Mappings(): set<HeadlessShmOutput>
      reads this`outputs
    {
      set k | k in outputs :: outputs[k]
    }

    ghost function Regions(): set<array<U8>>
      reads this`outputs
    {
      set k | k in outputs :: outputs[k].region
    }

    /** Every mapping shows its latest frame, and no two outputs share memory. */
    ghost predicate Valid()
      reads this`outputs, Mappings(), Regions()
    {
      && (forall k :: k in outputs ==> outputs[k].Valid())
      && (forall j, k :: j in outputs && k in outputs && j != k ==> outputs[j] != outputs[k] && outputs[j].region != outputs[k].region)
    }

    /** What a reader of an output finds. */
    ghost function Screen(k: string): Option<Shown>
      reads this`outputs, Mappings(), Regions()
      requires Valid() && k in outputs
    {
      Read(outputs[k].Slot(outputs[k].activeSlot))
    }

    constructor (backendInstanceId: U64)
      ensures Valid() && outputs == map[] && nextSequence == 0 && pending == map[]
    {
      this.backendInstanceId := backendInstanceId;
      outputs, pending := map[], map[];
      nextSequence := 0;
    }

    /** Does the frame's output need a mapping of its own size and generation? */
    predicate NeedsRegion(p: Publication)
      reads this`outputs, Mappings()
    {
      p.outputId !in outputs || outputs[p.outputId].generation != p.outputGeneration || outputs[p.outputId].slotLen != p.SlotLen()
    }

    /** A mapping for the frame's output: the present one, or a new one when the generation
        or the size changed; `allocates` is the system's answer. */
    method EnsureRegion(p: Publication, allocates: bool) returns (output: HeadlessShmOutput?)
      requires Valid() && FrameAccepted(p)
      modifies this`outputs
      ensures Valid()
      ensures output == null <==> old(NeedsRegion(p)) && !allocates
      ensures output == null ==> outputs == old(outputs)
      ensures output != null ==> outputs == old(outputs)[p.outputId := output] && output.slotLen == p.SlotLen()
      ensures output != null && old(NeedsRegion(p)) ==>
        fresh(output) && fresh(output.region) && output.seen == [] && output.activeSlot == 0
        && output.region.Length == 2 * output.slotLen && Blank(output.Slot(0))
      ensures output != null && !old(NeedsRegion(p)) ==> p.outputId in old(outputs) && output == old(outputs)[p.outputId]
    {
      if p.outputId in outputs && outputs[p.outputId].generation == p.outputGeneration && outputs[p.outputId].slotLen == p.SlotLen() {
        return outputs[p.outputId];
      }
      if !allocates {
        return null;
      }
      output := new HeadlessShmOutput(p.SlotLen(), p.outputGeneration);
      outputs := outputs[p.outputId := output];
    }

    /** The writing half of `publish_atomic`; no other output's memory is touched. */
    method PublishInto(output: HeadlessShmOutput, p: Publication)
      requires Valid() && FrameAccepted(p) && p.outputId in outputs && outputs[p.outputId] == output && p.SlotLen() == output.slotLen
      modifies this`nextSequence, output, output.region
      ensures Valid() && nextSequence == Inc(old(nextSequence))
      ensures Screen(p.outputId) == Some(Shown(HeaderOf(p, old(nextSequence)), p.pixels))
      ensures old(output.seen) <= output.seen
      ensures forall i :: |old(output.seen)| <= i < |output.seen| ==> output.seen[i] == old(output.Slot(output.activeSlot))
      ensures forall k :: k in outputs && k != p.outputId ==> Screen(k) == old(Screen(k))
    {
      hide FrameAccepted, Read, HeaderOf, SlotBytes, HeadlessShmOutput.Valid, HeadlessShmOutput.Slot, HeadlessShmOutput.Mapped;
      output.Publish(p, nextSequence);
      nextSequence := Inc(nextSequence);
    }

    /** `publish_atomic`: a refused frame, or one no memory is found for, changes nothing; an
        accepted one is what its output shows from then on, and every other output shows what
        it showed. While it is written a reader of a kept mapping sees the frame before; one of
        a new mapping, which is the output's already, sees no frame. */
    method PublishAtomic(p: Publication, allocates: bool) returns (ok: bool)
      requires Valid()
      modifies this`outputs, this`nextSequence, Mappings(), Regions()
      ensures Valid() && (ok <==> FrameAccepted(p) && (allocates || !old(NeedsRegion(p))))
      ensures !ok ==> outputs == old(outputs) && nextSequence == old(nextSequence)
      ensures ok ==> outputs.Keys == old(outputs).Keys + {p.outputId} && nextSequence == Inc(old(nextSequence))
      ensures ok ==> Screen(p.outputId) == Some(Shown(HeaderOf(p, old(nextSequence)), p.pixels))
      ensures ok && old(NeedsRegion(p)) ==> forall i :: 0 <= i < |outputs[p.outputId].seen| ==> ShowsNothing(outputs[p.outputId].seen[i])
      ensures ok && !old(NeedsRegion(p)) ==>
        && p.outputId in old(outputs) && outputs[p.outputId] == old(outputs)[p.outputId]
        && old(outputs[p.outputId].seen) <= outputs[p.outputId].seen
        && forall i :: old(|outputs[p.outputId].seen|) <= i < |outputs[p.outputId].seen| ==>
             Shows(outputs[p.outputId].seen[i], old(Screen(p.outputId)))
      ensures forall k :: k in old(outputs) && (!ok || k != p.outputId) ==>
        k in outputs && outputs[k] == old(outputs)[k] && Screen(k) == old(Screen(k))
    {
      hide FrameAccepted, Read, HeaderOf, SlotBytes, HeadlessShmOutput.Valid, HeadlessShmOutput.Slot, HeadlessShmOutput.Mapped;
      var payloadLen := ValidateFrame(p);
      if payloadLen.None? {
        return false;
      }
      var output := EnsureRegion(p, allocates);
      if output == null {
        return false;
      }
      assert p.outputId in outputs && outputs[p.outputId] == output;
      SlotIsWhole(output);
      ghost var active := output.Slot(output.activeSlot);
      if old(NeedsRegion(p)) {
        BlankShowsNothing(active);
      }
      PublishInto(output, p);
      ok := true;
    }

    /** The bytes of the frames pending, in whatever order the map yields them. */
    method SumPending() returns (bytes: nat)
      ensures bytes == PendingBytes(pending)
    {
      bytes := 0;
      var rest := pending;
      while rest != map[]
        invariant bytes + PendingBytes(rest) == PendingBytes(pending)
        decreases |rest|
      {
        var t :| t in rest.Keys;
        PendingRemove(rest, t);
        bytes := bytes + FrameBytes(rest[t]);
        rest := rest - {t};
      }
    }

    /** `submit_frame`: within the budgets of 64 frames and 1 GiB pending, a frame that can be
        published is, and is pending under a token of its own; otherwise nothing changes. */
    method SubmitFrame(p: Publication, allocates: bool) returns (token: Option<Token>)
      requires Valid() && Budgeted(pending)
      modifies this`outputs, this`nextSequence, this`pending, Mappings(), Regions()
      ensures Valid() && Budgeted(pending)
      ensures token.Some? <==>
        && |old(pending)| < MAX_HEADLESS_PENDING_SUBMISSIONS
        && PendingBytes(old(pending)) + FrameBytes(p) <= MAX_TOTAL_FRAMEBUFFER_BYTES
        && FrameAccepted(p) && (allocates || !old(NeedsRegion(p)))
      ensures token.None? ==> outputs == old(outputs) && nextSequence == old(nextSequence) && pending == old(pending)
      ensures token.Some? ==>
        && token.value == Token(Max(backendInstanceId, HEADLESS_SHM_BACKEND_INSTANCE_ID), Inc(old(nextSequence)), p.outputId,
                                p.outputGeneration, p.sceneGeneration, p.frameId)
        && pending == old(pending)[token.value := p] && nextSequence == Inc(old(nextSequence))
        && p.outputId in outputs && Screen(p.outputId) == Some(Shown(HeaderOf(p, old(nextSequence)), p.pixels))
      ensures forall k :: k in old(outputs) && (token.None? || k != p.outputId) ==>
        k in outputs && outputs[k] == old(outputs)[k] && Screen(k) == old(Screen(k))
    {
      hide FrameAccepted, Read, HeaderOf, Valid, NeedsRegion, Screen;
      if |pending| >= MAX_HEADLESS_PENDING_SUBMISSIONS {
        return None;
      }
      var bytes := SumPending();
      if bytes + FrameBytes(p) > MAX_TOTAL_FRAMEBUFFER_BYTES {
        return None;
      }
      var published := PublishAtomic(p, allocates);
      if !published {
        return None;
      }
      var t := Token(Max(backendInstanceId, HEADLESS_SHM_BACKEND_INSTANCE_ID), nextSequence, p.outputId, p.outputGeneration, p.sceneGeneration, p.frameId);
      NotePending(t, p);
      token := Some(t);
    }

    method NotePending(t: Token, p: Publication)
      requires Valid()
      requires |pending| < MAX_HEADLESS_PENDING_SUBMISSIONS && PendingBytes(pending) + FrameBytes(p) <= MAX_TOTAL_FRAMEBUFFER_BYTES
      modifies this`pending
      ensures pending == old(pending)[t := p] && Budgeted(pending)
      ensures Valid() && forall k :: k in outputs ==> Screen(k) == old(Screen(k))
    {
      hide Read, HeadlessShmOutput.Valid, HeadlessShmOutput.Slot;
      PendingInsert(pending, t, p);
      pending := pending[t := p];
    }
  }

  function FrameBytes(p: Publication): nat
  {
    |p.pixels| * 4
  }

  ghost function PendingBytes(m: map<Token, Publication>): nat
  {
    if m == map[] then 0
    else var t :| t in m; FrameBytes(m[t]) + PendingBytes(m - {t})
  }

  ghost predicate Budgeted(m: map<Token, Publication>)
  {
    |m| <= MAX_HEADLESS_PENDING_SUBMISSIONS && PendingBytes(m) <= MAX_TOTAL_FRAMEBUFFER_BYTES
  }

  lemma {:induction false} PendingRemove(m: map<Token, Publication>, t: Token)
    requires t in m
    ensures PendingBytes(m) == FrameBytes(m[t]) + PendingBytes(m - {t}) && |m - {t}| == |m| - 1
    decreases |m|
  {
    assert (m - {t}).Keys == m.Keys - {t};
    var c :| c in m && PendingBytes(m) == FrameBytes(m[c]) + PendingBytes(m - {c});
    if c != t {
      assert (m - {c}).Keys == m.Keys - {c};
      PendingRemove(m - {c}, t);
      PendingRemove(m - {t}, c);
      assert (m - {c}) - {t} == (m - {t}) - {c};
    }
  }

  lemma PendingInsert(m: map<Token, Publication>, t: Token, p: Publication)
    ensures PendingBytes(m[t := p]) <= PendingBytes(m) + FrameBytes(p) && |m[t := p]| <= |m| + 1
  {
    PendingRemove(m[t := p], t);
    assert m[t := p] - {t} == m - {t};
    if t in m {
      PendingRemove(m, t);
    } else {
      assert m - {t} == m;
    }
  }

  ghost predicate ShowsNothing(slot: seq<U8>)
  {
    |slot| >= HEADLESS_SHM_HEADER_LEN && Read(slot) == None
  }

  ghost predicate Shows(slot: seq<U8>, shown: Option<Shown>)
  {
    |slot| >= HEADLESS_SHM_HEADER_LEN && Read(slot) == shown
  }

  lemma SlotIsWhole(output: HeadlessShmOutput)
    requires output.Valid()
    ensures output.activeSlot <= 1 && output.region.Length == 2 * output.slotLen && output.slotLen >= HEADLESS_SHM_HEADER_LEN
    ensures |output.Slot(output.activeSlot)| == output.slotLen
  {
  }

  lemma RowFits(p: Publication, row: nat)
    requires FrameAccepted(p) && row < p.geometry.height
    ensures 0 <= row * p.stride && row * p.stride + 4 * p.geometry.width <= p.PayloadLen()
  {
    MulNonNegative(row, p.stride);
    RowsDoNotOverlap(p.stride, row, p.geometry.height);
    assert p.geometry.height * p.stride == p.PayloadLen();
  }

  lemma WordOfRow(p: Publication, row: nat, column: nat)
    requires FrameAccepted(p) && row < p.geometry.height && column < p.geometry.width
    ensures 0 <= row * p.geometry.width + column < |p.pixels|
    ensures 0 <= row * p.stride && row * p.stride + 4 * column + 4 <= p.PayloadLen()
    ensures WordPlaced(p, row * p.stride + 4 * column, p.pixels[row * p.geometry.width + column])
  {
    hide LittleEndian;
    RowFits(p, row);
    MulNonNegative(row, p.geometry.width);
    RowsDoNotOverlap(p.geometry.width, row, p.geometry.height);
    assert p.geometry.height * p.geometry.width == p.geometry.width * p.geometry.height;
    var at, w := row * p.stride + 4 * column, p.pixels[row * p.geometry.width + column];
    forall b | 0 <= b < 4
      ensures PayloadByte(p, at + b) == LittleEndian(w, 4)[b]
    {
      Quotient(row, 4 * column + b, p.stride);
      assert (4 * column + b) / 4 == column && (4 * column + b) % 4 == b;
      assert row * p.stride + (4 * column + b) == row * p.stride + 4 * column + b;
    }
  }

  lemma PaddingOfRow(p: Publication, slot: seq<U8>, row: nat)
    requires FrameAccepted(p) && row < p.geometry.height && |slot| == p.SlotLen()
    requires 0 <= row * p.stride && Filled(p, slot, row * p.stride + 4 * p.geometry.width)
    ensures 0 <= (row + 1) * p.stride && Filled(p, slot, (row + 1) * p.stride)
  {
    MulSuccessor(row, p.stride);
    forall k | row * p.stride + 4 * p.geometry.width <= k < (row + 1) * p.stride && k < p.PayloadLen()
      ensures PayloadByte(p, k) == 0
    {
      Quotient(row, k - row * p.stride, p.stride);
    }
  }
}
