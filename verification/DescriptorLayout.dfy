/**
 The format and frame descriptors of the USB Video Class specification written out as bytes, and the
 proof that the parsers read back exactly the record that was written.
 */
module DescriptorLayout {
  import opened ByteOrder
  import opened Descriptors
  import opened Scan
  import opened StreamingInterface

  const CS_INTERFACE: byte := 0x24

  function IntervalBytes(xs: seq<u32>): (b: seq<byte>)
    ensures |b| == 4 * |xs|
  {
    if xs == [] then [] else FromInt(xs[0]) + IntervalBytes(xs[1..])
  }

  predicate AnyZero(xs: seq<u32>) { exists i :: 0 <= i < |xs| && xs[i] == 0 }

  /** Intervals written out are read back, with the terminating 0. */
  lemma {:induction false} IntervalsRoundTrip(b: seq<byte>, at: nat, xs: seq<u32>)
    requires at + 4 * |xs| <= |b| && b[at..at + 4 * |xs|] == IntervalBytes(xs) && !AnyZero(xs)
    ensures IntervalsOf(b, at, |xs|) == xs + [0]
    decreases |xs|
  {
    if xs != [] {
      var n := |xs|;
      var all := b[at..at + 4 * n];
      assert all[..4] == FromInt(xs[0]) && all[4..] == IntervalBytes(xs[1..]);
      assert b[at..at + 4] == all[..4] && b[at + 4..at + 4 + 4 * (n - 1)] == all[4..];
      IntOfSlice(b, at, xs[0]);
      assert xs[0] != 0;
      assert !AnyZero(xs[1..]);
      IntervalsRoundTrip(b, at + 4, xs[1..]);
    }
  }

  lemma IntOfSlice(b: seq<byte>, at: nat, v: u32)
    requires at + 4 <= |b| && b[at..at + 4] == FromInt(v)
    ensures Int(b, at) == v
  {
    var s := b[at..at + 4];
    assert s[0] == b[at] && s[1] == b[at + 1] && s[2] == b[at + 2] && s[3] == b[at + 3];
  }

  lemma SubSlice(b: seq<byte>, at: nat, len: nat, i: nat, j: nat)
    requires at + len <= |b| && i <= j <= len
    ensures b[at..at + len][i..j] == b[at + i..at + j]
  {
    var s := b[at..at + len];
    assert forall k :: i <= k < j ==> s[k] == b[at + k];
  }

  lemma ShortOfSlice(b: seq<byte>, at: nat, v: u16)
    requires at + 2 <= |b| && b[at..at + 2] == FromShort(v)
    ensures Short(b, at) == v
  {
    var s := b[at..at + 2];
    assert s[0] == b[at] && s[1] == b[at + 1];
  }

  // ----- frames

  /** Behind the fixed fields: the range of continuous mode, or the list of intervals. */
  function Tail(f: ParsedFrame): (b: seq<byte>)
    ensures |b| == if f.intervalType == 0 then 12 else 4 * f.intervalType
  {
    if f.intervalType == 0 then FromInt(f.minInterval) + FromInt(f.maxInterval) + FromInt(f.step)
    else IntervalBytes(f.intervals[..f.intervalType])
  }

  /** The five bytes every frame descriptor starts with, and the size and bit rates. */
  function Front(f: ParsedFrame, len: byte): (b: seq<byte>)
    ensures |b| == 17
  {
    [len, CS_INTERFACE, f.subtype, f.index, f.capabilities] + FromShort(f.width) + FromShort(f.height)
    + FromInt(f.minBitRate) + FromInt(f.maxBitRate)
  }

  function Middle(f: ParsedFrame): (b: seq<byte>)
    ensures |b| == 9
  {
    if f.subtype == FRAME_FRAME_BASED then FromInt(f.defInterval) + [f.intervalType] + FromInt(f.bytesPerLine)
    else FromInt(f.maxSize) + FromInt(f.defInterval) + [f.intervalType]
  }

  /** A record some descriptor can hold: fields its layout lacks are 0, and it is at most 255 bytes long. */
  predicate Writable(f: ParsedFrame) {
    && f.subtype in [FRAME_UNCOMPRESSED, FRAME_MJPEG, FRAME_FRAME_BASED] && f.intervalType <= 57
    && (if f.subtype == FRAME_FRAME_BASED then f.maxSize == 0 else f.bytesPerLine == 0)
    && (f.intervalType != 0 ==> f.minInterval == 0 && f.maxInterval == 0 && f.step == 0)
  }

  function WriteFrame(f: ParsedFrame): (b: Block)
    requires Writable(f)
    ensures |b| == 26 + |Tail(f)| && b[2] == f.subtype
  {
    var len: int := 26 + |Tail(f)|;
    Front(f, len) + Middle(f) + Tail(f)
  }

  lemma FrontFields(f: ParsedFrame, b: seq<byte>, len: byte)
    requires |b| >= 17 && b[..17] == Front(f, len)
    ensures b[2] == f.subtype && b[3] == f.index && b[4] == f.capabilities
    ensures Short(b, 5) == f.width && Short(b, 7) == f.height && Int(b, 9) == f.minBitRate && Int(b, 13) == f.maxBitRate
  {
    var h := b[..17];
    assert b[2] == h[2] && b[3] == h[3] && b[4] == h[4];
    assert b[5..7] == h[5..7] == FromShort(f.width);
    assert b[7..9] == h[7..9] == FromShort(f.height);
    assert b[9..13] == h[9..13] == FromInt(f.minBitRate);
    assert b[13..17] == h[13..17] == FromInt(f.maxBitRate);
    ShortOfSlice(b, 5, f.width);
    ShortOfSlice(b, 7, f.height);
    IntOfSlice(b, 9, f.minBitRate);
    IntOfSlice(b, 13, f.maxBitRate);
  }

  lemma MiddleFields(f: ParsedFrame, b: seq<byte>)
    requires |b| >= 26 && b[17..26] == Middle(f)
    ensures f.subtype == FRAME_FRAME_BASED ==>
      Int(b, 17) == f.defInterval && b[21] == f.intervalType && Int(b, 22) == f.bytesPerLine
    ensures f.subtype != FRAME_FRAME_BASED ==>
      Int(b, 17) == f.maxSize && Int(b, 21) == f.defInterval && b[25] == f.intervalType
  {
    var m := b[17..26];
    SubSlice(b, 17, 9, 0, 4);
    if f.subtype == FRAME_FRAME_BASED {
      assert m[0..4] == FromInt(f.defInterval) && m[4] == f.intervalType && m[5..9] == FromInt(f.bytesPerLine);
      SubSlice(b, 17, 9, 5, 9);
      assert b[21] == m[4];
      IntOfSlice(b, 17, f.defInterval);
      IntOfSlice(b, 22, f.bytesPerLine);
    } else {
      assert m[0..4] == FromInt(f.maxSize) && m[4..8] == FromInt(f.defInterval) && m[8] == f.intervalType;
      SubSlice(b, 17, 9, 4, 8);
      assert b[25] == m[8];
      IntOfSlice(b, 17, f.maxSize);
      IntOfSlice(b, 21, f.defInterval);
    }
  }

  lemma RangeFields(f: ParsedFrame, b: seq<byte>)
    requires f.intervalType == 0 && |b| == 38 && b[26..] == Tail(f)
    ensures Int(b, 26) == f.minInterval && Int(b, 30) == f.maxInterval && Int(b, 34) == f.step
  {
    var t := b[26..];
    assert t == b[26..26 + 12];
    assert t[0..4] == FromInt(f.minInterval) && t[4..8] == FromInt(f.maxInterval) && t[8..12] == FromInt(f.step);
    SubSlice(b, 26, 12, 0, 4);
    SubSlice(b, 26, 12, 4, 8);
    SubSlice(b, 26, 12, 8, 12);
    IntOfSlice(b, 26, f.minInterval);
    IntOfSlice(b, 30, f.maxInterval);
    IntOfSlice(b, 34, f.step);
  }

  lemma ListFields(f: ParsedFrame, b: seq<byte>, n: nat)
    requires n == f.intervalType != 0 && |b| == 26 + 4 * n && b[26..] == Tail(f)
    ensures IntervalsOf(b, 26, n) == f.intervals
  {
    var xs := f.intervals[..n];
    assert b[26..26 + 4 * n] == b[26..];
    IntervalsRoundTrip(b, 26, xs);
    assert xs + [0] == f.intervals;
  }

  /** The frame parsers read back every field of every descriptor that can be written. */
  lemma FrameRoundTrip(f: ParsedFrame)
    requires Writable(f)
    ensures FullFrame(WriteFrame(f)) && RawFrame(WriteFrame(f)) == f
  {
    var b := WriteFrame(f);
    assert b[..17] == Front(f, b[0]);
    assert b[17..26] == Middle(f);
    assert b[26..] == Tail(f);
    FrontFields(f, b, b[0]);
    MiddleFields(f, b);
    if f.intervalType == 0 { RangeFields(f, b); } else { ListFields(f, b, f.intervalType); }
  }

  // ----- formats

  /** A format record some descriptor can hold, its list of frames still empty. */
  predicate WritableFormat(f: Format) {
    && f.frames == [] && |f.guid| == 16
    && f.subtype in [FORMAT_UNCOMPRESSED, FORMAT_MJPEG, FORMAT_FRAME_BASED]
    && (f.subtype != FORMAT_FRAME_BASED ==> f.numFrames == 0 && f.variableSize == 0)
    && (f.subtype == FORMAT_MJPEG ==> f.bitsPerPixel == 0 && f.guid == MJPG)
  }

  /** count and flags are bytes the parser does not keep in the layout at hand. */
  function WriteFormat(f: Format, count: byte, flags: byte): (b: Block)
    requires WritableFormat(f)
    ensures b[2] == f.subtype && FullFormat(b)
  {
    if f.subtype == FORMAT_MJPEG then
      [11, CS_INTERFACE, f.subtype, f.index, count, flags, f.defFrame, f.aspectX, f.aspectY, f.interlace, f.copyProtect]
    else if f.subtype == FORMAT_FRAME_BASED then
      [28, CS_INTERFACE, f.subtype, f.index, f.numFrames] + f.guid
      + [f.bitsPerPixel, f.defFrame, f.aspectX, f.aspectY, f.interlace, f.copyProtect, f.variableSize]
    else
      [27, CS_INTERFACE, f.subtype, f.index, count] + f.guid
      + [f.bitsPerPixel, f.defFrame, f.aspectX, f.aspectY, f.interlace, f.copyProtect]
  }

  /** The format parsers read back every field they keep. */
  lemma FormatRoundTrip(f: Format, count: byte, flags: byte)
    requires WritableFormat(f)
    ensures FormatOf(WriteFormat(f, count, flags)) == f
  {
    var b := WriteFormat(f, count, flags);
    if f.subtype != FORMAT_MJPEG { assert b[5..21] == f.guid; }
  }

  // ----- what the frame-based parsers refuse

  /** The block cut off after n bytes, with its length byte to match. */
  function Cut(b: Block, n: nat): (c: Block)
    requires 3 <= n <= |b|
    ensures |c| == n && forall i :: 0 < i < n ==> c[i] == b[i]
  {
    [n] + b[1..n]
  }

  /** A written frame-based format is accepted whole, and refused if a byte of it is missing. */
  lemma FormatAcceptedIff(f: Format, count: byte, flags: byte, n: nat, hasFormat: bool)
    requires WritableFormat(f) && f.subtype == FORMAT_FRAME_BASED && 3 <= n <= |WriteFormat(f, count, flags)|
    ensures Accept(Cut(WriteFormat(f, count, flags), n), hasFormat) <==> n == |WriteFormat(f, count, flags)|
  {
    assert |WriteFormat(f, count, flags)| == 28;
  }

  /** So is a frame, once there is a format to put it under. */
  lemma FrameAcceptedIff(f: ParsedFrame, n: nat, hasFormat: bool)
    requires Writable(f) && f.subtype == FRAME_FRAME_BASED && 3 <= n <= |WriteFrame(f)|
    ensures Accept(Cut(WriteFrame(f), n), hasFormat) <==> hasFormat && n == |WriteFrame(f)|
  {
    var b := WriteFrame(f);
    assert b[17..26] == Middle(f);
    assert b[21] == Middle(f)[4] == f.intervalType;
    assert n >= 26 ==> Cut(b, n)[21] == f.intervalType;
  }

  // ----- the input header

  /** An endpoint address as the descriptor has it: direction, three reserved bits, number. */
  function Address(isIn: bool, reserved: nat, number: nat): byte
    requires reserved < 8 && number < 16
  {
    (if isIn then 128 else 0) + 16 * reserved + number
  }

  function WriteHeader(formats: byte, total: u16, address: byte, info: byte, link: byte, still: byte): (b: Block)
    ensures b[2] == INPUT_HEADER && |b| == 13
  {
    [13, CS_INTERFACE, INPUT_HEADER, formats] + FromShort(total) + [address, info, link, still, 0, 0, 0]
  }

  /** The header parser reads back the terminal link, the still method, and the address without its reserved bits. */
  lemma InputHeaderRoundTrip(formats: byte, total: u16, isIn: bool, reserved: nat, number: nat, info: byte,
                             link: byte, still: byte)
    requires reserved < 8 && number < 16
    ensures HeaderIn(WriteHeader(formats, total, Address(isIn, reserved, number), info, link, still)) ==
      Header(Address(isIn, 0, number), link, still)
  {
    var a := Address(isIn, reserved, number);
    assert a / 128 == if isIn then 1 else 0;
    assert a % 16 == number;
  }
}
