/** Format and frame descriptors as the parser keeps them, and the repair of degenerate frame fields. */
module Descriptors {
  import opened ByteOrder

  /** intervals is the zero-terminated array; it is empty where the source leaves the pointer NULL. */
  datatype Frame = Frame(
    subtype: byte, index: byte, capabilities: byte, width: u16, height: u16, minBitRate: u32, maxBitRate: u32,
    maxSize: u32, defInterval: u32, intervalType: byte, bytesPerLine: u32,
    minInterval: u32, maxInterval: u32, step: u32, intervals: seq<u32>)

  /** bitsPerPixel shares its byte with bmFlags, so a MJPEG format keeps neither. */
  datatype Format = Format(
    subtype: byte, index: byte, numFrames: byte, guid: seq<byte>, bitsPerPixel: byte, defFrame: byte,
    aspectX: byte, aspectY: byte, interlace: byte, copyProtect: byte, variableSize: byte, frames: seq<Frame>)

  /** As many intervals as announced, none of them 0, and then a 0; none at all in continuous mode. */
  predicate Terminated(f: Frame) {
    if f.intervalType == 0 then f.intervals == []
    else
      && |f.intervals| == f.intervalType + 1 && f.intervals[f.intervalType] == 0
      && forall i :: 0 <= i < f.intervalType ==> f.intervals[i] != 0
  }

  /** The advertised range of intervals. */
  function Lowest(f: Frame): u32
    requires Terminated(f)
  {
    if f.intervalType == 0 then f.minInterval else f.intervals[0]
  }

  function Highest(f: Frame): u32
    requires Terminated(f)
  {
    if f.intervalType == 0 then f.maxInterval else f.intervals[f.intervalType - 1]
  }

  predicate ValidRange(f: Frame)
    requires Terminated(f)
  {
    0 < Lowest(f) <= Highest(f)
  }

  function Min(a: u32, b: u32): u32 { if a < b then a else b }

  function Max(a: u32, b: u32): u32 { if a > b then a else b }

  /** The 32-bit products the repair computes; the division by 8 comes after the wrap. */
  function BufferSize(bpp: byte, w: u16, h: u16): u32 {
    if bpp != 0 then bpp * w * h % TWO32 / 8 else w * h * 2 % TWO32
  }

  function RepairSize(bpp: byte, f: Frame): Frame {
    if f.maxSize == 0 && f.width != 0 && f.height != 0
    then f.(maxSize := BufferSize(bpp, f.width, f.height)) else f
  }

  function RepairInterval(f: Frame): Frame
    requires Terminated(f)
  {
    var lo, hi := Lowest(f), Highest(f);
    if lo != 0 && hi != 0 && lo <= hi && (f.defInterval == 0 || f.defInterval < lo || f.defInterval > hi)
    then f.(defInterval := Min(hi, Max(lo, f.defInterval))) else f
  }

  /** uvc_repair_frame_desc */
  function Repair(bpp: byte, f: Frame): Frame
    requires Terminated(f)
  {
    RepairInterval(RepairSize(bpp, f))
  }

  /** A descriptor with a buffer size, or no picture to size, and a default in a range that is one. */
  predicate Sane(f: Frame)
    requires Terminated(f)
  {
    && (f.maxSize != 0 || f.width == 0 || f.height == 0)
    && (ValidRange(f) ==> Lowest(f) <= f.defInterval <= Highest(f))
  }

  /** Nothing but the two repaired fields changes. */
  predicate SameButRepaired(f: Frame, g: Frame) {
    g == f.(maxSize := g.maxSize, defInterval := g.defInterval)
  }

  /**
   The repair keeps what is sane, puts the default interval into any valid range, moving it no further
   than the end it overshot, and is done after one application.
   */
  lemma RepairMeets(bpp: byte, f: Frame)
    requires Terminated(f)
    ensures var g := Repair(bpp, f);
      && Terminated(g) && SameButRepaired(f, g) && Repair(bpp, g) == g
      && (Sane(f) ==> g == f)
      && (ValidRange(f) ==> Lowest(f) <= g.defInterval <= Highest(f))
      && (ValidRange(f) && f.defInterval < Lowest(f) ==> g.defInterval == Lowest(f))
      && (ValidRange(f) && f.defInterval > Highest(f) ==> g.defInterval == Highest(f))
      && (!ValidRange(f) ==> g.defInterval == f.defInterval)
      && (f.maxSize != 0 ==> g.maxSize == f.maxSize)
  {
    var s := RepairSize(bpp, f);
    assert Terminated(s) && Lowest(s) == Lowest(f) && Highest(s) == Highest(f);
  }

  predicate AscendingIntervals(f: Frame)
    requires Terminated(f) && f.intervalType != 0
  {
    forall i, j :: 0 <= i < j < f.intervalType ==> f.intervals[i] <= f.intervals[j]
  }

  /**
   A frame that lists its intervals, ascending as the class orders them: a default shorter than all of them
   becomes the shortest, one longer than all the longest, and any other stays.
   */
  lemma ListRepaired(bpp: byte, f: Frame)
    requires Terminated(f) && f.intervalType != 0 && AscendingIntervals(f)
    ensures var g, n := Repair(bpp, f).defInterval, f.intervalType;
      && ((forall i :: 0 <= i < n ==> f.defInterval < f.intervals[i]) ==> g == f.intervals[0])
      && ((forall i :: 0 <= i < n ==> f.defInterval > f.intervals[i]) ==> g == f.intervals[n - 1])
      && (f.intervals[0] <= f.defInterval <= f.intervals[n - 1] ==> g == f.defInterval)
      && (forall i :: 0 <= i < n ==> Lowest(f) <= f.intervals[i] <= Highest(f))
  {
    RepairMeets(bpp, f);
    var n := f.intervalType;
    assert f.intervals[0] <= f.intervals[n - 1];
    forall i | 0 <= i < n ensures Lowest(f) <= f.intervals[i] <= Highest(f) {
      assert i > 0 ==> f.intervals[0] <= f.intervals[i];
      assert i < n - 1 ==> f.intervals[i] <= f.intervals[n - 1];
    }
    assert Lowest(f) == f.intervals[0] && Highest(f) == f.intervals[n - 1];
  }

  function Pow2(k: nat): (p: nat)
    ensures p > 0
  {
    if k == 0 then 1 else 2 * Pow2(k - 1)
  }

  lemma Halve(a: nat, b: nat, p: nat)
    requires a * b == 2 * p
    ensures (a % 2 == 0 && (a / 2) * b == p) || (b % 2 == 0 && a * (b / 2) == p)
  {
    var x, y := a / 2, b / 2;
    if a % 2 == 0 {
      assert a == 2 * x;
      assert 2 * (x * b) == 2 * p;
    } else {
      assert a == 2 * x + 1;
      assert a * b == 2 * (x * b) + b;
      assert b == 2 * y;
      assert a * b == 2 * (a * y);
    }
  }

  /** Factors below 2^i and 2^j cannot have a product of 2^(i + j - 1) or more among the powers of two. */
  lemma {:induction false} PowerFactors(a: nat, b: nat, i: nat, j: nat, k: nat)
    requires a < Pow2(i) && b < Pow2(j) && a * b == Pow2(k)
    ensures k + 2 <= i + j
    decreases k
  {
    assert a != 0 && b != 0;
    assert i > 0 && j > 0;
    if k > 0 {
      Halve(a, b, Pow2(k - 1));
      if a % 2 == 0 && (a / 2) * b == Pow2(k - 1) {
        PowerFactors(a / 2, b, i - 1, j, k - 1);
      } else {
        PowerFactors(a, b / 2, i, j - 1, k - 1);
      }
    }
  }

  lemma SixteenBits()
    ensures Pow2(16) == TWO16 && Pow2(31) == 0x8000_0000
  {
    assert Pow2(8) == 256;
    assert Pow2(16) == 65536;
    assert Pow2(24) == 16777216;
  }

  /** A picture with a side that is not 0 never wraps to a buffer of size 0 when it has no bits per pixel. */
  lemma CompressedSizeIsNotZero(w: u16, h: u16)
    requires w != 0 && h != 0
    ensures BufferSize(0, w, h) != 0
  {
    var p := w * h;
    assert 0 < p by { Positive(w, h); }
    assert p < TWO32 by { Below(w, h); }
    if BufferSize(0, w, h) == 0 {
      assert p == 0x8000_0000;
      SixteenBits();
      PowerFactors(w, h, 16, 16, 31);
    }
  }

  lemma Positive(w: int, h: int)
    requires w > 0 && h > 0
    ensures w * h > 0
  {
  }

  lemma Below(w: nat, h: nat)
    requires w < TWO16 && h < TWO16
    ensures w * h < TWO32
  {
    assert (TWO16 - w) * h >= 0;
    assert w * h <= TWO16 * h;
  }

  /**
   After the repair the buffer size is 0 exactly when there is nothing to size, or the picture has bits
   per pixel whose 32-bit product leaves less than one byte.
   */
  lemma RepairedSizeIsZeroIff(bpp: byte, f: Frame)
    requires Terminated(f)
    ensures Repair(bpp, f).maxSize == 0 <==>
      f.maxSize == 0 && (f.width == 0 || f.height == 0 || (bpp != 0 && bpp * f.width * f.height % TWO32 < 8))
  {
    if f.width != 0 && f.height != 0 { CompressedSizeIsNotZero(f.width, f.height); }
  }

  /** Where nothing wraps, a repaired size is the whole bytes of the picture: its bits, or two bytes a pixel. */
  lemma RepairedSizeFits(bpp: byte, f: Frame)
    requires Terminated(f) && f.maxSize == 0 && f.width != 0 && f.height != 0
    requires bpp * f.width * f.height < TWO32 && 2 * (f.width * f.height) < TWO32
    ensures var size := Repair(bpp, f).maxSize;
      if bpp != 0 then 8 * size <= bpp * f.width * f.height < 8 * size + 8 else size == 2 * (f.width * f.height)
  {
    assert f.width * f.height * 2 == 2 * (f.width * f.height);
  }

  /** 16 bits per pixel at 16384 by 16384 is one such picture. */
  lemma WrappedSizeIsZero(f: Frame)
    requires Terminated(f) && f.maxSize == 0 && f.width == 16384 && f.height == 16384
    ensures Repair(16, f).maxSize == 0
  {
  }
}
