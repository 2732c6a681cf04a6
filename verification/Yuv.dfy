/** The YUYV and UYVY conversions: fixed-point arithmetic, and loops that write eight pixels a round. */
module Yuv {
  import opened ByteOrder

  /** Clamps to a byte. */
  function Sat(i: int): byte { if i >= 255 then 255 else if i < 0 then 0 else i }

  /** x >> 14, which rounds down for negative x too. */
  function Shift14(x: int): int { x / 16384 }

  function RedShift(v: byte): int { Shift14(22987 * (v - 128)) }

  function GreenShift(u: byte, v: byte): int { Shift14(-5636 * (u - 128) - 11698 * (v - 128)) }

  function BlueShift(u: byte): int { Shift14(29049 * (u - 128)) }

  // ----- one pixel

  datatype Pixel = Pixel(r: byte, g: byte, b: byte)

  function PixelOf(y: byte, u: byte, v: byte): Pixel {
    Pixel(Sat(y + RedShift(v)), Sat(y + GreenShift(u, v)), Sat(y + BlueShift(u)))
  }

  function Clamp(x: real): real { if x >= 255.0 then 255.0 else if x < 0.0 then 0.0 else x }

  predicate Near(x: byte, exact: real) { exact - 1.14 < x as real < exact + 0.14 }

  lemma NearClamp(i: int, exact: real)
    requires exact - 1.14 < i as real < exact + 0.14
    ensures Near(Sat(i), Clamp(exact))
  {
  }

  lemma ShiftIsFloor(x: int)
    ensures Shift14(x) as real <= x as real / 16384.0 < Shift14(x) as real + 1.0
  {
    assert 16384 * Shift14(x) <= x < 16384 * Shift14(x) + 16384;
  }

  lemma RedIsClose(y: byte, v: byte)
    ensures Near(Sat(y + RedShift(v)), Clamp(y as real + 1.402 * (v - 128) as real))
  {
    ShiftIsFloor(22987 * (v - 128));
    NearClamp(y + RedShift(v), y as real + 1.402 * (v - 128) as real);
  }

  lemma GreenIsClose(y: byte, u: byte, v: byte)
    ensures Near(Sat(y + GreenShift(u, v)),
                 Clamp(y as real - 0.34414 * (u - 128) as real - 0.71414 * (v - 128) as real))
  {
    ShiftIsFloor(-5636 * (u - 128) - 11698 * (v - 128));
    NearClamp(y + GreenShift(u, v), y as real - 0.34414 * (u - 128) as real - 0.71414 * (v - 128) as real);
  }

  lemma BlueIsClose(y: byte, u: byte)
    ensures Near(Sat(y + BlueShift(u)), Clamp(y as real + 1.772 * (u - 128) as real))
  {
    ShiftIsFloor(29049 * (u - 128));
    NearClamp(y + BlueShift(u), y as real + 1.772 * (u - 128) as real);
  }

  /** Every channel is within 1.14 of the clamped exact value, and less than 0.14 above it. */
  lemma PixelIsClose(y: byte, u: byte, v: byte)
    ensures var p, yr, ur, vr := PixelOf(y, u, v), y as real, (u - 128) as real, (v - 128) as real;
      && Near(p.r, Clamp(yr + 1.402 * vr))
      && Near(p.g, Clamp(yr - 0.34414 * ur - 0.71414 * vr))
      && Near(p.b, Clamp(yr + 1.772 * ur))
  {
    RedIsClose(y, v);
    GreenIsClose(y, u, v);
    BlueIsClose(y, u);
  }

  // ----- the macros: four bytes, two pixels, six bytes

  function Yuyv2Rgb(a0: byte, a1: byte, a2: byte, a3: byte): (d: seq<byte>)
    ensures |d| == 6
  {
    var r, g, b := RedShift(a3), GreenShift(a1, a3), BlueShift(a1);
    [Sat(a0 + r), Sat(a0 + g), Sat(a0 + b), Sat(a2 + r), Sat(a2 + g), Sat(a2 + b)]
  }

  function Yuyv2Bgr(a0: byte, a1: byte, a2: byte, a3: byte): (d: seq<byte>)
    ensures |d| == 6
  {
    var r, g, b := RedShift(a3), GreenShift(a1, a3), BlueShift(a1);
    [Sat(a0 + b), Sat(a0 + g), Sat(a0 + r), Sat(a2 + b), Sat(a2 + g), Sat(a2 + r)]
  }

  function Uyvy2Rgb(a0: byte, a1: byte, a2: byte, a3: byte): (d: seq<byte>)
    ensures |d| == 6
  {
    var r, g, b := RedShift(a2), GreenShift(a0, a2), BlueShift(a0);
    [Sat(a1 + r), Sat(a1 + g), Sat(a1 + b), Sat(a3 + r), Sat(a3 + g), Sat(a3 + b)]
  }

  function Uyvy2Bgr(a0: byte, a1: byte, a2: byte, a3: byte): (d: seq<byte>)
    ensures |d| == 6
  {
    var r, g, b := RedShift(a2), GreenShift(a0, a2), BlueShift(a0);
    [Sat(a1 + b), Sat(a1 + g), Sat(a1 + r), Sat(a3 + b), Sat(a3 + g), Sat(a3 + r)]
  }

  /** Both pixels share the chroma of the pair. */
  lemma MacroIsPixels(a0: byte, a1: byte, a2: byte, a3: byte)
    ensures var p, q := PixelOf(a0, a1, a3), PixelOf(a2, a1, a3);
      Yuyv2Rgb(a0, a1, a2, a3) == [p.r, p.g, p.b] + [q.r, q.g, q.b]
  {
  }

  // ----- the loops, for any macro

  type Macro = (byte, byte, byte, byte) -> seq<byte>

  predicate Six(m: Macro) { forall a0, a1, a2, a3 :: |m(a0, a1, a2, a3)| == 6 }

  function Pair(m: Macro, s: seq<byte>, p: nat): seq<byte>
    requires 4 * p + 4 <= |s|
  {
    m(s[4 * p], s[4 * p + 1], s[4 * p + 2], s[4 * p + 3])
  }

  /** The first n pairs of pixels of s, converted one by one. */
  function Converted(m: Macro, s: seq<byte>, n: nat): (d: seq<byte>)
    requires Six(m) && 4 * n <= |s|
    ensures |d| == 6 * n
  {
    if n == 0 then [] else Converted(m, s, n - 1) + Pair(m, s, n - 1)
  }

  method Write6(dst: array<byte>, o: nat, d: seq<byte>)
    requires |d| == 6 && o + 6 <= dst.Length
    modifies dst
    ensures dst[..o + 6] == old(dst[..o]) + d
  {
    dst[o], dst[o + 1], dst[o + 2] := d[0], d[1], d[2];
    dst[o + 3], dst[o + 4], dst[o + 5] := d[3], d[4], d[5];
  }

  /** Two pixels from position i of the input to position o of the output. */
  method Put2(m: Macro, src: array<byte>, i: nat, dst: array<byte>, o: nat, ghost p: nat)
    requires Six(m) && src != dst && i == 4 * p && o == 6 * p && i + 4 <= src.Length && o + 6 <= dst.Length
    requires dst[..o] == Converted(m, src[..], p)
    modifies dst
    ensures dst[..o + 6] == Converted(m, src[..], p + 1)
  {
    var d := m(src[i], src[i + 1], src[i + 2], src[i + 3]);
    Write6(dst, o, d);
  }

  method Put4(m: Macro, src: array<byte>, i: nat, dst: array<byte>, o: nat, ghost p: nat)
    requires Six(m) && src != dst && i == 4 * p && o == 6 * p && i + 8 <= src.Length && o + 12 <= dst.Length
    requires dst[..o] == Converted(m, src[..], p)
    modifies dst
    ensures dst[..o + 12] == Converted(m, src[..], p + 2)
  {
    Put2(m, src, i, dst, o, p);
    Put2(m, src, i + 4, dst, o + 6, p + 1);
  }

  /** Eight pixels, unrolled. */
  method Put8(m: Macro, src: array<byte>, i: nat, dst: array<byte>, o: nat, ghost p: nat)
    requires Six(m) && src != dst && i == 4 * p && o == 6 * p && i + 16 <= src.Length && o + 24 <= dst.Length
    requires dst[..o] == Converted(m, src[..], p)
    modifies dst
    ensures dst[..o + 24] == Converted(m, src[..], p + 4)
  {
    Put4(m, src, i, dst, o, p);
    Put4(m, src, i + 8, dst, o + 12, p + 2);
  }

  /** The unrolled loop: eight pixels a round, until the output is full. */
  method Convert(m: Macro, src: array<byte>, dst: array<byte>, ghost rounds: nat)
    requires Six(m) && src != dst && dst.Length == 24 * rounds && 16 * rounds <= src.Length
    modifies dst
    ensures dst[..] == Converted(m, src[..], 4 * rounds)
  {
    var i, o := 0, 0;
    ghost var k := 0;
    while o < dst.Length
      invariant 0 <= k <= rounds && i == 16 * k && o == 24 * k
      invariant dst[..o] == Converted(m, src[..], 4 * k)
    {
      Put8(m, src, i, dst, o, 4 * k);
      o := o + 24;
      i := i + 16;
      k := k + 1;
    }
    assert dst[..o] == dst[..];
  }

  // ----- what the pictures have to do with each other

  lemma {:induction false} ConvertedPair(m: Macro, s: seq<byte>, n: nat, p: nat)
    requires Six(m) && 4 * n <= |s| && p < n
    ensures Converted(m, s, n)[6 * p..6 * p + 6] == Pair(m, s, p)
  {
    var init, last := Converted(m, s, n - 1), Pair(m, s, n - 1);
    if p < n - 1 {
      ConvertedPair(m, s, n - 1, p);
      assert (init + last)[6 * p..6 * p + 6] == init[6 * p..6 * p + 6];
    } else {
      assert (init + last)[6 * p..6 * p + 6] == last;
    }
  }

  predicate Reverses(m: Macro, w: Macro)
    requires Six(m) && Six(w)
  {
    forall a0, a1, a2, a3 :: m(a0, a1, a2, a3) == Reversed(w(a0, a1, a2, a3))
  }

  /** The channels of both pixels in reverse. */
  function Reversed(d: seq<byte>): seq<byte>
    requires |d| == 6
  {
    [d[2], d[1], d[0], d[5], d[4], d[3]]
  }

  /** A picture made by a reversing macro has every pixel's channels reversed. */
  lemma {:induction false} ReversedPictures(m: Macro, w: Macro, s: seq<byte>, n: nat, k: nat, j: nat)
    requires Six(m) && Six(w) && Reverses(m, w) && 4 * n <= |s| && k < 2 * n && j < 3
    ensures Converted(m, s, n)[3 * k + j] == Converted(w, s, n)[3 * k + 2 - j]
    decreases n
  {
    if k < 2 * (n - 1) { ReversedPictures(m, w, s, n - 1, k, j); }
  }

  predicate Swaps(m: Macro, w: Macro) { forall a0, a1, a2, a3 :: m(a0, a1, a2, a3) == w(a1, a0, a3, a2) }

  /** The bytes of each pair of pixels exchanged two by two. */
  function Swapped(s: seq<byte>, n: nat): (t: seq<byte>)
    requires 4 * n <= |s|
    ensures |t| == 4 * n
  {
    if n == 0 then []
    else
      var at := 4 * (n - 1);
      Swapped(s, n - 1) + [s[at + 1], s[at], s[at + 3], s[at + 2]]
  }

  lemma {:induction false} SamePrefix(m: Macro, s: seq<byte>, t: seq<byte>, n: nat)
    requires Six(m) && 4 * n <= |s|
    ensures Converted(m, s + t, n) == Converted(m, s, n)
  {
    if n > 0 { SamePrefix(m, s, t, n - 1); }
  }

  /** A macro that reads the swapped bytes makes the same picture as the other from the swapped input. */
  lemma {:induction false} SwappedPictures(m: Macro, w: Macro, s: seq<byte>, n: nat)
    requires Six(m) && Six(w) && Swaps(m, w) && 4 * n <= |s|
    ensures Converted(m, s, n) == Converted(w, Swapped(s, n), n)
  {
    if n > 0 {
      SwappedPictures(m, w, s, n - 1);
      var at := 4 * (n - 1);
      var init, last := Swapped(s, n - 1), [s[at + 1], s[at], s[at + 3], s[at + 2]];
      SamePrefix(w, init, last, n - 1);
      assert Pair(w, init + last, n - 1) == w(s[at + 1], s[at], s[at + 3], s[at + 2]);
    }
  }

  /** BGR is RGB with the channels reversed; UYVY is YUYV with the bytes exchanged. */
  lemma Relations()
    ensures Six(Yuyv2Rgb) && Six(Yuyv2Bgr) && Six(Uyvy2Rgb) && Six(Uyvy2Bgr)
    ensures Reverses(Yuyv2Bgr, Yuyv2Rgb) && Reverses(Uyvy2Bgr, Uyvy2Rgb)
    ensures Swaps(Uyvy2Rgb, Yuyv2Rgb) && Swaps(Uyvy2Bgr, Yuyv2Bgr)
  {
  }

  /** Of the YUYV picture: each pixel comes from its own luma byte and the two chroma bytes of its pair. */
  lemma PictureIsPixels(s: seq<byte>, n: nat, p: nat, side: nat)
    requires Six(Yuyv2Rgb) && 4 * n <= |s| && p < n && side < 2
    ensures var x, at := PixelOf(s[4 * p + 2 * side], s[4 * p + 1], s[4 * p + 3]), 6 * p + 3 * side;
      Converted(Yuyv2Rgb, s, n)[at..at + 3] == [x.r, x.g, x.b]
  {
    HalfOfPair(Yuyv2Rgb, s, n, p, side);
    MacroIsPixels(s[4 * p], s[4 * p + 1], s[4 * p + 2], s[4 * p + 3]);
  }

  lemma HalfOfPair(m: Macro, s: seq<byte>, n: nat, p: nat, side: nat)
    requires Six(m) && 4 * n <= |s| && p < n && side < 2
    ensures var d, at := m(s[4 * p], s[4 * p + 1], s[4 * p + 2], s[4 * p + 3]), 6 * p + 3 * side;
      Converted(m, s, n)[at..at + 3] == if side == 0 then d[..3] else d[3..]
  {
    ConvertedPair(m, s, n, p);
    SliceOfSlice(Converted(m, s, n), 6 * p, 3 * side);
  }

  lemma SliceOfSlice(d: seq<byte>, at: nat, off: nat)
    requires at + 6 <= |d| && off <= 3
    ensures d[at + off..at + off + 3] == d[at..at + 6][off..off + 3]
  {
    var a, b := d[at + off..at + off + 3], d[at..at + 6][off..off + 3];
    assert forall i :: 0 <= i < 3 ==> a[i] == d[at + off + i] && b[i] == d[at + off + i];
  }

  // ----- whole frames

  datatype Colour = YUYV | UYVY | RGB | BGR | OtherFormat

  /** What a conversion copies as it is: sequence number, capture times, source. */
  datatype Origin = Origin(sequence: u32, captureTime: int, captureTimeFinished: int, source: int)

  datatype Status = Success | NoMem | InvalidParam

  function MacroFor(from: Colour, to: Colour): Macro {
    if from == UYVY then (if to == BGR then Uyvy2Bgr else Uyvy2Rgb) else (if to == BGR then Yuyv2Bgr else Yuyv2Rgb)
  }

  /** The size asked of the output, in 32-bit arithmetic. */
  function RgbBytes(w: nat, h: nat): nat { w * h * 3 % TWO32 }

  /** For a picture of whole rounds of eight pixels that is the size of the converted picture. */
  lemma RgbBytesIs(w: nat, h: nat, rounds: nat)
    requires w * h == 8 * rounds && 24 * rounds < TWO32
    ensures RgbBytes(w, h) == 24 * rounds
  {
  }

  lemma SixFor(from: Colour, to: Colour)
    ensures Six(MacroFor(from, to))
  {
  }

  class Frame {
    var data: array?<byte>
    var owned: bool          // library_owns_data
    var width: nat
    var height: nat
    var step: nat
    var colour: Colour
    var origin: Origin

    constructor (owned: bool, data: array?<byte>)
      ensures this.owned == owned && this.data == data
    {
      this.owned, this.data := owned, data;
      width, height, step, colour, origin := 0, 0, 0, OtherFormat, Origin(0, 0, 0, 0);
    }

    /** uvc_ensure_frame_size: a buffer of the library's is resized to fit, one of the caller's must be large enough. */
    method EnsureSize(need: nat) returns (status: Status)
      modifies this`data
      ensures owned ==> status == Success && data != null && data.Length == need
      ensures owned && old(data) != null && old(data.Length) == need ==> data == old(data)
      ensures data == old(data) || fresh(data)
      ensures !owned ==> data == old(data) && (status == Success <==> data != null && data.Length >= need)
      ensures status == Success || status == NoMem
    {
      status := Success;
      if owned {
        if data == null || data.Length != need {
          data := new byte[need];
        }
      } else if data == null || data.Length < need {
        status := NoMem;
      }
    }

    /**
     The four conversions: refused on a frame of another format or into a caller's buffer that is too
     small, otherwise the whole output holds the converted input and the description of the input.  The
     loop runs to the end of the output, whose size must be whole rounds of eight pixels with input for
     each: the size asked for if the library owns the buffer, the caller's otherwise.
     */
    method ConvertFrom(src: Frame, from: Colour, to: Colour, ghost rounds: nat) returns (status: Status)
      requires src != this && (from == YUYV || from == UYVY) && (to == RGB || to == BGR)
      requires src.colour == from ==> src.data != null && src.data != data && src.data.Length >= 16 * rounds
      requires src.colour == from && owned ==> RgbBytes(src.width, src.height) == 24 * rounds
      requires src.colour == from && !owned && data != null && data.Length >= RgbBytes(src.width, src.height) ==>
        data.Length == 24 * rounds
      modifies this, data
      ensures status == InvalidParam <==> src.colour != from
      ensures status == NoMem <==>
        src.colour == from && !old(owned)
        && (old(data) == null || old(data.Length) < RgbBytes(src.width, src.height))
      ensures status == Success ==>
        (Six(MacroFor(from, to)) && data != null && src.data != null && 16 * rounds <= src.data.Length
         && data.Length == 24 * rounds && data[..] == Converted(MacroFor(from, to), src.data[..], 4 * rounds)
         && width == src.width && height == src.height && step == 3 * src.width && colour == to && origin == src.origin)
    {
      if src.colour != from { return InvalidParam; }
      status := EnsureSize(RgbBytes(src.width, src.height));
      if status != Success { return NoMem; }
      width, height, colour, step, origin := src.width, src.height, to, src.width * 3, src.origin;
      SixFor(from, to);
      Convert(MacroFor(from, to), src.data, data, rounds);
    }
  }
}
