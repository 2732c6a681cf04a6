/**
 The scan of a VideoStreaming interface: the walk over the length-prefixed blocks of its extra bytes,
 the parsers of the format and frame blocks, and the lists they build. The lists are stated as a pure
 grouping of the blocks: every format in order, with the frames that follow it up to the next format.
 */
module Scan {
  import opened ByteOrder
  import opened Descriptors

  const INPUT_HEADER: byte := 0x01
  const FORMAT_UNCOMPRESSED: byte := 0x04
  const FRAME_UNCOMPRESSED: byte := 0x05
  const FORMAT_MJPEG: byte := 0x06
  const FRAME_MJPEG: byte := 0x07
  const FORMAT_FRAME_BASED: byte := 0x10
  const FRAME_FRAME_BASED: byte := 0x11

  /** A block: its first byte is its length, its third the subtype. */
  type Block = b: seq<byte> | 3 <= |b| && b[0] == |b| witness [3, 0, 0]

  predicate IsFormat(b: Block) { b[2] in [FORMAT_UNCOMPRESSED, FORMAT_MJPEG, FORMAT_FRAME_BASED] }

  predicate IsFrame(b: Block) { b[2] in [FRAME_UNCOMPRESSED, FRAME_MJPEG, FRAME_FRAME_BASED] }

  // ----- single blocks

  /** Where the count of intervals is, and whether as many as it says are there. */
  function CountAt(b: Block): nat { if b[2] == FRAME_FRAME_BASED then 21 else 25 }

  predicate FullFrame(b: Block) {
    26 <= |b| && (if b[CountAt(b)] == 0 then 38 <= |b| else 26 + 4 * b[CountAt(b)] <= |b|)
  }

  /** What the parser of a block reads without checking: a full-length block, and a format to add a frame to. */
  predicate Readable(b: Block, hasFormat: bool) {
    && (b[2] == INPUT_HEADER ==> 10 <= |b|)
    && (b[2] == FORMAT_UNCOMPRESSED ==> 27 <= |b|)
    && (b[2] == FORMAT_MJPEG ==> 11 <= |b|)
    && (b[2] == FRAME_UNCOMPRESSED || b[2] == FRAME_MJPEG ==> hasFormat && FullFrame(b))
  }

  /** What the frame-based parsers check. */
  predicate Accept(b: Block, hasFormat: bool) {
    && (b[2] == FORMAT_FRAME_BASED ==> 28 <= |b|)
    && (b[2] == FRAME_FRAME_BASED ==> hasFormat && FullFrame(b))
  }

  predicate FullFormat(b: Block) {
    |b| >= if b[2] == FORMAT_MJPEG then 11 else if b[2] == FORMAT_FRAME_BASED then 28 else 27
  }

  const MJPG: seq<byte> := [0x4D, 0x4A, 0x50, 0x47, 0, 0, 0, 0, 0, 0, 0, 0, 0, 0, 0, 0]

  function FormatOf(b: Block): Format
    requires FullFormat(b)
  {
    if b[2] == FORMAT_MJPEG then
      Format(b[2], b[3], 0, MJPG, 0, b[6], b[7], b[8], b[9], b[10], 0, [])
    else
      Format(b[2], b[3], if b[2] == FORMAT_FRAME_BASED then b[4] else 0, b[5..21], b[21], b[22], b[23], b[24],
             b[25], b[26], if b[2] == FORMAT_FRAME_BASED then b[27] else 0, [])
  }

  /** The n intervals at the given place, 0 read as 1, and the terminating 0. */
  function IntervalsOf(b: seq<byte>, at: nat, n: nat): (r: seq<u32>)
    requires at + 4 * n <= |b|
    ensures |r| == n + 1 && r[n] == 0
    ensures forall i :: 0 <= i < n ==> r[i] == Max(1, Int(b, at + 4 * i)) && r[i] != 0
    decreases n
  {
    if n == 0 then [0] else [Max(1, Int(b, at))] + IntervalsOf(b, at + 4, n - 1)
  }

  /** The frame as the block has it, before the repair. */
  function RawFrame(b: Block): (f: Frame)
    requires FullFrame(b)
    ensures Terminated(f)
  {
    var n := b[CountAt(b)];
    var based := b[2] == FRAME_FRAME_BASED;
    Frame(b[2], b[3], b[4], Short(b, 5), Short(b, 7), Int(b, 9), Int(b, 13),
          if based then 0 else Int(b, 17), if based then Int(b, 17) else Int(b, 21), n,
          if based then Int(b, 22) else 0,
          if n == 0 then Int(b, 26) else 0, if n == 0 then Int(b, 30) else 0, if n == 0 then Int(b, 34) else 0,
          if n == 0 then [] else IntervalsOf(b, 26, n))
  }

  type ParsedFrame = f: Frame | Terminated(f)
    witness Frame(0, 0, 0, 0, 0, 0, 0, 0, 0, 0, 0, 0, 0, 0, [])

  /** What a block adds to the lists. */
  datatype Item = AFormat(format: Format) | AFrame(frame: ParsedFrame) | Other

  predicate Parsable(b: Block) { (IsFormat(b) ==> FullFormat(b)) && (IsFrame(b) ==> FullFrame(b)) }

  function ItemOf(b: Block): Item
    requires Parsable(b)
  {
    if IsFormat(b) then AFormat(FormatOf(b)) else if IsFrame(b) then AFrame(RawFrame(b)) else Other
  }

  function Items(bs: seq<Block>): (items: seq<Item>)
    requires forall b :: b in bs ==> Parsable(b)
    ensures |items| == |bs| && forall i :: 0 <= i < |bs| ==> items[i] == ItemOf(bs[i])
  {
    if bs == [] then [] else [ItemOf(bs[0])] + Items(bs[1..])
  }

  // ----- the pure grouping

  /** The frames before the next format. */
  function Lead(items: seq<Item>): seq<ParsedFrame> {
    if items == [] || items[0].AFormat? then []
    else if items[0].AFrame? then [items[0].frame] + Lead(items[1..])
    else Lead(items[1..])
  }

  function Repaired(bpp: byte, fs: seq<ParsedFrame>): (r: seq<Frame>)
    ensures |r| == |fs| && forall i :: 0 <= i < |fs| ==> r[i] == Repair(bpp, fs[i])
  {
    if fs == [] then [] else [Repair(bpp, fs[0])] + Repaired(bpp, fs[1..])
  }

  function WithFrames(f: Format, fs: seq<ParsedFrame>): Format { f.(frames := Repaired(f.bitsPerPixel, fs)) }

  /** Every format with the frames that follow it. */
  function Formats(items: seq<Item>): seq<Format> {
    if items == [] then []
    else if items[0].AFormat? then [WithFrames(items[0].format, Lead(items[1..]))] + Formats(items[1..])
    else Formats(items[1..])
  }

  /** One more frame on the last format, as DL_APPEND on format_descs->prev does it. */
  function AddFrame(fs: seq<Format>, f: ParsedFrame): seq<Format>
    requires fs != []
  {
    var last := fs[|fs| - 1];
    fs[..|fs| - 1] + [last.(frames := last.frames + [Repair(last.bitsPerPixel, f)])]
  }

  lemma {:induction false} LeadAdd(items: seq<Item>, it: Item)
    ensures Lead(items + [it]) ==
      if it.AFrame? && Formats(items) == [] then Lead(items) + [it.frame] else Lead(items)
  {
    if items == [] {
      assert [it][1..] == [];
    } else {
      assert (items + [it])[1..] == items[1..] + [it];
      if !items[0].AFormat? { LeadAdd(items[1..], it); }
    }
  }

  lemma WithOneMore(f: Format, fs: seq<ParsedFrame>, x: ParsedFrame)
    ensures WithFrames(f, fs + [x]) ==
      WithFrames(f, fs).(frames := WithFrames(f, fs).frames + [Repair(f.bitsPerPixel, x)])
  {
    assert Repaired(f.bitsPerPixel, fs + [x]) == Repaired(f.bitsPerPixel, fs) + [Repair(f.bitsPerPixel, x)];
  }

  lemma {:induction false} AddOther(items: seq<Item>, it: Item)
    requires !it.AFormat? && (it.AFrame? ==> Formats(items) == [])
    ensures Formats(items + [it]) == Formats(items)
  {
    if items == [] {
      assert [it][1..] == [];
    } else {
      assert (items + [it])[1..] == items[1..] + [it];
      AddOther(items[1..], it);
      LeadAdd(items[1..], it);
    }
  }

  lemma {:induction false} AddFormat(items: seq<Item>, f: Format)
    requires f.frames == []
    ensures Formats(items + [AFormat(f)]) == Formats(items) + [f]
  {
    var it := AFormat(f);
    if items == [] {
      assert [it][1..] == [];
    } else {
      assert (items + [it])[1..] == items[1..] + [it];
      AddFormat(items[1..], f);
      LeadAdd(items[1..], it);
    }
  }

  lemma {:induction false} AddFrameIs(items: seq<Item>, x: ParsedFrame)
    requires Formats(items) != []
    ensures Formats(items + [AFrame(x)]) == AddFrame(Formats(items), x)
  {
    var it, rest := AFrame(x), items[1..];
    assert (items + [it])[1..] == rest + [it];
    LeadAdd(rest, it);
    if Formats(rest) != [] {
      AddFrameIs(rest, x);
    } else {
      AddOther(rest, it);
      WithOneMore(items[0].format, Lead(rest), x);
    }
  }

  // ----- where each block ends up

  function Count(items: seq<Item>): nat {
    if items == [] then 0
    else Count(items[..|items| - 1]) + if items[|items| - 1].AFormat? then 1 else 0
  }

  /** The frames since the latest format. */
  function Since(items: seq<Item>): nat {
    if items == [] || items[|items| - 1].AFormat? then 0
    else Since(items[..|items| - 1]) + if items[|items| - 1].AFrame? then 1 else 0
  }

  lemma AddAny(items: seq<Item>, it: Item)
    requires it.AFormat? ==> it.format.frames == []
    ensures Formats(items + [it]) ==
      if it.AFormat? then Formats(items) + [it.format]
      else if it.AFrame? && Formats(items) != [] then AddFrame(Formats(items), it.frame)
      else Formats(items)
  {
    if it.AFormat? {
      AddFormat(items, it.format);
    } else if it.AFrame? && Formats(items) != [] {
      AddFrameIs(items, it.frame);
    } else {
      AddOther(items, it);
    }
  }

  predicate Bare(items: seq<Item>) {
    forall i :: 0 <= i < |items| && items[i].AFormat? ==> items[i].format.frames == []
  }

  lemma {:induction false} Shape(items: seq<Item>)
    requires Bare(items)
    ensures |Formats(items)| == Count(items)
    ensures Count(items) > 0 ==> |Formats(items)[Count(items) - 1].frames| == Since(items)
  {
    if items != [] {
      var init, it := items[..|items| - 1], items[|items| - 1];
      assert items == init + [it];
      Shape(init);
      AddAny(init, it);
    }
  }

  /** Formats keep their order; each is as its block has it, but for the frames it gathers. */
  lemma {:induction false} FormatPlaced(items: seq<Item>, i: nat)
    requires Bare(items) && i < |items| && items[i].AFormat?
    ensures var n := Count(items[..i]);
      n < |Formats(items)| && Formats(items)[n].(frames := []) == items[i].format
  {
    var k := |items| - 1;
    var init, it := items[..k], items[k];
    assert items == init + [it] && init[..i] == items[..i];
    Shape(init);
    AddAny(init, it);
    if i < k { FormatPlaced(init, i); }
  }

  /** Each frame is under the latest format before it, behind the frames that came since, repaired for it. */
  lemma {:induction false} FramePlaced(items: seq<Item>, i: nat)
    requires Bare(items) && i < |items| && items[i].AFrame? && Count(items[..i]) > 0
    ensures var n, m := Count(items[..i]) - 1, Since(items[..i]);
      && n < |Formats(items)| && m < |Formats(items)[n].frames|
      && Formats(items)[n].frames[m] == Repair(Formats(items)[n].bitsPerPixel, items[i].frame)
  {
    var k := |items| - 1;
    var init, it := items[..k], items[k];
    assert items == init + [it] && init[..i] == items[..i];
    Shape(init);
    AddAny(init, it);
    if i < k { FramePlaced(init, i); }
  }

  // ----- the walk over the bytes

  function Flatten(bs: seq<Block>): seq<byte> { if bs == [] then [] else bs[0] + Flatten(bs[1..]) }

  /** The first block of the buffer, if there is one. */
  predicate StartsBlock(s: seq<byte>) { s != [] && 3 <= s[0] <= |s| }

  /** The blocks the walk steps over if no parser stops it. */
  function Blocks(s: seq<byte>): seq<Block> {
    if StartsBlock(s) then [s[..s[0]]] + Blocks(s[s[0]..]) else []
  }

  /** The blocks up to the first that a parser refuses. */
  function Accepted(bs: seq<Block>, hasFormat: bool): (r: seq<Block>)
    ensures r <= bs
  {
    if bs == [] || !Accept(bs[0], hasFormat) then []
    else [bs[0]] + Accepted(bs[1..], hasFormat || IsFormat(bs[0]))
  }

  /** Every block the walk reaches is one its parser can read. */
  predicate Scannable(bs: seq<Block>, hasFormat: bool) {
    || bs == []
    || (Readable(bs[0], hasFormat)
        && (Accept(bs[0], hasFormat) ==> Scannable(bs[1..], hasFormat || IsFormat(bs[0]))))
  }

  /** The walk steps over exactly the tiling of the buffer, when it has one; and it has at most one. */
  lemma {:induction false} TilingIsUnique(bs: seq<Block>, s: seq<byte>)
    requires Flatten(bs) == s
    ensures Blocks(s) == bs
  {
    if bs != [] {
      assert s[..s[0]] == bs[0] && s[s[0]..] == Flatten(bs[1..]);
      TilingIsUnique(bs[1..], s[s[0]..]);
    }
  }

  lemma {:induction false} FlattenAdd(bs: seq<Block>, b: Block)
    ensures Flatten(bs + [b]) == Flatten(bs) + b
  {
    if bs == [] {
      assert [b][1..] == [];
    } else {
      assert (bs + [b])[1..] == bs[1..] + [b];
      FlattenAdd(bs[1..], b);
    }
  }

  lemma ItemsAdd(bs: seq<Block>, b: Block)
    requires forall x :: x in bs + [b] ==> Parsable(x)
    ensures Items(bs + [b]) == Items(bs) + [ItemOf(b)]
  {
  }
}
