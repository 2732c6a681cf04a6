/**
 A whole VideoStreaming interface written out as bytes, input header, formats and frames in order, and the
 proof that the scan of these bytes succeeds with exactly the lists that were written.
 */
module ScanRoundTrip {
  import opened ByteOrder
  import opened Descriptors
  import opened Scan
  import opened SeqFacts
  import opened StreamingInterface
  import opened DescriptorLayout

  /** A format and the frames under it; count and flags are bytes the parser does not keep. */
  datatype Described = Described(format: Format, count: byte, flags: byte, frames: seq<ParsedFrame>)

  predicate AllWritable(fs: seq<ParsedFrame>) { forall i :: 0 <= i < |fs| ==> Writable(fs[i]) }

  predicate Describable(ds: seq<Described>) {
    forall i :: 0 <= i < |ds| ==> WritableFormat(ds[i].format) && AllWritable(ds[i].frames)
  }

  function WriteFrames(fs: seq<ParsedFrame>): seq<Block>
    requires AllWritable(fs)
  {
    if fs == [] then [] else [WriteFrame(fs[0])] + WriteFrames(fs[1..])
  }

  function WriteOne(d: Described): seq<Block>
    requires WritableFormat(d.format) && AllWritable(d.frames)
  {
    [WriteFormat(d.format, d.count, d.flags)] + WriteFrames(d.frames)
  }

  function WriteFormats(ds: seq<Described>): seq<Block>
    requires Describable(ds)
  {
    if ds == [] then [] else WriteOne(ds[0]) + WriteFormats(ds[1..])
  }

  /** The lists the application finds: every format with its frames, repaired as the parsers repair them. */
  function Listed(ds: seq<Described>): (fs: seq<Format>)
    ensures |fs| == |ds| && forall i :: 0 <= i < |ds| ==> fs[i] == WithFrames(ds[i].format, ds[i].frames)
  {
    if ds == [] then [] else [WithFrames(ds[0].format, ds[0].frames)] + Listed(ds[1..])
  }

  predicate AllParsable(bs: seq<Block>) { forall b :: b in bs ==> Parsable(b) }

  /** No parser stops the walk over these blocks. */
  predicate Passes(bs: seq<Block>, hasFormat: bool) { Scannable(bs, hasFormat) && Accepted(bs, hasFormat) == bs }

  /** None of them is a header. */
  predicate NoHeader(bs: seq<Block>) { forall b :: b in bs ==> b[2] != INPUT_HEADER }

  lemma FormatItem(d: Described)
    requires WritableFormat(d.format)
    ensures var b := WriteFormat(d.format, d.count, d.flags);
      && Parsable(b) && ItemOf(b) == AFormat(d.format) && IsFormat(b) && b[2] != INPUT_HEADER
      && forall had :: Readable(b, had) && Accept(b, had)
  {
    FormatRoundTrip(d.format, d.count, d.flags);
  }

  lemma FrameItem(f: ParsedFrame)
    requires Writable(f)
    ensures var b := WriteFrame(f);
      && Parsable(b) && ItemOf(b) == AFrame(f) && !IsFormat(b) && b[2] != INPUT_HEADER
      && Readable(b, true) && Accept(b, true)
  {
    FrameRoundTrip(f);
  }

  /** One block in front of blocks that pass. */
  lemma PassesAdd(b: Block, bs: seq<Block>, had: bool)
    requires Readable(b, had) && Accept(b, had) && Passes(bs, had || IsFormat(b))
    ensures Passes([b] + bs, had)
  {
    assert ([b] + bs)[1..] == bs;
  }

  lemma ItemsAddFront(b: Block, bs: seq<Block>)
    requires Parsable(b) && AllParsable(bs)
    ensures AllParsable([b] + bs) && Items([b] + bs) == [ItemOf(b)] + Items(bs)
  {
    assert ([b] + bs)[1..] == bs;
  }

  predicate Readied(bs: seq<Block>, had: bool) { AllParsable(bs) && Passes(bs, had) && NoHeader(bs) }

  /** A frame block leads what follows it, passes, and adds no format. */
  lemma FrameInFront(f: ParsedFrame, bs: seq<Block>)
    requires Writable(f) && Readied(bs, true)
    ensures var cs := [WriteFrame(f)] + bs;
      Readied(cs, true) && Lead(Items(cs)) == [f] + Lead(Items(bs)) && Formats(Items(cs)) == Formats(Items(bs))
  {
    var b := WriteFrame(f);
    FrameItem(f);
    PassesAdd(b, bs, true);
    ItemsAddFront(b, bs);
    assert ([AFrame(f)] + Items(bs))[1..] == Items(bs);
  }

  lemma {:induction false} FramesInFront(fs: seq<ParsedFrame>, rest: seq<Block>)
    requires AllWritable(fs) && Readied(rest, true)
    ensures var bs := WriteFrames(fs) + rest;
      && Readied(bs, true)
      && Lead(Items(bs)) == fs + Lead(Items(rest)) && Formats(Items(bs)) == Formats(Items(rest))
  {
    if fs == [] {
      assert WriteFrames(fs) + rest == rest && fs + Lead(Items(rest)) == Lead(Items(rest));
    } else {
      var bs := WriteFrames(fs[1..]) + rest;
      FramesInFront(fs[1..], rest);
      FrameInFront(fs[0], bs);
      FramesSplit(fs, rest);
      LeadSplit(fs, Lead(Items(rest)));
    }
  }

  lemma FramesSplit(fs: seq<ParsedFrame>, rest: seq<Block>)
    requires AllWritable(fs) && fs != []
    ensures WriteFrames(fs) + rest == [WriteFrame(fs[0])] + (WriteFrames(fs[1..]) + rest)
  {
    ConcatAssoc<Block>([WriteFrame(fs[0])], WriteFrames(fs[1..]), rest);
  }

  lemma LeadSplit(fs: seq<ParsedFrame>, more: seq<ParsedFrame>)
    requires fs != []
    ensures [fs[0]] + (fs[1..] + more) == fs + more
  {
  }

  /** A format block takes the frames that lead what follows it. */
  lemma FormatInFront(d: Described, bs: seq<Block>, had: bool)
    requires WritableFormat(d.format) && Readied(bs, true)
    ensures var cs := [WriteFormat(d.format, d.count, d.flags)] + bs;
      && Readied(cs, had) && Lead(Items(cs)) == []
      && Formats(Items(cs)) == [WithFrames(d.format, Lead(Items(bs)))] + Formats(Items(bs))
  {
    var b := WriteFormat(d.format, d.count, d.flags);
    FormatItem(d);
    PassesAdd(b, bs, had);
    ItemsAddFront(b, bs);
    assert ([AFormat(d.format)] + Items(bs))[1..] == Items(bs);
  }

  lemma OneSplit(d: Described, rest: seq<Block>)
    requires WritableFormat(d.format) && AllWritable(d.frames)
    ensures WriteOne(d) + rest == [WriteFormat(d.format, d.count, d.flags)] + (WriteFrames(d.frames) + rest)
  {
    ConcatAssoc<Block>([WriteFormat(d.format, d.count, d.flags)], WriteFrames(d.frames), rest);
  }

  /** A format and its frames in front of the blocks of the next formats. */
  lemma OneInFront(d: Described, rest: seq<Block>, had: bool)
    requires WritableFormat(d.format) && AllWritable(d.frames) && Readied(rest, true) && Lead(Items(rest)) == []
    ensures var bs := WriteOne(d) + rest;
      && Readied(bs, had) && Lead(Items(bs)) == []
      && Formats(Items(bs)) == [WithFrames(d.format, d.frames)] + Formats(Items(rest))
  {
    var bs := WriteFrames(d.frames) + rest;
    FramesInFront(d.frames, rest);
    FormatInFront(d, bs, had);
    OneSplit(d, rest);
    assert Lead(Items(bs)) == d.frames;
  }

  lemma {:induction false} FormatsScanned(ds: seq<Described>, had: bool)
    requires Describable(ds)
    ensures var bs := WriteFormats(ds);
      Readied(bs, had) && Lead(Items(bs)) == [] && Formats(Items(bs)) == Listed(ds)
  {
    if ds != [] {
      FormatsScanned(ds[1..], true);
      OneInFront(ds[0], WriteFormats(ds[1..]), had);
    }
  }

  lemma {:induction false} HeaderInFront(h: Block, bs: seq<Block>)
    requires h[2] == INPUT_HEADER && 10 <= |h| && NoHeader(bs)
    ensures HeaderOf([h] + bs) == HeaderIn(h)
  {
    var n := |bs|;
    if n > 0 {
      assert ([h] + bs)[..n] == [h] + bs[..n - 1];
      assert ([h] + bs)[n] == bs[n - 1] && bs[n - 1] in bs;
      HeaderInFront(h, bs[..n - 1]);
    } else {
      assert [h] + bs == [h];
    }
  }

  /**
   Whatever formats and frames an interface has, the scan of its descriptors as the class lays them out reads
   every block, refuses none, and ends with exactly these formats, in order, each with its own frames.
   */
  lemma ScanReadsBack(h: Block, ds: seq<Described>)
    requires h[2] == INPUT_HEADER && 10 <= |h| && Describable(ds)
    ensures var bs := [h] + WriteFormats(ds);
      && Blocks(Flatten(bs)) == bs && Scannable(bs, false) && Accepted(bs, false) == bs && AllParsable(bs)
      && Formats(Items(bs)) == Listed(ds) && HeaderOf(bs) == HeaderIn(h)
  {
    var bs := WriteFormats(ds);
    FormatsScanned(ds, false);
    PassesAdd(h, bs, false);
    ItemsAddFront(h, bs);
    HeaderInFront(h, bs);
    TilingIsUnique([h] + bs, Flatten([h] + bs));
    assert ([Other] + Items(bs))[1..] == Items(bs);
  }
}
