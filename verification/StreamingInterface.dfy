/** The streaming interface record and the parsers that fill it in place. */
module StreamingInterface {
  import opened ByteOrder
  import opened Descriptors
  import opened Scan
  import opened SeqFacts
  import opened FormatLists

  datatype Header = Header(endpoint: byte, terminalLink: byte, stillMethod: byte)

  function HeaderIn(b: Block): Header
    requires 10 <= |b|
  {
    Header(b[6] / 128 * 128 + b[6] % 16, b[8], b[9])
  }

  /** The latest input header; the endpoint keeps its direction bit and its number. */
  function HeaderOf(bs: seq<Block>): Header {
    if bs == [] then Header(0, 0, 0)
    else
      var b := bs[|bs| - 1];
      if b[2] == INPUT_HEADER && 10 <= |b| then HeaderIn(b)
      else HeaderOf(bs[..|bs| - 1])
  }

  /** What a parsed block does to the list of formats. */
  function Added(fs: seq<Format>, it: Item): seq<Format>
    requires it.AFrame? ==> fs != []
  {
    if it.AFormat? then fs + [it.format] else if it.AFrame? then AddFrame(fs, it.frame) else fs
  }

  /** The loop over the intervals of a frame block. */
  method ReadIntervals(b: Block, n: byte) returns (r: seq<u32>)
    requires 26 + 4 * n <= |b|
    ensures r == IntervalsOf(b, 26, n)
  {
    var intervals := new u32[n + 1];
    var i, p := 0, 26;
    while i < n
      invariant 0 <= i <= n && p == 26 + 4 * i
      invariant forall k :: 0 <= k < i ==> intervals[k] == Max(1, Int(b, 26 + 4 * k))
    {
      var interval := Int(b, p);
      intervals[i] := if interval != 0 then interval else 1;
      p := p + 4;
      i := i + 1;
    }
    intervals[n] := 0;
    r := intervals[..];
  }

  /** The fields of an uncompressed or MJPEG frame block. */
  method ReadFrame(b: Block) returns (f: ParsedFrame)
    requires FullFrame(b) && b[2] != FRAME_FRAME_BASED
    ensures f == RawFrame(b)
  {
    var intervals, lo, hi, step := [], 0, 0, 0;
    if b[25] == 0 {
      lo, hi, step := Int(b, 26), Int(b, 30), Int(b, 34);
    } else {
      intervals := ReadIntervals(b, b[25]);
    }
    f := Frame(b[2], b[3], b[4], Short(b, 5), Short(b, 7), Int(b, 9), Int(b, 13), Int(b, 17), Int(b, 21), b[25],
               0, lo, hi, step, intervals);
  }

  /** The fields of a frame-based frame block. */
  method ReadFrameBased(b: Block) returns (f: ParsedFrame)
    requires FullFrame(b) && b[2] == FRAME_FRAME_BASED
    ensures f == RawFrame(b)
  {
    var intervals, lo, hi, step := [], 0, 0, 0;
    if b[21] == 0 {
      lo, hi, step := Int(b, 26), Int(b, 30), Int(b, 34);
    } else {
      intervals := ReadIntervals(b, b[21]);
    }
    f := Frame(b[2], b[3], b[4], Short(b, 5), Short(b, 7), Int(b, 9), Int(b, 13), 0, Int(b, 17), b[21],
               Int(b, 22), lo, hi, step, intervals);
  }

  /** One more block parsed. */
  lemma Extend(done: seq<Block>, b: Block, buffer: seq<byte>, rest: seq<byte>, had: bool)
    requires Blocks(buffer) == [b] + Blocks(rest) && buffer == b + rest
    requires Scannable(Blocks(buffer), had) && Accept(b, had) && Parsable(b)
    requires forall x :: x in done ==> Parsable(x)
    requires had <==> Formats(Items(done)) != []
    ensures forall x :: x in done + [b] ==> Parsable(x)
    ensures Flatten(done + [b]) + rest == Flatten(done) + buffer
    ensures done + [b] + Accepted(Blocks(rest), had || IsFormat(b)) == done + Accepted(Blocks(buffer), had)
    ensures Scannable(Blocks(rest), had || IsFormat(b))
    ensures IsFrame(b) ==> had
    ensures Formats(Items(done + [b])) == Added(Formats(Items(done)), ItemOf(b))
    ensures had || IsFormat(b) <==> Formats(Items(done + [b])) != []
    ensures HeaderOf(done + [b]) == if b[2] == INPUT_HEADER && 10 <= |b| then HeaderIn(b) else HeaderOf(done)
  {
    assert (done + [b])[..|done|] == done;
    assert ([b] + Blocks(rest))[1..] == Blocks(rest);
    FlattenAdd(done, b);
    ConcatAssoc(Flatten(done), b, rest);
    ConcatAssoc(done, [b], Accepted(Blocks(rest), had || IsFormat(b)));
    ListsExtend(done, b, had);
  }

  lemma ListsExtend(done: seq<Block>, b: Block, had: bool)
    requires Readable(b, had) && Accept(b, had) && Parsable(b)
    requires forall x :: x in done ==> Parsable(x)
    requires had <==> Formats(Items(done)) != []
    ensures forall x :: x in done + [b] ==> Parsable(x)
    ensures IsFrame(b) ==> had
    ensures Formats(Items(done + [b])) == Added(Formats(Items(done)), ItemOf(b))
    ensures had || IsFormat(b) <==> Formats(Items(done + [b])) != []
  {
    ItemsAdd(done, b);
    AddAny(Items(done), ItemOf(b));
  }

  /** The walk stops in front of bytes that are no block, or one that is refused. */
  lemma Stops(done: seq<Block>, buffer: seq<byte>, had: bool)
    requires buffer != [] && Accepted(Blocks(buffer), had) == []
    ensures done + Accepted(Blocks(buffer), had) == done
    ensures Flatten(done) != Flatten(done) + buffer
  {
    assert |Flatten(done) + buffer| > |Flatten(done)|;
  }

  /** The parsers up to DL_APPEND: which block is refused, and what an accepted one adds. */
  method Read(b: Block, hasFormat: bool) returns (ok: bool, it: Item)
    requires Readable(b, hasFormat)
    ensures ok == Accept(b, hasFormat)
    ensures ok ==> Parsable(b) && it == ItemOf(b)
  {
    ok, it := true, Other;
    var subtype := b[2];
    if subtype == FORMAT_UNCOMPRESSED || subtype == FORMAT_MJPEG {
      it := AFormat(FormatOf(b));
    } else if subtype == FRAME_UNCOMPRESSED || subtype == FRAME_MJPEG {
      var f := ReadFrame(b);
      it := AFrame(f);
    } else if subtype == FORMAT_FRAME_BASED {
      if |b| < 28 { return false, Other; }
      it := AFormat(FormatOf(b));
    } else if subtype == FRAME_FRAME_BASED {
      if |b| < 26 || !hasFormat { return false, Other; }
      var n: int := b[21];
      if (n == 0 && |b| < 38) || (n != 0 && |b| < 26 + 4 * n) { return false, Other; }
      var f := ReadFrameBased(b);
      it := AFrame(f);
    }
  }

  /** How far the walk has come: done is parsed, and what is left will bring the rest of goal. */
  ghost predicate Walked(extra: seq<byte>, buffer: seq<byte>, done: seq<Block>, goal: seq<Block>,
                         formats: seq<Format>, header: Header)
  {
    && Flatten(done) + buffer == extra
    && Scannable(Blocks(buffer), formats != [])
    && goal == done + Accepted(Blocks(buffer), formats != [])
    && (forall b :: b in done ==> Parsable(b)) && formats == Formats(Items(done))
    && header == HeaderOf(done)
  }

  /** The walk has stopped behind done, short of the end. */
  ghost predicate Stopped(extra: seq<byte>, done: seq<Block>, goal: seq<Block>, formats: seq<Format>, header: Header) {
    && goal == done && Flatten(done) != extra
    && (forall b :: b in done ==> Parsable(b)) && formats == Formats(Items(done)) && header == HeaderOf(done)
  }

  /** The walk has reached the end. */
  lemma WalkedAll(extra: seq<byte>, done: seq<Block>, goal: seq<Block>, formats: seq<Format>, header: Header)
    requires Walked(extra, [], done, goal, formats, header)
    ensures goal == done && Flatten(done) == extra
  {
    assert Blocks([]) == [];
  }

  /** The record of a streaming interface; `formats` says what its linked lists hold. */
  class StreamIf {
    const number: byte
    const lists: FormatList
    var header: Header
    ghost var formats: seq<Format>

    ghost var repr: set<object>            // the lists and everything they are made of

    ghost predicate Valid()
      reads this, repr
    {
      && this !in repr && lists in repr && lists.formats in repr
      && lists.formats.repr <= repr && lists.frameRepr <= repr
      && lists.Valid() && formats == lists.View()
    }

    constructor (number: byte)
      ensures Valid() && this.number == number && formats == [] && header == HeaderOf([]) && fresh(repr)
    {
      this.number := number;
      lists := new FormatList();
      formats, header := [], Header(0, 0, 0);
      new;
      repr := {lists, lists.formats} + lists.formats.repr + lists.frameRepr;
    }

    method AppendFormat(f: Format)
      requires Valid() && f.frames == []
      modifies this`formats, this`repr, repr
      ensures Valid() && fresh(repr - old(repr)) && formats == old(formats) + [f]
    {
      lists.AppendFormat(f);
      formats := formats + [f];
      repr := repr + lists.formats.repr + lists.frameRepr;
    }

    /** The format is format_descs->prev. */
    method AppendFrame(f: ParsedFrame)
      requires Valid() && formats != []
      modifies this`formats, this`repr, repr
      ensures Valid() && fresh(repr - old(repr)) && formats == AddFrame(old(formats), f)
    {
      var _ := lists.IsEmpty();
      lists.AppendFrame(f);
      formats := AddFrame(formats, f);
      repr := repr + lists.frameRepr;
    }

    /** DL_APPEND of what a block adds. */
    method Add(it: Item)
      requires Valid() && (it.AFrame? ==> formats != []) && (it.AFormat? ==> it.format.frames == [])
      modifies this`formats, this`repr, repr
      ensures Valid() && fresh(repr - old(repr)) && formats == Added(old(formats), it)
    {
      if it.AFormat? {
        AppendFormat(it.format);
      } else if it.AFrame? {
        AppendFrame(it.frame);
      }
    }

    method HasFormats() returns (has: bool)
      requires Valid()
      ensures has <==> formats != []
    {
      var none := lists.IsEmpty();
      has := !none;
    }

    /** uvc_parse_vs: what it accepts it adds, what it refuses leaves the lists alone. */
    method ParseVs(b: Block) returns (ok: bool)
      requires Valid() && Readable(b, formats != [])
      modifies this`formats, this`header, this`repr, repr
      ensures Valid() && fresh(repr - old(repr)) && ok == Accept(b, old(formats) != [])
      ensures ok ==> Parsable(b) && formats == Added(old(formats), ItemOf(b))
      ensures !ok ==> formats == old(formats)
      ensures header == if b[2] == INPUT_HEADER && 10 <= |b| then HeaderIn(b) else old(header)
    {
      var has := HasFormats();
      var it;
      ok, it := Read(b, has);
      if ok {
        if b[2] == INPUT_HEADER { header := HeaderIn(b); }
        Add(it);
      }
    }

    /**
     The loop of uvc_scan_streaming: the lists are the grouping of the blocks before the first refused
     one, and the scan succeeds exactly when these tile all the bytes.
     */
    method Walk(extra: seq<byte>) returns (ok: bool)
      requires Valid() && formats == [] && header == HeaderOf([]) && Scannable(Blocks(extra), false)
      modifies this, repr
      ensures Valid() && fresh(repr - old(repr))
      ensures var bs := Accepted(Blocks(extra), false);
        && (forall b :: b in bs ==> Parsable(b))
        && formats == Formats(Items(bs)) && header == HeaderOf(bs)
        && (ok <==> Flatten(bs) == extra)
    {
      ok := true;
      var buffer := extra;
      ghost var done: seq<Block> := [];
      ghost var goal := Accepted(Blocks(extra), false);
      while |buffer| > 0 && ok
        invariant Valid() && fresh(repr - old(repr))
        invariant ok ==> Walked(extra, buffer, done, goal, formats, header)
        invariant !ok ==> Stopped(extra, done, goal, formats, header)
        decreases |buffer|, ok
      {
        ok := Step(extra, buffer, done, goal);
        if ok {
          done := done + [buffer[..buffer[0]]];
          buffer := buffer[buffer[0]..];
        }
      }
      if ok { WalkedAll(extra, done, goal, formats, header); }
    }

    /** One round of the loop: a block parsed, or the end of the scan. */
    method Step(ghost extra: seq<byte>, buffer: seq<byte>, ghost done: seq<Block>, ghost goal: seq<Block>)
      returns (ok: bool)
      requires Valid() && buffer != [] && Walked(extra, buffer, done, goal, formats, header)
      modifies this`formats, this`header, this`repr, repr
      ensures Valid() && fresh(repr - old(repr))
      ensures ok ==> StartsBlock(buffer)
      ensures ok ==> Walked(extra, buffer[buffer[0]..], done + [buffer[..buffer[0]]], goal, formats, header)
      ensures !ok ==> Stopped(extra, done, goal, formats, header)
    {
      var size := buffer[0];
      ghost var had := formats != [];
      if size < 3 || size > |buffer| {
        Stops(done, buffer, had);
        return false;
      }
      var b: Block := buffer[..size];
      ghost var rest := buffer[size..];
      assert Blocks(buffer) == [b] + Blocks(rest);
      ok := ParseVs(b);
      if ok { Extend(done, b, buffer, rest, had); } else { Stops(done, buffer, had); }
    }
  }

  datatype AltSetting = AltSetting(number: byte, extra: seq<byte>)

  /** The blocks of an interface's first altsetting that the scan takes in. */
  function Taken(alts: seq<AltSetting>): seq<Block>
    requires alts != []
  {
    Accepted(Blocks(alts[0].extra), false)
  }

  class DeviceInfo {
    const interfaces: seq<seq<AltSetting>>
    var streamIfs: seq<StreamIf>

    constructor (interfaces: seq<seq<AltSetting>>)
      ensures this.interfaces == interfaces && streamIfs == []
    {
      this.interfaces := interfaces;
      streamIfs := [];
    }

    /**
     uvc_scan_streaming. The new record is listed before the walk, so a failed scan leaves it there with
     what was parsed up to the failure.
     */
    method ScanStreaming(idx: int) returns (ok: bool)
      requires (0 <= idx < |interfaces| && interfaces[idx] != []) ==> Scannable(Blocks(interfaces[idx][0].extra), false)
      modifies this
      ensures (idx < 0 || idx >= |interfaces| || interfaces[idx] == []) ==> !ok && streamIfs == old(streamIfs)
      ensures (0 <= idx < |interfaces| && interfaces[idx] != []) ==>
        (|streamIfs| == |old(streamIfs)| + 1 && streamIfs[..|old(streamIfs)|] == old(streamIfs)
         && var s, alt := streamIfs[|old(streamIfs)|], interfaces[idx][0];
            var bs := Taken(interfaces[idx]);
            && fresh(s) && s.number == alt.number && s.Valid() && fresh(s.repr)
            && (forall b :: b in bs ==> Parsable(b))
            && s.formats == Formats(Items(bs)) && s.header == HeaderOf(bs)
            && (ok <==> Flatten(bs) == alt.extra))
    {
      if idx < 0 || idx >= |interfaces| { return false; }
      if |interfaces[idx]| < 1 { return false; }
      var alt := interfaces[idx][0];
      var s := new StreamIf(alt.number);
      streamIfs := streamIfs + [s];
      ok := s.Walk(alt.extra);
    }
  }

  /** What the later negotiation relies on: terminated intervals, and a buffer size where one can be computed. */
  predicate Dependable(f: Format, x: Frame) {
    Terminated(x) && ((f.bitsPerPixel == 0 && x.width != 0 && x.height != 0) ==> x.maxSize != 0)
  }

  predicate AllDependable(fs: seq<Format>) {
    forall i, k :: 0 <= i < |fs| && 0 <= k < |fs[i].frames| ==> Dependable(fs[i], fs[i].frames[k])
  }

  lemma {:induction false} ParsedIsDependable(items: seq<Item>)
    requires Bare(items)
    ensures AllDependable(Formats(items))
  {
    if items != [] {
      if items[0].AFormat? {
        var f, lead := items[0].format, Lead(items[1..]);
        forall k | 0 <= k < |lead| ensures Dependable(f, WithFrames(f, lead).frames[k]) {
          RepairMeets(f.bitsPerPixel, lead[k]);
          RepairedSizeIsZeroIff(f.bitsPerPixel, lead[k]);
        }
      }
      ParsedIsDependable(items[1..]);
    }
  }

  /** So every list a scan leaves behind is dependable, even one that failed on the way. */
  lemma ScanIsDependable(bs: seq<Block>)
    requires forall b :: b in bs ==> Parsable(b)
    ensures AllDependable(Formats(Items(bs)))
  {
    ParsedIsDependable(Items(bs));
  }
}
