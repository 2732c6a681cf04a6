/**
 uvc_get_stream_ctrl_format_size: the nested search for a format, a size and an interval, and the probe
 it ends in.
 */
module Negotiation {
  import opened ByteOrder
  import opened Descriptors
  import opened StreamingInterface
  import opened Catalog
  import opened Probe

  const SECOND: u32 := 10000000

  /** Undefined stands for a division by zero, which the source's language leaves undefined. */
  datatype Choice = Chosen(interval: u32) | NoMatch | Undefined

  /** 10000000 / fps in C, converted to 32 bits unsigned. */
  function PerFrame(fps: int): u32
    requires fps != 0
  {
    (if fps > 0 then SECOND / fps else -(SECOND / -fps)) % TWO32
  }

  /** The test of one interval; a rate of 0 takes any. */
  predicate Wanted(interval: u32, fps: int)
    requires interval != 0
  {
    SECOND / interval == fps % TWO32 || fps == 0
  }

  /** A rate is met by the intervals of which a second holds that many and no more; a negative one by none. */
  lemma WantedIff(interval: u32, fps: int)
    requires interval != 0 && -0x8000_0000 <= fps < 0x8000_0000
    ensures Wanted(interval, fps) <==> fps == 0 || (fps > 0 && fps * interval <= SECOND < (fps + 1) * interval)
  {
    var q := SECOND / interval;
    assert q * interval <= SECOND < q * interval + interval;
    if 0 < fps {
      Distribute(fps, q, interval);
      Scaled(fps - q, interval);
    }
  }

  function PickFrom(f: Frame, fps: int, i: nat): Choice
    requires Terminated(f) && f.intervalType != 0 && i <= f.intervalType
    decreases f.intervalType - i
  {
    if i == f.intervalType then NoMatch
    else if Wanted(f.intervals[i], fps) then Chosen(f.intervals[i])
    else PickFrom(f, fps, i + 1)
  }

  function PickContinuous(f: Frame, fps: int): Choice {
    if fps == 0 then Undefined
    else
      var t := PerFrame(fps);
      if !(f.minInterval <= t <= f.maxInterval) then NoMatch
      else if t == f.minInterval then Chosen(t)
      else if f.step == 0 then Undefined
      else if (t - f.minInterval) % f.step != 0 then NoMatch
      else Chosen(t)
  }

  /** The interval chosen for a frame of the right size. */
  function Pick(f: Frame, fps: int): Choice
    requires Terminated(f)
  {
    if f.intervalType != 0 then PickFrom(f, fps, 0) else PickContinuous(f, fps)
  }

  /** Interval k is the first one wanted from i on. */
  predicate FirstWanted(f: Frame, fps: int, i: nat, k: nat)
    requires Terminated(f) && f.intervalType != 0 && i <= k < f.intervalType
  {
    Wanted(f.intervals[k], fps) && forall h :: i <= h < k ==> !Wanted(f.intervals[h], fps)
  }

  /** The first wanted interval is chosen. */
  lemma {:induction false} PickFromFirst(f: Frame, fps: int, i: nat, k: nat)
    requires Terminated(f) && f.intervalType != 0 && i <= k < f.intervalType && FirstWanted(f, fps, i, k)
    ensures PickFrom(f, fps, i) == Chosen(f.intervals[k])
    decreases k - i
  {
    if i < k { PickFromFirst(f, fps, i + 1, k); }
  }

  /** There is a choice exactly when some interval is wanted, and none divides by zero. */
  lemma {:induction false} PickFromMeets(f: Frame, fps: int, i: nat)
    requires Terminated(f) && f.intervalType != 0 && i <= f.intervalType
    ensures !PickFrom(f, fps, i).Undefined?
    ensures PickFrom(f, fps, i).NoMatch? <==> forall k :: i <= k < f.intervalType ==> !Wanted(f.intervals[k], fps)
    decreases f.intervalType - i
  {
    if i < f.intervalType && !Wanted(f.intervals[i], fps) { PickFromMeets(f, fps, i + 1); }
  }

  predicate OnGrid(v: int, lo: int, step: int, k: nat) { v == lo + k * step }

  /** In continuous mode the interval is the one of the rate, if it is in range and on the step grid. */
  lemma ContinuousMeets(f: Frame, fps: int, v: u32)
    requires fps != 0
    ensures (fps > 0 ==> PerFrame(fps) == SECOND / fps) && (f.step > 0 ==> !PickContinuous(f, fps).Undefined?)
    ensures PickContinuous(f, fps) == Chosen(v) <==>
      && v == PerFrame(fps) && f.minInterval <= v <= f.maxInterval
      && exists k: nat :: OnGrid(v, f.minInterval, f.step, k)
  {
    var t := PerFrame(fps);
    if fps > 0 { RateIsInterval(fps); }
    if f.step == 0 {
      NoStep(t, f.minInterval);
    } else if t >= f.minInterval {
      GridIsMultiple(t, f.minInterval, f.step);
    }
  }

  lemma NoStep(v: int, lo: int)
    ensures (exists k: nat :: OnGrid(v, lo, 0, k)) <==> v == lo
  {
    if v == lo { assert OnGrid(v, lo, 0, 0); }
  }

  lemma RateIsInterval(fps: int)
    requires fps > 0
    ensures PerFrame(fps) == SECOND / fps
  {
    assert 0 <= SECOND / fps <= SECOND;
  }

  lemma Distribute(k: int, q: int, step: int)
    ensures (k - q) * step == k * step - q * step
  {
  }

  lemma Scaled(m: int, step: int)
    requires step > 0
    ensures m >= 1 ==> m * step >= step
    ensures m <= -1 ==> m * step <= -step
  {
  }

  lemma GridIsMultiple(v: int, lo: int, step: int)
    requires v >= lo && step > 0
    ensures (v - lo) % step == 0 <==> exists k: nat :: OnGrid(v, lo, step, k)
    ensures v == lo ==> (v - lo) % step == 0
  {
    var q, r := (v - lo) / step, (v - lo) % step;
    assert v - lo == q * step + r;
    if r == 0 { assert OnGrid(v, lo, step, q); }
    forall k: nat | OnGrid(v, lo, step, k) ensures r == 0 {
      Distribute(k, q, step);
      Scaled(k - q, step);
    }
  }

  /** The source would divide by zero on a continuous frame with a rate of 0, or a step of 0 off its minimum. */
  lemma UndefinedIff(f: Frame, fps: int)
    requires Terminated(f)
    ensures Pick(f, fps).Undefined? <==>
      f.intervalType == 0
      && (fps == 0 || (f.step == 0 && f.minInterval < PerFrame(fps) <= f.maxInterval))
  {
    if f.intervalType != 0 { PickFromMeets(f, fps, 0); }
  }

  /** The walk over the intervals, which ends at the terminating 0. */
  method PickInterval(f: Frame, fps: int) returns (c: Choice)
    requires Terminated(f)
    ensures c == Pick(f, fps)
  {
    if f.intervals != [] {
      var i := 0;
      while f.intervals[i] != 0
        invariant 0 <= i <= f.intervalType
        invariant PickFrom(f, fps, 0) == PickFrom(f, fps, i)
        decreases f.intervalType - i
      {
        if SECOND / f.intervals[i] == fps % TWO32 || fps == 0 { return Chosen(f.intervals[i]); }
        i := i + 1;
      }
      c := NoMatch;
    } else {
      c := PickByStep(f, fps);
    }
  }

  method PickByStep(f: Frame, fps: int) returns (c: Choice)
    ensures c == PickContinuous(f, fps)
  {
    if fps == 0 { return Undefined; }
    var interval := PerFrame(fps);
    var offset: u32 := (interval - f.minInterval) % TWO32;
    if interval < f.minInterval || interval > f.maxInterval { return NoMatch; }
    assert offset == interval - f.minInterval;
    if offset == 0 { return Chosen(interval); }
    if f.step == 0 { return Undefined; }
    if offset % f.step != 0 { return NoMatch; }
    return Chosen(interval);
  }

  // ----- the search

  /** What is asked for; matches is the test of a format's GUID. */
  datatype Request = Request(matches: seq<byte> -> bool, width: int, height: int, fps: int)

  /** How the search ends. */
  datatype Verdict = Found | NotFound | Fault

  /** The control block, and the interfaces claimed and queried for their maxima on the way. */
  datatype Progress = Progress(verdict: Verdict, ctrl: Ctrl, claims: seq<byte>)

  predicate Eligible(e: Entry, req: Request) {
    req.matches(e.format.guid) && e.frame.width == req.width && e.frame.height == req.height
  }

  /** The interface is claimed and asked for its maxima; max(n) is the device's n-th answer. */
  function Visit(dev: Device, max: nat -> Transfer, e: Entry, p: Progress): Progress {
    p.(ctrl := Get(dev, p.ctrl.(interfaceNumber := e.number), max(|p.claims|)).ctrl, claims := p.claims + [e.number])
  }

  /** The mode chosen for an entry, on top of the maxima. */
  function Choose(e: Entry, v: u32, c: Ctrl): Ctrl {
    c.(hint := 1, formatIndex := e.format.index, frameIndex := e.frame.index, frameInterval := v)
  }

  function Try(dev: Device, max: nat -> Transfer, req: Request, e: Entry, p: Progress): Progress
    requires Terminated(e.frame)
  {
    if !Eligible(e, req) then p
    else
      var q := Visit(dev, max, e, p);
      match Pick(e.frame, req.fps)
      case Chosen(v) => q.(verdict := Found, ctrl := Choose(e, v, q.ctrl))
      case Undefined => q.(verdict := Fault)
      case NoMatch => q
  }

  predicate AllTerminated(es: seq<Entry>) { forall i :: 0 <= i < |es| ==> Terminated(es[i].frame) }

  /** The entries tried in order until one is found. */
  function Search(dev: Device, max: nat -> Transfer, req: Request, es: seq<Entry>, p: Progress): Progress
    requires AllTerminated(es)
  {
    if es == [] || !p.verdict.NotFound? then p else Search(dev, max, req, es[1..], Try(dev, max, req, es[0], p))
  }

  lemma {:induction false} SearchConcat(dev: Device, max: nat -> Transfer, req: Request,
                                        a: seq<Entry>, b: seq<Entry>, p: Progress)
    requires AllTerminated(a) && AllTerminated(b)
    ensures AllTerminated(a + b)
    ensures Search(dev, max, req, a + b, p) == Search(dev, max, req, b, Search(dev, max, req, a, p))
  {
    if a == [] {
      assert a + b == b;
    } else {
      assert (a + b)[1..] == a[1..] + b;
      SearchConcat(dev, max, req, a[1..], b, Try(dev, max, req, a[0], p));
    }
  }

  method SearchFrames(dev: Device, max: nat -> Transfer, req: Request, number: byte, format: Format, p0: Progress)
    returns (p: Progress)
    requires p0.verdict.NotFound? && req.matches(format.guid)
    requires AllTerminated(OfFrames(number, format, format.frames))
    ensures p == Search(dev, max, req, OfFrames(number, format, format.frames), p0)
  {
    p := p0;
    var k := 0;
    assert format.frames[0..] == format.frames;
    while k < |format.frames|
      invariant 0 <= k <= |format.frames| && p.verdict.NotFound?
      invariant AllTerminated(OfFrames(number, format, format.frames[k..]))
      invariant Search(dev, max, req, OfFrames(number, format, format.frames[k..]), p)
             == Search(dev, max, req, OfFrames(number, format, format.frames), p0)
    {
      var frame := format.frames[k];
      ghost var rest := OfFrames(number, format, format.frames[k..]);
      ghost var e := Entry(number, format, frame);
      assert rest[0] == e && rest[1..] == OfFrames(number, format, format.frames[k + 1..]) by {
        assert format.frames[k..][1..] == format.frames[k + 1..];
      }
      ghost var q := p;
      if frame.width == req.width && frame.height == req.height {
        var ctrl := p.ctrl.(interfaceNumber := number);
        ctrl := Get(dev, ctrl, max(|p.claims|)).ctrl;
        p := p.(ctrl := ctrl, claims := p.claims + [number]);
        var c := PickInterval(frame, req.fps);
        if c.Chosen? {
          ctrl := ctrl.(hint := 1, formatIndex := format.index, frameIndex := frame.index, frameInterval := c.interval);
          p := p.(verdict := Found, ctrl := ctrl);
        } else if c.Undefined? {
          p := p.(verdict := Fault);
        }
      }
      assert p == Try(dev, max, req, e, q);
      if !p.verdict.NotFound? { return; }
      k := k + 1;
    }
  }

  lemma {:induction false} NoneEligible(dev: Device, max: nat -> Transfer, req: Request, number: byte, format: Format,
                                        frames: seq<Frame>, p: Progress)
    requires !req.matches(format.guid) && AllTerminated(OfFrames(number, format, frames))
    ensures Search(dev, max, req, OfFrames(number, format, frames), p) == p
  {
    if frames != [] {
      var es := OfFrames(number, format, frames);
      assert es[1..] == OfFrames(number, format, frames[1..]);
      NoneEligible(dev, max, req, number, format, frames[1..], p);
    }
  }

  lemma SearchDone(dev: Device, max: nat -> Transfer, req: Request, es: seq<Entry>, p: Progress)
    requires AllTerminated(es) && !p.verdict.NotFound?
    ensures Search(dev, max, req, es, p) == p
  {
  }

  lemma SplitTerminated(a: seq<Entry>, b: seq<Entry>)
    requires AllTerminated(a + b)
    ensures AllTerminated(a) && AllTerminated(b)
  {
    forall i | 0 <= i < |a| ensures Terminated(a[i].frame) { assert a[i] == (a + b)[i]; }
    forall i | 0 <= i < |b| ensures Terminated(b[i].frame) { assert b[i] == (a + b)[|a| + i]; }
  }

  method SearchFormats(dev: Device, max: nat -> Transfer, req: Request, number: byte, formats: seq<Format>,
                       p0: Progress)
    returns (p: Progress)
    requires p0.verdict.NotFound? && AllTerminated(OfFormats(number, formats))
    ensures p == Search(dev, max, req, OfFormats(number, formats), p0)
  {
    p := p0;
    var k := 0;
    assert formats[0..] == formats;
    while k < |formats|
      invariant 0 <= k <= |formats| && p.verdict.NotFound?
      invariant AllTerminated(OfFormats(number, formats[k..]))
      invariant Search(dev, max, req, OfFormats(number, formats[k..]), p)
             == Search(dev, max, req, OfFormats(number, formats), p0)
    {
      var format := formats[k];
      ghost var es, rest := OfFrames(number, format, format.frames), OfFormats(number, formats[k + 1..]);
      assert OfFormats(number, formats[k..]) == es + rest by { assert formats[k..][1..] == formats[k + 1..]; }
      SplitTerminated(es, rest);
      SearchConcat(dev, max, req, es, rest, p);
      if req.matches(format.guid) {
        p := SearchFrames(dev, max, req, number, format, p);
        if !p.verdict.NotFound? {
          SearchDone(dev, max, req, rest, p);
          return;
        }
      } else {
        NoneEligible(dev, max, req, number, format, format.frames, p);
      }
      k := k + 1;
    }
  }

  /** The three nested loops: the entries of the device tried in order. */
  method SearchDevice(dev: Device, max: nat -> Transfer, req: Request, ctrl: Ctrl) returns (p: Progress)
    requires AllTerminated(Entries(dev.ifs))
    ensures p == Search(dev, max, req, Entries(dev.ifs), Progress(NotFound, ctrl, []))
  {
    p := Progress(NotFound, ctrl, []);
    ghost var p0 := p;
    var k := 0;
    assert dev.ifs[0..] == dev.ifs;
    while k < |dev.ifs|
      invariant 0 <= k <= |dev.ifs| && p.verdict.NotFound?
      invariant AllTerminated(Entries(dev.ifs[k..]))
      invariant Search(dev, max, req, Entries(dev.ifs[k..]), p) == Search(dev, max, req, Entries(dev.ifs), p0)
    {
      var s := dev.ifs[k];
      ghost var es, rest := OfFormats(s.number, s.formats), Entries(dev.ifs[k + 1..]);
      assert Entries(dev.ifs[k..]) == es + rest by { assert dev.ifs[k..][1..] == dev.ifs[k + 1..]; }
      SplitTerminated(es, rest);
      SearchConcat(dev, max, req, es, rest, p);
      p := SearchFormats(dev, max, req, s.number, s.formats, p);
      if !p.verdict.NotFound? {
        SearchDone(dev, max, req, rest, p);
        return;
      }
      k := k + 1;
    }
  }

  // ----- what is found

  /** Entry n ends the search, and none before it does. */
  predicate EndsAt(es: seq<Entry>, req: Request, n: nat)
    requires AllTerminated(es) && n < |es|
  {
    Ends(es[n], req) && forall i :: 0 <= i < n ==> !Ends(es[i], req)
  }

  predicate Ends(e: Entry, req: Request)
    requires Terminated(e.frame)
  {
    Eligible(e, req) && !Pick(e.frame, req.fps).NoMatch?
  }

  /** The interfaces of the eligible entries, in order. */
  function Claimed(es: seq<Entry>, req: Request): seq<byte> {
    if es == [] then [] else (if Eligible(es[0], req) then [es[0].number] else []) + Claimed(es[1..], req)
  }

  lemma TryClaims(dev: Device, max: nat -> Transfer, req: Request, e: Entry, p: Progress)
    requires Terminated(e.frame) && p.verdict.NotFound?
    ensures var q := Try(dev, max, req, e, p);
      && q.claims == p.claims + (if Eligible(e, req) then [e.number] else [])
      && (if Ends(e, req) then EndedWith(dev, max, q, e, req, q.claims) else q.verdict.NotFound?)
  {
    if Ends(e, req) && Pick(e.frame, req.fps).Chosen? {
      var c, t := p.ctrl.(interfaceNumber := e.number), max(|p.claims|);
      GetMeets(dev, c, t);
      var m := Get(dev, c, t).ctrl;
      assert ModeOf(Try(dev, max, req, e, p).ctrl, e, Pick(e.frame, req.fps).interval, m) && MaximaOf(dev, m, e, t);
    }
  }

  /** Without an entry that ends it the search fails, having claimed the interface of every eligible one. */
  lemma {:induction false} SearchFails(dev: Device, max: nat -> Transfer, req: Request, es: seq<Entry>, p: Progress)
    requires AllTerminated(es) && p.verdict.NotFound? && forall i :: 0 <= i < |es| ==> !Ends(es[i], req)
    ensures var r := Search(dev, max, req, es, p);
      r.verdict.NotFound? && r.claims == p.claims + Claimed(es, req)
  {
    if es != [] {
      TryClaims(dev, max, req, es[0], p);
      SearchFails(dev, max, req, es[1..], Try(dev, max, req, es[0], p));
    }
  }

  /**
   The search ends at the first entry of the right format and size that yields an interval. On the way
   it has claimed the interface of every entry of the right format and size, the found one included.
   */
  lemma {:induction false} SearchFinds(dev: Device, max: nat -> Transfer, req: Request,
                                       es: seq<Entry>, p: Progress, n: nat)
    requires AllTerminated(es) && p.verdict.NotFound? && n < |es| && EndsAt(es, req, n)
    ensures EndedWith(dev, max, Search(dev, max, req, es, p), es[n], req, p.claims + Claimed(es[..n + 1], req))
  {
    var q, tail := Try(dev, max, req, es[0], p), es[1..];
    TryClaims(dev, max, req, es[0], p);
    assert es[..n + 1][1..] == tail[..n];
    if n == 0 {
      SearchDone(dev, max, req, tail, q);
      assert Claimed(tail[..0], req) == [];
    } else {
      SearchFinds(dev, max, req, tail, q, n - 1);
    }
  }

  /** c is the mode of e with interval v, on top of the maxima m. */
  predicate ModeOf(c: Ctrl, e: Entry, v: u32, m: Ctrl) {
    && c.hint == 1 && c.formatIndex == e.format.index && c.frameIndex == e.frame.index && c.frameInterval == v
    && c == m.(hint := c.hint, formatIndex := c.formatIndex, frameIndex := c.frameIndex,
               frameInterval := c.frameInterval)
  }

  /** m is what the answer t to GET_MAX leaves for the interface of e. */
  ghost predicate MaximaOf(dev: Device, m: Ctrl, e: Entry, t: Transfer) {
    && m.interfaceNumber == e.number && (t.result > 0 ==> Answers(dev, Received(dev, t.data), m))
  }

  /** The search ended with this entry, having claimed these interfaces and asked the last for its maxima. */
  ghost predicate EndedWith(dev: Device, max: nat -> Transfer, r: Progress, e: Entry, req: Request, claims: seq<byte>)
    requires Terminated(e.frame)
  {
    && r.claims == claims && claims != []
    && match Pick(e.frame, req.fps)
       case Chosen(v) =>
         r.verdict.Found? && exists m :: ModeOf(r.ctrl, e, v, m) && MaximaOf(dev, m, e, max(|claims| - 1))
       case _ => r.verdict.Fault?
  }

  /** The block the device is probed with: the mode of an entry, with the interval picked for it and its maxima. */
  ghost predicate AsksFor(dev: Device, c: Ctrl, e: Entry, fps: int, t: Transfer)
    requires Terminated(e.frame)
  {
    Pick(e.frame, fps).Chosen? && exists m :: ModeOf(c, e, Pick(e.frame, fps).interval, m) && MaximaOf(dev, m, e, t)
  }

  /** What the call amounts to when entry n is the one that ends the search. */
  ghost predicate SettlesOn(dev: Device, max: nat -> Transfer, es: seq<Entry>, req: Request, n: nat,
                            set_: Transfer, get: Transfer, asked: Ctrl,
                            status: int, c: Ctrl, fault: bool, claims: seq<byte>)
    requires AllTerminated(es) && n < |es|
  {
    && claims == Claimed(es[..n + 1], req) && claims != []
    && (fault <==> Pick(es[n].frame, req.fps).Undefined?)
    && (!fault ==>
          && AsksFor(dev, asked, es[n], req.fps, max(|claims| - 1))
          && ProbeSays(dev, asked, set_, get, status, c)
          && (status == SUCCESS ==>
                && c.formatIndex == es[n].format.index && c.frameIndex == es[n].frame.index
                && c.interfaceNumber == es[n].number && c.maxPayloadTransferSize <= asked.maxPayloadTransferSize))
  }

  /**
   uvc_get_stream_ctrl_format_size.  Without an entry that fits, the mode is refused; otherwise the first
   one is asked for, and the call succeeds if and only if the transfers and the device's answer allow it.
   Either way the interface of every entry of the right format and size up to there stays claimed.  The
   fault is the division by zero of UndefinedIff.
   */
  method GetStreamCtrl(dev: Device, max: nat -> Transfer, req: Request, ctrl: Ctrl, set_: Transfer, get: Transfer)
    returns (status: int, c: Ctrl, fault: bool, claims: seq<byte>, ghost asked: Ctrl)
    requires AllTerminated(Entries(dev.ifs))
    ensures var es := Entries(dev.ifs);
      (forall i :: 0 <= i < |es| ==> !Ends(es[i], req)) ==>
        !fault && status == INVALID_MODE && claims == Claimed(es, req)
    ensures var es := Entries(dev.ifs);
      forall n :: 0 <= n < |es| && EndsAt(es, req, n) ==>
        SettlesOn(dev, max, es, req, n, set_, get, asked, status, c, fault, claims)
  {
    ghost var es := Entries(dev.ifs);
    var p := SearchDevice(dev, max, req, ctrl);
    ghost var p0 := Progress(NotFound, ctrl, []);
    if forall i :: 0 <= i < |es| ==> !Ends(es[i], req) { SearchFails(dev, max, req, es, p0); }
    asked := p.ctrl;
    status, c, fault, claims := INVALID_MODE, p.ctrl, p.verdict.Fault?, p.claims;
    if p.verdict.Found? {
      var r := ProbeCtrl(dev, p.ctrl, set_, get);
      status, c := r.status, r.ctrl;
    }
    forall n | 0 <= n < |es| && EndsAt(es, req, n)
      ensures SettlesOn(dev, max, es, req, n, set_, get, asked, status, c, fault, claims)
    {
      SearchFinds(dev, max, req, es, p0, n);
      ProbeMeets(dev, asked, set_, get);
    }
  }

  /** One of the two cases applies. */
  lemma {:induction false} FirstEnding(es: seq<Entry>, req: Request)
    requires AllTerminated(es)
    ensures (forall i :: 0 <= i < |es| ==> !Ends(es[i], req)) || exists n :: 0 <= n < |es| && EndsAt(es, req, n)
  {
    if es != [] {
      var k := |es| - 1;
      var init := es[..k];
      FirstEnding(init, req);
      if n :| 0 <= n < |init| && EndsAt(init, req, n) {
        assert EndsAt(es, req, n);
      } else if Ends(es[k], req) {
        assert forall i :: 0 <= i < k ==> es[i] == init[i];
        assert EndsAt(es, req, k);
      }
    }
  }

  // ----- what the parser's guarantees give

  predicate DependableEntries(es: seq<Entry>) {
    forall i :: 0 <= i < |es| ==> Dependable(es[i].format, es[i].frame)
  }

  lemma {:induction false} OfFramesDependable(number: byte, format: Format, frames: seq<Frame>)
    requires forall k :: 0 <= k < |frames| ==> Dependable(format, frames[k])
    ensures DependableEntries(OfFrames(number, format, frames))
  {
    if frames != [] { OfFramesDependable(number, format, frames[1..]); }
  }

  lemma {:induction false} OfFormatsDependable(number: byte, formats: seq<Format>)
    requires AllDependable(formats)
    ensures DependableEntries(OfFormats(number, formats))
  {
    if formats != [] {
      OfFramesDependable(number, formats[0], formats[0].frames);
      OfFormatsDependable(number, formats[1..]);
    }
  }

  /** Lists that parsers built meet what the search requires. */
  lemma {:induction false} EntriesDependable(ifs: seq<Interface>)
    requires forall k :: 0 <= k < |ifs| ==> AllDependable(ifs[k].formats)
    ensures DependableEntries(Entries(ifs)) && AllTerminated(Entries(ifs))
  {
    if ifs != [] {
      OfFormatsDependable(ifs[0].number, ifs[0].formats);
      EntriesDependable(ifs[1..]);
    }
  }

  /** A maximum of 0 is replaced by one that is not, when the frame named has a size and no bits per pixel. */
  lemma FallbackIsNotZero(dev: Device, c: Ctrl, n: nat)
    requires forall k :: 0 <= k < |dev.ifs| ==> AllDependable(dev.ifs[k].formats)
    requires n < |Entries(dev.ifs)| && FirstAt(Entries(dev.ifs), c.formatIndex, c.frameIndex, n)
    requires var e := Entries(dev.ifs)[n]; e.format.bitsPerPixel == 0 && e.frame.width != 0 && e.frame.height != 0
    ensures FixMaxima(dev, c).maxVideoFrameSize != 0
  {
    EntriesDependable(dev.ifs);
    FirstNamedMeets(Entries(dev.ifs), c.formatIndex, c.frameIndex);
    FixedMaxima(dev, c);
  }
}
