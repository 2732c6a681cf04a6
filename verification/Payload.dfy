/**
 Reassembly of video frames from payload transfers (section 2.4.3.3 of the USB Video Class 1.5
 specification) as a function: what _uvc_process_payload and _uvc_swap_buffers do to the fields of
 a stream handle, with the list of all frames ever published beside them.
 */
module Payload {
  import opened ByteOrder
  import opened SeqFacts

  const META_MAX: nat := 4096

  const ISIGHT_TAG: seq<byte> :=
    [0x11, 0x22, 0x33, 0x44, 0xde, 0xad, 0xbe, 0xef, 0xde, 0xad, 0xfa, 0xce]

  datatype Config = Config(max: nat, isight: bool)

  /** A payload transfer, or an isochronous packet that libusb marked bad. */
  datatype Event = Packet(bytes: seq<byte>) | BadPacket

  /** What a payload says, whatever the stream's state. */
  datatype Parsed =
    | Ignored                                      // empty, or a header longer than the payload
    | Errored                                      // the error bit is set
    | Bare(body: seq<byte>)                        // no usable header
    | Headed(fid: bool, eof: bool, pts: Stamp, scr: Stamp, meta: seq<byte>, body: seq<byte>)

  /** A time stamp field of the header: absent, or present with its value (0 when truncated). */
  datatype Stamp = Absent | Present(value: u32)

  predicate TagAt(p: seq<byte>, at: nat) { at + 12 <= |p| && p[at..at + 12] == ISIGHT_TAG }

  function StampAt(flag: bool, p: seq<byte>, at: nat, headerLen: nat): Stamp
    requires headerLen <= |p|
  {
    if !flag then Absent else if at + 4 <= headerLen then Present(Int(p, at)) else Present(0)
  }

  function Parse(isight: bool, p: seq<byte>): Parsed {
    if |p| == 0 then Ignored
    else if isight && !TagAt(p, 2) && !TagAt(p, 3) then Bare(p)
    else
      var headerLen := p[0];
      if headerLen > |p| then Ignored
      else
        var body := if isight then [] else p[headerLen..];
        if headerLen < 2 then Bare(body)
        else
          var info := p[1];
          if Bit(info, 6) then Errored
          else
            var scrAt := if Bit(info, 2) then 6 else 2;
            var metaAt := if Bit(info, 3) then scrAt + 6 else scrAt;
            Headed(Bit(info, 0), Bit(info, 1), StampAt(Bit(info, 2), p, 2, headerLen),
                   StampAt(Bit(info, 3), p, scrAt, headerLen),
                   if headerLen > metaAt then p[metaAt..headerLen] else [], body)
  }

  /** A frame as _uvc_swap_buffers leaves it in the hold buffers; `at` is the event that caused it. */
  datatype Frame = Frame(data: seq<byte>, meta: seq<byte>, sequence: u32, pts: u32, scr: u32,
                         broadcast: bool, at: nat)

  datatype State = State(fid: bool, got: seq<byte>, meta: seq<byte>, pts: u32, scr: u32, sequence: u32,
                         errors: bool, published: seq<Frame>)

  /** The fields as uvc_stream_start sets them on a fresh handle. */
  const Start := State(false, [], [], 0, 0, 1, false, [])

  function Swap(s: State, at: nat): State {
    State(s.fid, [], [], 0, 0, (s.sequence + 1) % TWO32, false,
          s.published + [Frame(s.got, s.meta, s.sequence, s.pts, s.scr, !s.errors, at)])
  }

  /** As much of `more` as still fits behind `have` bytes. */
  function Clip(have: nat, more: seq<byte>, max: nat): seq<byte>
    requires have <= max
  {
    if have + |more| > max then more[..max - have] else more
  }

  function AddBody(max: nat, s: State, body: seq<byte>, eof: bool, at: nat): State
    requires |s.got| <= max
  {
    if body == [] then s
    else
      var s' := s.(got := s.got + Clip(|s.got|, body, max));
      if eof || |s'.got| == max then Swap(s', at) else s'
  }

  function Flipped(s: State, fid: bool, at: nat): State {
    if s.fid != fid && s.got != [] then Swap(s, at) else s
  }

  function Stamped(now: u32, st: Stamp): u32 { if st.Present? then st.value else now }

  function AddHeader(s: State, h: Parsed): State
    requires h.Headed? && |s.meta| <= META_MAX
  {
    s.(fid := h.fid, pts := Stamped(s.pts, h.pts), scr := Stamped(s.scr, h.scr),
       meta := s.meta + Clip(|s.meta|, h.meta, META_MAX))
  }

  predicate Bounded(max: nat, s: State) { |s.got| <= max && |s.meta| <= META_MAX }

  /** One event at position `at` of the input. */
  function Step(c: Config, s: State, e: Event, at: nat): (s': State)
    requires Bounded(c.max, s)
    ensures Bounded(c.max, s')
  {
    match e
    case BadPacket => s.(errors := true)
    case Packet(p) =>
      match Parse(c.isight, p)
      case Ignored => s
      case Errored => s.(errors := true)
      case Bare(body) => AddBody(c.max, s, body, false, at)
      case Headed(fid, eof, _, _, _, body) =>
        AddBody(c.max, AddHeader(Flipped(s, fid, at), Parse(c.isight, p)), body, eof, at)
  }

  function Run(c: Config, s: State, es: seq<Event>): (s': State)
    requires Bounded(c.max, s)
    ensures Bounded(c.max, s')
  {
    if es == [] then s
    else Step(c, Run(c, s, es[..|es| - 1]), es[|es| - 1], |es| - 1)
  }

  lemma RunSnoc(c: Config, s: State, es: seq<Event>, e: Event)
    requires Bounded(c.max, s)
    ensures Run(c, s, es + [e]) == Step(c, Run(c, s, es), e, |es|)
  {
    assert (es + [e])[..|es|] == es;
  }

  // ----- for every event sequence, malformed ones included

  /** What one event adds to the image data: its body, clipped to the room left in the frame. */
  function Accepted(c: Config, s: State, e: Event): seq<byte>
    requires Bounded(c.max, s)
  {
    if e.BadPacket? then []
    else
      match Parse(c.isight, e.bytes)
      case Ignored | Errored => []
      case Bare(body) => Clip(|s.got|, body, c.max)
      case Headed(fid, _, _, _, _, body) =>
        Clip(if fid != s.fid then 0 else |s.got|, body, c.max)
  }

  function AllAccepted(c: Config, s: State, es: seq<Event>): seq<byte>
    requires Bounded(c.max, s)
  {
    if es == [] then []
    else AllAccepted(c, s, es[..|es| - 1]) + Accepted(c, Run(c, s, es[..|es| - 1]), es[|es| - 1])
  }

  function Flatten(fs: seq<Frame>): seq<byte> {
    if fs == [] then [] else Flatten(fs[..|fs| - 1]) + fs[|fs| - 1].data
  }

  function Contents(s: State): seq<byte> { Flatten(s.published) + s.got }

  lemma SwapKeepsContents(s: State, at: nat)
    ensures Contents(Swap(s, at)) == Contents(s)
  {
    assert Swap(s, at).published[..|s.published|] == s.published;
  }

  lemma AddBodyContents(max: nat, s: State, body: seq<byte>, eof: bool, at: nat)
    requires |s.got| <= max
    ensures Contents(AddBody(max, s, body, eof, at)) == Contents(s) + Clip(|s.got|, body, max)
  {
    var s' := s.(got := s.got + Clip(|s.got|, body, max));
    assert Contents(s') == Contents(s) + Clip(|s.got|, body, max);
    SwapKeepsContents(s', at);
  }

  lemma StepContents(c: Config, s: State, e: Event, at: nat)
    requires Bounded(c.max, s)
    ensures Contents(Step(c, s, e, at)) == Contents(s) + Accepted(c, s, e)
  {
    if e.Packet? {
      match Parse(c.isight, e.bytes)
      case Bare(body) => AddBodyContents(c.max, s, body, false, at);
      case Headed(fid, eof, _, _, _, body) =>
        SwapKeepsContents(s, at);
        var s1 := AddHeader(Flipped(s, fid, at), Parse(c.isight, e.bytes));
        assert Contents(s1) == Contents(s);
        AddBodyContents(c.max, s1, body, eof, at);
      case _ => assert Contents(Step(c, s, e, at)) == Contents(s);
    }
  }

  /** Conservation: published frames plus pending bytes are exactly the accepted bodies, in order. */
  lemma {:induction false} NothingLostOrInvented(c: Config, s: State, es: seq<Event>)
    requires Bounded(c.max, s)
    ensures Contents(Run(c, s, es)) == Contents(s) + AllAccepted(c, s, es)
  {
    if es != [] {
      var n := |es| - 1;
      var us, e := es[..n], es[n];
      var t := Run(c, s, us);
      NothingLostOrInvented(c, s, us);
      StepContents(c, t, e, n);
      ConcatAssoc(Contents(s), AllAccepted(c, s, us), Accepted(c, t, e));
    }
  }

  predicate IsError(isight: bool, e: Event) { e.BadPacket? || Parse(isight, e.bytes).Errored? }

  predicate Clean(isight: bool, es: seq<Event>, lo: nat, hi: nat) {
    forall j :: lo <= j < hi && j < |es| ==> !IsError(isight, es[j])
  }

  /** The event that caused the swap before the k-th one. */
  function Previous(fs: seq<Frame>, k: nat): nat
    requires k <= |fs|
  {
    if k == 0 then 0 else fs[k - 1].at
  }

  /** The frames as published, and the error flag, before event n. */
  predicate Marked(c: Config, es: seq<Event>, s: State, n: nat) {
    && n <= |es|
    && s.sequence == (1 + |s.published|) % TWO32
    && Previous(s.published, |s.published|) <= n
    && (s.errors <==> !Clean(c.isight, es, Previous(s.published, |s.published|), n))
    && (forall k :: 0 <= k < |s.published| ==> FrameMarked(c, es, s.published, k))
  }

  predicate FrameMarked(c: Config, es: seq<Event>, fs: seq<Frame>, k: nat)
    requires k < |fs|
  {
    && fs[k].sequence == (1 + k) % TWO32
    && |fs[k].data| <= c.max && |fs[k].meta| <= META_MAX
    && Previous(fs, k) <= fs[k].at <= |es|
    && (fs[k].broadcast <==> Clean(c.isight, es, Previous(fs, k), fs[k].at))
  }

  lemma SwapMarked(c: Config, es: seq<Event>, s: State, n: nat)
    requires Marked(c, es, s, n) && Bounded(c.max, s)
    ensures Marked(c, es, Swap(s, n), n)
  {
    var s' := Swap(s, n);
    var before := |s.published|;
    assert s'.published[..before] == s.published;
    forall k | 0 <= k < |s'.published| ensures FrameMarked(c, es, s'.published, k) {
      if k < before {
        assert FrameMarked(c, es, s.published, k);
        assert Previous(s'.published, k) == Previous(s.published, k);
      } else {
        assert Previous(s'.published, k) == Previous(s.published, before);
      }
    }
  }

  lemma FieldsMarked(c: Config, es: seq<Event>, s: State, t: State, n: nat)
    requires Marked(c, es, s, n)
    requires t.published == s.published && t.errors == s.errors && t.sequence == s.sequence
    ensures Marked(c, es, t, n)
  {
    forall k | 0 <= k < |t.published| ensures FrameMarked(c, es, t.published, k) {
      assert FrameMarked(c, es, s.published, k);
    }
  }

  lemma AddBodyMarked(c: Config, es: seq<Event>, s: State, body: seq<byte>, eof: bool, n: nat)
    requires Marked(c, es, s, n) && Bounded(c.max, s)
    ensures Marked(c, es, AddBody(c.max, s, body, eof, n), n)
  {
    var s' := s.(got := s.got + Clip(|s.got|, body, c.max));
    FieldsMarked(c, es, s, s', n);
    SwapMarked(c, es, s', n);
  }

  lemma NextMarked(c: Config, es: seq<Event>, s: State, n: nat, e: Event)
    requires Marked(c, es, s, n) && n == |es|
    ensures IsError(c.isight, e) ==> Marked(c, es + [e], s.(errors := true), n + 1)
    ensures !IsError(c.isight, e) ==> Marked(c, es + [e], s, n + 1)
  {
    var fs, from := es + [e], Previous(s.published, |s.published|);
    assert forall j :: 0 <= j < |es| ==> fs[j] == es[j];
    assert fs[n] == e;
    assert Clean(c.isight, fs, from, n + 1) <==> Clean(c.isight, es, from, n) && !IsError(c.isight, e);
    forall k | 0 <= k < |s.published| ensures FrameMarked(c, fs, s.published, k) {
      assert FrameMarked(c, es, s.published, k);
    }
  }

  lemma StepMarked(c: Config, es: seq<Event>, s: State, e: Event)
    requires Marked(c, es, s, |es|) && Bounded(c.max, s)
    ensures Marked(c, es + [e], Step(c, s, e, |es|), |es| + 1)
  {
    var n := |es|;
    if e.Packet? && Parse(c.isight, e.bytes).Bare? {
      AddBodyMarked(c, es, s, Parse(c.isight, e.bytes).body, false, n);
    } else if e.Packet? && Parse(c.isight, e.bytes).Headed? {
      var h := Parse(c.isight, e.bytes);
      SwapMarked(c, es, s, n);
      var s1 := AddHeader(Flipped(s, h.fid, n), h);
      FieldsMarked(c, es, Flipped(s, h.fid, n), s1, n);
      AddBodyMarked(c, es, s1, h.body, h.eof, n);
    }
    if IsError(c.isight, e) {
      NextMarked(c, es, s, n, e);
    } else {
      NextMarked(c, es, Step(c, s, e, n), n, e);
    }
  }

  lemma {:induction false} RunMarked(c: Config, es: seq<Event>)
    ensures Marked(c, es, Run(c, Start, es), |es|)
  {
    if es != [] {
      var us := es[..|es| - 1];
      RunMarked(c, us);
      StepMarked(c, us, Run(c, Start, us), es[|es| - 1]);
      assert us + [es[|es| - 1]] == es;
    }
  }

  /**
   For every input, malformed ones included: the k-th swap carries sequence number 1 + k, fits its
   buffers, and is broadcast iff no event since the previous swap had the error bit or was a bad packet.
   */
  lemma EverySwap(c: Config, es: seq<Event>, k: nat)
    requires k < |Run(c, Start, es).published|
    ensures var fs := Run(c, Start, es).published;
      && fs[k].sequence == (1 + k) % TWO32
      && |fs[k].data| <= c.max && |fs[k].meta| <= META_MAX
      && (fs[k].broadcast <==> forall j :: Previous(fs, k) <= j < fs[k].at && j < |es| ==> !IsError(c.isight, es[j]))
  {
    RunMarked(c, es);
    assert FrameMarked(c, es, Run(c, Start, es).published, k);
  }

  // ----- the round trip: frames cut into payloads come back as the same frames

  /** What a well-formed payload contributes: nothing if empty, else its FID, EOF and body. */
  datatype Piece = Empty | Piece(fid: bool, eof: bool, body: seq<byte>)

  predicate Carries(e: Event, g: Piece) {
    && e.Packet?
    && if g.Empty? then |e.bytes| == 0
       else
         var h := Parse(false, e.bytes);
         h.Headed? && h.fid == g.fid && h.eof == g.eof && h.body == g.body
  }

  /** The part of the state that decides where frames begin and end. */
  datatype View = View(fid: bool, got: seq<byte>, out: seq<seq<byte>>)

  function Datas(fs: seq<Frame>): seq<seq<byte>> {
    if fs == [] then [] else Datas(fs[..|fs| - 1]) + [fs[|fs| - 1].data]
  }

  function ViewOf(s: State): View { View(s.fid, s.got, Datas(s.published)) }

  function Receive(max: nat, v: View, body: seq<byte>, eof: bool): View
    requires |v.got| <= max
  {
    if body == [] then v
    else
      var got := v.got + Clip(|v.got|, body, max);
      if eof || |got| == max then View(v.fid, [], v.out + [got]) else v.(got := got)
  }

  function ViewStep(max: nat, v: View, g: Piece): (v': View)
    requires |v.got| <= max
    ensures |v'.got| <= max
  {
    if g.Empty? then v
    else if v.fid != g.fid && v.got != [] then Receive(max, View(g.fid, [], v.out + [v.got]), g.body, g.eof)
    else Receive(max, v.(fid := g.fid), g.body, g.eof)
  }

  function ViewRun(max: nat, v: View, gs: seq<Piece>): (v': View)
    requires |v.got| <= max
    ensures |v'.got| <= max
  {
    if gs == [] then v else ViewStep(max, ViewRun(max, v, gs[..|gs| - 1]), gs[|gs| - 1])
  }

  lemma SwapView(s: State, at: nat)
    ensures ViewOf(Swap(s, at)) == View(s.fid, [], Datas(s.published) + [s.got])
  {
    assert Swap(s, at).published[..|s.published|] == s.published;
  }

  lemma BodyView(max: nat, s: State, body: seq<byte>, eof: bool, at: nat)
    requires |s.got| <= max
    ensures ViewOf(AddBody(max, s, body, eof, at)) == Receive(max, ViewOf(s), body, eof)
  {
    SwapView(s.(got := s.got + Clip(|s.got|, body, max)), at);
  }

  lemma StepView(c: Config, s: State, e: Event, at: nat, g: Piece)
    requires Bounded(c.max, s) && !c.isight && Carries(e, g)
    ensures ViewOf(Step(c, s, e, at)) == ViewStep(c.max, ViewOf(s), g)
  {
    if g.Piece? {
      SwapView(s, at);
      var h := Parse(false, e.bytes);
      BodyView(c.max, AddHeader(Flipped(s, g.fid, at), h), g.body, g.eof, at);
    }
  }

  predicate AllCarry(es: seq<Event>, gs: seq<Piece>) {
    |es| == |gs| && forall k :: 0 <= k < |es| ==> Carries(es[k], gs[k])
  }

  lemma {:induction false} RunView(c: Config, s: State, es: seq<Event>, gs: seq<Piece>)
    requires Bounded(c.max, s) && !c.isight && AllCarry(es, gs)
    ensures ViewOf(Run(c, s, es)) == ViewRun(c.max, ViewOf(s), gs)
  {
    if es != [] {
      var n := |es| - 1;
      RunView(c, s, es[..n], gs[..n]);
      StepView(c, Run(c, s, es[..n]), es[n], n, gs[n]);
    }
  }

  function BodyOf(g: Piece): seq<byte> { if g.Empty? then [] else g.body }

  function Bodies(gs: seq<Piece>): seq<byte> {
    if gs == [] then [] else Bodies(gs[..|gs| - 1]) + BodyOf(gs[|gs| - 1])
  }

  predicate EndsFrame(g: Piece) { g.Piece? && g.eof && g.body != [] }

  /**
   `gs` is one way of sending `frame`: payloads of one FID whose bodies make up the frame, with the EOF
   bit, if at all, on the payload that completes it (header-only payloads may carry it anywhere).
   */
  predicate Cut(gs: seq<Piece>, fid: bool, frame: seq<byte>) {
    && (forall k :: 0 <= k < |gs| && gs[k].Piece? ==> gs[k].fid == fid)
    && Bodies(gs) == frame
    && (forall k :: 0 <= k < |gs| && EndsFrame(gs[k]) ==> Bodies(gs[..k + 1]) == frame)
  }

  /** All of `done` is out, or all but the last, which waits for the next FID change. */
  predicate Settled(v: View, done: seq<seq<byte>>, next: bool) {
    || (v.out == done && v.got == [])
    || (v.out + [v.got] == done && v.got != [] && v.fid != next)
  }

  /** Inside a frame, after payloads with bodies `sofar`. */
  predicate Within(max: nat, v: View, done: seq<seq<byte>>, fid: bool, frame: seq<byte>, sofar: seq<byte>) {
    || (sofar == [] && Settled(v, done, fid))
    || (v.fid == fid && v.out == done && v.got == sofar && |sofar| < max)
    || (v.fid == fid && v.out == done + [frame] && v.got == [] && sofar == frame)
  }

  lemma PieceStep(max: nat, v: View, g: Piece, done: seq<seq<byte>>, fid: bool, frame: seq<byte>, sofar: seq<byte>)
    requires |v.got| <= max && 0 < |frame| <= max
    requires (g.Piece? ==> g.fid == fid) && sofar + BodyOf(g) <= frame
    requires EndsFrame(g) ==> sofar + BodyOf(g) == frame
    requires Within(max, v, done, fid, frame, sofar)
    ensures Within(max, ViewStep(max, v, g), done, fid, frame, sofar + BodyOf(g))
  {
    assert BodyOf(g) == [] ==> sofar + BodyOf(g) == sofar;
    if g.Piece? {
      assert [] + g.body == g.body;
      assert |sofar + g.body| == max ==> sofar + g.body == frame;
    }
  }

  lemma {:induction false} BodiesPrefix(gs: seq<Piece>, k: nat)
    requires k <= |gs|
    ensures Bodies(gs[..k]) <= Bodies(gs)
    decreases |gs| - k
  {
    if k < |gs| {
      BodiesPrefix(gs, k + 1);
      assert gs[..k + 1][..k] == gs[..k];
    } else {
      assert gs[..k] == gs;
    }
  }

  /** What the k-th payload of a cut adds, and what it may end. */
  lemma CutPiece(gs: seq<Piece>, fid: bool, frame: seq<byte>, k: nat)
    requires Cut(gs, fid, frame) && k < |gs|
    ensures gs[k].Piece? ==> gs[k].fid == fid
    ensures Bodies(gs[..k + 1]) == Bodies(gs[..k]) + BodyOf(gs[k])
    ensures Bodies(gs[..k]) + BodyOf(gs[k]) <= frame
    ensures EndsFrame(gs[k]) ==> Bodies(gs[..k]) + BodyOf(gs[k]) == frame
  {
    assert gs[..k + 1][..k] == gs[..k];
    BodiesPrefix(gs, k + 1);
  }

  lemma ViewSnoc(max: nat, v: View, gs: seq<Piece>, g: Piece)
    requires |v.got| <= max
    ensures ViewRun(max, v, gs + [g]) == ViewStep(max, ViewRun(max, v, gs), g)
  {
    assert (gs + [g])[..|gs|] == gs;
  }

  /** One more payload of the cut. */
  lemma CutNext(max: nat, v: View, us: seq<Piece>, gs: seq<Piece>, k: nat,
                done: seq<seq<byte>>, fid: bool, frame: seq<byte>)
    requires |v.got| <= max && 0 < |frame| <= max
    requires Cut(gs, fid, frame) && k < |gs|
    requires Within(max, ViewRun(max, v, us), done, fid, frame, Bodies(gs[..k]))
    ensures Within(max, ViewRun(max, v, us + [gs[k]]), done, fid, frame, Bodies(gs[..k + 1]))
  {
    ViewSnoc(max, v, us, gs[k]);
    CutPiece(gs, fid, frame, k);
    PieceStep(max, ViewRun(max, v, us), gs[k], done, fid, frame, Bodies(gs[..k]));
  }

  lemma {:induction false} CutRun(max: nat, v: View, us: seq<Piece>, gs: seq<Piece>, k: nat,
                                  done: seq<seq<byte>>, fid: bool, frame: seq<byte>)
    requires |v.got| <= max && 0 < |frame| <= max
    requires Cut(gs, fid, frame) && k <= |gs|
    requires Settled(ViewRun(max, v, us), done, fid)
    ensures Within(max, ViewRun(max, v, us + gs[..k]), done, fid, frame, Bodies(gs[..k]))
  {
    if k == 0 {
      assert us + gs[..0] == us;
    } else {
      var h := k - 1;
      CutRun(max, v, us, gs, h, done, fid, frame);
      CutNext(max, v, us + gs[..h], gs, h, done, fid, frame);
      TakeNext(us, gs, h);
    }
  }

  lemma CutSettles(max: nat, v: View, us: seq<Piece>, gs: seq<Piece>, done: seq<seq<byte>>, fid: bool, frame: seq<byte>)
    requires |v.got| <= max && 0 < |frame| <= max && Cut(gs, fid, frame)
    requires Settled(ViewRun(max, v, us), done, fid)
    ensures Settled(ViewRun(max, v, us + gs), done + [frame], !fid)
  {
    CutRun(max, v, us, gs, |gs|, done, fid, frame);
    assert gs[..|gs|] == gs;
  }

  /** The FID of the k-th frame of a stream whose first frame has FID `first`. */
  predicate FidOf(first: bool, k: nat) { if k == 0 then first else !FidOf(first, k - 1) }

  /** The first n cuts, one after the other. */
  function Concat(cuts: seq<seq<Piece>>, n: nat): seq<Piece>
    requires n <= |cuts|
  {
    if n == 0 then [] else Concat(cuts, n - 1) + cuts[n - 1]
  }

  predicate Cuts(cuts: seq<seq<Piece>>, first: bool, frames: seq<seq<byte>>, max: nat) {
    && |cuts| == |frames|
    && forall k :: 0 <= k < |frames| ==> 0 < |frames[k]| <= max && Cut(cuts[k], FidOf(first, k), frames[k])
  }

  lemma CutAt(cuts: seq<seq<Piece>>, first: bool, frames: seq<seq<byte>>, max: nat, k: nat)
    requires Cuts(cuts, first, frames, max) && k < |frames|
    ensures 0 < |frames[k]| <= max && Cut(cuts[k], FidOf(first, k), frames[k])
  {
  }

  lemma {:induction false} CutsSettle(max: nat, v: View, cuts: seq<seq<Piece>>, first: bool,
                                      frames: seq<seq<byte>>, n: nat)
    requires v.got == [] && v.out == [] && Cuts(cuts, first, frames, max) && n <= |frames|
    ensures Settled(ViewRun(max, v, Concat(cuts, n)), frames[..n], FidOf(first, n))
  {
    if n > 0 {
      var k := n - 1;
      CutsSettle(max, v, cuts, first, frames, k);
      CutAt(cuts, first, frames, max, k);
      CutSettles(max, v, Concat(cuts, k), cuts[k], frames[..k], FidOf(first, k), frames[k]);
      TakeNext([], frames, k);
    }
  }

  /**
   The round trip: non-empty frames of at most dwMaxVideoFrameSize bytes, cut into payloads in any way
   with alternating FID and optional EOF, come out exactly and in order, with at most the last pending.
   */
  lemma RoundTrip(c: Config, es: seq<Event>, cuts: seq<seq<Piece>>, first: bool, frames: seq<seq<byte>>)
    requires !c.isight && Cuts(cuts, first, frames, c.max) && AllCarry(es, Concat(cuts, |cuts|))
    ensures ComesOut(Run(c, Start, es), frames)
  {
    RoundTripFrom(c, Start, es, cuts, first, frames);
  }

  /** Exactly these frames were published, or all but the last, which is pending. */
  predicate ComesOut(s: State, frames: seq<seq<byte>>) {
    || (Datas(s.published) == frames && s.got == [])
    || (Datas(s.published) + [s.got] == frames && s.got != [])
  }

  /** The same from any state in which no image data is waiting. */
  lemma RoundTripFrom(c: Config, s: State, es: seq<Event>, cuts: seq<seq<Piece>>, first: bool, frames: seq<seq<byte>>)
    requires Bounded(c.max, s) && s.got == [] && s.published == []
    requires !c.isight && Cuts(cuts, first, frames, c.max) && AllCarry(es, Concat(cuts, |cuts|))
    ensures ComesOut(Run(c, s, es), frames)
  {
    RunView(c, s, es, Concat(cuts, |cuts|));
    CutsSettle(c.max, ViewOf(s), cuts, first, frames, |frames|);
    assert frames[..|frames|] == frames;
  }

  // ----- a stream started again

  /** The fields as uvc_stream_start leaves them on a handle that has run before: pending bytes stay. */
  function Restarted(s: State): State {
    s.(fid := false, pts := 0, scr := 0, sequence := 1, published := [])
  }

  predicate NumberedSoFar(s: State) {
    && s.sequence == (1 + |s.published|) % TWO32
    && forall k :: 0 <= k < |s.published| ==> s.published[k].sequence == (1 + k) % TWO32
  }

  lemma SwapNumbers(s: State, at: nat)
    requires NumberedSoFar(s)
    ensures NumberedSoFar(Swap(s, at))
  {
  }

  lemma BodyNumbers(max: nat, s: State, body: seq<byte>, eof: bool, at: nat)
    requires |s.got| <= max && NumberedSoFar(s)
    ensures NumberedSoFar(AddBody(max, s, body, eof, at))
  {
    SwapNumbers(s.(got := s.got + Clip(|s.got|, body, max)), at);
  }

  lemma StepNumbers(c: Config, s: State, e: Event, at: nat)
    requires Bounded(c.max, s) && NumberedSoFar(s)
    ensures NumberedSoFar(Step(c, s, e, at))
  {
    if e.Packet? {
      match Parse(c.isight, e.bytes)
      case Bare(body) => BodyNumbers(c.max, s, body, false, at);
      case Headed(fid, eof, _, _, _, body) =>
        SwapNumbers(s, at);
        BodyNumbers(c.max, AddHeader(Flipped(s, fid, at), Parse(c.isight, e.bytes)), body, eof, at);
      case _ => assert NumberedSoFar(Step(c, s, e, at));
    }
  }

  /** In every run of a stream the k-th published frame has sequence number 1 + k. */
  lemma {:induction false} RunNumbers(c: Config, s: State, es: seq<Event>)
    requires Bounded(c.max, s) && NumberedSoFar(s)
    ensures NumberedSoFar(Run(c, s, es))
  {
    if es != [] {
      var n := |es| - 1;
      RunNumbers(c, s, es[..n]);
      StepNumbers(c, Run(c, s, es[..n]), es[n], n);
    }
  }

  /** Bytes left over are the front of what is published, or still pending. */
  predicate InFront(left: seq<byte>, s: State) {
    if s.published == [] then left <= s.got else left <= s.published[0].data
  }

  lemma BodyKeepsFront(max: nat, left: seq<byte>, s: State, body: seq<byte>, eof: bool, at: nat)
    requires |s.got| <= max && InFront(left, s)
    ensures InFront(left, AddBody(max, s, body, eof, at))
  {
  }

  lemma StepKeepsFront(c: Config, left: seq<byte>, s: State, e: Event, at: nat)
    requires Bounded(c.max, s) && left != [] && InFront(left, s)
    ensures InFront(left, Step(c, s, e, at))
  {
    if e.Packet? {
      match Parse(c.isight, e.bytes)
      case Bare(body) => BodyKeepsFront(c.max, left, s, body, false, at);
      case Headed(fid, eof, _, _, _, body) =>
        var t := AddHeader(Flipped(s, fid, at), Parse(c.isight, e.bytes));
        assert InFront(left, t);
        BodyKeepsFront(c.max, left, t, body, eof, at);
      case _ => assert InFront(left, Step(c, s, e, at));
    }
  }

  /**
   What the previous run left pending goes in front of the next run's first frame.  So the frames of a
   run come out as sent (RoundTripFrom) if nothing is left over, and behind the left-over bytes if not.
   */
  lemma {:induction false} LeftOverGoesFirst(c: Config, s: State, es: seq<Event>)
    requires Bounded(c.max, s) && s.got != []
    ensures InFront(s.got, Run(c, Restarted(s), es))
  {
    if es != [] {
      var n := |es| - 1;
      LeftOverGoesFirst(c, s, es[..n]);
      StepKeepsFront(c, s.got, Run(c, Restarted(s), es[..n]), es[n], n);
    }
  }

  // ----- the payloads a device may build

  function Flag(b: bool, weight: byte): int { if b then weight else 0 }

  /** A payload with a header of the given contents, end-of-header bit set. */
  function Build(fid: bool, eof: bool, pts: Stamp, scr: Stamp, sof: u16, meta: seq<byte>, body: seq<byte>): seq<byte>
    requires |meta| <= 243
  {
    var p := if pts.Present? then FromInt(pts.value) else [];
    var q := if scr.Present? then FromInt(scr.value) + FromShort(sof) else [];
    var info := 128 + Flag(scr.Present?, 8) + Flag(pts.Present?, 4) + Flag(eof, 2) + Flag(fid, 1);
    [2 + |p| + |q| + |meta|, info] + p + q + meta + body
  }

  lemma IntAt(v: u32, before: seq<byte>, after: seq<byte>)
    ensures Int(before + FromInt(v) + after, |before|) == v
  {
    var b := before + FromInt(v) + after;
    assert b[|before|..|before| + 4] == FromInt(v);
    assert forall i :: 0 <= i < 4 ==> b[|before| + i] == FromInt(v)[i];
  }

  /** Every flag test sees the bit it was built with. */
  lemma FlagsRoundTrip(fid: bool, eof: bool, pts: bool, scr: bool)
    ensures var info := 128 + Flag(scr, 8) + Flag(pts, 4) + Flag(eof, 2) + Flag(fid, 1);
      && (Bit(info, 0) <==> fid) && (Bit(info, 1) <==> eof) && (Bit(info, 2) <==> pts)
      && (Bit(info, 3) <==> scr) && !Bit(info, 6)
  {
  }

  /** Where the parts of a built payload lie. */
  lemma BuildParts(fid: bool, eof: bool, pts: Stamp, scr: Stamp, sof: u16, meta: seq<byte>, body: seq<byte>)
    requires |meta| <= 243
    ensures var b := Build(fid, eof, pts, scr, sof, meta, body);
      var scrAt := if pts.Present? then 6 else 2;
      var metaAt := if scr.Present? then scrAt + 6 else scrAt;
      && b[0] == metaAt + |meta| && b[0] <= |b|
      && b[1] == 128 + Flag(scr.Present?, 8) + Flag(pts.Present?, 4) + Flag(eof, 2) + Flag(fid, 1)
      && b[metaAt..b[0]] == meta && b[b[0]..] == body
      && (pts.Present? ==> Int(b, 2) == pts.value)
      && (scr.Present? ==> Int(b, scrAt) == scr.value)
  {
    var p := if pts.Present? then FromInt(pts.value) else [];
    var q := if scr.Present? then FromInt(scr.value) + FromShort(sof) else [];
    var b := Build(fid, eof, pts, scr, sof, meta, body);
    assert b == b[..2] + p + q + meta + body;
    if pts.Present? { PtsAt(b[..2], pts.value, q, meta, body); }
    if scr.Present? { ScrAt(b[..2], p, scr.value, sof, meta, body); }
  }

  lemma PtsAt(head: seq<byte>, pts: u32, q: seq<byte>, meta: seq<byte>, body: seq<byte>)
    requires |head| == 2
    ensures Int(head + FromInt(pts) + q + meta + body, 2) == pts
  {
    IntAt(pts, head, q + meta + body);
    assert head + FromInt(pts) + q + meta + body == head + FromInt(pts) + (q + meta + body);
  }

  lemma ScrAt(head: seq<byte>, p: seq<byte>, scr: u32, sof: u16, meta: seq<byte>, body: seq<byte>)
    ensures Int(head + p + (FromInt(scr) + FromShort(sof)) + meta + body, |head| + |p|) == scr
  {
    IntAt(scr, head + p, FromShort(sof) + meta + body);
    assert head + p + (FromInt(scr) + FromShort(sof)) + meta + body ==
      head + p + FromInt(scr) + (FromShort(sof) + meta + body);
  }

  /** The header parser recovers exactly what the header was built from. */
  lemma HeaderRoundTrip(fid: bool, eof: bool, pts: Stamp, scr: Stamp, sof: u16, meta: seq<byte>, body: seq<byte>)
    requires |meta| <= 243
    ensures Parse(false, Build(fid, eof, pts, scr, sof, meta, body)) == Headed(fid, eof, pts, scr, meta, body)
  {
    FlagsRoundTrip(fid, eof, pts.Present?, scr.Present?);
    BuildParts(fid, eof, pts, scr, sof, meta, body);
  }

  // ----- payloads that are not as they should be

  /** A payload whose header says it is longer than the payload is ignored; a header of less than 2 is none. */
  lemma BadLength(p: seq<byte>)
    ensures p == [] || p[0] > |p| ==> Parse(false, p).Ignored?
    ensures p != [] && p[0] <= |p| && p[0] < 2 ==> Parse(false, p) == Bare(p[p[0]..])
    ensures Parse(false, p).Ignored? ==> p == [] || p[0] > |p|
  {
  }

  lemma ErrorFlag(info: byte)
    requires 128 <= info < 144
    ensures info + 64 < TWO8 && Bit(info + 64, 6)
  {
  }

  lemma ErroredBy(p: seq<byte>)
    requires 2 <= |p| && 2 <= p[0] <= |p| && Bit(p[1], 6)
    ensures Parse(false, p) == Errored
  {
  }

  /** A built payload with the error bit set as well says that and nothing else. */
  lemma ErrorBit(fid: bool, eof: bool, pts: Stamp, scr: Stamp, sof: u16, meta: seq<byte>, body: seq<byte>)
    requires |meta| <= 243
    ensures var b := Build(fid, eof, pts, scr, sof, meta, body);
      b[1] + 64 < TWO8 && Parse(false, b[1 := b[1] + 64]) == Errored
  {
    var b := Build(fid, eof, pts, scr, sof, meta, body);
    BuildParts(fid, eof, pts, scr, sof, meta, body);
    ErrorFlag(b[1]);
    ErroredBy(b[1 := b[1] + 64]);
  }

  /** A stamp of which not all bytes are there reads as 0. */
  function Kept(st: Stamp, whole: bool): Stamp { if st.Present? && !whole then Present(0) else st }

  /** The header of a built payload cut off after n bytes, with its length byte to match. */
  function CutHeader(fid: bool, eof: bool, pts: Stamp, scr: Stamp, sof: u16, n: nat): seq<byte>
    requires 2 <= n <= |Build(fid, eof, pts, scr, sof, [], [])| && n < TWO8
  {
    [n] + Build(fid, eof, pts, scr, sof, [], [])[1..n]
  }

  lemma IntOfCut(b: seq<byte>, c: seq<byte>, at: nat)
    requires 0 < at && at + 4 <= |c| <= |b| && forall i :: 0 < i < |c| ==> c[i] == b[i]
    ensures Int(c, at) == Int(b, at)
  {
  }

  /** Truncated headers keep their flags and the stamps that are whole. */
  lemma TruncatedHeader(fid: bool, eof: bool, pts: Stamp, scr: Stamp, sof: u16, n: nat)
    requires 2 <= n <= |Build(fid, eof, pts, scr, sof, [], [])| && n < TWO8
    ensures Parse(false, CutHeader(fid, eof, pts, scr, sof, n)) ==
      Headed(fid, eof, Kept(pts, n >= 6), Kept(scr, n >= if pts.Present? then 10 else 6), [], [])
  {
    var b, c := Build(fid, eof, pts, scr, sof, [], []), CutHeader(fid, eof, pts, scr, sof, n);
    var scrAt := if pts.Present? then 6 else 2;
    FlagsRoundTrip(fid, eof, pts.Present?, scr.Present?);
    BuildParts(fid, eof, pts, scr, sof, [], []);
    assert |c| == n && c[0] == n && forall i :: 0 < i < n ==> c[i] == b[i];
    if pts.Present? && n >= 6 { IntOfCut(b, c, 2); }
    if scr.Present? && n >= scrAt + 4 { IntOfCut(b, c, scrAt); }
    assert c[n..] == [];
  }

  /** The iSight's tag stands behind the second or the third byte. */
  predicate Tagged(p: seq<byte>) {
    (2 <= |p| && ISIGHT_TAG <= p[2..]) || (3 <= |p| && ISIGHT_TAG <= p[3..])
  }

  /** What a payload brings for the image. */
  function BodyIn(h: Parsed): seq<byte> { if h.Bare? || h.Headed? then h.body else [] }

  /** An iSight sends headers and image data apart: image data is what is not tagged. */
  lemma IsightIs(p: seq<byte>)
    ensures p != [] && !Tagged(p) ==> Parse(true, p) == Bare(p)
    ensures Tagged(p) ==> BodyIn(Parse(true, p)) == []
    ensures Tagged(p) && Parse(false, p).Headed? ==> Parse(true, p) == Parse(false, p).(body := [])
    ensures Tagged(p) && (Parse(false, p).Errored? || Parse(false, p).Ignored?) ==> Parse(true, p) == Parse(false, p)
  {
    assert 2 <= |p| && ISIGHT_TAG <= p[2..] ==> p[2..14] == p[2..][..12];
    assert 3 <= |p| && ISIGHT_TAG <= p[3..] ==> p[3..15] == p[3..][..12];
    assert TagAt(p, 2) ==> p[2..14] == p[2..][..12];
    assert TagAt(p, 3) ==> p[3..15] == p[3..][..12];
  }
}
