/**
 Who gets to see which frame: the user callback thread of _uvc_user_caller against the event thread that
 publishes the frames of `Payload`.  Each critical section of `cb_mutex` is one step; the callback thread
 either waits on `cb_cond` or is about to look at `hold_seq`.  A run is one start of the stream; the hold
 buffers may still hold a frame of an earlier start, because uvc_stream_start does not reset them.  The
 callback thread alone fills the user's frame, as `StreamBuffers` describes it.
 */
module Delivery {
  import opened ByteOrder
  import opened Runs
  import B = StreamBuffers
  import P = Payload

  /** What the callback is called with. */
  datatype Call = Call(data: seq<byte>, meta: seq<byte>, sequence: u32)

  datatype State = State(
    published: nat,             // how many frames were published since the start
    hold: P.Frame,              // the hold buffers and their fields
    waiting: bool,              // the callback thread is in pthread_cond_wait
    last: u32,                  // its last_seq
    dataBytes: nat,             // data_bytes of the user's frame
    meta: seq<byte>,            // its metadata
    delivered: seq<int>,        // which published frames the callback was called for; -1 is the one held before
    calls: seq<Call>            // and with what
  )

  /** The hold buffers of a handle that never published a frame. */
  const NoFrame := P.Frame([], [], 0, 0, 0, false, 0)

  /** What a start finds: the frame held from before, and what the user's frame was last filled with. */
  datatype Found = Found(held: P.Frame, dataBytes: nat, meta: seq<byte>)

  const Fresh := Found(NoFrame, 0, [])

  function Init(b: Found): State { State(0, b.held, false, 0, b.dataBytes, b.meta, [], []) }

  datatype Action =
    | Publish                   // event thread: _uvc_swap_buffers
    | OtherBroadcast            // event thread: a transfer was retired
    | Look                      // callback thread: test hold_seq, then deliver or wait

  predicate Legal(frames: seq<P.Frame>, s: State, a: Action) {
    (a.Look? ==> !s.waiting) && (a.Publish? ==> s.published < |frames|)
  }

  /** The user's frame after _uvc_populate_frame; full is the height * step of the format. */
  function Populated(full: nat, s: State): Call {
    var n := B.DataBytes(s.dataBytes, |s.hold.data|, full);
    Call(s.hold.data + B.Zeros(n - |s.hold.data|), if s.hold.meta != [] then s.hold.meta else s.meta, s.hold.sequence)
  }

  function Exec(frames: seq<P.Frame>, full: nat, s: State, a: Action): State {
    if !Legal(frames, s, a) then s else
    match a
    case Publish =>
      var f := frames[s.published];
      s.(published := s.published + 1, hold := f, waiting := s.waiting && !f.broadcast)
    case OtherBroadcast => s.(waiting := false)
    case Look =>
      if s.last == s.hold.sequence then s.(waiting := true)
      else
        var c := Populated(full, s);
        s.(last := s.hold.sequence, dataBytes := |c.data|, meta := c.meta,
           delivered := s.delivered + [s.published - 1], calls := s.calls + [c])
  }

  /** One start of the stream that finds b, whose event thread will publish the given frames. */
  function Sys(b: Found, frames: seq<P.Frame>, full: nat): System<State, Action> {
    System(Init(b), (s, a) => Legal(frames, s, a), (s, a) => Exec(frames, full, s, a))
  }

  // ----- the invariant

  /** No more frames than it takes for the 32-bit sequence number to come round. */
  predicate Unwrapped(s: State) { s.published < TWO32 }

  predicate Ascending(xs: seq<int>) { forall i, j :: 0 <= i < j < |xs| ==> xs[i] < xs[j] }

  /** The sequence number of the k-th published frame. */
  function SequenceOf(k: nat): u32 { (1 + k) % TWO32 }

  predicate Numbered(frames: seq<P.Frame>) { forall k :: 0 <= k < |frames| ==> frames[k].sequence == SequenceOf(k) }

  /** The k-th published frame, or the one held before. */
  function FrameAt(b: Found, frames: seq<P.Frame>, k: int): P.Frame
    requires -1 <= k < |frames|
  {
    if k == -1 then b.held else frames[k]
  }

  /** The call shows one whole frame, followed by nothing but zero bytes. */
  predicate Shows(c: Call, f: P.Frame) {
    && |f.data| <= |c.data| && c.data == f.data + B.Zeros(|c.data| - |f.data|)
    && c.sequence == f.sequence && (f.meta != [] ==> c.meta == f.meta)
  }

  predicate CallsShow(b: Found, frames: seq<P.Frame>, s: State) {
    && |s.calls| == |s.delivered|
    && forall i :: 0 <= i < |s.calls| ==>
         -1 <= s.delivered[i] < |frames| && Shows(s.calls[i], FrameAt(b, frames, s.delivered[i]))
  }

  /** The number the callback thread remembers after the given deliveries. */
  function Remembered(heldSeq: u32, delivered: seq<int>): int {
    if delivered == [] then 0
    else if delivered[|delivered| - 1] == -1 then heldSeq
    else 1 + delivered[|delivered| - 1]
  }

  /** What relates the numbers to the frames, while none has come round. */
  predicate Order(heldSeq: u32, published: nat, holdSeq: u32, last: u32, delivered: seq<int>) {
    && holdSeq == (if published == 0 then heldSeq else published)
    && Ascending(delivered)
    && (forall i :: 0 <= i < |delivered| ==> -1 <= delivered[i] < published)
    && (-1 in delivered ==> heldSeq != 0)
    && last == Remembered(heldSeq, delivered)
  }

  predicate OrderInv(b: Found, s: State) {
    Unwrapped(s) ==> Order(b.held.sequence, s.published, s.hold.sequence, s.last, s.delivered)
  }

  predicate Inv(b: Found, frames: seq<P.Frame>, s: State) {
    && s.published <= |frames| && s.hold == FrameAt(b, frames, s.published - 1)
    && CallsShow(b, frames, s) && OrderInv(b, s)
  }

  /** A list of positions from -1 that ends with -1 is [-1]. */
  lemma LastIsEarlier(xs: seq<int>, n: nat)
    requires Ascending(xs) && forall i :: 0 <= i < |xs| ==> -1 <= xs[i] < n
    ensures xs != [] && xs[|xs| - 1] == -1 ==> xs == [-1]
  {
    if |xs| > 1 { assert xs[0] < xs[|xs| - 1]; }
  }

  lemma AppendAscending(xs: seq<int>, x: int)
    requires Ascending(xs) && (xs != [] ==> xs[|xs| - 1] < x)
    ensures Ascending(xs + [x])
  {
    forall i | 0 <= i < |xs| ensures xs[i] < x { assert i < |xs| - 1 ==> xs[i] < xs[|xs| - 1]; }
  }

  lemma LookOrder(heldSeq: u32, published: nat, holdSeq: u32, last: u32, delivered: seq<int>)
    requires Order(heldSeq, published, holdSeq, last, delivered) && last != holdSeq
    ensures Order(heldSeq, published, holdSeq, holdSeq, delivered + [published - 1])
  {
    AppendAscending(delivered, published - 1);
  }

  lemma PublishOrder(heldSeq: u32, published: nat, holdSeq: u32, last: u32, delivered: seq<int>)
    requires Order(heldSeq, published, holdSeq, last, delivered) && published + 1 < TWO32
    ensures Order(heldSeq, published + 1, published + 1, last, delivered)
  {
  }

  lemma OrderKept(b: Found, frames: seq<P.Frame>, full: nat, s: State, a: Action)
    requires Numbered(frames) && Inv(b, frames, s) && Legal(frames, s, a)
    ensures OrderInv(b, Exec(frames, full, s, a))
  {
    if Unwrapped(Exec(frames, full, s, a)) {
      if a.Publish? {
        PublishOrder(b.held.sequence, s.published, s.hold.sequence, s.last, s.delivered);
      } else if a.Look? && s.last != s.hold.sequence {
        LookOrder(b.held.sequence, s.published, s.hold.sequence, s.last, s.delivered);
      }
    }
  }

  lemma ShowsKept(b: Found, frames: seq<P.Frame>, full: nat, s: State, a: Action)
    requires Inv(b, frames, s) && Legal(frames, s, a)
    ensures CallsShow(b, frames, Exec(frames, full, s, a))
  {
  }

  lemma InvKept(b: Found, frames: seq<P.Frame>, full: nat, s: State, a: Action)
    requires Numbered(frames) && Inv(b, frames, s) && Legal(frames, s, a)
    ensures Inv(b, frames, Exec(frames, full, s, a))
  {
    OrderKept(b, frames, full, s, a);
    ShowsKept(b, frames, full, s, a);
  }

  lemma InvAt(b: Found, frames: seq<P.Frame>, full: nat, acts: seq<Action>, k: nat)
    requires Numbered(frames) && IsRun(Sys(b, frames, full), acts) && k <= |acts|
    ensures Inv(b, frames, At(Sys(b, frames, full), acts, k))
  {
    forall s, a | Inv(b, frames, s) && Legal(frames, s, a) ensures Inv(b, frames, Exec(frames, full, s, a)) {
      InvKept(b, frames, full, s, a);
    }
    InvariantHolds(Sys(b, frames, full), s => Inv(b, frames, s), acts, k);
  }

  // ----- theorems over every run

  /** What the event thread publishes in a run that starts from p. */
  function Frames(c: P.Config, p: P.State, es: seq<P.Event>): (fs: seq<P.Frame>)
    requires P.Bounded(c.max, p) && p.published == [] && p.sequence == 1
    ensures Numbered(fs)
  {
    P.RunNumbers(c, p, es);
    P.Run(c, p, es).published
  }

  /**
   In every interleaving the callback is called for frames in the order they were published, none twice,
   the one held before at most as the first, and with sequence numbers that strictly increase from the
   first frame of this run on, as long as fewer than 2^32 frames have been published.
   */
  lemma DeliveredInOrder(b: Found, frames: seq<P.Frame>, full: nat, acts: seq<Action>, k: nat, i: nat, j: nat)
    requires Numbered(frames) && IsRun(Sys(b, frames, full), acts) && k <= |acts|
    requires Unwrapped(At(Sys(b, frames, full), acts, k)) && i < j < |At(Sys(b, frames, full), acts, k).delivered|
    ensures var s := At(Sys(b, frames, full), acts, k);
      && -1 <= s.delivered[i] < s.delivered[j] < s.published && |s.calls| == |s.delivered|
      && (s.delivered[i] >= 0 ==> s.calls[i].sequence < s.calls[j].sequence)
  {
    InvAt(b, frames, full, acts, k);
    var s := At(Sys(b, frames, full), acts, k);
    assert Shows(s.calls[i], FrameAt(b, frames, s.delivered[i]));
    assert Shows(s.calls[j], FrameAt(b, frames, s.delivered[j]));
    assert s.delivered[i] < s.delivered[j] < s.published;
  }

  /** Each call shows one whole frame followed only by zero bytes, with its own sequence number. */
  lemma DeliveredWhole(b: Found, frames: seq<P.Frame>, full: nat, acts: seq<Action>, k: nat, i: nat)
    requires Numbered(frames) && IsRun(Sys(b, frames, full), acts) && k <= |acts|
    requires i < |At(Sys(b, frames, full), acts, k).calls|
    ensures var s := At(Sys(b, frames, full), acts, k);
      && |s.delivered| == |s.calls| && -1 <= s.delivered[i] < |frames|
      && Shows(s.calls[i], FrameAt(b, frames, s.delivered[i]))
  {
    InvAt(b, frames, full, acts, k);
  }

  // ----- what a call shows besides the frame it is for

  predicate Positions(frames: seq<P.Frame>, ds: seq<int>) {
    forall i :: 0 <= i < |ds| ==> -1 <= ds[i] < |frames|
  }

  /** The metadata of the latest of these frames that had any, or what the start found. */
  function LatestMeta(b: Found, frames: seq<P.Frame>, ds: seq<int>): seq<byte>
    requires Positions(frames, ds)
  {
    if ds == [] then b.meta
    else
      var n := |ds| - 1;
      if FrameAt(b, frames, ds[n]).meta != [] then FrameAt(b, frames, ds[n]).meta
      else LatestMeta(b, frames, ds[..n])
  }

  /** The size of the user's frame after it showed these, each padded by the size before it. */
  function SizeAfter(b: Found, frames: seq<P.Frame>, full: nat, ds: seq<int>): nat
    requires Positions(frames, ds)
  {
    if ds == [] then b.dataBytes
    else
      var n := |ds| - 1;
      B.DataBytes(SizeAfter(b, frames, full, ds[..n]), |FrameAt(b, frames, ds[n]).data|, full)
  }

  predicate CallIs(b: Found, frames: seq<P.Frame>, full: nat, c: Call, ds: seq<int>)
    requires Positions(frames, ds)
  {
    |c.data| == SizeAfter(b, frames, full, ds) && c.meta == LatestMeta(b, frames, ds)
  }

  predicate History(b: Found, frames: seq<P.Frame>, full: nat, s: State) {
    && s.published <= |frames| && s.hold == FrameAt(b, frames, s.published - 1)
    && Positions(frames, s.delivered) && |s.calls| == |s.delivered|
    && s.dataBytes == SizeAfter(b, frames, full, s.delivered) && s.meta == LatestMeta(b, frames, s.delivered)
    && forall i :: 0 <= i < |s.calls| ==> CallIs(b, frames, full, s.calls[i], s.delivered[..i + 1])
  }

  lemma LookHistory(b: Found, frames: seq<P.Frame>, full: nat, s: State)
    requires History(b, frames, full, s) && !s.waiting && s.last != s.hold.sequence
    ensures History(b, frames, full, Exec(frames, full, s, Look))
  {
    var ds := s.delivered + [s.published - 1];
    assert ds[..|s.delivered|] == s.delivered;
    var t := Exec(frames, full, s, Look);
    forall i | 0 <= i < |t.calls| ensures CallIs(b, frames, full, t.calls[i], t.delivered[..i + 1]) {
      if i < |s.calls| {
        assert ds[..i + 1] == s.delivered[..i + 1];
        assert CallIs(b, frames, full, s.calls[i], s.delivered[..i + 1]);
      } else {
        assert ds[..i + 1] == ds;
      }
    }
  }

  lemma HistoryKept(b: Found, frames: seq<P.Frame>, full: nat, s: State, a: Action)
    requires History(b, frames, full, s) && Legal(frames, s, a)
    ensures History(b, frames, full, Exec(frames, full, s, a))
  {
    if a.Look? && s.last != s.hold.sequence { LookHistory(b, frames, full, s); }
  }

  lemma HistoryAt(b: Found, frames: seq<P.Frame>, full: nat, acts: seq<Action>, k: nat)
    requires IsRun(Sys(b, frames, full), acts) && k <= |acts|
    ensures History(b, frames, full, At(Sys(b, frames, full), acts, k))
  {
    forall s, a | History(b, frames, full, s) && Legal(frames, s, a)
      ensures History(b, frames, full, Exec(frames, full, s, a))
    {
      HistoryKept(b, frames, full, s, a);
    }
    InvariantHolds(Sys(b, frames, full), s => History(b, frames, full, s), acts, k);
  }

  /**
   In every interleaving a call shows the metadata of the latest frame delivered so far that had any, which
   need not be its own, and the size that follows from the frames delivered before it.
   */
  lemma DeliveredExactly(b: Found, frames: seq<P.Frame>, full: nat, acts: seq<Action>, k: nat, i: nat)
    requires IsRun(Sys(b, frames, full), acts) && k <= |acts|
    requires i < |At(Sys(b, frames, full), acts, k).calls|
    ensures var s := At(Sys(b, frames, full), acts, k);
      && i < |s.delivered| && Positions(frames, s.delivered[..i + 1])
      && s.calls[i].meta == LatestMeta(b, frames, s.delivered[..i + 1])
      && |s.calls[i].data| == SizeAfter(b, frames, full, s.delivered[..i + 1])
  {
    HistoryAt(b, frames, full, acts, k);
    var s := At(Sys(b, frames, full), acts, k);
    assert CallIs(b, frames, full, s.calls[i], s.delivered[..i + 1]);
  }

  // ----- no lost wake-up

  /** A waiting thread has seen the number held, or what is held has errors. */
  predicate WaitsForNews(s: State) { s.waiting ==> s.last == s.hold.sequence || !s.hold.broadcast }

  /**
   No wake-up is lost: in every interleaving, a thread that waits while a frame without errors is held has
   delivered that frame, or mistaken it for the one held before.  Otherwise it is free to look.
   */
  lemma NoLostWakeup(b: Found, frames: seq<P.Frame>, full: nat, acts: seq<Action>, k: nat)
    requires Numbered(frames) && IsRun(Sys(b, frames, full), acts) && k <= |acts|
    requires Unwrapped(At(Sys(b, frames, full), acts, k))
    ensures var s := At(Sys(b, frames, full), acts, k);
      s.published > 0 && s.hold.broadcast ==>
        || s.published - 1 in s.delivered
        || Mistaken(b, s, s.published - 1)
        || Legal(frames, s, Look)
  {
    InvariantHolds(Sys(b, frames, full), WaitsForNews, acts, k);
    InvAt(b, frames, full, acts, k);
    var s := At(Sys(b, frames, full), acts, k);
    LastIsEarlier(s.delivered, s.published);
  }

  // ----- frames of an earlier start

  predicate OfThisRun(s: State) { -1 !in s.delivered }

  /** In a run that finds no frame from before, every call is for a frame of the run. */
  lemma FreshIsOfThisRun(b: Found, frames: seq<P.Frame>, full: nat, acts: seq<Action>, k: nat)
    requires Numbered(frames) && IsRun(Sys(b, frames, full), acts) && k <= |acts|
    requires b.held.sequence == 0 && Unwrapped(At(Sys(b, frames, full), acts, k))
    ensures OfThisRun(At(Sys(b, frames, full), acts, k))
  {
    InvAt(b, frames, full, acts, k);
  }

  /** In any other run the first look, if it comes before the first frame, delivers the frame held before. */
  lemma StaleFrameDelivered(b: Found, frames: seq<P.Frame>, full: nat) returns (acts: seq<Action>)
    requires b.held.sequence != 0
    ensures IsRun(Sys(b, frames, full), acts)
    ensures At(Sys(b, frames, full), acts, |acts|).delivered == [-1]
    ensures var s := At(Sys(b, frames, full), acts, |acts|); |s.calls| == 1 && Shows(s.calls[0], b.held)
  {
    var s: State;
    s, acts := Extend(Sys(b, frames, full), Init(b), [], Look);
    assert acts[..|acts|] == acts;
  }

  ghost predicate AlwaysOfThisRun(b: Found, frames: seq<P.Frame>, full: nat) {
    forall acts :: IsRun(Sys(b, frames, full), acts) ==> OfThisRun(At(Sys(b, frames, full), acts, |acts|))
  }

  /** The calls of a run are for frames of that run, whatever the threads do, iff it finds no frame from before. */
  lemma OfThisRunIff(b: Found, frames: seq<P.Frame>, full: nat)
    requires Numbered(frames) && |frames| < TWO32
    ensures AlwaysOfThisRun(b, frames, full) <==> b.held.sequence == 0
  {
    if b.held.sequence == 0 {
      forall acts | IsRun(Sys(b, frames, full), acts)
        ensures OfThisRun(At(Sys(b, frames, full), acts, |acts|))
      {
        InvAt(b, frames, full, acts, |acts|);
        FreshIsOfThisRun(b, frames, full, acts, |acts|);
      }
    } else {
      var acts := StaleFrameDelivered(b, frames, full);
      assert !OfThisRun(At(Sys(b, frames, full), acts, |acts|));
    }
  }

  /** Frame k is mistaken for the one held before, which was just delivered under the same number. */
  predicate Mistaken(b: Found, s: State, k: nat) { s.delivered == [-1] && b.held.sequence == SequenceOf(k) }

  predicate Looked(acts: seq<Action>, i: nat, j: nat)
    requires j <= |acts|
  {
    exists n :: i < n < j && acts[n].Look?
  }

  lemma LookedStep(acts: seq<Action>, i: nat, j: nat)
    requires i + 1 < j <= |acts|
    ensures Looked(acts, i, j) <==> Looked(acts, i, j - 1) || acts[j - 1].Look?
  {
  }

  /** From s to t one frame was published; it was delivered iff it was looked at and not mistaken. */
  predicate DeliveredIf(b: Found, s: State, t: State, looked: bool) {
    && t.published == s.published + 1
    && (s.published in t.delivered <==> looked && !Mistaken(b, s, s.published))
    && (s.published !in t.delivered ==> t.delivered == s.delivered)
  }

  /**
   Whether a frame is delivered does not depend on errors: it is delivered iff the callback thread looks
   before the next frame is published and does not mistake it for the one held before.
   */
  lemma {:induction false} DeliveredIffLooked(b: Found, frames: seq<P.Frame>, full: nat, acts: seq<Action>,
                                              i: nat, j: nat)
    requires Numbered(frames) && IsRun(Sys(b, frames, full), acts) && i < j <= |acts| && acts[i].Publish?
    requires forall n :: i < n < j ==> !acts[n].Publish?
    requires Unwrapped(At(Sys(b, frames, full), acts, i + 1))
    ensures DeliveredIf(b, At(Sys(b, frames, full), acts, i), At(Sys(b, frames, full), acts, j), Looked(acts, i, j))
    decreases j
  {
    var s := At(Sys(b, frames, full), acts, i);
    InvAt(b, frames, full, acts, i);
    AtStep(Sys(b, frames, full), acts, j - 1);
    if j == i + 1 {
      PublishStep(b, frames, full, s);
    } else {
      DeliveredIffLooked(b, frames, full, acts, i, j - 1);
      InvAt(b, frames, full, acts, j - 1);
      AtStep(Sys(b, frames, full), acts, i);
      LooksStep(b, frames, full, s, At(Sys(b, frames, full), acts, j - 1), acts[j - 1], Looked(acts, i, j - 1));
      LookedStep(acts, i, j);
    }
  }

  lemma PublishStep(b: Found, frames: seq<P.Frame>, full: nat, s: State)
    requires Inv(b, frames, s) && Legal(frames, s, Publish) && Unwrapped(s)
    ensures DeliveredIf(b, s, Exec(frames, full, s, Publish), false)
  {
  }

  /** One step of the stretch after a publication. */
  lemma LooksStep(b: Found, frames: seq<P.Frame>, full: nat, s: State, t: State, a: Action, looked: bool)
    requires Inv(b, frames, t) && Legal(frames, t, a) && !a.Publish? && Unwrapped(t)
    requires DeliveredIf(b, s, t, looked)
    ensures DeliveredIf(b, s, Exec(frames, full, t, a), looked || a.Look?)
  {
    LastIsEarlier(t.delivered, t.published);
  }

  /** A frame that is looked at and not delivered: the stream was started again with frame 1 still held. */
  lemma RestartSkipsFrame(b: Found, frames: seq<P.Frame>, full: nat) returns (acts: seq<Action>)
    requires b.held.sequence == 1 && Numbered(frames) && frames != []
    ensures IsRun(Sys(b, frames, full), acts) && acts == [Look, Publish, Look]
    ensures At(Sys(b, frames, full), acts, |acts|).delivered == [-1]
    ensures At(Sys(b, frames, full), acts, |acts|).published == 1
  {
    var s: State;
    s, acts := Extend(Sys(b, frames, full), Init(b), [], Look);
    s, acts := Extend(Sys(b, frames, full), s, acts, Publish);
    s, acts := Extend(Sys(b, frames, full), s, acts, Look);
    assert acts[..|acts|] == acts;
  }

  // ----- from the camera to the callback

  lemma {:induction false} DatasAt(fs: seq<P.Frame>, k: nat)
    requires k < |fs|
    ensures |P.Datas(fs)| == |fs| && P.Datas(fs)[k] == fs[k].data
  {
    var n := |fs| - 1;
    if k < n {
      DatasAt(fs[..n], k);
    } else if n > 0 {
      DatasAt(fs[..n], 0);
    }
  }

  /** The call shows these bytes, whole, and then only zero bytes. */
  predicate ShowsBytes(c: Call, bytes: seq<byte>) {
    |bytes| <= |c.data| && c.data == bytes + B.Zeros(|c.data| - |bytes|)
  }

  /**
   Whatever frames were sent, however they were cut into payloads and whatever the threads do, each call is
   for the frame held before or shows the sent frame it is for, whole, and then only zero bytes.  The run
   may be any start of the stream that finds no image data pending.
   */
  lemma DeliveredAsSent(c: P.Config, p: P.State, es: seq<P.Event>, cuts: seq<seq<P.Piece>>, first: bool,
                        sent: seq<seq<byte>>, b: Found, full: nat, acts: seq<Action>, k: nat, i: nat)
    requires P.Bounded(c.max, p) && p.published == [] && p.sequence == 1 && p.got == []
    requires !c.isight && P.Cuts(cuts, first, sent, c.max) && P.AllCarry(es, P.Concat(cuts, |cuts|))
    requires IsRun(Sys(b, Frames(c, p, es), full), acts) && k <= |acts|
    requires i < |At(Sys(b, Frames(c, p, es), full), acts, k).calls|
    ensures var s := At(Sys(b, Frames(c, p, es), full), acts, k);
      && |s.delivered| == |s.calls| && -1 <= s.delivered[i] < |sent|
      && ShowsBytes(s.calls[i], if s.delivered[i] == -1 then b.held.data else sent[s.delivered[i]])
  {
    var fs := Frames(c, p, es);
    DeliveredWhole(b, fs, full, acts, k, i);
    P.RoundTripFrom(c, p, es, cuts, first, sent);
    var d := At(Sys(b, fs, full), acts, k).delivered[i];
    if fs != [] { DatasAt(fs, if d == -1 then 0 else d); }
  }

  // ----- errored frames

  /** Frame k is out, unseen, and either already replaced or held while the callback thread waits. */
  predicate Suppressed(s: State, k: nat) {
    && k < s.published && k !in s.delivered
    && (k < s.published - 1 || s.waiting)
  }

  lemma SuppressedKept(frames: seq<P.Frame>, full: nat, s: State, a: Action, k: nat)
    requires Suppressed(s, k) && Legal(frames, s, a) && !a.OtherBroadcast?
    ensures Suppressed(Exec(frames, full, s, a), k)
  {
  }

  /**
   What libuvc_internal.h promises of a frame with errors, that it is never delivered, holds of a frame
   that finds the callback thread waiting, as long as no transfer is retired.
   */
  lemma {:induction false} ErroredNotDelivered(b: Found, frames: seq<P.Frame>, full: nat, acts: seq<Action>,
                                               i: nat, j: nat)
    requires Numbered(frames) && IsRun(Sys(b, frames, full), acts) && i < j <= |acts| && acts[i].Publish?
    requires At(Sys(b, frames, full), acts, i).waiting && Unwrapped(At(Sys(b, frames, full), acts, i))
    requires At(Sys(b, frames, full), acts, i).published < |frames|
             && !frames[At(Sys(b, frames, full), acts, i).published].broadcast
    requires forall n :: i < n < j ==> !acts[n].OtherBroadcast?
    ensures Suppressed(At(Sys(b, frames, full), acts, j), At(Sys(b, frames, full), acts, i).published)
    decreases j
  {
    var s := At(Sys(b, frames, full), acts, i);
    if j == i + 1 {
      InvAt(b, frames, full, acts, i);
      AtStep(Sys(b, frames, full), acts, i);
    } else {
      ErroredNotDelivered(b, frames, full, acts, i, j - 1);
      AtStep(Sys(b, frames, full), acts, j - 1);
      SuppressedKept(frames, full, At(Sys(b, frames, full), acts, j - 1), acts[j - 1], s.published);
    }
  }

  const Small := P.Config(10, false)

  /** A bad packet, then a payload of one byte that ends the frame. */
  const BadInput: seq<P.Event> := [P.BadPacket, P.Packet([2, 2, 7])]

  /** What it publishes on a fresh handle. */
  const BadFrames: seq<P.Frame> := [P.Frame([7], [], 1, 0, 0, false, 1)]

  lemma BadFramesArePublished()
    ensures Frames(Small, P.Start, BadInput) == BadFrames
  {
    assert BadInput[..1] == [P.BadPacket] && [P.BadPacket][..0] == [];
    assert P.Run(Small, P.Start, [P.BadPacket]) == P.Start.(errors := true);
    var h := P.Headed(false, true, P.Absent, P.Absent, [], [7]);
    assert P.Parse(false, [2, 2, 7]) == h;
    var s := P.Start.(errors := true);
    assert P.Flipped(s, false, 1) == s && P.AddHeader(s, h) == s;
    var body: seq<byte> := [7];
    assert P.Clip(0, body, 10) == body && s.got + body == body;
    assert P.AddBody(10, s, body, true, 1) == P.Swap(s.(got := body), 1);
    assert P.Run(Small, P.Start, BadInput) == P.Step(Small, s, BadInput[1], 1);
  }

  /** It fails of a thread that was not waiting: it looks after the swap and takes the errored frame. */
  lemma ErroredDelivered() returns (acts: seq<Action>)
    ensures IsRun(Sys(Fresh, BadFrames, 0), acts)
    ensures At(Sys(Fresh, BadFrames, 0), acts, |acts|).delivered == [0]
    ensures Frames(Small, P.Start, BadInput) == BadFrames && !BadFrames[0].broadcast
  {
    BadFramesArePublished();
    var s: State;
    s, acts := Extend(Sys(Fresh, BadFrames, 0), Init(Fresh), [], Publish);
    s, acts := Extend(Sys(Fresh, BadFrames, 0), s, acts, Look);
    assert acts[..|acts|] == acts;
  }

  /** And of a thread that was waiting, when a retired transfer wakes it before the next frame. */
  lemma ErroredDeliveredAfterRetire() returns (acts: seq<Action>)
    ensures IsRun(Sys(Fresh, BadFrames, 0), acts)
    ensures |acts| > 1 && acts[1].Publish? && At(Sys(Fresh, BadFrames, 0), acts, 1).waiting
    ensures At(Sys(Fresh, BadFrames, 0), acts, |acts|).delivered == [0]
    ensures Frames(Small, P.Start, BadInput) == BadFrames && !BadFrames[0].broadcast
  {
    BadFramesArePublished();
    var s: State;
    s, acts := Extend(Sys(Fresh, BadFrames, 0), Init(Fresh), [], Look);
    assert acts == [Look] && s.waiting;
    s, acts := Extend(Sys(Fresh, BadFrames, 0), s, acts, Publish);
    s, acts := Extend(Sys(Fresh, BadFrames, 0), s, acts, OtherBroadcast);
    s, acts := Extend(Sys(Fresh, BadFrames, 0), s, acts, Look);
    assert acts[..|acts|] == acts && acts[..1] == [Look];
  }
}
