/**
 The lifetimes of a context, its device handles and their stream handles, over every interleaving
 of uvc_open, stream open/start/stop/close, uvc_close and uvc_exit with the event threads and the
 kernel.  The two transfer protocols are embedded: a device carries a `StatusTransfer.State`, a
 stream a `StreamTransfers.State`, and each of their steps is a step here.  API calls are
 serialised, so one program counter stands for the calling thread and its call stack.
 */
module Lifetime {
  import opened Runs
  import opened SeqFacts
  import St = StatusTransfer
  import Tr = StreamTransfers

  datatype Device = Device(
    status: St.State,
    streams: seq<nat>,          // devh->streams
    qStream: bool,              // has_quarantined_stream
    qStatus: bool               // has_quarantined_status_xfer
  )

  /** iface is the number of the VideoStreaming interface. */
  datatype Stream = Stream(dev: nat, iface: nat, x: Tr.State)

  datatype Thread = Running | Exited | Joined

  datatype Context = Context(
    own: bool,                  // own_usb_ctx
    open: seq<nat>,             // open_devices
    quarantined: bool,          // has_quarantined_device
    kill: bool,                 // kill_handler_thread
    threads: seq<Thread>,       // every handler thread created; the last one is handler_thread
    freed: bool
  )

  /** Where uvc_close returns to: its caller, or the loop of uvc_exit over the remaining devices. */
  datatype Return = ToUser | ToExit(rest: seq<nat>)

  /** Where uvc_stream_close returns to: its caller, or the loop of uvc_stop_streaming. */
  datatype StreamReturn = ToCaller | ToClose(dev: nat, rest: seq<nat>, ret: Return)

  datatype Api =
    | Idle
    | Opening(dev: nat)
    | StreamCall(strm: nat)
    | CloseStream(strm: nat, sret: StreamReturn)
    | CloseStreams(dev: nat, rest: seq<nat>, ret: Return)
    | CloseStatus(dev: nat, ret: Return)
    | CloseRelease(dev: nat, ret: Return)
    | CloseJoin(dev: nat, ret: Return)
    | CloseUnlink(dev: nat, joined: bool, ret: Return)
    | CloseFree(dev: nat, ret: Return)
    | Exiting(rest: seq<nat>)
    | Gone

  datatype State = State(ctx: Context, devs: seq<Device>, strms: seq<Stream>, api: Api)

  function InitWith(own: bool): State {
    State(Context(own, [], false, false, [], false), [], [], Idle)
  }

  datatype Action =
    | OpenBegin | OpenFinish | OpenAbandon
    | StreamOpen(dev: nat, iface: nat, slots: nat)
    | CallStream(strm: nat) | EndStreamCall
    | CloseStreamBegin(strm: nat) | UnlinkStream | CloseStreamEnd
    | CloseBegin(dev: nat) | CloseNext | CloseDecide | CloseKill | JoinHandler | Unlink | CloseEnd
    | ExitBegin | ExitNext | ExitFinish
    | HandlerExit(t: nat)
    | StatusAct(dev: nat, sa: St.Action)
    | StreamAct(strm: nat, ta: Tr.Action)

  function StreamApi(s: State, m: nat): Tr.ApiPc
    requires m < |s.strms|
  {
    s.strms[m].x.api
  }

  function StatusApi(s: State, d: nat): St.ApiPc
    requires d < |s.devs|
  {
    s.devs[d].status.api
  }

  /** Which of a status transfer's API steps the calling thread is at. */
  predicate StatusTurn(api: Api, d: nat, a: St.Action) {
    match api
    case Opening(e) => d == e && (St.IsOpen(a) || a.ReleaseControl? || a.Free?)
    case CloseStatus(e, _) => d == e && !St.IsOpen(a) && !a.ReleaseControl? && !a.Free?
    case CloseRelease(e, _) => d == e && a.ReleaseControl?
    case CloseFree(e, _) => d == e && a.Free?
    case _ => false
  }

  predicate Linked(s: State, m: nat) {
    m < |s.strms| && s.strms[m].dev < |s.devs| && m in s.devs[s.strms[m].dev].streams
  }

  /** _uvc_get_stream_by_interface finds a stream: the open would fail with UVC_ERROR_BUSY. */
  predicate Opened(s: State, d: nat, iface: nat) {
    exists m :: 0 <= m < |s.strms| && Linked(s, m) && s.strms[m].dev == d && s.strms[m].iface == iface
  }

  /** Which of a stream's API steps the calling thread is at. */
  predicate StreamTurn(s: State, m: nat, a: Tr.Action) {
    match s.api
    case StreamCall(n) => m == n && !a.CloseBegin? && !a.CloseScan? && !a.ReleaseIf? && !a.FreeHandle?
    case CloseStream(n, _) => m == n && (a.ReleaseIf? || a.FreeHandle? ==> !Linked(s, m))
                              && (a.StartBegin? || a.StopBegin? ==> false)
    case _ => false
  }

  predicate LastDevice(s: State, d: nat) { s.ctx.own && s.ctx.open == [d] && !s.ctx.quarantined }

  predicate Legal(s: State, a: Action) {
    match a
    case OpenBegin => s.api.Idle?
    case OpenFinish => s.api.Opening? && s.api.dev < |s.devs| && StatusApi(s, s.api.dev).Running?
    case OpenAbandon => s.api.Opening? && s.api.dev < |s.devs| && StatusApi(s, s.api.dev).Freed?
    case StreamOpen(d, iface, _) => s.api.Idle? && d in s.ctx.open && d < |s.devs| && !Opened(s, d, iface)
    case CallStream(m) => s.api.Idle? && Linked(s, m)
    case EndStreamCall => s.api.StreamCall? && s.api.strm < |s.strms| && StreamApi(s, s.api.strm).Idle?
    case CloseStreamBegin(m) => s.api.Idle? && Linked(s, m)
    case UnlinkStream =>
      s.api.CloseStream? && Linked(s, s.api.strm)
      && (StreamApi(s, s.api.strm).Quarantined? || StreamApi(s, s.api.strm).Releasing?)
    case CloseStreamEnd =>
      s.api.CloseStream? && s.api.strm < |s.strms| && !Linked(s, s.api.strm)
      && (StreamApi(s, s.api.strm).Quarantined? || StreamApi(s, s.api.strm).HandleFreed?)
    case CloseBegin(d) => s.api.Idle? && d in s.ctx.open && d < |s.devs|
    case CloseNext => s.api.CloseStreams?
    case CloseDecide => s.api.CloseStatus? && s.api.dev < |s.devs| && StatusApi(s, s.api.dev).Returned?
    case CloseKill => s.api.CloseRelease? && s.api.dev < |s.devs| && StatusApi(s, s.api.dev).ControlReleased?
    case JoinHandler =>
      s.api.CloseJoin? && s.ctx.threads != [] && s.ctx.threads[|s.ctx.threads| - 1].Exited?
    case Unlink => s.api.CloseUnlink?
    case CloseEnd => s.api.CloseFree? && s.api.dev < |s.devs| && StatusApi(s, s.api.dev).Freed?
    case ExitBegin => s.api.Idle?
    case ExitNext => s.api.Exiting? && s.api.rest != [] && s.api.rest[0] < |s.devs|
    case ExitFinish => s.api.Exiting? && s.api.rest == []
    case HandlerExit(t) => t < |s.ctx.threads| && s.ctx.threads[t].Running? && s.ctx.kill
    case StatusAct(d, sa) =>
      d < |s.devs| && St.Legal(s.devs[d].status, sa) && (St.IsApi(sa) ==> StatusTurn(s.api, d, sa))
    case StreamAct(m, ta) =>
      m < |s.strms| && Tr.LegalDisciplined(s.strms[m].x, ta) && (Tr.IsApi(ta) ==> StreamTurn(s, m, ta))
  }

  function Without(xs: seq<nat>, x: nat): seq<nat> {
    if xs == [] then [] else if xs[0] == x then xs[1..] else [xs[0]] + Without(xs[1..], x)
  }

  function Back(ret: Return): Api { if ret.ToUser? then Idle else Exiting(ret.rest) }

  function Exec(s: State, a: Action): State {
    if !Legal(s, a) then s else
    match a
    case OpenBegin => s.(devs := s.devs + [Device(St.Init, [], false, false)], api := Opening(|s.devs|))
    case OpenFinish =>
      var spawn := s.ctx.own && s.ctx.open == [] && !s.ctx.quarantined;
      s.(ctx := s.ctx.(threads := if spawn then s.ctx.threads + [Running] else s.ctx.threads,
                       open := s.ctx.open + [s.api.dev]),
         api := Idle)
    case OpenAbandon => s.(api := Idle)
    case StreamOpen(d, iface, slots) =>
      s.(strms := s.strms + [Stream(d, iface, Tr.InitWith(slots))],
         devs := s.devs[d := s.devs[d].(streams := s.devs[d].streams + [|s.strms|])])
    case CallStream(m) => s.(api := StreamCall(m))
    case EndStreamCall => s.(api := Idle)
    case CloseStreamBegin(m) => s.(api := CloseStream(m, ToCaller))
    case UnlinkStream =>
      var d := s.strms[s.api.strm].dev;
      s.(devs := s.devs[d := s.devs[d].(streams := Without(s.devs[d].streams, s.api.strm),
                                        qStream := s.devs[d].qStream || StreamApi(s, s.api.strm).Quarantined?)])
    case CloseStreamEnd =>
      s.(api := if s.api.sret.ToCaller? then Idle
                else CloseStreams(s.api.sret.dev, s.api.sret.rest, s.api.sret.ret))
    case CloseBegin(d) => s.(api := CloseStreams(d, s.devs[d].streams, ToUser))
    case CloseNext =>
      if s.api.rest == [] then s.(api := CloseStatus(s.api.dev, s.api.ret))
      else s.(api := CloseStream(s.api.rest[0], ToClose(s.api.dev, s.api.rest[1..], s.api.ret)))
    case CloseDecide =>
      var d := s.api.dev;
      var dev := s.devs[d].(qStatus := s.devs[d].qStatus || !StatusApi(s, d).stopped);
      if dev.qStream || dev.qStatus then
        s.(devs := s.devs[d := dev],
           ctx := s.ctx.(open := Without(s.ctx.open, d), quarantined := true), api := Back(s.api.ret))
      else s.(devs := s.devs[d := dev], api := CloseRelease(d, s.api.ret))
    case CloseKill =>
      if LastDevice(s, s.api.dev)
      then s.(ctx := s.ctx.(kill := true), api := CloseJoin(s.api.dev, s.api.ret))
      else s.(api := CloseUnlink(s.api.dev, false, s.api.ret))
    case JoinHandler =>
      s.(ctx := s.ctx.(threads := s.ctx.threads[|s.ctx.threads| - 1 := Joined]),
         api := CloseUnlink(s.api.dev, true, s.api.ret))
    case Unlink => s.(ctx := s.ctx.(open := Without(s.ctx.open, s.api.dev)), api := CloseFree(s.api.dev, s.api.ret))
    case CloseEnd => s.(api := Back(s.api.ret))
    case ExitBegin => s.(api := Exiting(s.ctx.open))
    case ExitNext => s.(api := CloseStreams(s.api.rest[0], s.devs[s.api.rest[0]].streams, ToExit(s.api.rest[1..])))
    case ExitFinish => s.(ctx := s.ctx.(freed := !s.ctx.quarantined), api := Gone)
    case HandlerExit(t) => s.(ctx := s.ctx.(threads := s.ctx.threads[t := Exited]))
    case StatusAct(d, sa) => s.(devs := s.devs[d := s.devs[d].(status := St.Exec(s.devs[d].status, sa))])
    case StreamAct(m, ta) => s.(strms := s.strms[m := s.strms[m].(x := Tr.Exec(s.strms[m].x, ta))])
  }

  function Sys(own: bool): System<State, Action> { System(InitWith(own), Legal, Exec) }

  // ----- the invariant

  ghost predicate PartsInv(s: State) {
    && (forall d :: 0 <= d < |s.devs| ==> St.Inv(s.devs[d].status))
    && (forall m :: 0 <= m < |s.strms| ==> Tr.Inv(s.strms[m].x))
  }

  /** The listed streams are streams of device d. */
  predicate AllOf(strms: seq<Stream>, list: seq<nat>, d: nat) {
    forall i :: 0 <= i < |list| ==> list[i] < |strms| && strms[list[i]].dev == d
  }

  predicate ListInv(s: State) {
    && NoDup(s.ctx.open)
    && (forall d :: d in s.ctx.open ==> d < |s.devs|)
    && (forall d :: 0 <= d < |s.devs| ==> NoDup(s.devs[d].streams) && AllOf(s.strms, s.devs[d].streams, d))
  }

  predicate InClose(s: State, m: nat) { s.api.CloseStream? && s.api.strm == m }

  /** An unlinked stream is freed, or about to be, or quarantined and its device knows. */
  predicate StreamInv(s: State, m: nat)
    requires m < |s.strms| && s.strms[m].dev < |s.devs|
  {
    var p := StreamApi(s, m);
    if m in s.devs[s.strms[m].dev].streams then
      !p.HandleFreed? && (p.Quarantined? || p.Releasing? ==> InClose(s, m))
    else
      || p.HandleFreed?
      || (p.Quarantined? && s.devs[s.strms[m].dev].qStream)
      || (p.Releasing? && InClose(s, m))
  }

  predicate Closing(s: State, d: nat) {
    (s.api.CloseRelease? || s.api.CloseJoin? || s.api.CloseUnlink?) && s.api.dev == d
  }

  /** A device off the list is being opened, freed, or quarantined and the context knows. */
  predicate DeviceInv(s: State, d: nat)
    requires d < |s.devs|
  {
    var dev := s.devs[d];
    var p := dev.status.api;
    && (p.ControlReleased? || p.Freed? ==> dev.streams == [] && !dev.qStream)
    && (d in s.ctx.open ==> s.api != Opening(d) && !p.Freed? && (p.ControlReleased? ==> Closing(s, d)))
    && (d !in s.ctx.open ==>
          && dev.streams == []
          && (|| p.Freed?
              || s.api == Opening(d)
              || (s.api.CloseFree? && s.api.dev == d && p.ControlReleased?)
              || (s.ctx.quarantined && (dev.qStream || dev.qStatus))))
    && (s.api == Opening(d) ==> !dev.qStream)
  }

  /** The device being closed heads the list that uvc_exit still has to walk. */
  predicate ReturnInv(s: State, d: nat, ret: Return) {
    && d < |s.devs| && d in s.ctx.open
    && (ret.ToExit? ==> s.ctx.open == [d] + ret.rest)
  }

  predicate CallInv(s: State) {
    match s.api
    case Idle => true
    case Opening(d) => d < |s.devs|
    case StreamCall(m) => Linked(s, m)
    case CloseStream(m, ToCaller) => m < |s.strms| && s.strms[m].dev in s.ctx.open
    case CloseStream(m, ToClose(d, rest, ret)) =>
      && m < |s.strms| && s.strms[m].dev == d && ReturnInv(s, d, ret)
      && s.devs[d].streams == if m in s.devs[d].streams then [m] + rest else rest
    case CloseStreams(d, rest, ret) => ReturnInv(s, d, ret) && s.devs[d].streams == rest
    case CloseStatus(d, ret) => ReturnInv(s, d, ret) && s.devs[d].streams == []
    case CloseRelease(d, ret) => ReturnInv(s, d, ret) && s.devs[d].streams == [] && !s.devs[d].qStream
    case CloseJoin(d, ret) => ReturnInv(s, d, ret) && LastDevice(s, d) && StatusApi(s, d).ControlReleased?
    case CloseUnlink(d, _, ret) => ReturnInv(s, d, ret) && StatusApi(s, d).ControlReleased?
    case CloseFree(d, ret) => d < |s.devs| && d !in s.ctx.open && (ret.ToExit? ==> s.ctx.open == ret.rest)
    case Exiting(rest) => s.ctx.open == rest
    case Gone => s.ctx.open == []
  }

  /** Some handler thread has been created and not joined. */
  predicate Unjoined(ctx: Context) { ctx.threads != [] && !ctx.threads[|ctx.threads| - 1].Joined? }

  predicate HandlerInv(s: State) {
    && (forall t :: 0 <= t < |s.ctx.threads| - 1 ==> s.ctx.threads[t].Joined?)
    && (Unjoined(s.ctx) <==>
        s.ctx.own && (s.ctx.quarantined || (s.ctx.open != [] && !(s.api.CloseUnlink? && s.api.joined))))
    && (!s.ctx.own ==> s.ctx.threads == [])
    && (s.api.CloseUnlink? && s.api.joined ==> LastDevice(s, s.api.dev))
    && (s.api.CloseUnlink? && !s.api.joined ==> !LastDevice(s, s.api.dev))
    && (Unjoined(s.ctx) && !s.ctx.kill ==> s.ctx.threads[|s.ctx.threads| - 1].Running?)
    && (s.ctx.freed ==> s.api.Gone? && !s.ctx.quarantined)
  }

  /** What ties the lists, the flags and the program counters together. */
  predicate CoreInv(s: State) {
    && ListInv(s) && CallInv(s) && HandlerInv(s)
    && (forall m :: 0 <= m < |s.strms| ==> s.strms[m].dev < |s.devs|)
    && (forall m :: 0 <= m < |s.strms| ==> StreamInv(s, m))
    && (forall d :: 0 <= d < |s.devs| ==> DeviceInv(s, d))
  }

  ghost predicate Inv(s: State) { PartsInv(s) && CoreInv(s) }

  lemma {:induction false} WithoutMembers(xs: seq<nat>, x: nat, y: nat)
    requires NoDup(xs)
    ensures y in Without(xs, x) <==> y in xs && y != x
  {
    if xs != [] {
      assert xs == [xs[0]] + xs[1..];
      assert xs[0] !in xs[1..];
      if xs[0] != x { WithoutMembers(xs[1..], x, y); }
    }
  }

  lemma {:induction false} WithoutNoDup(xs: seq<nat>, x: nat)
    requires NoDup(xs)
    ensures NoDup(Without(xs, x))
  {
    if xs != [] && xs[0] != x {
      WithoutNoDup(xs[1..], x);
      WithoutMembers(xs[1..], x, xs[0]);
      assert xs[0] !in xs[1..];
    }
  }

  lemma WithoutIs(xs: seq<nat>, x: nat)
    requires NoDup(xs)
    ensures NoDup(Without(xs, x)) && x !in Without(xs, x)
    ensures forall y :: y != x ==> (y in Without(xs, x) <==> y in xs)
    ensures |xs| > 0 && xs[0] == x ==> Without(xs, x) == xs[1..]
  {
    WithoutNoDup(xs, x);
    WithoutMembers(xs, x, x);
    forall y | y != x ensures y in Without(xs, x) <==> y in xs { WithoutMembers(xs, x, y); }
  }

  /** A status step moves at most the device's program counter, and that only in its turn. */
  lemma StatusReplaced(s: State, d: nat, st: St.State)
    requires CoreInv(s) && d < |s.devs|
    requires var p, q := s.devs[d].status.api, st.api;
      p == q
      || (&& (s.api.Opening? || s.api.CloseStatus? || s.api.CloseRelease? || s.api.CloseFree?) && s.api.dev == d
          && !p.Freed?
          && (q.ControlReleased? ==> s.api.Opening? || s.api.CloseRelease?)
          && (q.Freed? ==> p.ControlReleased? && (s.api.Opening? || s.api.CloseFree?))
          && (p.ControlReleased? ==> q.Freed?))
    ensures CoreInv(s.(devs := s.devs[d := s.devs[d].(status := st)]))
  {
    var s' := s.(devs := s.devs[d := s.devs[d].(status := st)]);
    assert forall e :: 0 <= e < |s.devs| ==>
      s'.devs[e].streams == s.devs[e].streams && s'.devs[e].qStream == s.devs[e].qStream;
    forall m | 0 <= m < |s.strms| ensures StreamInv(s', m) { assert StreamInv(s, m); }
    forall e | 0 <= e < |s.devs| ensures DeviceInv(s', e) { assert DeviceInv(s, e); }
  }

  lemma StatusActKept(s: State, d: nat, sa: St.Action)
    requires Inv(s) && Legal(s, StatusAct(d, sa))
    ensures Inv(Exec(s, StatusAct(d, sa)))
  {
    var st := St.Exec(s.devs[d].status, sa);
    St.InvKept(s.devs[d].status, sa);
    if St.IsApi(sa) { St.ApiSteps(s.devs[d].status, sa); } else { St.EventKeepsApi(s.devs[d].status, sa); }
    StatusReplaced(s, d, st);
  }

  lemma StreamReplaced(s: State, m: nat, x: Tr.State)
    requires CoreInv(s) && m < |s.strms|
    requires var p, q := s.strms[m].x.api, x.api;
      p == q
      || (&& !p.Quarantined? && !p.HandleFreed?
          && (q.Quarantined? || q.Releasing? ==> InClose(s, m))
          && (q.HandleFreed? ==> InClose(s, m) && !Linked(s, m))
          && (p.Releasing? ==> q.HandleFreed? || q.Releasing?))
    ensures CoreInv(s.(strms := s.strms[m := s.strms[m].(x := x)]))
  {
    var s' := s.(strms := s.strms[m := s.strms[m].(x := x)]);
    assert forall n :: 0 <= n < |s.strms| ==> s'.strms[n].dev == s.strms[n].dev;
    forall e | 0 <= e < |s.devs| ensures AllOf(s'.strms, s.devs[e].streams, e) {
      assert AllOf(s.strms, s.devs[e].streams, e);
    }
    forall n | 0 <= n < |s.strms| ensures StreamInv(s', n) { assert StreamInv(s, n); }
    forall e | 0 <= e < |s.devs| ensures DeviceInv(s', e) { assert DeviceInv(s, e); }
  }

  lemma StreamActKept(s: State, m: nat, ta: Tr.Action)
    requires Inv(s) && Legal(s, StreamAct(m, ta))
    ensures Inv(Exec(s, StreamAct(m, ta)))
  {
    var x := Tr.Exec(s.strms[m].x, ta);
    Tr.InvKept(s.strms[m].x, ta);
    if Tr.IsApi(ta) { Tr.ApiSteps(s.strms[m].x, ta); } else { Tr.EventKeepsApi(s.strms[m].x, ta); }
    StreamReplaced(s, m, x);
  }

  lemma OpenBeginKept(s: State)
    requires CoreInv(s) && Legal(s, OpenBegin)
    ensures CoreInv(Exec(s, OpenBegin))
  {
    var s' := Exec(s, OpenBegin);
    forall e | 0 <= e < |s'.devs| ensures DeviceInv(s', e) { if e < |s.devs| { assert DeviceInv(s, e); } }
    forall m | 0 <= m < |s.strms| ensures StreamInv(s', m) { assert StreamInv(s, m); }
  }

  lemma OpenFinishKept(s: State)
    requires CoreInv(s) && Legal(s, OpenFinish)
    ensures CoreInv(Exec(s, OpenFinish))
  {
    var s' := Exec(s, OpenFinish);
    assert DeviceInv(s, s.api.dev);
    forall e | 0 <= e < |s.devs| ensures DeviceInv(s', e) { assert DeviceInv(s, e); }
    forall m | 0 <= m < |s.strms| ensures StreamInv(s', m) { assert StreamInv(s, m); }
  }

  lemma ListAdded(strms: seq<Stream>, list: seq<nat>, e: nat, n: Stream)
    requires NoDup(list) && AllOf(strms, list, e)
    ensures AllOf(strms + [n], list, e)
    ensures n.dev == e ==> NoDup(list + [|strms|]) && AllOf(strms + [n], list + [|strms|], e)
  {
  }

  lemma StreamAdded(s: State, d: nat, iface: nat, x: Tr.State)
    requires CoreInv(s) && s.api.Idle? && d in s.ctx.open && d < |s.devs| && x.api.Idle?
    ensures CoreInv(s.(strms := s.strms + [Stream(d, iface, x)],
                       devs := s.devs[d := s.devs[d].(streams := s.devs[d].streams + [|s.strms|])]))
  {
    var strms := s.strms + [Stream(d, iface, x)];
    var s' := s.(strms := strms,
                 devs := s.devs[d := s.devs[d].(streams := s.devs[d].streams + [|s.strms|])]);
    forall e | 0 <= e < |s.devs| ensures NoDup(s'.devs[e].streams) && AllOf(strms, s'.devs[e].streams, e) {
      ListAdded(s.strms, s.devs[e].streams, e, Stream(d, iface, x));
    }
    forall e | 0 <= e < |s.devs| ensures DeviceInv(s', e) { assert DeviceInv(s, e); }
    forall m | 0 <= m < |strms| ensures StreamInv(s', m) {
      if m < |s.strms| {
        assert StreamInv(s, m);
        assert m in s'.devs[strms[m].dev].streams <==> m in s.devs[strms[m].dev].streams;
      } else {
        assert s'.devs[d].streams[|s.devs[d].streams|] == m;
      }
    }
  }

  lemma StreamOpenKept(s: State, d: nat, iface: nat, slots: nat)
    requires Inv(s) && Legal(s, StreamOpen(d, iface, slots))
    ensures Inv(Exec(s, StreamOpen(d, iface, slots)))
  {
    StreamAdded(s, d, iface, Tr.InitWith(slots));
    assert Tr.Inv(Tr.InitWith(slots));
  }

  lemma ListRemoved(strms: seq<Stream>, list: seq<nat>, d: nat, k: nat)
    requires NoDup(list) && AllOf(strms, list, d)
    ensures AllOf(strms, Without(list, k), d)
  {
    var rest := Without(list, k);
    forall i | 0 <= i < |rest| ensures rest[i] < |strms| && strms[rest[i]].dev == d {
      WithoutMembers(list, k, rest[i]);
    }
  }

  /** DL_DELETE of a stream, after which its device knows if it was quarantined. */
  lemma UnlinkStreamKept(s: State)
    requires CoreInv(s) && Legal(s, UnlinkStream)
    ensures CoreInv(Exec(s, UnlinkStream))
  {
    var s', k := Exec(s, UnlinkStream), s.api.strm;
    var d := s.strms[k].dev;
    var list := s.devs[d].streams;
    WithoutIs(list, k);
    ListRemoved(s.strms, list, d, k);
    forall e | 0 <= e < |s.devs| ensures DeviceInv(s', e) { assert DeviceInv(s, e); }
    forall m | 0 <= m < |s.strms| ensures StreamInv(s', m) { UnlinkedStream(s, m); }
  }

  lemma UnlinkedStream(s: State, m: nat)
    requires CoreInv(s) && Legal(s, UnlinkStream) && m < |s.strms|
    ensures StreamInv(Exec(s, UnlinkStream), m)
  {
    WithoutMembers(s.devs[s.strms[s.api.strm].dev].streams, s.api.strm, m);
    assert StreamInv(s, m);
  }

  /** The calls, returns and loop heads that move nothing but the program counter. */
  lemma CallKept(s: State, a: Action)
    requires CoreInv(s) && Legal(s, a)
    requires a.OpenAbandon? || a.CallStream? || a.EndStreamCall? || a.CloseStreamBegin? || a.CloseStreamEnd?
    ensures CoreInv(Exec(s, a))
  {
    var s' := Exec(s, a);
    assert s' == s.(api := s'.api);
    if a.CloseStreamBegin? { assert DeviceInv(s, s.strms[a.strm].dev); }
    forall e | 0 <= e < |s.devs| ensures DeviceInv(s', e) { assert DeviceInv(s, e); }
    forall m | 0 <= m < |s.strms| ensures StreamInv(s', m) { assert StreamInv(s, m); }
  }

  lemma CloseCallKept(s: State, a: Action)
    requires CoreInv(s) && Legal(s, a) && (a.CloseBegin? || a.CloseNext? || a.CloseEnd?)
    ensures CoreInv(Exec(s, a))
  {
    var s' := Exec(s, a);
    assert s' == s.(api := s'.api);
    forall e | 0 <= e < |s.devs| ensures DeviceInv(s', e) { assert DeviceInv(s, e); }
    forall m | 0 <= m < |s.strms| ensures StreamInv(s', m) { assert StreamInv(s, m); }
  }

  lemma ExitCallKept(s: State, a: Action)
    requires CoreInv(s) && Legal(s, a) && (a.ExitBegin? || a.ExitNext?)
    ensures CoreInv(Exec(s, a))
  {
    var s' := Exec(s, a);
    assert s' == s.(api := s'.api);
    forall e | 0 <= e < |s.devs| ensures DeviceInv(s', e) { assert DeviceInv(s, e); }
    forall m | 0 <= m < |s.strms| ensures StreamInv(s', m) { assert StreamInv(s, m); }
  }

  predicate Quarantines(s: State, d: nat)
    requires d < |s.devs| && StatusApi(s, d).Returned?
  {
    s.devs[d].qStream || s.devs[d].qStatus || !StatusApi(s, d).stopped
  }

  lemma CloseQuarantinesKept(s: State)
    requires CoreInv(s) && Legal(s, CloseDecide) && Quarantines(s, s.api.dev)
    ensures CoreInv(Exec(s, CloseDecide))
  {
    var s' := Exec(s, CloseDecide);
    WithoutIs(s.ctx.open, s.api.dev);
    forall e | 0 <= e < |s.devs| ensures DeviceInv(s', e) { assert DeviceInv(s, e); }
    forall m | 0 <= m < |s.strms| ensures StreamInv(s', m) { assert StreamInv(s, m); }
  }

  lemma CloseDecideKept(s: State)
    requires CoreInv(s) && Legal(s, CloseDecide)
    ensures CoreInv(Exec(s, CloseDecide))
  {
    if Quarantines(s, s.api.dev) {
      CloseQuarantinesKept(s);
    } else {
      var s' := Exec(s, CloseDecide);
      forall e | 0 <= e < |s.devs| ensures DeviceInv(s', e) { assert DeviceInv(s, e); }
      forall m | 0 <= m < |s.strms| ensures StreamInv(s', m) { assert StreamInv(s, m); }
    }
  }

  lemma CloseKillKept(s: State)
    requires CoreInv(s) && Legal(s, CloseKill)
    ensures CoreInv(Exec(s, CloseKill))
  {
    var s' := Exec(s, CloseKill);
    forall e | 0 <= e < |s.devs| ensures DeviceInv(s', e) { assert DeviceInv(s, e); }
    forall m | 0 <= m < |s.strms| ensures StreamInv(s', m) { assert StreamInv(s, m); }
  }

  lemma JoinHandlerKept(s: State)
    requires CoreInv(s) && Legal(s, JoinHandler)
    ensures CoreInv(Exec(s, JoinHandler))
  {
    var s' := Exec(s, JoinHandler);
    forall e | 0 <= e < |s.devs| ensures DeviceInv(s', e) { assert DeviceInv(s, e); }
    forall m | 0 <= m < |s.strms| ensures StreamInv(s', m) { assert StreamInv(s, m); }
  }

  lemma HandlerExitKept(s: State, t: nat)
    requires CoreInv(s) && Legal(s, HandlerExit(t))
    ensures CoreInv(Exec(s, HandlerExit(t)))
  {
    var s' := Exec(s, HandlerExit(t));
    forall e | 0 <= e < |s.devs| ensures DeviceInv(s', e) { assert DeviceInv(s, e); }
    forall m | 0 <= m < |s.strms| ensures StreamInv(s', m) { assert StreamInv(s, m); }
  }

  lemma ExitFinishKept(s: State)
    requires CoreInv(s) && Legal(s, ExitFinish)
    ensures CoreInv(Exec(s, ExitFinish))
  {
    var s' := Exec(s, ExitFinish);
    forall e | 0 <= e < |s.devs| ensures DeviceInv(s', e) { assert DeviceInv(s, e); }
    forall m | 0 <= m < |s.strms| ensures StreamInv(s', m) { assert StreamInv(s, m); }
  }

  lemma UnlinkKept(s: State)
    requires CoreInv(s) && Legal(s, Unlink)
    ensures CoreInv(Exec(s, Unlink))
  {
    var s' := Exec(s, Unlink);
    WithoutIs(s.ctx.open, s.api.dev);
    forall e | 0 <= e < |s.devs| ensures DeviceInv(s', e) { assert DeviceInv(s, e); }
    forall m | 0 <= m < |s.strms| ensures StreamInv(s', m) { assert StreamInv(s, m); }
  }

  lemma InvKept(s: State, a: Action)
    requires Inv(s) && Legal(s, a)
    ensures Inv(Exec(s, a))
  {
    if a.StatusAct? { StatusActKept(s, a.dev, a.sa); }
    else if a.StreamAct? { StreamActKept(s, a.strm, a.ta); }
    else if a.OpenBegin? {
      OpenBeginKept(s);
      assert St.Inv(St.Init);
    }
    else if a.StreamOpen? { StreamOpenKept(s, a.dev, a.iface, a.slots); }
    else {
      QuietPartsKept(s, a);
      QuietStepKept(s, a);
    }
  }

  predicate IsQuiet(a: Action) { !a.StatusAct? && !a.StreamAct? && !a.OpenBegin? && !a.StreamOpen? }

  /** The steps that touch no transfer: the parts carry over as they are. */
  lemma QuietPartsKept(s: State, a: Action)
    requires PartsInv(s) && Legal(s, a) && IsQuiet(a)
    ensures PartsInv(Exec(s, a))
  {
    var s' := Exec(s, a);
    assert s'.strms == s.strms && |s'.devs| == |s.devs|;
    assert forall d :: 0 <= d < |s.devs| ==> s'.devs[d].status == s.devs[d].status;
  }

  predicate IsListStep(a: Action) { a.OpenFinish? || a.UnlinkStream? || a.CloseDecide? || a.Unlink? }

  predicate IsHandlerStep(a: Action) { a.CloseKill? || a.JoinHandler? || a.HandlerExit? || a.ExitFinish? }

  lemma ListStepKept(s: State, a: Action)
    requires CoreInv(s) && Legal(s, a) && IsListStep(a)
    ensures CoreInv(Exec(s, a))
  {
    if a.OpenFinish? { OpenFinishKept(s); }
    else if a.UnlinkStream? { UnlinkStreamKept(s); }
    else if a.CloseDecide? { CloseDecideKept(s); }
    else { UnlinkKept(s); }
  }

  lemma HandlerStepKept(s: State, a: Action)
    requires CoreInv(s) && Legal(s, a) && IsHandlerStep(a)
    ensures CoreInv(Exec(s, a))
  {
    if a.CloseKill? { CloseKillKept(s); }
    else if a.JoinHandler? { JoinHandlerKept(s); }
    else if a.HandlerExit? { HandlerExitKept(s, a.t); }
    else { ExitFinishKept(s); }
  }

  lemma QuietStepKept(s: State, a: Action)
    requires CoreInv(s) && Legal(s, a) && IsQuiet(a)
    ensures CoreInv(Exec(s, a))
  {
    if IsListStep(a) { ListStepKept(s, a); }
    else if IsHandlerStep(a) { HandlerStepKept(s, a); }
    else if a.CloseBegin? || a.CloseNext? || a.CloseEnd? { CloseCallKept(s, a); }
    else if a.ExitBegin? || a.ExitNext? { ExitCallKept(s, a); }
    else { CallKept(s, a); }
  }

  lemma InvIsInductive(own: bool)
    ensures Inductive(Sys(own), Inv)
  {
    forall s, a | Inv(s) && Legal(s, a) ensures Inv(Exec(s, a)) { InvKept(s, a); }
  }

  lemma InvAt(own: bool, acts: seq<Action>, k: nat)
    requires IsRun(Sys(own), acts) && k <= |acts|
    ensures Inv(At(Sys(own), acts, k))
  {
    InvIsInductive(own);
    InvariantHolds(Sys(own), Inv, acts, k);
  }

  // ----- theorems over every run

  predicate DeviceLive(s: State, d: nat) { d < |s.devs| && !StatusApi(s, d).Freed? && !s.ctx.freed }

  predicate StreamLive(s: State, m: nat) {
    m < |s.strms| && !StreamApi(s, m).HandleFreed? && DeviceLive(s, s.strms[m].dev)
  }

  /** A device not yet freed keeps the context alive. */
  lemma DeviceKeepsContext(s: State, d: nat)
    requires Inv(s) && d < |s.devs| && !StatusApi(s, d).Freed?
    ensures DeviceLive(s, d)
  {
    assert DeviceInv(s, d);
  }

  /** A stream not yet freed keeps its device, and so the context, alive. */
  lemma StreamKeepsDevice(s: State, m: nat)
    requires Inv(s) && m < |s.strms| && !StreamApi(s, m).HandleFreed?
    ensures StreamLive(s, m)
  {
    assert StreamInv(s, m);
    assert DeviceInv(s, s.strms[m].dev);
    DeviceKeepsContext(s, s.strms[m].dev);
  }

  /**
   In every interleaving: a stream handle that libusb can still call back into, or whose user thread
   runs, is live, and so are its device handle and the context.
   */
  lemma StreamNeverFreedInUse(own: bool, acts: seq<Action>, k: nat, m: nat)
    requires IsRun(Sys(own), acts) && k <= |acts| && m < |At(Sys(own), acts, k).strms|
    requires !Tr.Quiet(At(Sys(own), acts, k).strms[m].x)
    ensures StreamLive(At(Sys(own), acts, k), m)
  {
    InvAt(own, acts, k);
    var s := At(Sys(own), acts, k);
    assert Tr.Inv(s.strms[m].x);
    if StreamApi(s, m).HandleFreed? {
      Tr.ClosedCleanIsQuiet(s.strms[m].x);
    } else {
      StreamKeepsDevice(s, m);
    }
  }

  /** The same for a device handle and its status transfer. */
  lemma DeviceNeverFreedInUse(own: bool, acts: seq<Action>, k: nat, d: nat)
    requires IsRun(Sys(own), acts) && k <= |acts| && d < |At(Sys(own), acts, k).devs|
    requires !St.Quiet(At(Sys(own), acts, k).devs[d].status)
    ensures DeviceLive(At(Sys(own), acts, k), d)
  {
    InvAt(own, acts, k);
    var s := At(Sys(own), acts, k);
    assert St.Inv(s.devs[d].status);
    DeviceKeepsContext(s, d);
  }

  /** The stream a step works on. */
  function UsesStream(s: State, a: Action): Option<nat> {
    match a
    case StreamAct(m, _) => Some(m)
    case CallStream(m) => Some(m)
    case CloseStreamBegin(m) => Some(m)
    case EndStreamCall => if s.api.StreamCall? then Some(s.api.strm) else None
    case UnlinkStream => if s.api.CloseStream? then Some(s.api.strm) else None
    case CloseNext => if s.api.CloseStreams? && s.api.rest != [] then Some(s.api.rest[0]) else None
    case _ => None
  }

  /** The device a step works on: a stream's steps and the steps of uvc_close use the device's lists and flags. */
  function UsesDevice(s: State, a: Action): Option<nat> {
    match a
    case StatusAct(d, _) => Some(d)
    case StreamOpen(d, _, _) => Some(d)
    case CloseBegin(d) => Some(d)
    case OpenFinish => if s.api.Opening? then Some(s.api.dev) else None
    case CloseNext => if s.api.CloseStreams? then Some(s.api.dev) else None
    case CloseDecide => if s.api.CloseStatus? then Some(s.api.dev) else None
    case CloseKill => if s.api.CloseRelease? then Some(s.api.dev) else None
    case JoinHandler => if s.api.CloseJoin? then Some(s.api.dev) else None
    case Unlink => if s.api.CloseUnlink? then Some(s.api.dev) else None
    case CloseStreamEnd => if s.api.CloseStream? && s.api.sret.ToClose? then Some(s.api.sret.dev) else None
    case ExitNext => if s.api.Exiting? && s.api.rest != [] then Some(s.api.rest[0]) else None
    case _ => None
  }

  /**
   No step of any thread touches freed memory: the context is live at every step, the device a step
   works on is live, and so are the stream it works on and that stream's device.
   */
  lemma NoStepTouchesFreed(own: bool, acts: seq<Action>, k: nat)
    requires IsRun(Sys(own), acts) && k < |acts|
    ensures var s, a := At(Sys(own), acts, k), acts[k];
      && !s.ctx.freed
      && (UsesStream(s, a).Some? ==> StreamLive(s, UsesStream(s, a).value))
      && (UsesDevice(s, a).Some? ==> DeviceLive(s, UsesDevice(s, a).value))
  {
    InvAt(own, acts, k);
    AtStep(Sys(own), acts, k);
    var s, a := At(Sys(own), acts, k), acts[k];
    StepIsLive(s, a);
  }

  lemma StepIsLive(s: State, a: Action)
    requires Inv(s) && Legal(s, a)
    ensures !s.ctx.freed
    ensures UsesStream(s, a).Some? ==> StreamLive(s, UsesStream(s, a).value)
    ensures UsesDevice(s, a).Some? ==> DeviceLive(s, UsesDevice(s, a).value)
  {
    if a.StreamAct? {
      StreamStepIsLive(s, a.strm, a.ta);
    } else if a.StatusAct? {
      StatusStepIsLive(s, a.dev, a.sa);
    } else {
      DeviceStepIsLive(s, a);
      LinkedIsLive(s, a);
    }
  }

  /** An open device is live. */
  lemma OpenIsLive(s: State, d: nat)
    requires Inv(s) && d in s.ctx.open
    ensures DeviceLive(s, d)
  {
    assert DeviceInv(s, d);
    DeviceKeepsContext(s, d);
  }

  lemma DeviceStepIsLive(s: State, a: Action)
    requires Inv(s) && Legal(s, a) && !a.StreamAct? && !a.StatusAct?
    ensures !s.ctx.freed
    ensures UsesDevice(s, a).Some? ==> DeviceLive(s, UsesDevice(s, a).value)
  {
    if UsesDevice(s, a).Some? {
      var d := UsesDevice(s, a).value;
      if a.OpenFinish? { DeviceKeepsContext(s, d); } else { OpenIsLive(s, d); }
    }
  }

  lemma LinkedIsLive(s: State, a: Action)
    requires Inv(s) && Legal(s, a) && !a.StreamAct? && !a.StatusAct?
    ensures UsesStream(s, a).Some? ==> StreamLive(s, UsesStream(s, a).value)
  {
    if UsesStream(s, a).Some? {
      var m := UsesStream(s, a).value;
      assert CallInv(s);
      if a.CloseNext? { assert AllOf(s.strms, s.devs[s.api.dev].streams, s.api.dev); }
      assert Linked(s, m);
      assert StreamInv(s, m);
      StreamKeepsDevice(s, m);
    }
  }

  lemma StreamStepIsLive(s: State, m: nat, ta: Tr.Action)
    requires Inv(s) && Legal(s, StreamAct(m, ta))
    ensures StreamLive(s, m)
  {
    assert Tr.Inv(s.strms[m].x);
    if Tr.ClosedClean(s.strms[m].x) { Tr.ClosedCleanKept(s.strms[m].x, ta); }
    StreamKeepsDevice(s, m);
  }

  lemma StatusStepIsLive(s: State, d: nat, sa: St.Action)
    requires Inv(s) && Legal(s, StatusAct(d, sa))
    ensures DeviceLive(s, d)
  {
    assert St.Inv(s.devs[d].status);
    if St.IsApi(sa) { St.ApiSteps(s.devs[d].status, sa); }
    DeviceKeepsContext(s, d);
  }

  predicate Quarantined(s: State, m: nat) { m < |s.strms| && StreamApi(s, m).Quarantined? }

  lemma QuarantineKept(s: State, a: Action, m: nat)
    requires Quarantined(s, m) && Legal(s, a)
    ensures Quarantined(Exec(s, a), m)
  {
    if a.StreamAct? && a.strm == m {
      if Tr.IsApi(a.ta) { Tr.ApiSteps(s.strms[m].x, a.ta); } else { Tr.EventKeepsApi(s.strms[m].x, a.ta); }
    }
  }

  /** A quarantined stream, its device and the context are never freed, whatever is called later. */
  lemma QuarantineIsForever(own: bool, acts: seq<Action>, i: nat, j: nat, m: nat)
    requires IsRun(Sys(own), acts) && i <= j <= |acts|
    requires Quarantined(At(Sys(own), acts, i), m)
    ensures Quarantined(At(Sys(own), acts, j), m) && StreamLive(At(Sys(own), acts, j), m)
  {
    InvIsInductive(own);
    forall s, a | Inv(s) && Quarantined(s, m) && Legal(s, a) ensures Quarantined(Exec(s, a), m) {
      QuarantineKept(s, a, m);
    }
    StaysTrue(Sys(own), Inv, s => Quarantined(s, m), acts, i, j);
    InvAt(own, acts, j);
    StreamKeepsDevice(At(Sys(own), acts, j), m);
  }

  // ----- the handler thread

  /** Never more than one handler thread is created and not joined, and none once the context is freed. */
  lemma AtMostOneHandler(own: bool, acts: seq<Action>, k: nat, t: nat, u: nat)
    requires IsRun(Sys(own), acts) && k <= |acts|
    requires t < |At(Sys(own), acts, k).ctx.threads| && u < |At(Sys(own), acts, k).ctx.threads|
    requires !At(Sys(own), acts, k).ctx.threads[t].Joined? && !At(Sys(own), acts, k).ctx.threads[u].Joined?
    ensures t == u && !At(Sys(own), acts, k).ctx.freed
  {
    InvAt(own, acts, k);
  }

  /** pthread_join is reached only with a created, not yet joined thread, and never once quarantined. */
  lemma JoinMatchesCreate(own: bool, acts: seq<Action>, k: nat)
    requires IsRun(Sys(own), acts) && k <= |acts| && At(Sys(own), acts, k).api.CloseJoin?
    ensures Unjoined(At(Sys(own), acts, k).ctx) && !At(Sys(own), acts, k).ctx.quarantined
  {
    InvAt(own, acts, k);
  }

  predicate QuarantinedContext(s: State) { s.ctx.quarantined }

  lemma QuarantinedContextKept(s: State, a: Action)
    requires CoreInv(s) && s.ctx.quarantined && Legal(s, a)
    ensures Exec(s, a).ctx.quarantined && Exec(s, a).ctx.kill == s.ctx.kill && !a.JoinHandler?
    ensures |Exec(s, a).ctx.threads| == |s.ctx.threads|
  {
  }

  /**
   Once a device is quarantined, no handler thread is created, killed or joined on its context, and the
   context is never freed.
   */
  lemma QuarantineFreezesHandler(own: bool, acts: seq<Action>, i: nat, j: nat)
    requires IsRun(Sys(own), acts) && i <= j < |acts|
    requires At(Sys(own), acts, i).ctx.quarantined
    ensures var s, s' := At(Sys(own), acts, j), At(Sys(own), acts, j + 1);
      && s'.ctx.kill == s.ctx.kill && |s'.ctx.threads| == |s.ctx.threads| && !acts[j].JoinHandler?
      && s'.ctx.quarantined && !s.ctx.freed && !s'.ctx.freed
  {
    InvIsInductive(own);
    forall s, a | Inv(s) && QuarantinedContext(s) && Legal(s, a) ensures QuarantinedContext(Exec(s, a)) {
      QuarantinedContextKept(s, a);
    }
    StaysTrue(Sys(own), Inv, QuarantinedContext, acts, i, j);
    InvAt(own, acts, j);
    AtStep(Sys(own), acts, j);
    QuarantinedContextKept(At(Sys(own), acts, j), acts[j]);
    InvAt(own, acts, j + 1);
  }

  /** The k-th step closes the last open device of an owning, never quarantined context. */
  ghost predicate KillsHandler(own: bool, acts: seq<Action>, k: nat)
    requires IsRun(Sys(own), acts) && k < |acts|
  {
    acts[k].CloseKill? && At(Sys(own), acts, k).api.CloseRelease?
    && LastDevice(At(Sys(own), acts, k), At(Sys(own), acts, k).api.dev)
  }

  /** `kill_handler_thread` is set by such a close and never cleared. */
  lemma {:induction false} KillIsHistory(own: bool, acts: seq<Action>, k: nat)
    requires IsRun(Sys(own), acts) && k <= |acts|
    ensures At(Sys(own), acts, k).ctx.kill <==> exists i :: 0 <= i < k && KillsHandler(own, acts, i)
  {
    if k > 0 {
      KillIsHistory(own, acts, k - 1);
      AtStep(Sys(own), acts, k - 1);
      KillStep(At(Sys(own), acts, k - 1), acts[k - 1]);
      assert At(Sys(own), acts, k).ctx.kill <==>
        At(Sys(own), acts, k - 1).ctx.kill || KillsHandler(own, acts, k - 1);
    }
  }

  lemma KillStep(s: State, a: Action)
    requires Legal(s, a)
    ensures Exec(s, a).ctx.kill <==>
      s.ctx.kill || (a.CloseKill? && s.api.CloseRelease? && LastDevice(s, s.api.dev))
  {
  }

  /** A handler thread that will go on serving the context. */
  predicate Served(s: State) {
    Unjoined(s.ctx) && s.ctx.threads[|s.ctx.threads| - 1].Running? && !s.ctx.kill
  }

  /**
   The source's comments read as if an open device always had its events served.  It has exactly when
   no earlier close was that of the context's last device.
   */
  lemma ServedIffNeverClosedLast(own: bool, acts: seq<Action>, k: nat)
    requires IsRun(Sys(own), acts) && k <= |acts| && own
    requires At(Sys(own), acts, k).api.Idle? && At(Sys(own), acts, k).ctx.open != []
    ensures Served(At(Sys(own), acts, k)) <==> forall i :: 0 <= i < k ==> !KillsHandler(own, acts, i)
  {
    InvAt(own, acts, k);
    KillIsHistory(own, acts, k);
    OwnIsConstant(own, acts, k);
  }

  lemma {:induction false} OwnIsConstant(own: bool, acts: seq<Action>, k: nat)
    requires IsRun(Sys(own), acts) && k <= |acts|
    ensures At(Sys(own), acts, k).ctx.own == own
  {
    if k > 0 {
      OwnIsConstant(own, acts, k - 1);
      AtStep(Sys(own), acts, k - 1);
      OwnStep(At(Sys(own), acts, k - 1), acts[k - 1]);
    }
  }

  lemma OwnStep(s: State, a: Action)
    ensures Exec(s, a).ctx.own == s.ctx.own
  {
  }

  /** uvc_open of a device without status endpoint. */
  lemma OpenOne(s: State, acts: seq<Action>) returns (s': State, acts': seq<Action>)
    requires IsRun(Sys(true), acts) && s == After(Sys(true), InitWith(true), acts) && s.api.Idle?
    ensures IsRun(Sys(true), acts') && s' == After(Sys(true), InitWith(true), acts')
    ensures s'.devs == s.devs + OneDevice(St.Running) && s'.api.Idle? && s'.strms == s.strms
    ensures s'.ctx == s.ctx.(open := s.ctx.open + [|s.devs|],
                             threads := if s.ctx.own && s.ctx.open == [] && !s.ctx.quarantined
                                        then s.ctx.threads + [Running] else s.ctx.threads)
  {
    s', acts' := Extend(Sys(true), s, acts, OpenBegin);
    s', acts' := Extend(Sys(true), s', acts', StatusAct(|s.devs|, St.NoEndpoint));
    s', acts' := Extend(Sys(true), s', acts', OpenFinish);
  }

  /** A legal step of the owning context's system, and the run it extends. */
  lemma Then(s: State, acts: seq<Action>, a: Action, s': State) returns (acts': seq<Action>)
    requires IsRun(Sys(true), acts) && s == After(Sys(true), InitWith(true), acts)
    requires Sys(true).legal(s, a) && s' == Sys(true).exec(s, a)
    ensures IsRun(Sys(true), acts') && s' == After(Sys(true), InitWith(true), acts')
  {
    var _, more := Extend(Sys(true), s, acts, a);
    acts' := more;
  }

  function OneDevice(p: St.ApiPc): seq<Device> { [Device(St.Init.(api := p), [], false, false)] }

  /** The three status steps of a device without status transfer. */
  lemma ThenStatus(s: State, acts: seq<Action>, sa: St.Action, p: St.ApiPc, q: St.ApiPc)
    returns (s': State, acts': seq<Action>)
    requires IsRun(Sys(true), acts) && s == After(Sys(true), InitWith(true), acts)
    requires s.devs == OneDevice(p)
    requires || (s.api.CloseStatus? && sa.StopNoTransfer? && p.Running? && q == St.Returned(true))
             || (s.api.CloseRelease? && sa.ReleaseControl? && p == St.Returned(true) && q.ControlReleased?)
             || (s.api.CloseFree? && sa.Free? && p.ControlReleased? && q.Freed?)
    requires s.api.dev == 0
    ensures IsRun(Sys(true), acts') && s' == After(Sys(true), InitWith(true), acts')
    ensures s' == s.(devs := OneDevice(q))
  {
    s' := s.(devs := OneDevice(q));
    StatusMoves(sa, p, q);
    acts' := Then(s, acts, StatusAct(0, sa), s');
  }

  lemma StatusMoves(sa: St.Action, p: St.ApiPc, q: St.ApiPc)
    requires || (sa.StopNoTransfer? && p.Running? && q == St.Returned(true))
             || (sa.ReleaseControl? && p == St.Returned(true) && q.ControlReleased?)
             || (sa.Free? && p.ControlReleased? && q.Freed?)
    ensures St.Legal(St.Init.(api := p), sa) && St.Exec(St.Init.(api := p), sa) == St.Init.(api := q)
    ensures St.IsApi(sa) && !St.IsOpen(sa)
  {
  }

  /** uvc_close of that device while it is the only one: up to the stopped status transfer. */
  lemma CloseStart(s: State, acts: seq<Action>) returns (s': State, acts': seq<Action>)
    requires IsRun(Sys(true), acts) && s == After(Sys(true), InitWith(true), acts) && s.api.Idle?
    requires s.devs == OneDevice(St.Running) && s.strms == []
    requires s.ctx == Context(true, [0], false, false, [Running], false)
    ensures IsRun(Sys(true), acts') && s' == After(Sys(true), InitWith(true), acts')
    ensures s' == s.(devs := OneDevice(St.Returned(true)), api := CloseStatus(0, ToUser))
  {
    var s1 := s.(api := CloseStreams(0, [], ToUser));
    acts' := Then(s, acts, CloseBegin(0), s1);
    var s2 := s.(api := CloseStatus(0, ToUser));
    acts' := Then(s1, acts', CloseNext, s2);
    s', acts' := ThenStatus(s2, acts', St.StopNoTransfer, St.Running, St.Returned(true));
  }

  /** And to its end: the handler thread is killed and joined. */
  lemma CloseOnly(s: State, acts: seq<Action>) returns (s': State, acts': seq<Action>)
    requires IsRun(Sys(true), acts) && s == After(Sys(true), InitWith(true), acts) && s.api.Idle?
    requires s.devs == OneDevice(St.Running) && s.strms == []
    requires s.ctx == Context(true, [0], false, false, [Running], false)
    ensures IsRun(Sys(true), acts') && s' == After(Sys(true), InitWith(true), acts')
    ensures |s'.devs| == 1 && s'.api.Idle? && s'.ctx == Context(true, [], false, true, [Joined], false)
  {
    var s3: State;
    s3, acts' := CloseStart(s, acts);
    var s4 := s3.(api := CloseRelease(0, ToUser));
    acts' := Then(s3, acts', CloseDecide, s4);
    var s5: State;
    s5, acts' := ThenStatus(s4, acts', St.ReleaseControl, St.Returned(true), St.ControlReleased);
    var s6 := s5.(ctx := s.ctx.(kill := true), api := CloseJoin(0, ToUser));
    acts' := Then(s5, acts', CloseKill, s6);
    s', acts' := JoinOnly(s6, acts');
  }

  /** The thread exits and is joined. */
  lemma JoinThread(s: State, acts: seq<Action>) returns (s': State, acts': seq<Action>)
    requires IsRun(Sys(true), acts) && s == After(Sys(true), InitWith(true), acts)
    requires s.api == CloseJoin(0, ToUser) && s.ctx == Context(true, [0], false, true, [Running], false)
    ensures IsRun(Sys(true), acts') && s' == After(Sys(true), InitWith(true), acts')
    ensures s' == s.(ctx := s.ctx.(threads := [Joined]), api := CloseUnlink(0, true, ToUser))
  {
    var s1 := s.(ctx := s.ctx.(threads := [Exited]));
    acts' := Then(s, acts, HandlerExit(0), s1);
    s' := s.(ctx := s.ctx.(threads := [Joined]), api := CloseUnlink(0, true, ToUser));
    acts' := Then(s1, acts', JoinHandler, s');
  }

  /** The end of that close: the thread is joined, the handle is freed. */
  lemma JoinOnly(s: State, acts: seq<Action>) returns (s': State, acts': seq<Action>)
    requires IsRun(Sys(true), acts) && s == After(Sys(true), InitWith(true), acts)
    requires s.devs == OneDevice(St.ControlReleased)
    requires s.api == CloseJoin(0, ToUser) && s.ctx == Context(true, [0], false, true, [Running], false)
    ensures IsRun(Sys(true), acts') && s' == After(Sys(true), InitWith(true), acts')
    ensures |s'.devs| == 1 && s'.api.Idle? && s'.ctx == Context(true, [], false, true, [Joined], false)
  {
    var s2: State;
    s2, acts' := JoinThread(s, acts);
    var s3 := s2.(ctx := s2.ctx.(open := []), api := CloseFree(0, ToUser));
    acts' := Then(s2, acts', Unlink, s3);
    var s4: State;
    s4, acts' := ThenStatus(s3, acts', St.Free, St.ControlReleased, St.Freed);
    s' := s4.(api := Idle);
    acts' := Then(s4, acts', CloseEnd, s');
  }

  /** Open, close, open again: the second device is open and no handler thread runs. */
  lemma ReopenedDeviceUnserved() returns (acts: seq<Action>)
    ensures IsRun(Sys(true), acts)
    ensures var s := At(Sys(true), acts, |acts|);
      s.ctx.open == [1] && s.api.Idle? && forall t :: 0 <= t < |s.ctx.threads| ==> !s.ctx.threads[t].Running?
  {
    var s: State;
    s, acts := OpenOne(InitWith(true), []);
    s, acts := CloseOnly(s, acts);
    s, acts := OpenOne(s, acts);
    s, acts := Extend(Sys(true), s, acts, HandlerExit(1));
    assert acts[..|acts|] == acts;
  }
}
