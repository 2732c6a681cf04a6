/**
 Every call returns: the progress half of the lifetime theorems.  Whatever the event threads and the kernel
 have done so far, the calling thread is never stuck inside uvc_open, a stream call, uvc_close or uvc_exit:
 each of its steps leaves less to do, and from every reachable state there is a way to the call's return.
 */
module Returns {
  import opened Runs
  import opened SeqFacts
  import opened Lifetime
  import St = StatusTransfer
  import Tr = StreamTransfers
  import Sp = StreamProgress

  // ----- where each handle is while a call is under way

  predicate OpenPhase(p: St.ApiPc) {
    || St.BeforeSubmit(p) || p.OpenUnlocking? || p.OpenFailed? || p.Running? || p.ControlReleased? || p.Freed?
  }

  predicate StopPhase(p: St.ApiPc) {
    || p.Running? || p.StopLocked? || p.StopFlagged? || p.StopSampled? || p.StopCancelled? || St.InDrain(p)
    || p.Returned?
  }

  /** A device on the list is open, unless a call is closing it; the call says how far it has come. */
  predicate DeviceFits(api: Api, open: seq<nat>, d: nat, p: St.ApiPc) {
    if api == Opening(d) then OpenPhase(p)
    else if api.CloseStatus? && api.dev == d then StopPhase(p)
    else if api.CloseRelease? && api.dev == d then p == St.Returned(true) || p.ControlReleased?
    else if (api.CloseJoin? || api.CloseUnlink?) && api.dev == d then p.ControlReleased?
    else if api.CloseFree? && api.dev == d then p.ControlReleased? || p.Freed?
    else d in open ==> p.Running?
  }

  predicate InStart(p: Tr.ApiPc) { p.Alloc? || p.Submit? || p.FreeRest? }

  predicate InStopCall(p: Tr.ApiPc) { p.StopCancelling? || p.StopChecking? || p.StopWaiting? || p.StopJoining? }

  /** A linked stream is idle, unless a call works on it. */
  predicate StreamFits(api: Api, m: nat, linked: bool, p: Tr.ApiPc, closing: bool) {
    if api == StreamCall(m) then !closing && (p.Idle? || InStart(p) || InStopCall(p))
    else if api.CloseStream? && api.strm == m then
      !InStart(p) && (InStopCall(p) ==> closing) && (p.Idle? ==> linked && !closing)
    else linked ==> p.Idle? && !closing
  }

  predicate DevFits(s: State, d: nat)
    requires d < |s.devs|
  {
    DeviceFits(s.api, s.ctx.open, d, StatusApi(s, d))
  }

  predicate StrFits(s: State, m: nat)
    requires m < |s.strms|
  {
    StreamFits(s.api, m, Linked(s, m), StreamApi(s, m), s.strms[m].x.closing)
  }

  predicate Fits(s: State) {
    && (forall d :: 0 <= d < |s.devs| ==> DevFits(s, d))
    && (forall m :: 0 <= m < |s.strms| ==> StrFits(s, m))
    && (s.api.CloseJoin? ==> s.ctx.kill)
  }

  lemma StatusStepFits(api: Api, open: seq<nat>, d: nat, st: St.State, sa: St.Action)
    requires St.Legal(st, sa) && (St.IsApi(sa) ==> StatusTurn(api, d, sa)) && DeviceFits(api, open, d, st.api)
    ensures DeviceFits(api, open, d, St.Exec(st, sa).api)
  {
    if !St.IsApi(sa) { St.EventKeepsApi(st, sa); }
  }

  lemma StatusActFits(s: State, d: nat, sa: St.Action)
    requires Fits(s) && Legal(s, StatusAct(d, sa))
    ensures Fits(Exec(s, StatusAct(d, sa)))
  {
    var t := Exec(s, StatusAct(d, sa));
    assert t == s.(devs := s.devs[d := s.devs[d].(status := St.Exec(s.devs[d].status, sa))]);
    forall e | 0 <= e < |t.devs| ensures DevFits(t, e) {
      assert DevFits(s, e);
      if e == d { StatusStepFits(s.api, s.ctx.open, d, s.devs[d].status, sa); }
    }
    forall m | 0 <= m < |t.strms| ensures StrFits(t, m) {
      assert StrFits(s, m) && Linked(t, m) == Linked(s, m);
    }
  }

  lemma StreamStepFits(api: Api, m: nat, linked: bool, x: Tr.State, ta: Tr.Action)
    requires Tr.Legal(x, ta) && StreamFits(api, m, linked, x.api, x.closing)
    requires Tr.IsApi(ta) ==> (api == StreamCall(m) && !ta.CloseBegin?)
                              || (api.CloseStream? && api.strm == m && !ta.StartBegin? && !ta.StopBegin?)
    ensures StreamFits(api, m, linked, Tr.Exec(x, ta).api, Tr.Exec(x, ta).closing)
  {
    if !Tr.IsApi(ta) {
      Tr.EventKeepsApi(x, ta);
      assert Tr.Exec(x, ta).closing == x.closing;
    }
  }

  lemma StreamActFits(s: State, m: nat, ta: Tr.Action)
    requires Fits(s) && Legal(s, StreamAct(m, ta))
    ensures Fits(Exec(s, StreamAct(m, ta)))
  {
    var t := Exec(s, StreamAct(m, ta));
    assert t == s.(strms := s.strms[m := s.strms[m].(x := Tr.Exec(s.strms[m].x, ta))]);
    forall n | 0 <= n < |t.strms| ensures StrFits(t, n) {
      assert StrFits(s, n) && Linked(t, n) == Linked(s, n);
      if n == m { StreamStepFits(s.api, m, Linked(s, m), s.strms[m].x, ta); }
    }
    forall e | 0 <= e < |t.devs| ensures DevFits(t, e) { assert DevFits(s, e); }
  }

  // ----- the steps of the calling thread itself

  predicate IsOwn(a: Action) { !a.StatusAct? && !a.StreamAct? }

  predicate InDevice(a: Action) {
    a.OpenBegin? || a.OpenFinish? || a.OpenAbandon? || a.CloseKill? || a.JoinHandler? || a.Unlink? || a.CloseEnd?
  }

  lemma DecideFits(s: State, d: nat)
    requires ListInv(s) && Legal(s, CloseDecide) && d < |s.devs| && DevFits(s, d)
    ensures DevFits(Exec(s, CloseDecide), d)
  {
    WithoutMembers(s.ctx.open, s.api.dev, d);
  }

  lemma DeviceStepFits(s: State, a: Action, d: nat)
    requires CoreInv(s) && Legal(s, a) && InDevice(a) && d < |Exec(s, a).devs| && (d < |s.devs| ==> DevFits(s, d))
    ensures DevFits(Exec(s, a), d)
  {
    if a.Unlink? { WithoutMembers(s.ctx.open, s.api.dev, d); }
    if d < |s.devs| { assert DeviceInv(s, d); }
  }

  lemma OtherStepFits(s: State, a: Action, d: nat)
    requires CallInv(s) && Legal(s, a) && IsOwn(a) && !InDevice(a) && !a.CloseDecide?
    requires d < |s.devs| && DevFits(s, d)
    ensures d < |Exec(s, a).devs| && DevFits(Exec(s, a), d)
  {
  }

  lemma DevicesFit(s: State, a: Action, d: nat)
    requires CoreInv(s) && Fits(s) && Legal(s, a) && IsOwn(a) && d < |Exec(s, a).devs|
    ensures DevFits(Exec(s, a), d)
  {
    if a.CloseDecide? { DecideFits(s, d); }
    else if InDevice(a) { DeviceStepFits(s, a, d); }
    else { OtherStepFits(s, a, d); }
  }

  lemma UnlinkFits(s: State, m: nat)
    requires ListInv(s) && Legal(s, UnlinkStream) && m < |s.strms| && StrFits(s, m)
    ensures StrFits(Exec(s, UnlinkStream), m)
  {
    var d := s.strms[s.api.strm].dev;
    assert NoDup(s.devs[d].streams);
    WithoutMembers(s.devs[d].streams, s.api.strm, m);
  }

  predicate InStream(a: Action) {
    a.CallStream? || a.EndStreamCall? || a.CloseStreamBegin? || a.CloseStreamEnd? || a.CloseNext?
  }

  lemma StreamCallFits(s: State, a: Action, m: nat)
    requires CallInv(s) && ListInv(s) && Legal(s, a) && InStream(a) && m < |s.strms| && StrFits(s, m)
    ensures m < |Exec(s, a).strms| && StrFits(Exec(s, a), m)
  {
    assert Linked(Exec(s, a), m) == Linked(s, m);
  }

  lemma StreamOpenFits(s: State, d: nat, iface: nat, slots: nat, m: nat)
    requires Legal(s, StreamOpen(d, iface, slots)) && m <= |s.strms| && (m < |s.strms| ==> StrFits(s, m))
    ensures m < |Exec(s, StreamOpen(d, iface, slots)).strms| && StrFits(Exec(s, StreamOpen(d, iface, slots)), m)
  {
  }

  lemma OtherFits(s: State, a: Action, m: nat)
    requires ListInv(s) && Legal(s, a) && IsOwn(a) && !InStream(a) && !a.UnlinkStream? && !a.StreamOpen?
    requires m < |s.strms| && s.strms[m].dev < |s.devs| && StrFits(s, m)
    ensures m < |Exec(s, a).strms| && StrFits(Exec(s, a), m)
  {
    assert Linked(Exec(s, a), m) == Linked(s, m);
  }

  lemma StreamsFit(s: State, a: Action, m: nat)
    requires CoreInv(s) && Fits(s) && Legal(s, a) && IsOwn(a) && m < |Exec(s, a).strms|
    ensures StrFits(Exec(s, a), m)
  {
    if a.StreamOpen? { StreamOpenFits(s, a.dev, a.iface, a.slots, m); }
    else if a.UnlinkStream? { UnlinkFits(s, m); }
    else if InStream(a) { StreamCallFits(s, a, m); }
    else { OtherFits(s, a, m); }
  }

  lemma KillFits(s: State, a: Action)
    requires Legal(s, a) && (s.api.CloseJoin? ==> s.ctx.kill)
    ensures Exec(s, a).api.CloseJoin? ==> Exec(s, a).ctx.kill
  {
  }

  lemma FitsKept(s: State, a: Action)
    requires Inv(s) && Fits(s) && Legal(s, a)
    ensures Fits(Exec(s, a))
  {
    if a.StatusAct? {
      StatusActFits(s, a.dev, a.sa);
    } else if a.StreamAct? {
      StreamActFits(s, a.strm, a.ta);
    } else {
      var t := Exec(s, a);
      forall d | 0 <= d < |t.devs| ensures DevFits(t, d) { DevicesFit(s, a, d); }
      forall m | 0 <= m < |t.strms| ensures StrFits(t, m) { StreamsFit(s, a, m); }
      KillFits(s, a);
    }
  }

  ghost predicate Threads(s: State) { forall m :: 0 <= m < |s.strms| ==> Sp.ThreadInv(s.strms[m].x) }

  lemma ThreadsKept(s: State, a: Action)
    requires PartsInv(s) && Threads(s) && Legal(s, a)
    ensures Threads(Exec(s, a))
  {
    var t := Exec(s, a);
    if a.StreamAct? {
      Sp.ThreadKept(s.strms[a.strm].x, a.ta);
    } else if a.StreamOpen? {
      assert t.strms == s.strms + [Stream(a.dev, a.iface, Tr.InitWith(a.slots))];
    } else {
      assert t.strms == s.strms;
    }
  }

  ghost predicate Ready(s: State) { Fits(s) && Threads(s) }

  lemma ReadyAt(own: bool, acts: seq<Action>, k: nat)
    requires IsRun(Sys(own), acts) && k <= |acts|
    ensures Inv(At(Sys(own), acts, k)) && Ready(At(Sys(own), acts, k))
  {
    InvIsInductive(own);
    InvAt(own, acts, k);
    forall s, a | Inv(s) && Ready(s) && Legal(s, a) ensures Ready(Exec(s, a)) {
      FitsKept(s, a);
      ThreadsKept(s, a);
    }
    assert At(Sys(own), acts, 0) == InitWith(own);
    StaysTrue(Sys(own), Inv, Ready, acts, 0, k);
  }

  // ----- no call is stuck

  /** The next step of the calling thread, for some outcome of what it calls. */
  function Next(s: State): Action {
    match s.api
    case Opening(d) =>
      if d >= |s.devs| || StatusApi(s, d).Freed? then OpenAbandon
      else if StatusApi(s, d).Running? then OpenFinish
      else StatusAct(d, St.NextApi(s.devs[d].status))
    case StreamCall(m) =>
      if m < |s.strms| && Sp.InCall(StreamApi(s, m)) then StreamAct(m, Sp.Next(s.strms[m].x)) else EndStreamCall
    case CloseStream(m, _) =>
      if m >= |s.strms| then CloseStreamEnd
      else if StreamApi(s, m).Idle? then StreamAct(m, Tr.CloseBegin)
      else if Linked(s, m) && (StreamApi(s, m).Quarantined? || StreamApi(s, m).Releasing?) then UnlinkStream
      else if Sp.InCall(StreamApi(s, m)) then StreamAct(m, Sp.Next(s.strms[m].x))
      else CloseStreamEnd
    case CloseStreams(_, _, _) => CloseNext
    case CloseStatus(d, _) =>
      if d < |s.devs| && !StatusApi(s, d).Returned? then StatusAct(d, St.NextApi(s.devs[d].status)) else CloseDecide
    case CloseRelease(d, _) =>
      if d < |s.devs| && !StatusApi(s, d).ControlReleased? then StatusAct(d, St.ReleaseControl) else CloseKill
    case CloseJoin(_, _) => JoinHandler
    case CloseUnlink(_, _, _) => Unlink
    case CloseFree(d, _) =>
      if d < |s.devs| && !StatusApi(s, d).Freed? then StatusAct(d, St.Free) else CloseEnd
    case Exiting(rest) => if rest == [] then ExitFinish else ExitNext
    case Idle | Gone => OpenBegin
  }

  /** The step of another thread that the calling thread may have to wait for. */
  function Awaited(s: State): Action {
    match s.api
    case StreamCall(m) => StreamAct(m, Tr.UserExit)
    case CloseStream(m, _) => StreamAct(m, Tr.UserExit)
    case CloseStatus(d, _) => if d < |s.devs| then StatusAct(d, St.NextEvent(s.devs[d].status)) else OpenBegin
    case _ => if s.ctx.threads != [] then HandlerExit(|s.ctx.threads| - 1) else OpenBegin
  }

  predicate InCall(api: Api) { !api.Idle? && !api.Gone? }

  lemma OpenGoesOn(st: St.State)
    requires OpenPhase(st.api) && !st.api.Running? && !st.api.Freed?
    ensures var a := St.NextApi(st);
      St.Legal(st, a) && St.IsApi(a) && (St.IsOpen(a) || a.ReleaseControl? || a.Free?)
  {
  }

  lemma StopGoesOn(st: St.State)
    requires St.Inv(st) && StopPhase(st.api) && !st.api.Returned?
    ensures var a := St.NextApi(st); St.IsApi(a) && !St.IsOpen(a) && !a.ReleaseControl? && !a.Free?
    ensures St.Legal(st, St.NextApi(st)) || (St.EventHolds(st.ev) && St.Legal(st, St.NextEvent(st)))
    ensures !St.IsApi(St.NextEvent(st))
  {
    St.ApiNotStuck(st);
    if St.EventHolds(st.ev) { St.HolderNotStuck(st); }
  }

  lemma OpeningGoesOn(s: State)
    requires CallInv(s) && Fits(s) && s.api.Opening?
    ensures Legal(s, Next(s))
  {
    assert DevFits(s, s.api.dev);
    var st := s.devs[s.api.dev].status;
    if !st.api.Running? && !st.api.Freed? { OpenGoesOn(st); }
  }

  lemma CloseStatusGoesOn(s: State)
    requires CallInv(s) && Fits(s) && s.api.CloseStatus? && St.Inv(s.devs[s.api.dev].status)
    ensures Legal(s, Next(s)) || Legal(s, Awaited(s))
  {
    assert DevFits(s, s.api.dev);
    var st := s.devs[s.api.dev].status;
    if !st.api.Returned? { StopGoesOn(st); }
  }

  lemma ReleaseGoesOn(s: State)
    requires CallInv(s) && Fits(s) && (s.api.CloseRelease? || s.api.CloseFree?)
    ensures Legal(s, Next(s))
  {
    assert DevFits(s, s.api.dev);
  }

  lemma StreamCallGoesOn(s: State, m: nat)
    requires Inv(s) && Ready(s) && s.api == StreamCall(m)
    ensures Legal(s, Next(s)) || Legal(s, Awaited(s))
  {
    assert StrFits(s, m) && StreamInv(s, m) && Tr.Inv(s.strms[m].x) && Sp.ThreadInv(s.strms[m].x);
    if Sp.InCall(StreamApi(s, m)) { Sp.NextIsLegal(s.strms[m].x); }
  }

  lemma StreamCloseGoesOn(s: State, m: nat)
    requires m < |s.strms| && s.strms[m].dev < |s.devs| && InClose(s, m)
    requires StrFits(s, m) && StreamInv(s, m) && Tr.Inv(s.strms[m].x) && Sp.ThreadInv(s.strms[m].x)
    ensures Legal(s, Next(s)) || Legal(s, Awaited(s))
  {
    if Sp.InCall(StreamApi(s, m)) { Sp.NextIsLegal(s.strms[m].x); }
  }

  lemma OtherCallGoesOn(s: State)
    requires CoreInv(s) && (s.api.CloseJoin? ==> s.ctx.kill)
    requires s.api.CloseStreams? || s.api.CloseJoin? || s.api.CloseUnlink? || s.api.Exiting?
    ensures Legal(s, Next(s)) || Legal(s, Awaited(s))
  {
    if s.api.Exiting? && s.api.rest != [] { assert s.api.rest[0] in s.ctx.open; }
  }

  lemma GoesOn(s: State)
    requires Inv(s) && Ready(s) && InCall(s.api)
    ensures Legal(s, Next(s)) || Legal(s, Awaited(s))
  {
    if s.api.StreamCall? {
      StreamCallGoesOn(s, s.api.strm);
    } else if s.api.CloseStream? {
      StreamCloseGoesOn(s, s.api.strm);
    } else if s.api.Opening? {
      OpeningGoesOn(s);
    } else if s.api.CloseStatus? {
      CloseStatusGoesOn(s);
    } else if s.api.CloseRelease? || s.api.CloseFree? {
      ReleaseGoesOn(s);
    } else {
      OtherCallGoesOn(s);
    }
  }

  /**
   No deadlock: whenever a call is under way its next step can be made, or the one step it waits for can: the
   status callback that holds the mutex goes on, the callback thread exits, or the handler thread does.
   */
  lemma NeverStuck(own: bool, acts: seq<Action>, k: nat)
    requires IsRun(Sys(own), acts) && k <= |acts| && InCall(At(Sys(own), acts, k).api)
    ensures var s := At(Sys(own), acts, k); Legal(s, Next(s)) || Legal(s, Awaited(s))
  {
    ReadyAt(own, acts, k);
    GoesOn(At(Sys(own), acts, k));
  }

  // ----- every step leaves less to do

  function AfterThis(ret: Return): nat { if ret.ToExit? then |ret.rest| else 0 }

  /** Devices uvc_exit has still to close after this one. */
  function DevicesLeft(api: Api): nat {
    match api
    case CloseStream(_, ToClose(_, _, ret)) => AfterThis(ret)
    case CloseStreams(_, _, ret) => AfterThis(ret)
    case CloseStatus(_, ret) => AfterThis(ret)
    case CloseRelease(_, ret) => AfterThis(ret)
    case CloseJoin(_, ret) => AfterThis(ret)
    case CloseUnlink(_, _, ret) => AfterThis(ret)
    case CloseFree(_, ret) => AfterThis(ret)
    case Exiting(rest) => |rest|
    case _ => 0
  }

  /** Where uvc_close has got to with this one. */
  function StagesLeft(api: Api): nat {
    match api
    case CloseStream(_, ToClose(_, _, _)) => 8
    case CloseStreams(_, _, _) => 8
    case CloseStatus(_, _) => 7
    case CloseRelease(_, _) => 6
    case CloseJoin(_, _) => 5
    case CloseUnlink(_, _, _) => 4
    case CloseFree(_, _) => 3
    case CloseStream(_, ToCaller) => 2
    case Opening(_) | StreamCall(_) => 2
    case Exiting(_) => 1
    case Idle | Gone => 0
  }

  /** Its streams that are still to be closed. */
  function StreamsLeft(api: Api): nat {
    match api
    case CloseStream(_, ToClose(_, rest, _)) => 2 * |rest| + 1
    case CloseStreams(_, rest, _) => 2 * |rest|
    case _ => 0
  }

  /** What is left of the call on the one transfer or stream at hand. */
  function StepsLeft(s: State): nat {
    match s.api
    case Opening(d) => if d < |s.devs| then St.ApiLeft(s.devs[d].status) else 0
    case CloseStatus(d, _) => if d < |s.devs| then St.ApiLeft(s.devs[d].status) else 0
    case CloseRelease(d, _) => if d < |s.devs| then St.ApiLeft(s.devs[d].status) else 0
    case CloseFree(d, _) => if d < |s.devs| then St.ApiLeft(s.devs[d].status) else 0
    case StreamCall(m) => if m < |s.strms| then Sp.CallLeft(StreamApi(s, m)) else 0
    case CloseStream(m, _) =>
      if m >= |s.strms| then 0
      else if StreamApi(s, m).Idle? then 40
      else 2 * Sp.CallLeft(StreamApi(s, m)) + if Linked(s, m) then 1 else 0
    case _ => 0
  }

  /** Lexicographic, as nested as the calls are. */
  predicate Less(t: State, s: State) {
    || DevicesLeft(t.api) < DevicesLeft(s.api)
    || (DevicesLeft(t.api) == DevicesLeft(s.api)
        && (|| StagesLeft(t.api) < StagesLeft(s.api)
            || (StagesLeft(t.api) == StagesLeft(s.api)
                && (|| StreamsLeft(t.api) < StreamsLeft(s.api)
                    || (StreamsLeft(t.api) == StreamsLeft(s.api) && StepsLeft(t) < StepsLeft(s))))))
  }

  /** The steps of the calling thread. */
  predicate IsCall(a: Action) {
    !a.HandlerExit? && (a.StatusAct? ==> St.IsApi(a.sa)) && (a.StreamAct? ==> Tr.IsApi(a.ta))
  }

  /** The application starts or stops the stream it has called. */
  predicate BeginsStreamCall(a: Action) { a.StreamAct? && (a.ta.StartBegin? || a.ta.StopBegin?) }

  predicate Wakes(a: Action) { a.StreamAct? && a.ta.StopWake? }

  lemma StatusActLess(s: State, d: nat, sa: St.Action)
    requires d < |s.devs| && St.Inv(s.devs[d].status) && Legal(s, StatusAct(d, sa)) && St.IsApi(sa)
    ensures Less(Exec(s, StatusAct(d, sa)), s)
  {
    St.ApiGetsOn(s.devs[d].status, sa);
  }

  lemma StreamActLess(s: State, m: nat, ta: Tr.Action)
    requires m < |s.strms| && Tr.Inv(s.strms[m].x) && StrFits(s, m) && Legal(s, StreamAct(m, ta)) && Tr.IsApi(ta)
    requires !ta.StartBegin? && !ta.StopBegin? && !ta.StopWake?
    ensures Less(Exec(s, StreamAct(m, ta)), s)
  {
    var t := Exec(s, StreamAct(m, ta));
    assert t.api == s.api && (m < |t.strms|) && Linked(t, m) == Linked(s, m);
    if !ta.CloseBegin? { Sp.CallGetsOn(s.strms[m].x, ta); }
  }

  lemma UnlinkLess(s: State)
    requires ListInv(s) && Legal(s, UnlinkStream)
    ensures Less(Exec(s, UnlinkStream), s)
  {
    var m := s.api.strm;
    var d := s.strms[m].dev;
    assert NoDup(s.devs[d].streams);
    WithoutMembers(s.devs[d].streams, m, m);
  }

  lemma OwnLess(s: State, a: Action)
    requires InCall(s.api) && Legal(s, a) && IsOwn(a) && !a.UnlinkStream? && !a.HandlerExit?
    ensures Less(Exec(s, a), s)
  {
  }

  /** Every step of a call but the wake-up of a wait leaves less to do. */
  lemma CallStepLess(s: State, a: Action)
    requires Inv(s) && Fits(s) && InCall(s.api) && Legal(s, a) && IsCall(a) && !BeginsStreamCall(a) && !Wakes(a)
    ensures Less(Exec(s, a), s)
  {
    if a.StatusAct? { StatusActLess(s, a.dev, a.sa); }
    else if a.StreamAct? { StreamActLess(s, a.strm, a.ta); }
    else if a.UnlinkStream? { UnlinkLess(s); }
    else { OwnLess(s, a); }
  }

  // ----- so every call can return

  /** How many steps of a status callback are left until it drops the mutex. */
  function EventLeft(ev: St.EventPc): nat {
    match ev
    case DecideLocked => 3
    case TermLocked | SubmitRefused | ClearLocked => 2
    case Leaving => 1
    case _ => 0
  }

  /** How long the calling thread may have to wait where it is. */
  function WaitLeft(s: State): nat {
    match s.api
    case StreamCall(m) => if m < |s.strms| then Tr.UserRank(s.strms[m].x) else 0
    case CloseStream(m, _) => if m < |s.strms| then Tr.UserRank(s.strms[m].x) else 0
    case CloseStatus(d, _) => if d < |s.devs| then EventLeft(s.devs[d].status.ev) else 0
    case _ => if Unjoined(s.ctx) && s.ctx.threads[|s.ctx.threads| - 1].Running? then 1 else 0
  }

  predicate SameLeft(t: State, s: State) { t.api == s.api && StepsLeft(t) == StepsLeft(s) }

  lemma EventStepIs(st: St.State)
    requires St.EventHolds(st.ev)
    ensures var t := St.Exec(st, St.NextEvent(st));
      t.api == st.api && t.polls == st.polls && EventLeft(t.ev) < EventLeft(st.ev)
  {
  }

  lemma ApiLeftIs(st: St.State, t: St.State)
    requires t.api == st.api && t.polls == st.polls
    ensures St.ApiLeft(t) == St.ApiLeft(st)
  {
  }

  lemma AwaitStatus(s: State)
    requires CallInv(s) && Fits(s) && s.api.CloseStatus? && St.Inv(s.devs[s.api.dev].status) && !Legal(s, Next(s))
    ensures Legal(s, Awaited(s))
    ensures var t := Exec(s, Awaited(s)); SameLeft(t, s) && WaitLeft(t) < WaitLeft(s)
  {
    assert DevFits(s, s.api.dev);
    var st := s.devs[s.api.dev].status;
    if !st.api.Returned? {
      StopGoesOn(st);
      EventStepIs(st);
      ApiLeftIs(st, St.Exec(st, St.NextEvent(st)));
    }
  }

  lemma AwaitUser(s: State)
    requires (s.api.StreamCall? || s.api.CloseStream?) && Legal(s, Awaited(s))
    ensures var t := Exec(s, Awaited(s)); SameLeft(t, s) && WaitLeft(t) < WaitLeft(s)
  {
    var m, t := s.api.strm, Exec(s, Awaited(s));
    assert Linked(t, m) == Linked(s, m);
  }

  lemma AwaitHandler(s: State)
    requires InCall(s.api) && !s.api.StreamCall? && !s.api.CloseStream? && !s.api.CloseStatus?
    requires Legal(s, Awaited(s))
    ensures var t := Exec(s, Awaited(s)); SameLeft(t, s) && WaitLeft(t) < WaitLeft(s)
  {
    var t := Exec(s, Awaited(s));
    assert t.devs == s.devs && t.strms == s.strms && t.api == s.api;
  }

  lemma Awaits(s: State)
    requires Inv(s) && Ready(s) && InCall(s.api) && !Legal(s, Next(s))
    ensures Legal(s, Awaited(s)) && !BeginsStreamCall(Awaited(s))
    ensures var t := Exec(s, Awaited(s)); SameLeft(t, s) && WaitLeft(t) < WaitLeft(s)
  {
    GoesOn(s);
    if s.api.CloseStatus? { AwaitStatus(s); }
    else if s.api.StreamCall? || s.api.CloseStream? { AwaitUser(s); }
    else { AwaitHandler(s); }
  }

  lemma NextIsCall(s: State)
    requires InCall(s.api) && Legal(s, Next(s))
    ensures IsCall(Next(s)) && !BeginsStreamCall(Next(s)) && !Wakes(Next(s))
  {
  }

  /** Less is left to do, or as much and less to wait for. */
  predicate Nearer(t: State, s: State) { Less(t, s) || (SameLeft(t, s) && WaitLeft(t) < WaitLeft(s)) }

  lemma OneNearer(s: State) returns (a: Action)
    requires Inv(s) && Ready(s) && InCall(s.api)
    ensures Legal(s, a) && !BeginsStreamCall(a) && Nearer(Exec(s, a), s)
  {
    if Legal(s, Next(s)) {
      a := Next(s);
      NextIsCall(s);
      CallStepLess(s, a);
    } else {
      a := Awaited(s);
      Awaits(s);
    }
  }

  lemma NearerBy(own: bool, s: State, acts: seq<Action>) returns (a: Action)
    requires IsRun(Sys(own), acts) && s == After(Sys(own), InitWith(own), acts) && InCall(s.api)
    ensures IsRun(Sys(own), acts + [a]) && Exec(s, a) == After(Sys(own), InitWith(own), acts + [a])
    ensures !BeginsStreamCall(a) && Nearer(Exec(s, a), s)
  {
    assert acts[..|acts|] == acts;
    ReadyAt(own, acts, |acts|);
    a := OneNearer(s);
    var _, _ := Extend(Sys(own), s, acts, a);
  }

  /** The application begins nothing from step i on. */
  predicate OnlyThisCall(acts: seq<Action>, i: nat) { forall n :: i <= n < |acts| ==> !BeginsStreamCall(acts[n]) }

  lemma OneEarlier(acts: seq<Action>, a: Action, more: seq<Action>)
    requires |acts| < |more| && more[..|acts| + 1] == acts + [a]
    requires OnlyThisCall(more, |acts| + 1) && !BeginsStreamCall(a)
    ensures OnlyThisCall(more, |acts|) && more[..|acts|] == acts
  {
    assert more[|acts|] == (acts + [a])[|acts|];
    assert more[..|acts|] == (acts + [a])[..|acts|];
  }

  /**
   From every reachable state the call that is under way can return, with steps of its own and those it
   waits for: whatever transfers are pending or hang, none of uvc_open, uvc_stream_start, uvc_stream_stop,
   uvc_stream_close, uvc_close and uvc_exit can be left without a way out.
   */
  lemma {:induction false} CanReturn(own: bool, s: State, acts: seq<Action>) returns (s': State, acts': seq<Action>)
    requires IsRun(Sys(own), acts) && s == After(Sys(own), InitWith(own), acts)
    ensures IsRun(Sys(own), acts') && s' == After(Sys(own), InitWith(own), acts') && !InCall(s'.api)
    ensures |acts| <= |acts'| && acts'[..|acts|] == acts
    ensures OnlyThisCall(acts', |acts|)
    decreases DevicesLeft(s.api), StagesLeft(s.api), StreamsLeft(s.api), StepsLeft(s), WaitLeft(s)
  {
    s', acts' := s, acts;
    if InCall(s.api) {
      var a := NearerBy(own, s, acts);
      s', acts' := CanReturn(own, Exec(s, a), acts + [a]);
      OneEarlier(acts, a, acts');
    }
  }

  // ----- what a call has done when it returns

  datatype Job = OpenJob(dev: nat) | CloseStreamJob(strm: nat) | CloseJob(dev: nat) | ExitJob

  /** The call of the application that does this job begins with step a. */
  predicate Begins(s: State, a: Action, j: Job) {
    match j
    case OpenJob(d) => a.OpenBegin? && d == |s.devs|
    case CloseStreamJob(m) => a == CloseStreamBegin(m)
    case CloseJob(d) => a == CloseBegin(d)
    case ExitJob => a.ExitBegin?
  }

  /** The device that is being closed and where that returns to, if one is. */
  function ClosesDevice(api: Api): Option<(nat, Return)> {
    match api
    case CloseStream(_, ToClose(d, _, ret)) => Some((d, ret))
    case CloseStreams(d, _, ret) => Some((d, ret))
    case CloseStatus(d, ret) => Some((d, ret))
    case CloseRelease(d, ret) => Some((d, ret))
    case CloseJoin(d, ret) => Some((d, ret))
    case CloseUnlink(d, _, ret) => Some((d, ret))
    case CloseFree(d, ret) => Some((d, ret))
    case _ => None
  }

  predicate Working(api: Api, j: Job) {
    match j
    case OpenJob(d) => api == Opening(d)
    case CloseStreamJob(m) => api == CloseStream(m, ToCaller)
    case CloseJob(d) => ClosesDevice(api) == Some((d, ToUser))
    case ExitJob => api.Exiting? || (ClosesDevice(api).Some? && ClosesDevice(api).value.1.ToExit?)
  }

  /** The device is freed, or kept back and the context knows. */
  predicate DeviceClosed(s: State, d: nat) {
    && d < |s.devs| && d !in s.ctx.open && s.devs[d].streams == []
    && (StatusApi(s, d).Freed? || (s.ctx.quarantined && (s.devs[d].qStream || s.devs[d].qStatus)))
  }

  predicate Done(s: State, j: Job) {
    match j
    case OpenJob(d) =>
      d < |s.devs| && if d in s.ctx.open then StatusApi(s, d).Running? else StatusApi(s, d).Freed?
    case CloseStreamJob(m) =>
      m < |s.strms| && !Linked(s, m) && (StreamApi(s, m).HandleFreed? || StreamApi(s, m).Quarantined?)
    case CloseJob(d) => DeviceClosed(s, d)
    case ExitJob => s.api.Gone? && s.ctx.open == [] && (s.ctx.freed <==> !s.ctx.quarantined)
  }

  lemma OpenWorks(s: State, a: Action, d: nat)
    requires CoreInv(s) && Legal(s, a) && s.api == Opening(d)
    ensures var t := Exec(s, a); t.api == Opening(d) || (t.api.Idle? && Done(t, OpenJob(d)))
  {
    assert DeviceInv(s, d);
  }

  lemma CloseStreamWorks(s: State, a: Action, m: nat)
    requires Legal(s, a) && s.api == CloseStream(m, ToCaller)
    ensures var t := Exec(s, a); t.api == s.api || (t.api.Idle? && Done(t, CloseStreamJob(m)))
  {
  }

  /** A close of a device goes on until the device is off the list, and then to its caller. */
  lemma CloseGoesBack(s: State, a: Action, d: nat, ret: Return)
    requires CoreInv(s) && Legal(s, a) && ClosesDevice(s.api) == Some((d, ret))
    ensures var t := Exec(s, a);
      ClosesDevice(t.api) == Some((d, ret)) || (t.api == Back(ret) && d !in t.ctx.open && d < |t.devs|)
  {
    if a.CloseDecide? || a.Unlink? { WithoutMembers(s.ctx.open, s.api.dev, s.api.dev); }
  }

  lemma ClosedNow(s: State, d: nat)
    requires CoreInv(s) && d < |s.devs| && d !in s.ctx.open && s.api.Idle?
    ensures DeviceClosed(s, d)
  {
    assert DeviceInv(s, d);
  }

  lemma ExitWorks(s: State, a: Action)
    requires CoreInv(s) && Legal(s, a) && s.api.Exiting?
    ensures var t := Exec(s, a); Working(t.api, ExitJob) || (t.api.Gone? && Done(t, ExitJob))
  {
  }

  /** The call is still at it, or has returned with the job done. */
  predicate OnTheJob(s: State, j: Job) { Working(s.api, j) || (!InCall(s.api) && Done(s, j)) }

  lemma JobStep(s: State, a: Action, j: Job)
    requires Inv(s) && Legal(s, a) && InCall(s.api) && OnTheJob(s, j)
    ensures OnTheJob(Exec(s, a), j)
  {
    match j
    case OpenJob(d) => OpenWorks(s, a, d);
    case CloseStreamJob(m) => CloseStreamWorks(s, a, m);
    case CloseJob(d) =>
      CloseGoesBack(s, a, d, ToUser);
      if Exec(s, a).api.Idle? {
        InvKept(s, a);
        ClosedNow(Exec(s, a), d);
      }
    case ExitJob =>
      if s.api.Exiting? {
        ExitWorks(s, a);
      } else {
        CloseGoesBack(s, a, ClosesDevice(s.api).value.0, ClosesDevice(s.api).value.1);
      }
  }

  lemma JobStepAt(own: bool, acts: seq<Action>, k: nat, j: Job)
    requires IsRun(Sys(own), acts) && k < |acts|
    requires InCall(At(Sys(own), acts, k).api) && OnTheJob(At(Sys(own), acts, k), j)
    ensures OnTheJob(At(Sys(own), acts, k + 1), j)
  {
    AtStep(Sys(own), acts, k);
    InvAt(own, acts, k);
    JobStep(At(Sys(own), acts, k), acts[k], j);
  }

  lemma JobBegins(s: State, a: Action, j: Job)
    requires Legal(s, a) && Begins(s, a, j)
    ensures OnTheJob(Exec(s, a), j)
  {
  }

  /**
   In every run, a call that has returned has done its job: an open device is on the list or freed again, a
   closed stream is unlinked and freed or quarantined, a closed device is off the list with no stream left
   and freed or quarantined, and after uvc_exit no device is open and the context is freed unless quarantined.
   */
  lemma {:induction false} ReturnedIsDone(own: bool, acts: seq<Action>, i: nat, k: nat, j: Job)
    requires IsRun(Sys(own), acts) && i < k <= |acts| && Begins(At(Sys(own), acts, i), acts[i], j)
    requires forall n :: i < n < k ==> InCall(At(Sys(own), acts, n).api)
    ensures OnTheJob(At(Sys(own), acts, k), j)
    decreases k
  {
    if i == k - 1 {
      AtStep(Sys(own), acts, i);
      JobBegins(At(Sys(own), acts, i), acts[i], j);
    } else {
      ReturnedIsDone(own, acts, i, k - 1, j);
      JobStepAt(own, acts, k - 1, j);
    }
  }
}
