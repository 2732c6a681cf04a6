/**
 The VideoControl status interrupt transfer of one device handle, from uvc_open to the
 free of the handle, as a labelled transition system.  Every statement that takes or drops
 `status_mutex`, reads or writes one of the two flags, or enters libusb is a step of its own;
 the mutex holder is part of the state, so mutual exclusion is proved and not assumed.
 The actors are the API thread (open, stop, close), libusb's event thread (the completion
 callback) and the kernel (completion of a submitted URB).
 */
module StatusTransfer {
  import opened Runs
  import opened Usb

  const STOP_TIMEOUT_MS: nat := 500
  const STOP_POLL_MS: nat := 2

  datatype Holder = Nobody | ApiThread | EventThread

  /** Where the URB is: with the kernel, completed but not yet called back, or with nobody. */
  datatype Urb = Idle | InFlight | Done(status: UsbStatus)

  /** Program counter of the event thread inside _uvc_status_callback. */
  datatype EventPc =
    | Outside
    | Entered(status: UsbStatus)
    | TermLocked                    // terminal status, mutex held, flag not yet cleared
    | Processed                     // non-terminal status, payload handled, mutex wanted
    | DecideLocked                  // mutex held, `stopping` not yet tested
    | SubmitRefused                 // mutex held, libusb refused the resubmission
    | ClearLocked                   // mutex held, `stopping` seen
    | Leaving                       // mutex held, only the unlock is left

  /** Program counter of the API thread. */
  datatype ApiPc =
    | Opening
    | OpenLocked | OpenMarked | OpenRefused | OpenUnlocking(ok: bool)
    | OpenFailed
    | Running
    | StopLocked | StopFlagged | StopSampled | StopCancelled
    | Draining                      // loop test of the bounded wait
    | Slept | DrainLocked | DrainSampled
    | Returned(stopped: bool)
    | ControlReleased
    | Freed

  datatype State = State(
    hasTransfer: bool,                  // the handle has a status transfer
    submitted: bool,
    stopping: bool,
    holder: Holder,
    urb: Urb,
    ev: EventPc,
    api: ApiPc,
    sample: bool,                   // the stopping thread's local copy of `submitted`
    waited: nat,                    // its `waited_ms`
    polls: nat                      // how often it has slept
  )

  const Init := State(false, false, false, Nobody, Idle, Outside, Opening, false, 0, 0)

  datatype Action =
    // API thread: uvc_open_internal
    | OpenFailEarly | NoEndpoint | AllocTransfer | OpenMark | OpenSubmit(ok: bool) | OpenUnmark | OpenUnlock
    // API thread: uvc_stop_status_xfer
    | StopNoTransfer | StopLock | StopFlag | StopSample | StopCancel(found: bool) | StopUnlock
    | DrainSleep | DrainLock | DrainSample | DrainUnlock | DrainReturn
    // API thread: the rest of uvc_close, or the failure path of uvc_open_internal
    | ReleaseControl | Free
    // event thread
    | Enter | TermLock | TermClear | Process | DecideLock | DecideStop | Resubmit(ok: bool)
    | RefusedClear | StopClear | Unlock
    // kernel
    | Complete(status: UsbStatus)

  predicate IsApi(a: Action) {
    match a
    case OpenFailEarly | NoEndpoint | AllocTransfer | OpenMark | OpenSubmit(_) | OpenUnmark | OpenUnlock
       | StopNoTransfer | StopLock | StopFlag | StopSample | StopCancel(_) | StopUnlock
       | DrainSleep | DrainLock | DrainSample | DrainUnlock | DrainReturn
       | ReleaseControl | Free => true
    case _ => false
  }

  /** The actions that hand the URB to the kernel. */
  predicate IsSubmit(a: Action) { (a.OpenSubmit? && a.ok) || (a.Resubmit? && a.ok) }

  predicate Legal(s: State, a: Action) {
    match a
    case OpenFailEarly => s.api.Opening?    // descriptors unreadable, or the claim or the alloc failed
    case NoEndpoint => s.api.Opening? && !s.hasTransfer
    case AllocTransfer => s.api.Opening? && !s.hasTransfer && s.holder.Nobody?
    case OpenMark => s.api.OpenLocked?
    case OpenSubmit(_) => s.api.OpenMarked?
    case OpenUnmark => s.api.OpenRefused?
    case OpenUnlock => s.api.OpenUnlocking?
    case StopNoTransfer => s.api.Running? && !s.hasTransfer
    case StopLock => s.api.Running? && s.hasTransfer && s.holder.Nobody?
    case StopFlag => s.api.StopLocked?
    case StopSample => s.api.StopFlagged?
    case StopCancel(_) => s.api.StopSampled? && s.sample
    case StopUnlock => s.api.StopCancelled? || (s.api.StopSampled? && !s.sample)
    case DrainSleep => s.api.Draining? && s.sample && s.waited < STOP_TIMEOUT_MS
    case DrainLock => s.api.Slept? && s.holder.Nobody?
    case DrainSample => s.api.DrainLocked?
    case DrainUnlock => s.api.DrainSampled?
    case DrainReturn => s.api.Draining? && !(s.sample && s.waited < STOP_TIMEOUT_MS)
    case ReleaseControl => s.api == Returned(true) || s.api.OpenFailed?
    case Free => s.api.ControlReleased?
    case Enter => s.urb.Done? && s.ev.Outside?
    case TermLock => s.ev.Entered? && Terminal(s.ev.status) && s.holder.Nobody?
    case TermClear => s.ev.TermLocked?
    case Process => s.ev.Entered? && !Terminal(s.ev.status)
    case DecideLock => s.ev.Processed? && s.holder.Nobody?
    case DecideStop => s.ev.DecideLocked? && s.stopping
    case Resubmit(_) => s.ev.DecideLocked? && !s.stopping
    case RefusedClear => s.ev.SubmitRefused?
    case StopClear => s.ev.ClearLocked?
    case Unlock => s.ev.Leaving?
    case Complete(_) => s.urb.InFlight?
  }

  function Exec(s: State, a: Action): State {
    if !Legal(s, a) then s else
    match a
    case OpenFailEarly => s.(api := OpenFailed)
    case NoEndpoint => s.(api := Running)
    case AllocTransfer => s.(hasTransfer := true, holder := ApiThread, api := OpenLocked)
    case OpenMark => s.(submitted := true, api := OpenMarked)
    case OpenSubmit(ok) =>
      if ok then s.(urb := InFlight, api := OpenUnlocking(true)) else s.(api := OpenRefused)
    case OpenUnmark => s.(submitted := false, api := OpenUnlocking(false))
    case OpenUnlock => s.(holder := Nobody, api := if s.api.ok then Running else OpenFailed)
    case StopNoTransfer => s.(api := Returned(true))
    case StopLock => s.(holder := ApiThread, api := StopLocked)
    case StopFlag => s.(stopping := true, api := StopFlagged)
    case StopSample => s.(sample := s.submitted, api := StopSampled)
    // libusb_cancel_transfer only asks; NOT_FOUND may mean "already cancelled, callback pending"
    case StopCancel(_) => s.(api := StopCancelled)
    case StopUnlock => s.(holder := Nobody, waited := 0, api := Draining)
    case DrainSleep => s.(polls := s.polls + 1, api := Slept)
    case DrainLock => s.(holder := ApiThread, api := DrainLocked)
    case DrainSample => s.(sample := s.submitted, api := DrainSampled)
    case DrainUnlock => s.(holder := Nobody, waited := s.waited + STOP_POLL_MS, api := Draining)
    case DrainReturn => s.(api := Returned(!s.sample))
    case ReleaseControl => s.(api := ControlReleased)
    case Free => s.(api := Freed)
    case Enter => s.(urb := Idle, ev := Entered(s.urb.status))
    case TermLock => s.(holder := EventThread, ev := TermLocked)
    case TermClear => s.(submitted := false, ev := Leaving)
    case Process => s.(ev := Processed)
    case DecideLock => s.(holder := EventThread, ev := DecideLocked)
    case DecideStop => s.(ev := ClearLocked)
    case Resubmit(ok) =>
      if ok then s.(urb := InFlight, ev := Leaving) else s.(ev := SubmitRefused)
    case RefusedClear => s.(submitted := false, ev := Leaving)
    case StopClear => s.(submitted := false, ev := Leaving)
    case Unlock => s.(holder := Nobody, ev := Outside)
    case Complete(st) => s.(urb := Done(st))
  }

  const Sys := System(Init, Legal, Exec)

  // ----- the invariant

  predicate ApiHolds(pc: ApiPc) {
    pc.OpenLocked? || pc.OpenMarked? || pc.OpenRefused? || pc.OpenUnlocking?
    || pc.StopLocked? || pc.StopFlagged? || pc.StopSampled? || pc.StopCancelled?
    || pc.DrainLocked? || pc.DrainSampled?
  }

  predicate EventHolds(pc: EventPc) {
    pc.TermLocked? || pc.DecideLocked? || pc.SubmitRefused? || pc.ClearLocked? || pc.Leaving?
  }

  /** The callback is running and has not yet cleared the flag or handed the URB back. */
  predicate CallbackUndecided(pc: EventPc) { !pc.Outside? && !pc.Leaving? }

  /** uvc_open_internal has not got as far as a submitted URB. */
  predicate BeforeSubmit(pc: ApiPc) {
    pc.Opening? || pc.OpenLocked? || pc.OpenMarked? || pc.OpenRefused? || pc == OpenUnlocking(false)
  }

  /** Inside the bounded wait of uvc_stop_status_xfer. */
  predicate InDrain(pc: ApiPc) { pc.Draining? || pc.Slept? || pc.DrainLocked? || pc.DrainSampled? }

  predicate PastFlag(pc: ApiPc) {
    pc.StopFlagged? || pc.StopSampled? || pc.StopCancelled? || InDrain(pc)
  }

  /** Nothing of libusb's can reach the handle any more. */
  predicate Quiet(s: State) { s.urb.Idle? && s.ev.Outside? && !s.submitted }

  predicate MutexInv(s: State) {
    && (s.holder.ApiThread? <==> ApiHolds(s.api))
    && (s.holder.EventThread? <==> EventHolds(s.ev))
  }

  /**
   `submitted` is exact: set iff the URB is with libusb, or its callback has not decided yet, or
   the opening thread has marked it and is about to submit or to unmark.
   */
  predicate FlagInv(s: State) {
    && (s.submitted <==> (!s.urb.Idle? || CallbackUndecided(s.ev)
                          || s.api.OpenMarked? || s.api.OpenRefused?))
    && (!s.urb.Idle? ==> s.ev.Outside? || s.ev.Leaving?)
  }

  predicate OpenInv(s: State) {
    && (BeforeSubmit(s.api) ==> s.urb.Idle? && s.ev.Outside?)
    && (s.api.OpenFailed? || !s.hasTransfer ==> Quiet(s))
    && (s.api.Opening? ==> !s.hasTransfer)
    && (ApiHolds(s.api) || PastFlag(s.api) ==> s.hasTransfer)
  }

  /** `stopping` precedes every sample, and a false sample is final. */
  predicate StopInv(s: State) {
    && (PastFlag(s.api) || s.ev.ClearLocked? ==> s.stopping)
    && ((s.api.StopSampled? || InDrain(s.api)) && !s.sample ==> Quiet(s))
    && (s.api.StopCancelled? || s.api.Slept? || s.api.DrainLocked? ==> s.sample)
    && (s.api == Returned(false) ==> s.stopping)
    && (s.api == Returned(true) || s.api.ControlReleased? || s.api.Freed? ==> Quiet(s))
    && (s.hasTransfer && s.api == Returned(true) ==> s.stopping)
    && (BeforeSubmit(s.api) || s.api.OpenUnlocking? ==> !s.stopping)
  }

  predicate DrainInv(s: State) {
    && (s.api.Draining? ==> s.waited == s.polls * STOP_POLL_MS && s.waited <= STOP_TIMEOUT_MS)
    && (InDrain(s.api) && !s.api.Draining? ==>
          s.waited == (s.polls - 1) * STOP_POLL_MS && s.waited < STOP_TIMEOUT_MS)
    && s.polls <= STOP_TIMEOUT_MS / STOP_POLL_MS
    && (s.api == Returned(false) ==> s.polls == STOP_TIMEOUT_MS / STOP_POLL_MS)
    && (InDrain(s.api) || s.api.Returned? || s.api.ControlReleased? || s.api.Freed? || s.polls == 0)
  }

  predicate Inv(s: State) { MutexInv(s) && FlagInv(s) && OpenInv(s) && StopInv(s) && DrainInv(s) }

  predicate IsOpen(a: Action) {
    a.OpenFailEarly? || a.NoEndpoint? || a.AllocTransfer? || a.OpenMark? || a.OpenSubmit? || a.OpenUnmark?
    || a.OpenUnlock?
  }

  predicate IsDrain(a: Action) {
    a.DrainSleep? || a.DrainLock? || a.DrainSample? || a.DrainUnlock? || a.DrainReturn?
  }

  lemma OpenKept(s: State, a: Action)
    requires Inv(s) && Legal(s, a) && IsOpen(a)
    ensures Inv(Exec(s, a))
  {
  }

  lemma DrainKept(s: State, a: Action)
    requires Inv(s) && Legal(s, a) && IsDrain(a)
    ensures Inv(Exec(s, a))
  {
  }

  lemma StopKept(s: State, a: Action)
    requires Inv(s) && Legal(s, a) && IsApi(a) && !IsOpen(a) && !IsDrain(a)
    ensures Inv(Exec(s, a))
  {
  }

  lemma EventKept(s: State, a: Action)
    requires Inv(s) && Legal(s, a) && !IsApi(a)
    ensures Inv(Exec(s, a))
  {
  }

  lemma InvKept(s: State, a: Action)
    requires Inv(s) && Legal(s, a)
    ensures Inv(Exec(s, a))
  {
    if IsOpen(a) { OpenKept(s, a); }
    else if IsDrain(a) { DrainKept(s, a); }
    else if IsApi(a) { StopKept(s, a); }
    else { EventKept(s, a); }
  }

  /** Only the API thread moves its own program counter. */
  lemma EventKeepsApi(s: State, a: Action)
    requires Legal(s, a) && !IsApi(a)
    ensures Exec(s, a).api == s.api
  {
  }

  /** The last two steps of the API thread, and the only ways into them. */
  lemma ApiSteps(s: State, a: Action)
    requires Legal(s, a) && IsApi(a)
    ensures !s.api.Freed? && (s.api.ControlReleased? <==> a.Free?)
    ensures Exec(s, a).api.ControlReleased? <==> a.ReleaseControl?
    ensures Exec(s, a).api.Freed? <==> a.Free?
  {
  }

  lemma InvIsInductive()
    ensures Inductive(Sys, Inv)
  {
    forall s, a | Inv(s) && Legal(s, a) ensures Inv(Exec(s, a)) { InvKept(s, a); }
  }

  // ----- theorems over every run

  predicate Stopping(s: State) { s.stopping }

  lemma StoppingKept(s: State, a: Action)
    requires Inv(s) && Stopping(s) && Legal(s, a)
    ensures Stopping(Exec(s, a)) && !IsSubmit(a)
  {
  }

  /** In every interleaving, once `stopping` is set no URB is submitted. */
  lemma NoSubmitOnceStopping(acts: seq<Action>, i: nat, j: nat)
    requires IsRun(Sys, acts) && i <= j < |acts|
    requires At(Sys, acts, i).stopping
    ensures !IsSubmit(acts[j])
  {
    InvIsInductive();
    forall s, a | Inv(s) && Stopping(s) && Legal(s, a) ensures Stopping(Exec(s, a)) { StoppingKept(s, a); }
    StaysTrue(Sys, Inv, Stopping, acts, i, j);
    InvariantHolds(Sys, Inv, acts, j);
    AtStep(Sys, acts, j);
    StoppingKept(At(Sys, acts, j), acts[j]);
  }

  // ----- every thread gets on, and the stop returns

  /** How many more steps of its own the API thread can make on this handle. */
  function ApiLeft(s: State): nat {
    match s.api
    case Opening => 2009
    case OpenLocked => 2008
    case OpenMarked => 2007
    case OpenRefused => 2006
    case OpenUnlocking(_) => 2005
    case Running => 2004
    case StopLocked => 2003
    case StopFlagged => 2002
    case StopSampled => 2001
    case StopCancelled => 2000
    case Draining => 3 + PollsLeft(s)
    case Slept => 6 + PollsLeft(s)
    case DrainLocked => 5 + PollsLeft(s)
    case DrainSampled => 4 + PollsLeft(s)
    case Returned(_) => 2
    case OpenFailed => 2
    case ControlReleased => 1
    case Freed => 0
  }

  /** Four steps for each poll that is still allowed. */
  function PollsLeft(s: State): nat { if s.polls <= 250 then 4 * (250 - s.polls) else 0 }

  lemma OpenGetsOn(s: State, a: Action)
    requires Inv(s) && Legal(s, a) && IsOpen(a)
    ensures ApiLeft(Exec(s, a)) < ApiLeft(s)
  {
  }

  lemma DrainGetsOn(s: State, a: Action)
    requires DrainInv(s) && Legal(s, a) && IsDrain(a)
    ensures ApiLeft(Exec(s, a)) < ApiLeft(s)
  {
  }

  lemma StopGetsOn(s: State, a: Action)
    requires DrainInv(s) && Legal(s, a) && IsApi(a) && !IsOpen(a) && !IsDrain(a)
    ensures ApiLeft(Exec(s, a)) < ApiLeft(s)
  {
  }

  lemma ApiGetsOn(s: State, a: Action)
    requires Inv(s) && Legal(s, a) && IsApi(a)
    ensures ApiLeft(Exec(s, a)) < ApiLeft(s)
  {
    if IsOpen(a) { OpenGetsOn(s, a); }
    else if IsDrain(a) { DrainGetsOn(s, a); }
    else { StopGetsOn(s, a); }
  }

  /** How many more steps the kernel and the callback can make once the URB is not submitted any more. */
  function CallbackLeft(s: State): nat {
    (match s.urb case InFlight => 7 case Done(_) => 6 case Idle => 0)
    + (match s.ev
       case Outside => 0
       case Entered(_) => 5
       case TermLocked => 4
       case Processed => 4
       case DecideLocked => 3
       case SubmitRefused => 2
       case ClearLocked => 2
       case Leaving => 1)
  }

  lemma CallbackGetsOn(s: State, a: Action)
    requires Inv(s) && Legal(s, a) && !IsApi(a) && !IsSubmit(a)
    ensures CallbackLeft(Exec(s, a)) < CallbackLeft(s) && ApiLeft(Exec(s, a)) == ApiLeft(s)
  {
  }

  function Left(s: State): nat { ApiLeft(s) + CallbackLeft(s) }

  lemma StoppingGetsOn(s: State, a: Action)
    requires Inv(s) && s.stopping && Legal(s, a)
    ensures Left(Exec(s, a)) < Left(s) && Exec(s, a).stopping
  {
    StoppingKept(s, a);
    if IsApi(a) {
      ApiGetsOn(s, a);
      assert CallbackLeft(Exec(s, a)) == CallbackLeft(s);
    } else {
      CallbackGetsOn(s, a);
    }
  }

  /**
   Once a stop has set its flag every schedule of all threads is finite: with each step, whoever makes it,
   less remains to be done on the handle.
   */
  lemma {:induction false} StopIsBounded(acts: seq<Action>, i: nat, j: nat)
    requires IsRun(Sys, acts) && i <= j <= |acts| && At(Sys, acts, i).stopping
    ensures At(Sys, acts, j).stopping && j - i + Left(At(Sys, acts, j)) <= Left(At(Sys, acts, i)) <= 2017
    decreases j
  {
    InvIsInductive();
    InvariantHolds(Sys, Inv, acts, i);
    if i < j {
      StopIsBounded(acts, i, j - 1);
      InvariantHolds(Sys, Inv, acts, j - 1);
      AtStep(Sys, acts, j - 1);
      StoppingGetsOn(At(Sys, acts, j - 1), acts[j - 1]);
    }
  }

  /** The next statement of the API thread, for some outcome of the calls it makes. */
  function NextApi(s: State): Action {
    match s.api
    case Opening => OpenFailEarly
    case OpenLocked => OpenMark
    case OpenMarked => OpenSubmit(true)
    case OpenRefused => OpenUnmark
    case OpenUnlocking(_) => OpenUnlock
    case OpenFailed => ReleaseControl
    case Running => if s.hasTransfer then StopLock else StopNoTransfer
    case StopLocked => StopFlag
    case StopFlagged => StopSample
    case StopSampled => if s.sample then StopCancel(true) else StopUnlock
    case StopCancelled => StopUnlock
    case Draining => if s.sample && s.waited < STOP_TIMEOUT_MS then DrainSleep else DrainReturn
    case Slept => DrainLock
    case DrainLocked => DrainSample
    case DrainSampled => DrainUnlock
    case Returned(_) => ReleaseControl
    case ControlReleased => Free
    case Freed => Free
  }

  function NextEvent(s: State): Action {
    match s.ev
    case Outside => Enter
    case Entered(st) => if Terminal(st) then TermLock else Process
    case TermLocked => TermClear
    case Processed => DecideLock
    case DecideLocked => if s.stopping then DecideStop else Resubmit(true)
    case SubmitRefused => RefusedClear
    case ClearLocked => StopClear
    case Leaving => Unlock
  }

  /** The API thread has nothing left to do on the handle, or has quarantined it. */
  predicate Finished(pc: ApiPc) { pc.Freed? || pc == Returned(false) }

  /** The API thread can make its next step unless it wants the mutex and the callback holds it. */
  lemma ApiNotStuck(s: State)
    requires MutexInv(s) && OpenInv(s) && !Finished(s.api)
    ensures Legal(s, NextApi(s)) || s.holder.EventThread?
  {
  }

  lemma HolderNotStuck(s: State)
    requires EventHolds(s.ev)
    ensures Legal(s, NextEvent(s))
  {
  }

  /**
   No deadlock: in every reachable state the API thread can make its next step, or waits for the mutex
   while the callback that holds it can make its next one.  So every stop that goes on returns.
   */
  lemma NeverStuck(acts: seq<Action>, k: nat)
    requires IsRun(Sys, acts) && k <= |acts| && !Finished(At(Sys, acts, k).api)
    ensures var s := At(Sys, acts, k);
      Legal(s, NextApi(s)) || (s.holder.EventThread? && Legal(s, NextEvent(s)))
  {
    InvIsInductive();
    InvariantHolds(Sys, Inv, acts, k);
    var s := At(Sys, acts, k);
    ApiNotStuck(s);
    if s.holder.EventThread? { HolderNotStuck(s); }
  }

  /** A callback that has begun can go on, unless the API thread holds the mutex. */
  lemma CallbackGoesOn(acts: seq<Action>, k: nat)
    requires IsRun(Sys, acts) && k <= |acts| && !At(Sys, acts, k).ev.Outside?
    ensures var s := At(Sys, acts, k); Legal(s, NextEvent(s)) || s.holder.ApiThread?
  {
    InvIsInductive();
    InvariantHolds(Sys, Inv, acts, k);
  }

  // ----- what the calls report

  /** The URB is in flight if and only if a submit was accepted and it has not completed since. */
  lemma SubmitIff(s: State, a: Action)
    requires Legal(s, a)
    ensures Exec(s, a).urb.InFlight? <==> IsSubmit(a) || (s.urb.InFlight? && !a.Complete?)
  {
  }

  predicate IsSample(a: Action) { a.StopSample? || a.DrainSample? }

  lemma SampleStep(s: State, a: Action)
    requires Legal(s, a)
    ensures Exec(s, a).sample == if IsSample(a) then s.submitted else s.sample
  {
  }

  lemma {:induction false} SampleHeld(acts: seq<Action>, i: nat, j: nat)
    requires IsRun(Sys, acts) && i < j <= |acts| && IsSample(acts[i])
    requires forall n :: i < n < j ==> !IsSample(acts[n])
    ensures At(Sys, acts, j).sample == At(Sys, acts, i).submitted
    decreases j
  {
    AtStep(Sys, acts, j - 1);
    SampleStep(At(Sys, acts, j - 1), acts[j - 1]);
    if i < j - 1 { SampleHeld(acts, i, j - 1); }
  }

  /** The stop returns what it last saw: 1 if and only if the URB was not submitted at its last look. */
  lemma ReturnsWhatItSaw(acts: seq<Action>, i: nat, j: nat)
    requires IsRun(Sys, acts) && i < j < |acts| && IsSample(acts[i]) && acts[j].DrainReturn?
    requires forall n :: i < n < j ==> !IsSample(acts[n])
    ensures At(Sys, acts, j + 1).api == Returned(!At(Sys, acts, i).submitted)
  {
    SampleHeld(acts, i, j);
    AtStep(Sys, acts, j);
  }

  /** Some submit of uvc_open_internal among the first k steps was accepted. */
  predicate Accepted(acts: seq<Action>, k: nat)
    requires k <= |acts|
  {
    exists i :: 0 <= i < k && acts[i] == OpenSubmit(true)
  }

  /** The open has failed, or has not come to its submit, or that was refused. */
  predicate NotAccepted(pc: ApiPc) { BeforeSubmit(pc) || pc.OpenFailed? }

  predicate Honest(s: State, accepted: bool) {
    && (NotAccepted(s.api) ==> !accepted)
    && (s.api == OpenUnlocking(true) ==> accepted)
    && (s.api.Running? ==> (accepted <==> s.hasTransfer))
  }

  lemma OpenStep(s: State, a: Action, accepted: bool)
    requires OpenInv(s) && Legal(s, a) && IsOpen(a) && Honest(s, accepted)
    ensures Honest(Exec(s, a), accepted || a == OpenSubmit(true))
  {
  }

  lemma LaterStep(s: State, a: Action, accepted: bool)
    requires Legal(s, a) && !IsOpen(a) && Honest(s, accepted)
    ensures Honest(Exec(s, a), accepted)
  {
  }

  /**
   An open succeeds with a status transfer if and only if its submit was accepted, and fails only if it was
   not.
   */
  lemma {:induction false} OpensHonestly(acts: seq<Action>, k: nat)
    requires IsRun(Sys, acts) && k <= |acts|
    ensures Honest(At(Sys, acts, k), Accepted(acts, k))
  {
    if k > 0 {
      OpensHonestly(acts, k - 1);
      InvIsInductive();
      InvariantHolds(Sys, Inv, acts, k - 1);
      AtStep(Sys, acts, k - 1);
      var s, a, b := At(Sys, acts, k - 1), acts[k - 1], Accepted(acts, k - 1);
      if IsOpen(a) { OpenStep(s, a, b); } else { LaterStep(s, a, b); }
      assert Accepted(acts, k) <==> Accepted(acts, k - 1) || acts[k - 1] == OpenSubmit(true);
    }
  }

  /** The steps that clear `submitted`: a terminal status, a refused submit, or a stop. */
  predicate Clears(a: Action) { a.TermClear? || a.RefusedClear? || a.StopClear? || a.OpenUnmark? }

  lemma PollStep(s: State, a: Action)
    requires Inv(s) && Legal(s, a) && s.submitted
    ensures Exec(s, a).submitted || Clears(a)
    ensures a.StopClear? ==> s.stopping
    ensures IsSubmit(a) ==> Exec(s, a).urb.InFlight? && Exec(s, a).submitted
    ensures !s.stopping && s.ev.DecideLocked? ==> Legal(s, Resubmit(true)) && !Legal(s, DecideStop)
  {
  }

  /**
   Until a stop begins the handle keeps polling: the URB, once submitted, stays with libusb or in its
   callback until a terminal status or a refused submit, and every accepted submit puts it in flight.
   */
  lemma KeepsPolling(acts: seq<Action>, k: nat)
    requires IsRun(Sys, acts) && k < |acts| && At(Sys, acts, k).submitted && !At(Sys, acts, k).stopping
    ensures var s, t := At(Sys, acts, k), At(Sys, acts, k + 1);
      && (t.submitted || acts[k].TermClear? || acts[k].RefusedClear? || acts[k].OpenUnmark?)
      && (IsSubmit(acts[k]) ==> t.urb.InFlight?)
      && (s.ev.DecideLocked? ==> Legal(s, Resubmit(true)))
  {
    InvIsInductive();
    InvariantHolds(Sys, Inv, acts, k);
    AtStep(Sys, acts, k);
    PollStep(At(Sys, acts, k), acts[k]);
  }

  predicate StoppedClean(s: State) {
    s.api == Returned(true) || s.api.ControlReleased? || s.api.Freed?
  }

  lemma StoppedCleanKept(s: State, a: Action)
    requires StopInv(s) && StoppedClean(s) && Legal(s, a)
    ensures IsApi(a) && !IsSubmit(a) && StoppedClean(Exec(s, a))
  {
  }

  /**
   Once uvc_stop_status_xfer has returned 1, whatever cancel reported, the URB is with nobody and
   neither the event thread nor the kernel makes another step on this handle.
   */
  lemma StopIsFinal(acts: seq<Action>, i: nat, j: nat)
    requires IsRun(Sys, acts) && i <= j <= |acts|
    requires StoppedClean(At(Sys, acts, i))
    ensures StoppedClean(At(Sys, acts, j)) && Quiet(At(Sys, acts, j))
    ensures j < |acts| ==> IsApi(acts[j]) && !IsSubmit(acts[j])
  {
    InvIsInductive();
    forall s, a | Inv(s) && StoppedClean(s) && Legal(s, a) ensures StoppedClean(Exec(s, a)) {
      StoppedCleanKept(s, a);
    }
    StaysTrue(Sys, Inv, StoppedClean, acts, i, j);
    InvariantHolds(Sys, Inv, acts, j);
    if j < |acts| {
      AtStep(Sys, acts, j);
      StoppedCleanKept(At(Sys, acts, j), acts[j]);
    }
  }

  /** No URB is submitted once the VideoControl interface is being released, on any path. */
  lemma NoSubmitAfterRelease(acts: seq<Action>, i: nat, j: nat)
    requires IsRun(Sys, acts) && i <= j < |acts|
    requires acts[i].ReleaseControl?
    ensures !IsSubmit(acts[j]) && IsApi(acts[j])
  {
    AtStep(Sys, acts, i);
    if i < j { StopIsFinal(acts, i + 1, j); }
  }

  /** The drain sleeps at most 250 times, and gives up only after all 250. */
  lemma DrainBounded(acts: seq<Action>, k: nat)
    requires IsRun(Sys, acts) && k <= |acts|
    ensures At(Sys, acts, k).polls <= 250
    ensures At(Sys, acts, k).api == Returned(false) ==> At(Sys, acts, k).polls == 250
  {
    InvIsInductive();
    InvariantHolds(Sys, Inv, acts, k);
  }

  /**
   Why the wait does not trust LIBUSB_ERROR_NOT_FOUND: a run in which cancel reports it and the
   callback has still to run, so that returning at once would hand out a live transfer.
   */
  lemma NotFoundIsNotDone() returns (acts: seq<Action>)
    ensures IsRun(Sys, acts) && acts != [] && acts[|acts| - 1] == StopCancel(false)
    ensures !Quiet(At(Sys, acts, |acts|)) && Legal(At(Sys, acts, |acts|), Enter)
  {
    acts := [];
    var s := Init;
    s, acts := Extend(Sys, s, acts, AllocTransfer);
    s, acts := Extend(Sys, s, acts, OpenMark);
    s, acts := Extend(Sys, s, acts, OpenSubmit(true));
    s, acts := Extend(Sys, s, acts, OpenUnlock);
    s, acts := Extend(Sys, s, acts, Complete(Cancelled));
    s, acts := Extend(Sys, s, acts, StopLock);
    s, acts := Extend(Sys, s, acts, StopFlag);
    s, acts := Extend(Sys, s, acts, StopSample);
    s, acts := Extend(Sys, s, acts, StopCancel(false));
    assert acts[..|acts|] == acts;
  }
}
