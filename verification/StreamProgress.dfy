/**
 What the calls on a stream still do, whatever interleaves with them: a start submits all it allocates, a
 stream started with a callback has its thread until the stop joins it, only payloads of completed transfers
 are processed, a stop and a close decide by what they find in the slots, and every call gets on and returns.
 */
module StreamProgress {
  import opened Runs
  import opened SeqFacts
  import opened Usb
  import opened StreamTransfers

  // ----- the callback thread

  /** From its creation to the join of the stop a stream with a callback has its thread. */
  predicate ThreadInv(s: State) {
    && (s.running && !s.api.Alloc? ==> (s.userCb <==> s.user.Live?))
    && (InStop(s) || s.api.StopJoining? ==> (s.userCb <==> !s.user.NoThread?))
  }

  lemma ThreadKept(s: State, a: Action)
    requires StopInv(s) && UserInv(s) && ThreadInv(s) && Legal(s, a)
    ensures ThreadInv(Exec(s, a))
  {
    if !IsApi(a) { EventKeepsApi(s, a); }
  }

  lemma ThreadAt(n: nat, acts: seq<Action>, k: nat)
    requires IsRun(Sys(n), acts) && k <= |acts|
    ensures ThreadInv(At(Sys(n), acts, k))
  {
    InvIsInductive(n);
    forall s, a | Inv(s) && ThreadInv(s) && LegalDisciplined(s, a) ensures ThreadInv(Exec(s, a)) {
      ThreadKept(s, a);
    }
    assert At(Sys(n), acts, 0) == InitWith(n);
    StaysTrue(Sys(n), Inv, ThreadInv, acts, 0, k);
  }

  /** The thread of a running stream is never joined or ended early; a stop joins it once it has exited. */
  lemma CallbackThreadLives(n: nat, acts: seq<Action>, k: nat)
    requires IsRun(Sys(n), acts) && k <= |acts|
    ensures var s := At(Sys(n), acts, k);
      && (s.running && (s.api.Idle? || s.api.Submit? || s.api.FreeRest?) ==> (s.userCb <==> s.user.Live?))
      && (k < |acts| && acts[k].StopJoin? ==> s.userCb == s.user.Exited? && At(Sys(n), acts, k + 1).user.NoThread?)
  {
    ThreadAt(n, acts, k);
    if k < |acts| { AtStep(Sys(n), acts, k); }
  }

  // ----- the calls get on

  /** How many more steps a call can make, unless a wait of the stop loop is woken. */
  function CallLeft(pc: ApiPc): nat {
    match pc
    case Alloc(n, k) => n + 2 + if k < n then n - k else 0
    case Submit(n, k) => 1 + if k < n then n - k else 0
    case FreeRest(n, k) => if k < n then n - k else 0
    case StopCancelling => 16
    case StopChecking(attempts) => 5 + if attempts < 5 then 2 * (5 - attempts) else 0
    case StopWaiting(attempts) => 4 + if attempts < 5 then 2 * (5 - attempts) else 0
    case StopJoining(_) => 4
    case CloseScanning => 3
    case Releasing(released) => if released then 1 else 2
    case Idle | Quarantined | HandleFreed => 0
  }

  /** The steps with which a call of the application begins. */
  predicate BeginsCall(a: Action) { a.StartBegin? || a.StopBegin? || a.CloseBegin? }

  predicate IsStart(a: Action) { a.StartAbort? || a.AllocOne? || a.Spawn? || a.SubmitOne? || a.FreeOne? }

  lemma StartGetsOn(s: State, a: Action)
    requires StartInv(s) && Legal(s, a) && IsStart(a)
    ensures CallLeft(Exec(s, a).api) < CallLeft(s.api) && !InStop(s)
  {
  }

  predicate IsStop(a: Action) { a.StopCancel? || a.StopCheck? || a.StopTimeout? || a.StopJoin? }

  lemma StopGetsOn(s: State, a: Action)
    requires StopInv(s) && Legal(s, a) && IsStop(a)
    ensures CallLeft(Exec(s, a).api) < CallLeft(s.api)
  {
  }

  lemma CloseGetsOn(s: State, a: Action)
    requires Legal(s, a) && (a.CloseScan? || a.ReleaseIf? || a.FreeHandle?)
    ensures CallLeft(Exec(s, a).api) < CallLeft(s.api)
  {
  }

  /**
   Every step of a call, once begun, brings it nearer to its return: there are fewer left, or a wait was
   woken, and `Smaller` counts what can wake it.
   */
  lemma CallGetsOn(s: State, a: Action)
    requires Inv(s) && LegalDisciplined(s, a) && IsApi(a) && !BeginsCall(a)
    ensures var t := Exec(s, a);
      CallLeft(t.api) < CallLeft(s.api) || (a.StopWake? && InStop(t) && Smaller(t, s))
  {
    if IsStart(a) {
      StartGetsOn(s, a);
    } else if a.StopWake? {
      StopStepDecreases(s, a);
    } else if IsStop(a) {
      StopGetsOn(s, a);
    } else {
      CloseGetsOn(s, a);
    }
  }

  /** The next statement of the calling thread, for some outcome of what it calls. */
  function Next(s: State): Action {
    match s.api
    case Alloc(n, k) => if k < n then AllocOne else Spawn(false)
    case Submit(_, _) => SubmitOne(true)
    case FreeRest(_, _) => FreeOne
    case StopCancelling => StopCancel
    case StopChecking(_) => StopCheck
    case StopWaiting(_) => StopTimeout
    case StopJoining(_) => StopJoin
    case CloseScanning => CloseScan
    case Releasing(released) => if released then FreeHandle else ReleaseIf
    case Idle | Quarantined | HandleFreed => CloseBegin
  }

  predicate InCall(pc: ApiPc) { !pc.Idle? && !pc.Quarantined? && !pc.HandleFreed? }

  lemma NextIsLegal(s: State)
    requires StartInv(s) && StopInv(s) && ThreadInv(s) && InCall(s.api)
    ensures IsApi(Next(s)) && !BeginsCall(Next(s))
    ensures LegalDisciplined(s, Next(s)) || (s.api.StopJoining? && s.user.Live? && Legal(s, UserExit))
  {
  }

  /** No call is ever stuck: it can go on, or joins a callback thread that is free to exit. */
  lemma NeverStuck(n: nat, acts: seq<Action>, k: nat)
    requires IsRun(Sys(n), acts) && k <= |acts| && InCall(At(Sys(n), acts, k).api)
    ensures var s := At(Sys(n), acts, k);
      LegalDisciplined(s, Next(s)) || (s.api.StopJoining? && Legal(s, UserExit))
  {
    InvAt(n, acts, k);
    ThreadAt(n, acts, k);
    NextIsLegal(At(Sys(n), acts, k));
  }

  // ----- what decides a stop and a close

  /** Where a stop can be after its last look at the slots. */
  predicate Decided(pc: ApiPc, empty: bool) {
    if empty then pc == StopJoining(true) else pc.StopWaiting? || pc.StopChecking? || pc == StopJoining(false)
  }

  lemma DecidedKept(s: State, a: Action, empty: bool)
    requires Legal(s, a) && Decided(s.api, empty) && !a.StopCheck? && !a.StopJoin?
    ensures Decided(Exec(s, a).api, empty)
  {
    if !IsApi(a) { EventKeepsApi(s, a); }
  }

  lemma {:induction false} DecidedBy(n: nat, acts: seq<Action>, c: nat, j: nat)
    requires IsRun(Sys(n), acts) && c < j <= |acts| && acts[c].StopCheck?
    requires forall i :: c < i < j ==> !acts[i].StopCheck? && !acts[i].StopJoin?
    ensures Decided(At(Sys(n), acts, j).api, AllNull(At(Sys(n), acts, c).slots))
    decreases j
  {
    AtStep(Sys(n), acts, j - 1);
    if c < j - 1 {
      DecidedBy(n, acts, c, j - 1);
      DecidedKept(At(Sys(n), acts, j - 1), acts[j - 1], AllNull(At(Sys(n), acts, c).slots));
    }
  }

  /** A stop returns success if and only if its last look found every slot empty, and timeout otherwise. */
  lemma StopOkIff(n: nat, acts: seq<Action>, c: nat, j: nat)
    requires IsRun(Sys(n), acts) && c < j < |acts| && acts[c].StopCheck? && acts[j].StopJoin?
    requires forall i :: c < i < j ==> !acts[i].StopCheck? && !acts[i].StopJoin?
    ensures At(Sys(n), acts, j + 1).lastStop ==
      if AllNull(At(Sys(n), acts, c).slots) then StopOk else StopTimedOut
  {
    DecidedBy(n, acts, c, j);
    AtStep(Sys(n), acts, j);
  }

  ghost predicate SomeOutstanding(s: State) { exists x :: 0 <= x < |s.xfers| && Outstanding(s.xfers[x]) }

  lemma FilledIffOutstanding(s: State)
    requires Inv(s) && FreshIn(s.slots, s.xfers, 0, 0)
    ensures AllNull(s.slots) <==> !SomeOutstanding(s)
  {
    if AllNull(s.slots) {
      EmptySlotsAreQuiet(s);
    } else {
      var i :| 0 <= i < |s.slots| && s.slots[i].Some?;
      assert Outstanding(s.xfers[s.slots[i].value]);
    }
  }

  /**
   A close quarantines its stream if and only if, when it looks, some transfer of it is with the kernel or in
   its callback; it releases and frees it otherwise.
   */
  lemma QuarantinesIff(n: nat, acts: seq<Action>, k: nat)
    requires IsRun(Sys(n), acts) && k < |acts| && acts[k].CloseScan?
    ensures At(Sys(n), acts, k + 1).api ==
      if SomeOutstanding(At(Sys(n), acts, k)) then Quarantined else Releasing(false)
  {
    InvAt(n, acts, k);
    AtStep(Sys(n), acts, k);
    FilledIffOutstanding(At(Sys(n), acts, k));
  }

  // ----- a start submits what it allocates

  /**
   An accepted submit of a start puts the transfer of the next slot in flight, and moves on to the slot
   after it; a refused one leaves the rest to be freed, and each step of that frees one.
   */
  lemma SubmitsInOrder(n: nat, acts: seq<Action>, k: nat)
    requires IsRun(Sys(n), acts) && k < |acts| && (acts[k].SubmitOne? || acts[k].FreeOne?)
    ensures var s, t := At(Sys(n), acts, k), At(Sys(n), acts, k + 1);
      && (s.api.Submit? || s.api.FreeRest?) && s.api.k < |s.slots| == |t.slots| && s.slots[s.api.k].Some?
      && s.slots[s.api.k].value < |s.xfers| == |t.xfers|
      && var f := t.xfers[s.slots[s.api.k].value];
         && (acts[k] == SubmitOne(true) ==> f.InFlight? && t.slots == s.slots)
         && (acts[k] == SubmitOne(false) ==> t == s.(api := FreeRest(s.api.n, s.api.k)))
         && (acts[k].FreeOne? ==> f.Freed? && t.slots == s.slots[s.api.k := None])
  {
    InvAt(n, acts, k);
    AtStep(Sys(n), acts, k);
    assert Inv(At(Sys(n), acts, k));
  }

  /**
   When a start of n transfers has been through its submits without a refusal, it has submitted n: as many
   as it was asked for, each in its own slot, and none is left unsubmitted.
   */
  lemma {:induction false} StartSubmitsAll(m: nat, acts: seq<Action>, b: nat, j: nat)
    requires IsRun(Sys(m), acts) && b < j <= |acts| && acts[b].StartBegin?
    requires forall i :: b < i < j ==> !BeginsCall(acts[i]) && !acts[i].StartAbort? && acts[i] != SubmitOne(false)
    ensures StartedBy(acts[b].n, At(Sys(m), acts, j).api, Submits(acts, b, j))
    decreases j
  {
    AtStep(Sys(m), acts, j - 1);
    if b < j - 1 {
      StartSubmitsAll(m, acts, b, j - 1);
      InvAt(m, acts, j - 1);
      StartedStep(acts[b].n, At(Sys(m), acts, j - 1), acts[j - 1], Submits(acts, b, j - 1));
    }
  }

  /** How many submits a start has made. */
  function Submits(acts: seq<Action>, b: nat, j: nat): nat
    requires b <= j <= |acts|
  {
    if b == j then 0 else Submits(acts, b, j - 1) + if acts[j - 1].SubmitOne? then 1 else 0
  }

  predicate StartedBy(n: nat, pc: ApiPc, submits: nat) {
    match pc
    case Alloc(total, _) => total == n && submits == 0
    case Submit(total, k) => total == n && submits == k
    case Idle => submits == n
    case _ => false
  }

  lemma StartedStep(n: nat, s: State, a: Action, submits: nat)
    requires StartInv(s) && Legal(s, a) && StartedBy(n, s.api, submits)
    requires !BeginsCall(a) && !a.StartAbort? && a != SubmitOne(false)
    ensures StartedBy(n, Exec(s, a).api, submits + if a.SubmitOne? then 1 else 0)
  {
    if !IsApi(a) { EventKeepsApi(s, a); }
  }

  // ----- payloads

  /** The packets of a transfer are those of a completed one. */
  predicate StatusIs(f: Xfer, completed: bool) {
    && (f.Done? ==> f.status.Completed? == completed)
    && (f.Callback? && f.pc.Entered? ==> f.pc.status.Completed? == completed)
    && (f.Callback? && f.pc.Packets? ==> completed)
  }

  /** A step of a callback keeps to the status its transfer completed with. */
  lemma StatusKept(s: State, a: Action, x: nat, completed: bool)
    requires Legal(s, a) && x < |s.xfers| && StatusIs(s.xfers[x], completed)
    requires a.Complete? ==> a.x != x || a.status.Completed? == completed
    ensures x < |Exec(s, a).xfers| && StatusIs(Exec(s, a).xfers[x], completed)
  {
    if IsApi(a) { ApiKeepsStatus(s, a, x, completed); }
  }

  lemma ApiKeepsStatus(s: State, a: Action, x: nat, completed: bool)
    requires Legal(s, a) && IsApi(a) && x < |s.xfers| && StatusIs(s.xfers[x], completed)
    ensures x < |Exec(s, a).xfers| && StatusIs(Exec(s, a).xfers[x], completed)
  {
    if a.AllocOne? || a.SubmitOne? || a.FreeOne? {
      var f := Exec(s, a).xfers;
      assert |s.xfers| <= |f| && (f[x] == s.xfers[x] || f[x].InFlight? || f[x].Freed?);
    } else {
      ApiLeavesTransfers(s, a);
    }
  }

  lemma ApiLeavesTransfers(s: State, a: Action)
    requires Legal(s, a) && IsApi(a) && !a.AllocOne? && !a.SubmitOne? && !a.FreeOne?
    ensures Exec(s, a).xfers == s.xfers
  {
  }

  lemma CompleteStep(s: State, x: nat, status: UsbStatus)
    requires Legal(s, Complete(x, status))
    ensures x < |Exec(s, Complete(x, status)).xfers|
    ensures StatusIs(Exec(s, Complete(x, status)).xfers[x], status.Completed?)
  {
  }

  lemma DispatchStep(s: State, x: nat, packets: nat, completed: bool)
    requires Legal(s, Dispatch(x, packets)) && StatusIs(s.xfers[x], completed)
    ensures |Exec(s, Dispatch(x, packets)).xfers| == |s.xfers|
    ensures Exec(s, Dispatch(x, packets)).xfers[x] == Callback(if completed then Packets(packets) else CheckRunning)
  {
  }

  lemma {:induction false} StatusAt(n: nat, acts: seq<Action>, i: nat, j: nat)
    requires IsRun(Sys(n), acts) && i < j <= |acts| && acts[i].Complete?
    requires forall k :: i < k < j ==> !(acts[k].Complete? && acts[k].x == acts[i].x)
    ensures var s := At(Sys(n), acts, j);
      acts[i].x < |s.xfers| && StatusIs(s.xfers[acts[i].x], acts[i].status.Completed?)
    decreases j
  {
    AtStep(Sys(n), acts, j - 1);
    if i < j - 1 {
      StatusAt(n, acts, i, j - 1);
      StatusKept(At(Sys(n), acts, j - 1), acts[j - 1], acts[i].x, acts[i].status.Completed?);
    } else {
      CompleteStep(At(Sys(n), acts, i), acts[i].x, acts[i].status);
    }
  }

  /**
   Payloads are processed if and only if the transfer completed without error: after a completion its
   callback takes the packets exactly in that case, and goes to the test of `running` in any other.
   */
  lemma PayloadsIff(n: nat, acts: seq<Action>, i: nat, j: nat)
    requires IsRun(Sys(n), acts) && i < j < |acts| && acts[i].Complete?
    requires forall k :: i < k < j ==> !(acts[k].Complete? && acts[k].x == acts[i].x)
    requires acts[j].Dispatch? && acts[j].x == acts[i].x
    ensures var f := At(Sys(n), acts, j + 1).xfers;
      && acts[j].x < |f|
      && f[acts[j].x] == Callback(if acts[i].status.Completed? then Packets(acts[j].packets) else CheckRunning)
  {
    StatusAt(n, acts, i, j);
    AtStep(Sys(n), acts, j);
    DispatchStep(At(Sys(n), acts, j), acts[j].x, acts[j].packets, acts[i].status.Completed?);
  }
}
