/**
 The transfers of one stream handle, from uvc_stream_open_ctrl to the free of the handle: start,
 the completion callbacks, stop and close as a labelled transition system.  A critical section of
 `cb_mutex` is one step; everything the source does outside it, the bare read of `running` in the
 callback included, is a step of its own, so a stop can fall between that read and the
 resubmission.  Callbacks of different transfers interleave freely.
 */
module StreamTransfers {
  import opened Runs
  import opened Usb
  import opened SeqFacts

  const STOP_TIMEOUT_ATTEMPTS: nat := 5

  datatype CallbackPc =
    | Entered(status: UsbStatus)
    | Packets(left: nat)        // payloads of this transfer still to be processed
    | CheckRunning              // about to read `running` without the lock
    | Resubmitting              // read it as 1
    | ResubmitFailed            // libusb refused the transfer
    | Orphaned                  // read it as 0

  datatype Xfer =
    | Fresh                     // allocated, never submitted
    | InFlight                  // owned by the kernel
    | Done(status: UsbStatus)   // completed, callback not yet entered
    | Callback(pc: CallbackPc)
    | Freed
    | Lost                      // its callback is over, but no slot named it and it was not freed

  type Slots = seq<Option<nat>>

  datatype Stop = NeverStopped | StopOk | StopTimedOut

  datatype User = NoThread | Live | Exited

  datatype ApiPc =
    | Idle
    | Alloc(n: nat, k: nat) | Submit(n: nat, k: nat) | FreeRest(n: nat, k: nat)
    | StopCancelling | StopChecking(attempts: nat) | StopWaiting(attempts: nat) | StopJoining(ok: bool)
    | CloseScanning | Quarantined | Releasing(released: bool) | HandleFreed

  datatype State = State(
    slots: Slots,               // strmh->transfers[]
    xfers: seq<Xfer>,           // every transfer ever allocated
    frees: seq<nat>,            // how often each was freed
    running: bool,
    lastStop: Stop,
    userCb: bool, user: User,
    api: ApiPc,
    closing: bool,
    signal: bool                // cb_cond was broadcast since the stopping thread began to wait
  )

  function InitWith(slots: nat): State {
    State(seq(slots, _ => None), [], [], false, NeverStopped, false, NoThread, Idle, false, false)
  }

  datatype Action =
    // API thread: uvc_stream_start
    | StartBegin(n: nat) | StartAbort | AllocOne | Spawn(cb: bool) | SubmitOne(ok: bool) | FreeOne
    // API thread: uvc_stream_stop
    | StopBegin | StopCancel | StopCheck | StopWake | StopTimeout | StopJoin
    // API thread: uvc_stream_close
    | CloseBegin | CloseScan | ReleaseIf | FreeHandle
    // user callback thread
    | UserExit
    // event thread, in _uvc_stream_callback of transfer x
    | Enter(x: nat) | Dispatch(x: nat, packets: nat) | PacketDone(x: nat, broadcast: bool)
    | PacketsEnd(x: nat) | TerminalFree(x: nat) | ReadRunning(x: nat) | Resubmit(x: nat, ok: bool)
    | FailedFree(x: nat) | OrphanFree(x: nat)
    // kernel
    | Complete(x: nat, status: UsbStatus)

  predicate IsApi(a: Action) {
    a.StartBegin? || a.StartAbort? || a.AllocOne? || a.Spawn? || a.SubmitOne? || a.FreeOne?
    || a.StopBegin? || a.StopCancel? || a.StopCheck? || a.StopWake? || a.StopTimeout? || a.StopJoin?
    || a.CloseBegin? || a.CloseScan? || a.ReleaseIf? || a.FreeHandle?
  }

  predicate Has(s: State, x: nat, pc: CallbackPc) { x < |s.xfers| && s.xfers[x] == Callback(pc) }

  predicate AllNull(slots: Slots) { forall i :: 0 <= i < |slots| ==> slots[i].None? }

  predicate Legal(s: State, a: Action) {
    match a
    case StartBegin(n) => s.api.Idle? && !s.running && 2 <= n <= |s.slots|
    case StartAbort => s.api.Alloc? && s.api.k == 0
    case AllocOne => s.api.Alloc? && s.api.k < s.api.n <= |s.slots|
    case Spawn(_) => s.api.Alloc? && s.api.k == s.api.n
    case SubmitOne(_) => s.api.Submit? && s.api.k < s.api.n <= |s.slots|
    case FreeOne => s.api.FreeRest? && s.api.k < s.api.n <= |s.slots|
    case StopBegin => s.api.Idle? && s.running
    case StopCancel => s.api.StopCancelling?
    case StopCheck => s.api.StopChecking?
    case StopWake => s.api.StopWaiting? && s.signal
    case StopTimeout => s.api.StopWaiting?
    case StopJoin => s.api.StopJoining? && (s.userCb ==> s.user.Exited?)
    case CloseBegin => s.api.Idle?
    case CloseScan => s.api.CloseScanning?
    case ReleaseIf => s.api == Releasing(false)
    case FreeHandle => s.api == Releasing(true)
    case UserExit => s.user.Live? && !s.running
    case Enter(x) => x < |s.xfers| && s.xfers[x].Done?
    case Dispatch(x, _) =>
      x < |s.xfers| && s.xfers[x].Callback? && s.xfers[x].pc.Entered? && !Terminal(s.xfers[x].pc.status)
    case PacketDone(x, _) =>
      x < |s.xfers| && s.xfers[x].Callback? && s.xfers[x].pc.Packets? && s.xfers[x].pc.left > 0
    case PacketsEnd(x) => Has(s, x, Packets(0))
    case TerminalFree(x) =>
      x < |s.xfers| && s.xfers[x].Callback? && s.xfers[x].pc.Entered? && Terminal(s.xfers[x].pc.status)
    case ReadRunning(x) => Has(s, x, CheckRunning)
    case Resubmit(x, _) => Has(s, x, Resubmitting)
    case FailedFree(x) => Has(s, x, ResubmitFailed)
    case OrphanFree(x) => Has(s, x, Orphaned)
    case Complete(x, _) => x < |s.xfers| && s.xfers[x].InFlight?
  }

  /** The index the callbacks' search loop stops at: the first slot naming x, or the slot count. */
  function FindSlot(slots: Slots, x: nat): (i: nat)
    ensures i <= |slots|
    ensures i < |slots| ==> slots[i] == Some(x)
    ensures forall j :: 0 <= j < i ==> slots[j] != Some(x)
  {
    if slots == [] then 0
    else if slots[0] == Some(x) then 0
    else 1 + FindSlot(slots[1..], x)
  }

  /** The critical section with which a callback ends without resubmitting. */
  function Retire(s: State, x: nat): State
    requires x < |s.xfers|
  {
    var i := FindSlot(s.slots, x);
    if i < |s.slots| && x < |s.frees| then
      s.(slots := s.slots[i := None], xfers := s.xfers[x := Freed],
         frees := s.frees[x := s.frees[x] + 1], signal := true)
    else
      s.(xfers := s.xfers[x := Lost], signal := true)
  }

  function SetPc(s: State, x: nat, pc: CallbackPc): State
    requires x < |s.xfers|
  {
    s.(xfers := s.xfers[x := Callback(pc)])
  }

  function EnterStop(s: State): State { s.(running := false, api := StopCancelling) }

  function Exec(s: State, a: Action): State {
    if !Legal(s, a) then s else
    match a
    case StartBegin(n) => s.(running := true, api := Alloc(n, 0))
    case StartAbort => s.(running := false, api := Idle)
    case AllocOne =>
      s.(slots := s.slots[s.api.k := Some(|s.xfers|)], xfers := s.xfers + [Fresh],
         frees := s.frees + [0], api := Alloc(s.api.n, s.api.k + 1))
    case Spawn(cb) => s.(userCb := cb, user := if cb then Live else NoThread, api := Submit(s.api.n, 0))
    case SubmitOne(ok) =>
      if !ok then s.(api := FreeRest(s.api.n, s.api.k))
      else
        var next := if s.api.k + 1 == s.api.n then Idle else Submit(s.api.n, s.api.k + 1);
        var slot := s.slots[s.api.k];
        if slot.Some? && slot.value < |s.xfers| then
          s.(xfers := s.xfers[slot.value := InFlight], api := next)
        else s.(api := next)
    case FreeOne =>
      var next := if s.api.k + 1 == s.api.n then Idle else FreeRest(s.api.n, s.api.k + 1);
      var slot := s.slots[s.api.k];
      if slot.Some? && slot.value < |s.xfers| && slot.value < |s.frees| then
        s.(slots := s.slots[s.api.k := None], xfers := s.xfers[slot.value := Freed],
           frees := s.frees[slot.value := s.frees[slot.value] + 1], api := next)
      else s.(api := next)
    case StopBegin => EnterStop(s)
    case StopCancel => s.(api := StopChecking(0))
    case StopCheck =>
      if AllNull(s.slots) then s.(api := StopJoining(true))
      else s.(api := StopWaiting(s.api.attempts), signal := false)
    case StopWake => s.(api := StopChecking(s.api.attempts))
    case StopTimeout =>
      if s.api.attempts + 1 >= STOP_TIMEOUT_ATTEMPTS then s.(api := StopJoining(false))
      else s.(api := StopChecking(s.api.attempts + 1))
    case StopJoin =>
      s.(user := NoThread, lastStop := if s.api.ok then StopOk else StopTimedOut,
         api := if s.closing then CloseScanning else Idle)
    case CloseBegin =>
      if s.running then EnterStop(s.(closing := true)) else s.(closing := true, api := CloseScanning)
    case CloseScan => s.(api := if AllNull(s.slots) then Releasing(false) else Quarantined)
    case ReleaseIf => s.(api := Releasing(true))
    case FreeHandle => s.(api := HandleFreed)
    case UserExit => s.(user := Exited)
    case Enter(x) => SetPc(s, x, Entered(s.xfers[x].status))
    case Dispatch(x, packets) =>
      SetPc(s, x, if s.xfers[x].pc.status.Completed? then Packets(packets) else CheckRunning)
    case PacketDone(x, broadcast) =>
      SetPc(s, x, Packets(s.xfers[x].pc.left - 1)).(signal := s.signal || broadcast)
    case PacketsEnd(x) => SetPc(s, x, CheckRunning)
    case TerminalFree(x) => Retire(s, x)
    case ReadRunning(x) => SetPc(s, x, if s.running then Resubmitting else Orphaned)
    case Resubmit(x, ok) => if ok then s.(xfers := s.xfers[x := InFlight]) else SetPc(s, x, ResubmitFailed)
    case FailedFree(x) => Retire(s, x)
    case OrphanFree(x) => Retire(s, x)
    case Complete(x, st) => s.(xfers := s.xfers[x := Done(st)])
  }

  /**
   What uvc_stream_start leaves to its caller: it overwrites the slots, so a stream may be started
   again only if its last uvc_stream_stop did not return UVC_ERROR_TIMEOUT.
   */
  predicate Disciplined(s: State, a: Action) { a.StartBegin? ==> !s.lastStop.StopTimedOut? }

  predicate LegalDisciplined(s: State, a: Action) { Legal(s, a) && Disciplined(s, a) }

  function Sys(slots: nat): System<State, Action> { System(InitWith(slots), LegalDisciplined, Exec) }

  // ----- the invariant

  /** Libusb owns the transfer, or a callback for it is still to touch the stream. */
  predicate Outstanding(f: Xfer) { f.InFlight? || f.Done? || f.Callback? }

  predicate Unfreed(f: Xfer) { f.Fresh? || Outstanding(f) }

  ghost predicate InSlot(slots: Slots, x: nat) { exists i :: 0 <= i < |slots| && slots[i] == Some(x) }

  /** Slots and unfreed transfers correspond one to one, and the free counts say the same. */
  ghost predicate SlotInv(slots: Slots, xfers: seq<Xfer>, frees: seq<nat>) {
    && |frees| == |xfers|
    && (forall i :: 0 <= i < |slots| && slots[i].Some? ==>
          slots[i].value < |xfers| && Unfreed(xfers[slots[i].value]))
    && (forall i, j :: 0 <= i < j < |slots| && slots[i].Some? ==> slots[i] != slots[j])
    && (forall x :: 0 <= x < |xfers| && Unfreed(xfers[x]) ==> InSlot(slots, x))
    && (forall x :: 0 <= x < |xfers| ==> !xfers[x].Lost? && frees[x] == if xfers[x].Freed? then 1 else 0)
  }

  /** Exactly the slots [lo, hi) hold transfers nobody but the starting thread has seen. */
  predicate FreshIn(slots: Slots, xfers: seq<Xfer>, lo: nat, hi: nat) {
    && lo <= hi <= |slots|
    && (forall i :: lo <= i < hi ==>
          slots[i].Some? && slots[i].value < |xfers| && xfers[slots[i].value].Fresh?)
    && (forall i :: 0 <= i < |slots| && !(lo <= i < hi) && slots[i].Some? ==>
          slots[i].value < |xfers| && !xfers[slots[i].value].Fresh?)
  }

  predicate StartInv(s: State) {
    match s.api
    case Alloc(n, k) =>
      s.running && 2 <= n && k <= n <= |s.slots| && FreshIn(s.slots, s.xfers, 0, k)
      && (forall i :: k <= i < |s.slots| ==> s.slots[i].None?)
    case Submit(n, k) => s.running && k < n <= |s.slots| && FreshIn(s.slots, s.xfers, k, n)
    case FreeRest(n, k) => s.running && k < n <= |s.slots| && FreshIn(s.slots, s.xfers, k, n)
    case _ => FreshIn(s.slots, s.xfers, 0, 0)
  }

  predicate StopInv(s: State) {
    && (!s.api.Idle? && !s.api.Alloc? && !s.api.Submit? && !s.api.FreeRest? ==> !s.running)
    && (!s.running && s.api.Idle? && !s.lastStop.StopTimedOut? ==> AllNull(s.slots))
    && (s.api == StopJoining(true) || s.api.Releasing? || s.api.HandleFreed? ==> AllNull(s.slots))
    && (s.api.StopChecking? ==> s.api.attempts < STOP_TIMEOUT_ATTEMPTS)
    && (s.api.StopWaiting? ==> s.api.attempts < STOP_TIMEOUT_ATTEMPTS)
    && (s.running ==> !s.lastStop.StopTimedOut?)
  }

  /** The user callback thread runs only between its creation and the join in stop. */
  predicate UserInv(s: State) {
    && (s.user.Live? || s.user.Exited? ==> s.userCb)
    && (s.user.Exited? ==> !s.running)
    && (s.api.Alloc? || s.api.CloseScanning? || s.api.Quarantined? || s.api.Releasing? || s.api.HandleFreed? ==>
          s.user.NoThread?)
    && (s.api.Idle? && !s.running ==> s.user.NoThread?)
  }

  ghost predicate Inv(s: State) { SlotInv(s.slots, s.xfers, s.frees) && StartInv(s) && StopInv(s) && UserInv(s) }

  /** A transfer that stays outstanding keeps its slot. */
  lemma AdvanceKept(s: State, x: nat, f: Xfer, signal: bool)
    requires Inv(s) && x < |s.xfers| && Outstanding(s.xfers[x]) && Outstanding(f)
    ensures Inv(s.(xfers := s.xfers[x := f], signal := signal))
  {
    var xfers := s.xfers[x := f];
    assert forall y :: 0 <= y < |xfers| && Unfreed(xfers[y]) ==> Unfreed(s.xfers[y]);
    assert SlotInv(s.slots, xfers, s.frees);
  }

  lemma EmptySlotInv(slots: Slots, xfers: seq<Xfer>, frees: seq<nat>, i: nat)
    requires SlotInv(slots, xfers, frees) && i < |slots| && slots[i].Some?
    ensures var x := slots[i].value;
      SlotInv(slots[i := None], xfers[x := Freed], frees[x := frees[x] + 1])
  {
    var xfers', slots' := xfers[slots[i].value := Freed], slots[i := None];
    forall y | 0 <= y < |xfers'| && Unfreed(xfers'[y]) ensures InSlot(slots', y) {
      assert InSlot(slots, y);
      var j :| 0 <= j < |slots| && slots[j] == Some(y);
      assert slots'[j] == Some(y);
    }
  }

  lemma EmptySlotFresh(slots: Slots, xfers: seq<Xfer>, lo: nat, hi: nat, i: nat)
    requires i < |slots| && slots[i].Some? && slots[i].value < |xfers| && !xfers[slots[i].value].Fresh?
    requires forall i, j :: 0 <= i < j < |slots| && slots[i].Some? ==> slots[i] != slots[j]
    ensures FreshIn(slots, xfers, lo, hi) ==>
              FreshIn(slots[i := None], xfers[slots[i].value := Freed], lo, hi)
  {
  }

  /** The one slot of x is found and emptied, and x is freed for the first time. */
  lemma RetireKept(s: State, x: nat)
    requires Inv(s) && x < |s.xfers| && Outstanding(s.xfers[x])
    ensures Inv(Retire(s, x))
  {
    var i := FindSlot(s.slots, x);
    assert InSlot(s.slots, x);
    EmptySlotInv(s.slots, s.xfers, s.frees, i);
    var s' := Retire(s, x);
    EmptySlotFresh(s.slots, s.xfers, 0, 0, i);
    if s.api.Submit? || s.api.FreeRest? { EmptySlotFresh(s.slots, s.xfers, s.api.k, s.api.n, i); }
    assert AllNull(s.slots) ==> AllNull(s'.slots);
    assert s'.api == s.api && s'.running == s.running;
  }

  lemma AllocSlotInv(slots: Slots, xfers: seq<Xfer>, frees: seq<nat>, k: nat)
    requires SlotInv(slots, xfers, frees) && k < |slots| && slots[k].None?
    ensures SlotInv(slots[k := Some(|xfers|)], xfers + [Fresh], frees + [0])
  {
    var slots', xfers' := slots[k := Some(|xfers|)], xfers + [Fresh];
    forall y | 0 <= y < |xfers'| && Unfreed(xfers'[y]) ensures InSlot(slots', y) {
      if y < |xfers| {
        assert InSlot(slots, y);
        var j :| 0 <= j < |slots| && slots[j] == Some(y);
        assert slots'[j] == Some(y);
      } else {
        assert slots'[k] == Some(y);
      }
    }
  }

  lemma AllocKept(s: State)
    requires Inv(s) && Legal(s, AllocOne)
    ensures Inv(Exec(s, AllocOne))
  {
    AllocSlotInv(s.slots, s.xfers, s.frees, s.api.k);
  }

  lemma SubmitFresh(slots: Slots, xfers: seq<Xfer>, frees: seq<nat>, k: nat, n: nat)
    requires SlotInv(slots, xfers, frees) && k < n && FreshIn(slots, xfers, k, n)
    ensures FreshIn(slots, xfers[slots[k].value := InFlight], k + 1, n)
    ensures k + 1 == n ==> FreshIn(slots, xfers[slots[k].value := InFlight], 0, 0)
    ensures SlotInv(slots, xfers[slots[k].value := InFlight], frees)
  {
    var xfers' := xfers[slots[k].value := InFlight];
    assert forall y :: 0 <= y < |xfers'| && Unfreed(xfers'[y]) ==> Unfreed(xfers[y]);
  }

  lemma SubmitKept(s: State, ok: bool)
    requires Inv(s) && Legal(s, SubmitOne(ok))
    ensures Inv(Exec(s, SubmitOne(ok)))
  {
    SubmitFresh(s.slots, s.xfers, s.frees, s.api.k, s.api.n);
  }

  lemma EmptyFresh(slots: Slots, xfers: seq<Xfer>, frees: seq<nat>, k: nat, n: nat)
    requires SlotInv(slots, xfers, frees) && k < n && FreshIn(slots, xfers, k, n)
    ensures var x := slots[k].value;
      FreshIn(slots[k := None], xfers[x := Freed], k + 1, n)
    ensures k + 1 == n ==> FreshIn(slots[k := None], xfers[slots[k].value := Freed], 0, 0)
  {
  }

  lemma FreeOneKept(s: State)
    requires Inv(s) && Legal(s, FreeOne)
    ensures Inv(Exec(s, FreeOne))
  {
    EmptySlotInv(s.slots, s.xfers, s.frees, s.api.k);
    EmptyFresh(s.slots, s.xfers, s.frees, s.api.k, s.api.n);
  }

  lemma StartControlKept(s: State, a: Action)
    requires Inv(s) && LegalDisciplined(s, a) && (a.StartBegin? || a.StartAbort? || a.Spawn?)
    ensures Inv(Exec(s, a))
  {
  }

  lemma StopKept(s: State, a: Action)
    requires Inv(s) && LegalDisciplined(s, a)
    requires a.StopBegin? || a.StopCancel? || a.StopCheck?
    ensures Inv(Exec(s, a))
  {
  }

  lemma StopWaitKept(s: State, a: Action)
    requires Inv(s) && LegalDisciplined(s, a) && (a.StopWake? || a.StopTimeout?)
    ensures Inv(Exec(s, a))
  {
    var s' := Exec(s, a);
    assert s' == s.(api := s'.api) && (s'.api.StopChecking? || s'.api == StopJoining(false));
  }

  lemma StopJoinKept(s: State)
    requires Inv(s) && Legal(s, StopJoin)
    ensures Inv(Exec(s, StopJoin))
  {
  }

  lemma CloseKept(s: State, a: Action)
    requires Inv(s) && LegalDisciplined(s, a)
    requires a.CloseBegin? || a.CloseScan? || a.ReleaseIf? || a.FreeHandle? || a.UserExit?
    ensures Inv(Exec(s, a))
  {
  }

  lemma EventKept(s: State, a: Action)
    requires Inv(s) && LegalDisciplined(s, a) && !IsApi(a) && !a.UserExit?
    ensures Inv(Exec(s, a))
  {
    if a.TerminalFree? || a.FailedFree? || a.OrphanFree? {
      RetireKept(s, a.x);
    } else {
      var s' := Exec(s, a);
      AdvanceKept(s, a.x, s'.xfers[a.x], s'.signal);
      assert s' == s.(xfers := s.xfers[a.x := s'.xfers[a.x]], signal := s'.signal);
    }
  }

  lemma InvKept(s: State, a: Action)
    requires Inv(s) && LegalDisciplined(s, a)
    ensures Inv(Exec(s, a))
  {
    if a.AllocOne? { AllocKept(s); }
    else if a.SubmitOne? { SubmitKept(s, a.ok); }
    else if a.FreeOne? { FreeOneKept(s); }
    else if a.StartBegin? || a.StartAbort? || a.Spawn? { StartControlKept(s, a); }
    else if a.CloseBegin? || a.CloseScan? || a.ReleaseIf? || a.FreeHandle? || a.UserExit? { CloseKept(s, a); }
    else if a.StopWake? || a.StopTimeout? { StopWaitKept(s, a); }
    else if a.StopJoin? { StopJoinKept(s); }
    else if IsApi(a) { StopKept(s, a); }
    else { EventKept(s, a); }
  }

  /** Only the API thread moves its own program counter. */
  lemma EventKeepsApi(s: State, a: Action)
    requires Legal(s, a) && !IsApi(a)
    ensures Exec(s, a).api == s.api
  {
  }

  /** The end of uvc_stream_close, and the only ways into it. */
  lemma ApiSteps(s: State, a: Action)
    requires Legal(s, a) && IsApi(a)
    ensures !s.api.Quarantined? && !s.api.HandleFreed? && (s.api.Releasing? <==> a.ReleaseIf? || a.FreeHandle?)
    ensures Exec(s, a).api.HandleFreed? <==> a.FreeHandle?
    ensures Exec(s, a).api.Quarantined? ==> a.CloseScan?
    ensures Exec(s, a).api.Releasing? ==> a.CloseScan? || a.ReleaseIf?
  {
  }

  lemma InvIsInductive(n: nat)
    ensures Inductive(Sys(n), Inv)
  {
    forall s, a | Inv(s) && LegalDisciplined(s, a) ensures Inv(Exec(s, a)) { InvKept(s, a); }
  }

  lemma InvAt(n: nat, acts: seq<Action>, k: nat)
    requires IsRun(Sys(n), acts) && k <= |acts|
    ensures Inv(At(Sys(n), acts, k))
  {
    InvIsInductive(n);
    InvariantHolds(Sys(n), Inv, acts, k);
  }

  // ----- theorems over every run

  /** No transfer is ever freed twice, and none is lost. */
  lemma FreedAtMostOnce(n: nat, acts: seq<Action>, k: nat, x: nat)
    requires IsRun(Sys(n), acts) && k <= |acts| && x < |At(Sys(n), acts, k).xfers|
    ensures |At(Sys(n), acts, k).frees| == |At(Sys(n), acts, k).xfers|
    ensures At(Sys(n), acts, k).frees[x] <= 1
    ensures At(Sys(n), acts, k).frees[x] == 1 <==> !InSlot(At(Sys(n), acts, k).slots, x)
  {
    InvAt(n, acts, k);
  }

  /** As long as libusb owns a transfer or its callback can still touch the stream, it has a slot. */
  lemma OutstandingHasSlot(n: nat, acts: seq<Action>, k: nat, x: nat)
    requires IsRun(Sys(n), acts) && k <= |acts| && x < |At(Sys(n), acts, k).xfers|
    requires Outstanding(At(Sys(n), acts, k).xfers[x])
    ensures InSlot(At(Sys(n), acts, k).slots, x)
  {
    InvAt(n, acts, k);
  }

  /** The unlocked slot accesses of uvc_stream_start hit live transfers only that thread has seen. */
  lemma StartSeesItsOwn(n: nat, acts: seq<Action>, k: nat)
    requires IsRun(Sys(n), acts) && k < |acts| && (acts[k].SubmitOne? || acts[k].FreeOne?)
    ensures var s := At(Sys(n), acts, k);
      && (s.api.Submit? || s.api.FreeRest?) && s.api.k < |s.slots|
      && s.slots[s.api.k].Some? && s.slots[s.api.k].value < |s.xfers|
      && s.xfers[s.slots[s.api.k].value].Fresh?
  {
    InvAt(n, acts, k);
    AtStep(Sys(n), acts, k);
  }

  /** No libusb transfer, callback or user thread can reach the stream. */
  predicate Quiet(s: State) {
    && s.user.NoThread?
    && forall x :: 0 <= x < |s.xfers| ==> !Outstanding(s.xfers[x])
  }

  lemma EmptySlotsAreQuiet(s: State)
    requires Inv(s) && AllNull(s.slots)
    ensures forall x :: 0 <= x < |s.xfers| ==> s.xfers[x].Freed?
  {
    forall x | 0 <= x < |s.xfers| ensures s.xfers[x].Freed? {
      assert !InSlot(s.slots, x);
    }
  }

  /** A stop that returns UVC_SUCCESS leaves no transfer behind, whatever interleaved with it. */
  lemma StopOkIsClean(n: nat, acts: seq<Action>, k: nat)
    requires IsRun(Sys(n), acts) && k < |acts| && acts[k].StopJoin?
    requires At(Sys(n), acts, k + 1).lastStop.StopOk?
    ensures Quiet(At(Sys(n), acts, k + 1)) && AllNull(At(Sys(n), acts, k + 1).slots)
  {
    InvAt(n, acts, k);
    AtStep(Sys(n), acts, k);
    InvAt(n, acts, k + 1);
    EmptySlotsAreQuiet(At(Sys(n), acts, k + 1));
  }

  /** The close has found every slot empty: it will free the handle, or has freed it. */
  predicate ClosedClean(s: State) { s.api.Releasing? || s.api.HandleFreed? }

  lemma ClosedCleanIsQuiet(s: State)
    requires Inv(s) && ClosedClean(s)
    ensures Quiet(s)
  {
    EmptySlotsAreQuiet(s);
  }

  lemma ClosedCleanKept(s: State, a: Action)
    requires Inv(s) && ClosedClean(s) && Legal(s, a)
    ensures ClosedClean(Exec(s, a)) && (a.ReleaseIf? || a.FreeHandle?)
  {
    EmptySlotsAreQuiet(s);
  }

  /**
   From the moment uvc_stream_close decides to free the handle, nothing but the release of the
   interface and that free happens to it: no completion, no callback step, no user thread.
   */
  lemma CloseFreesOnlyUnreachable(n: nat, acts: seq<Action>, i: nat, j: nat)
    requires IsRun(Sys(n), acts) && i <= j <= |acts|
    requires ClosedClean(At(Sys(n), acts, i))
    ensures Quiet(At(Sys(n), acts, j))
    ensures j < |acts| ==> acts[j].ReleaseIf? || acts[j].FreeHandle?
  {
    InvIsInductive(n);
    forall s, a | Inv(s) && ClosedClean(s) && LegalDisciplined(s, a) ensures ClosedClean(Exec(s, a)) {
      ClosedCleanKept(s, a);
    }
    StaysTrue(Sys(n), Inv, ClosedClean, acts, i, j);
    InvAt(n, acts, j);
    ClosedCleanIsQuiet(At(Sys(n), acts, j));
    if j < |acts| {
      AtStep(Sys(n), acts, j);
      ClosedCleanKept(At(Sys(n), acts, j), acts[j]);
    }
  }

  // ----- a running stream keeps its transfers

  /** While the stream runs no callback gives its transfer up for stopped. */
  predicate NoOrphan(s: State) { s.running ==> forall x :: 0 <= x < |s.xfers| ==> s.xfers[x] != Callback(Orphaned) }

  lemma NoOrphanKept(s: State, a: Action)
    requires Inv(s) && NoOrphan(s) && LegalDisciplined(s, a)
    ensures NoOrphan(Exec(s, a))
  {
    if a.StartBegin? {
      EmptySlotsAreQuiet(s);
    } else if IsApi(a) {
      ApiKeepsNoOrphan(s, a);
    } else {
      EventKeepsNoOrphan(s, a);
    }
  }

  lemma ApiKeepsNoOrphan(s: State, a: Action)
    requires NoOrphan(s) && Legal(s, a) && IsApi(a) && !a.StartBegin?
    ensures NoOrphan(Exec(s, a))
  {
  }

  lemma EventKeepsNoOrphan(s: State, a: Action)
    requires NoOrphan(s) && Legal(s, a) && !IsApi(a)
    ensures NoOrphan(Exec(s, a))
  {
  }

  lemma NoOrphanAt(n: nat, acts: seq<Action>, k: nat)
    requires IsRun(Sys(n), acts) && k <= |acts|
    ensures NoOrphan(At(Sys(n), acts, k))
  {
    InvIsInductive(n);
    forall s, a | Inv(s) && NoOrphan(s) && LegalDisciplined(s, a) ensures NoOrphan(Exec(s, a)) { NoOrphanKept(s, a); }
    assert At(Sys(n), acts, 0) == InitWith(n);
    StaysTrue(Sys(n), Inv, NoOrphan, acts, 0, k);
  }

  /** The ways a transfer is freed while the stream runs: a terminal status, or a submit that is refused. */
  predicate FreesWhileRunning(a: Action, x: nat) { a == TerminalFree(x) || a == FailedFree(x) || a.FreeOne? }

  /**
   A transfer of a running stream is given up only for one of these reasons: every other completion ends
   with the transfer on its way back to the kernel.
   */
  lemma RunningKeepsTransfers(n: nat, acts: seq<Action>, k: nat, x: nat)
    requires IsRun(Sys(n), acts) && k < |acts| && At(Sys(n), acts, k).running && x < |At(Sys(n), acts, k).xfers|
    requires Outstanding(At(Sys(n), acts, k).xfers[x])
    ensures var t := At(Sys(n), acts, k + 1);
      x < |t.xfers| && (Outstanding(t.xfers[x]) || FreesWhileRunning(acts[k], x))
  {
    InvAt(n, acts, k);
    NoOrphanAt(n, acts, k);
    AtStep(Sys(n), acts, k);
    KeepsTransfer(At(Sys(n), acts, k), acts[k], x);
  }

  /** What the API thread does leaves a transfer outstanding, but for the loop that frees the rest of a start. */
  lemma ApiKeepsTransfer(s: State, a: Action, x: nat)
    requires Legal(s, a) && IsApi(a) && !a.FreeOne? && x < |s.xfers| && Outstanding(s.xfers[x])
    ensures x < |Exec(s, a).xfers| && Outstanding(Exec(s, a).xfers[x])
  {
  }

  lemma EventKeepsTransfer(s: State, a: Action, x: nat)
    requires NoOrphan(s) && s.running && Legal(s, a) && !IsApi(a) && x < |s.xfers| && Outstanding(s.xfers[x])
    ensures x < |Exec(s, a).xfers| && (Outstanding(Exec(s, a).xfers[x]) || FreesWhileRunning(a, x))
  {
  }

  lemma KeepsTransfer(s: State, a: Action, x: nat)
    requires NoOrphan(s) && s.running && Legal(s, a) && x < |s.xfers| && Outstanding(s.xfers[x])
    ensures x < |Exec(s, a).xfers| && (Outstanding(Exec(s, a).xfers[x]) || FreesWhileRunning(a, x))
  {
    if !IsApi(a) {
      EventKeepsTransfer(s, a, x);
    } else if a.FreeOne? {
      assert |Exec(s, a).xfers| == |s.xfers|;
    } else {
      ApiKeepsTransfer(s, a, x);
    }
  }

  /** A refused submit is the only way to FailedFree, a terminal status the only way to TerminalFree. */
  lemma FreedForAReason(s: State, x: nat)
    ensures Legal(s, TerminalFree(x)) ==> s.xfers[x].pc.Entered? && Terminal(s.xfers[x].pc.status)
    ensures Legal(s, FailedFree(x)) ==> s.xfers[x] == Callback(ResubmitFailed)
    ensures forall ok :: Legal(s, Resubmit(x, ok)) ==>
      Exec(s, Resubmit(x, ok)).xfers[x] == if ok then InFlight else Callback(ResubmitFailed)
    ensures s.running && Legal(s, ReadRunning(x)) ==> Legal(Exec(s, ReadRunning(x)), Resubmit(x, true))
  {
  }

  // ----- the stop loop ends

  /** How many more steps of its own a transfer can make once `running` is 0. */
  function Stage(f: Xfer): nat {
    match f
    case InFlight => 7
    case Done(_) => 6
    case Callback(Entered(_)) => 5
    case Callback(Packets(_)) => 4
    case Callback(CheckRunning) => 3
    case Callback(Resubmitting) => 8
    case Callback(ResubmitFailed) => 1
    case Callback(Orphaned) => 1
    case Fresh | Freed | Lost => 0
  }

  function PacketsLeft(f: Xfer): nat { if f.Callback? && f.pc.Packets? then f.pc.left else 0 }

  function Stages(xfers: seq<Xfer>): nat {
    if xfers == [] then 0 else Stage(xfers[0]) + Stages(xfers[1..])
  }

  function PacketSum(xfers: seq<Xfer>): nat {
    if xfers == [] then 0 else PacketsLeft(xfers[0]) + PacketSum(xfers[1..])
  }

  lemma {:induction false} StagesUpdate(xfers: seq<Xfer>, x: nat, f: Xfer)
    requires x < |xfers|
    ensures Stages(xfers[x := f]) == Stages(xfers) - Stage(xfers[x]) + Stage(f)
    ensures PacketSum(xfers[x := f]) == PacketSum(xfers) - PacketsLeft(xfers[x]) + PacketsLeft(f)
  {
    if x > 0 {
      StagesUpdate(xfers[1..], x - 1, f);
      assert xfers[x := f][1..] == xfers[1..][x - 1 := f];
    }
  }

  predicate InStop(s: State) { s.api.StopCancelling? || s.api.StopChecking? || s.api.StopWaiting? }

  function AttemptsLeft(s: State): nat {
    if s.api.StopChecking? || s.api.StopWaiting?
    then if s.api.attempts < STOP_TIMEOUT_ATTEMPTS then STOP_TIMEOUT_ATTEMPTS - s.api.attempts else 0
    else STOP_TIMEOUT_ATTEMPTS
  }

  /** Position in the loop: a pending wake-up is worth one more check. */
  function LoopRank(s: State): nat {
    if s.api.StopCancelling? then 3
    else if s.api.StopWaiting? && s.signal then 2
    else if s.api.StopChecking? then 1
    else 0
  }

  function UserRank(s: State): nat { if s.user.Live? then 1 else 0 }

  /** The lexicographic measure of the stop loop. */
  predicate Smaller(t: State, s: State) {
    || Stages(t.xfers) < Stages(s.xfers)
    || (Stages(t.xfers) == Stages(s.xfers)
        && (|| PacketSum(t.xfers) < PacketSum(s.xfers)
            || (PacketSum(t.xfers) == PacketSum(s.xfers)
                && (|| AttemptsLeft(t) < AttemptsLeft(s)
                    || (AttemptsLeft(t) == AttemptsLeft(s)
                        && (|| LoopRank(t) < LoopRank(s)
                            || (LoopRank(t) == LoopRank(s) && UserRank(t) < UserRank(s))))))))
  }

  /** A callback that ends without resubmitting takes its transfer off the measure. */
  lemma RetireDecreases(s: State, x: nat)
    requires Inv(s) && InStop(s) && x < |s.xfers| && Outstanding(s.xfers[x])
    ensures Smaller(Retire(s, x), s)
  {
    assert InSlot(s.slots, x);
    StagesUpdate(s.xfers, x, Freed);
  }

  /** Any other step of the kernel or of a callback moves its transfer on by one stage or packet. */
  lemma StageMoves(s: State, a: Action)
    requires !s.running && Legal(s, a)
    requires !IsApi(a) && !a.UserExit? && !a.TerminalFree? && !a.FailedFree? && !a.OrphanFree?
    ensures a.x < |s.xfers| == |Exec(s, a).xfers|
    ensures Exec(s, a).xfers == s.xfers[a.x := Exec(s, a).xfers[a.x]]
    ensures var f, f' := s.xfers[a.x], Exec(s, a).xfers[a.x];
      Stage(f') < Stage(f) || (Stage(f') == Stage(f) && PacketsLeft(f') < PacketsLeft(f))
  {
  }

  lemma AdvanceDecreases(s: State, a: Action)
    requires !s.running && Legal(s, a)
    requires !IsApi(a) && !a.UserExit? && !a.TerminalFree? && !a.FailedFree? && !a.OrphanFree?
    ensures Smaller(Exec(s, a), s)
  {
    var s' := Exec(s, a);
    StageMoves(s, a);
    StagesUpdate(s.xfers, a.x, s'.xfers[a.x]);
  }

  /** Inside the stop loop every step of every thread uses up some of the measure. */
  lemma StopStepDecreases(s: State, a: Action)
    requires Inv(s) && InStop(s) && LegalDisciplined(s, a)
    ensures InStop(Exec(s, a)) ==> Smaller(Exec(s, a), s)
  {
    if a.TerminalFree? || a.FailedFree? || a.OrphanFree? { RetireDecreases(s, a.x); }
    else if !IsApi(a) && !a.UserExit? { AdvanceDecreases(s, a); }
  }

  /**
   Every schedule leaves the stop loop: an infinite sequence of steps, of any threads in any order,
   that starts inside it reaches a state outside it.
   */
  lemma {:induction false} StopEnds(f: nat -> State, g: nat -> Action, i: nat) returns (k: nat)
    requires Inv(f(i))
    requires forall j: nat :: LegalDisciplined(f(j), g(j)) && f(j + 1) == Exec(f(j), g(j))
    ensures i <= k && !InStop(f(k))
    decreases Stages(f(i).xfers), PacketSum(f(i).xfers), AttemptsLeft(f(i)), LoopRank(f(i)), UserRank(f(i))
  {
    if !InStop(f(i)) { return i; }
    assert LegalDisciplined(f(i), g(i)) && f(i + 1) == Exec(f(i), g(i));
    InvKept(f(i), g(i));
    StopStepDecreases(f(i), g(i));
    if InStop(f(i + 1)) {
      k := StopEnds(f, g, i + 1);
    } else {
      k := i + 1;
    }
  }

  // ----- when a stop gives up

  /** Step b begins a stop: uvc_stream_stop itself, or uvc_stream_close of a running stream. */
  ghost predicate BeginsStop(n: nat, acts: seq<Action>, b: nat)
    requires b < |acts|
  {
    acts[b].StopBegin? || (acts[b].CloseBegin? && At(Sys(n), acts, b).running)
  }

  /** How many waits timed out between b and j. */
  function Timeouts(acts: seq<Action>, b: nat, j: nat): nat
    requires b <= j <= |acts|
  {
    if b == j then 0 else Timeouts(acts, b, j - 1) + if acts[j - 1].StopTimeout? then 1 else 0
  }

  /** How many of them in a row, up to j: a wait that ends with a wake-up begins a new count. */
  function Streak(acts: seq<Action>, b: nat, j: nat): nat
    requires b <= j <= |acts|
  {
    if b == j || acts[j - 1].StopWake? then 0
    else Streak(acts, b, j - 1) + if acts[j - 1].StopTimeout? then 1 else 0
  }

  /** The stop is under way and has counted c timeouts. */
  predicate Counted(p: ApiPc, c: nat) {
    || (p.StopCancelling? && c == 0)
    || ((p.StopChecking? || p.StopWaiting?) && p.attempts == c < STOP_TIMEOUT_ATTEMPTS)
    || (p == StopJoining(true) && c < STOP_TIMEOUT_ATTEMPTS)
    || (p == StopJoining(false) && c == STOP_TIMEOUT_ATTEMPTS)
  }

  lemma CountedKept(s: State, a: Action, c: nat)
    requires Legal(s, a) && Counted(s.api, c) && !a.StopJoin?
    ensures Counted(Exec(s, a).api, if a.StopTimeout? then c + 1 else c)
  {
    if !IsApi(a) { EventKeepsApi(s, a); }
  }

  /** The source's counter is the number of timeouts since the stop began, wake-ups or not. */
  lemma {:induction false} CountsTimeouts(n: nat, acts: seq<Action>, b: nat, j: nat)
    requires IsRun(Sys(n), acts) && b < j <= |acts| && BeginsStop(n, acts, b)
    requires forall k :: b < k < j ==> !acts[k].StopJoin?
    ensures Counted(At(Sys(n), acts, j).api, Timeouts(acts, b, j))
    decreases j
  {
    AtStep(Sys(n), acts, j - 1);
    if j > b + 1 {
      CountsTimeouts(n, acts, b, j - 1);
      CountedKept(At(Sys(n), acts, j - 1), acts[j - 1], Timeouts(acts, b, j - 1));
    } else {
      assert Timeouts(acts, b, b) == 0;
    }
  }

  /** A stop returns UVC_ERROR_TIMEOUT if and only if five of its waits timed out. */
  lemma TimedOutIff(n: nat, acts: seq<Action>, b: nat, j: nat)
    requires IsRun(Sys(n), acts) && b < j < |acts| && BeginsStop(n, acts, b) && acts[j].StopJoin?
    requires forall k :: b < k < j ==> !acts[k].StopJoin?
    ensures At(Sys(n), acts, j + 1).lastStop.StopTimedOut? <==> Timeouts(acts, b, j) == STOP_TIMEOUT_ATTEMPTS
  {
    CountsTimeouts(n, acts, b, j);
    AtStep(Sys(n), acts, j);
  }

  /** No wake-up came after a timeout. */
  predicate WokenOnlyFirst(acts: seq<Action>, b: nat, j: nat)
    requires b <= j <= |acts|
  {
    forall k :: b <= k < j && acts[k].StopWake? ==> Timeouts(acts, b, k) == 0
  }

  lemma {:induction false} StreakIs(acts: seq<Action>, b: nat, j: nat)
    requires b <= j <= |acts|
    ensures Streak(acts, b, j) <= Timeouts(acts, b, j)
    ensures Streak(acts, b, j) == Timeouts(acts, b, j) <==> WokenOnlyFirst(acts, b, j)
    decreases j
  {
    if b < j { StreakIs(acts, b, j - 1); }
  }

  /**
   libuvc_internal.h says the stop gives up after five consecutive timeouts.  It gives up after five;
   they were consecutive if and only if no wake-up came after one of them.
   */
  lemma ConsecutiveIff(n: nat, acts: seq<Action>, b: nat, j: nat)
    requires IsRun(Sys(n), acts) && b < j < |acts| && BeginsStop(n, acts, b) && acts[j].StopJoin?
    requires forall k :: b < k < j ==> !acts[k].StopJoin?
    requires At(Sys(n), acts, j + 1).lastStop.StopTimedOut?
    ensures Streak(acts, b, j) == STOP_TIMEOUT_ATTEMPTS <==> WokenOnlyFirst(acts, b, j)
  {
    TimedOutIff(n, acts, b, j);
    StreakIs(acts, b, j);
  }

  /** One timeout of the stop loop of a stream whose transfers do not complete. */
  lemma TimeoutRound(s: State, acts: seq<Action>) returns (s': State, acts': seq<Action>)
    requires IsRun(Sys(2), acts) && s == After(Sys(2), InitWith(2), acts)
    requires s.api.StopChecking? && s.slots == [Some(0), Some(1)]
    ensures IsRun(Sys(2), acts') && s' == After(Sys(2), InitWith(2), acts')
    ensures acts' == acts + [StopCheck, StopTimeout]
    ensures s' == s.(signal := false,
                     api := if s.api.attempts + 1 >= 5 then StopJoining(false) else StopChecking(s.api.attempts + 1))
  {
    assert s.slots[0].Some?;
    s', acts' := Extend(Sys(2), s, acts, StopCheck);
    s', acts' := Extend(Sys(2), s', acts', StopTimeout);
    assert acts + [StopCheck] + [StopTimeout] == acts + [StopCheck, StopTimeout];
  }

  /** Two transfers allocated. */
  lemma TwoAllocated() returns (s: State, acts: seq<Action>)
    ensures IsRun(Sys(2), acts) && s == After(Sys(2), InitWith(2), acts)
    ensures acts == [StartBegin(2), AllocOne, AllocOne]
    ensures s == State([Some(0), Some(1)], [Fresh, Fresh], [0, 0], true, NeverStopped,
                       false, NoThread, Alloc(2, 2), false, false)
  {
    s, acts := Extend(Sys(2), InitWith(2), [], StartBegin(2));
    s, acts := Extend(Sys(2), s, acts, AllocOne);
    s, acts := Extend(Sys(2), s, acts, AllocOne);
    assert s.slots == [Some(0), Some(1)] && s.xfers == [Fresh, Fresh] && s.frees == [0, 0];
  }

  /** Two transfers submitted. */
  lemma StartedTwo() returns (s: State, acts: seq<Action>)
    ensures IsRun(Sys(2), acts) && s == After(Sys(2), InitWith(2), acts)
    ensures acts == [StartBegin(2), AllocOne, AllocOne, Spawn(false), SubmitOne(true), SubmitOne(true)]
    ensures s == State([Some(0), Some(1)], [InFlight, InFlight], [0, 0], true, NeverStopped,
                       false, NoThread, Idle, false, false)
  {
    s, acts := TwoAllocated();
    s, acts := Extend(Sys(2), s, acts, Spawn(false));
    s, acts := Extend(Sys(2), s, acts, SubmitOne(true));
    s, acts := Extend(Sys(2), s, acts, SubmitOne(true));
    assert s.xfers == [InFlight, InFlight];
  }

  /** The same, and a stop begun by the last step. */
  lemma StoppingWithTwo() returns (s: State, acts: seq<Action>)
    ensures IsRun(Sys(2), acts) && s == After(Sys(2), InitWith(2), acts)
    ensures acts != [] && acts[|acts| - 1].StopBegin?
    ensures s == State([Some(0), Some(1)], [InFlight, InFlight], [0, 0], false, NeverStopped,
                       false, NoThread, StopCancelling, false, false)
  {
    s, acts := StartedTwo();
    s, acts := Extend(Sys(2), s, acts, StopBegin);
  }

  /** The steps from the completion of transfer 0 to its one payload. */
  predicate FirstMoves(e: Xfer, a: Action, f: Xfer) {
    || (a == Complete(0, Completed) && e.InFlight? && f == Done(Completed))
    || (a == Enter(0) && e == Done(Completed) && f == Callback(Entered(Completed)))
    || (a == Dispatch(0, 1) && e == Callback(Entered(Completed)) && f == Callback(Packets(1)))
  }

  lemma FirstThen(s: State, acts: seq<Action>, e: Xfer, a: Action, f: Xfer) returns (s': State, acts': seq<Action>)
    requires IsRun(Sys(2), acts) && s == After(Sys(2), InitWith(2), acts)
    requires s.xfers == [e, InFlight] && FirstMoves(e, a, f)
    ensures IsRun(Sys(2), acts') && s' == After(Sys(2), InitWith(2), acts')
    ensures acts' == acts + [a] && s' == s.(xfers := [f, InFlight])
  {
    s', acts' := Extend(Sys(2), s, acts, a);
    assert s.xfers[0 := f] == [f, InFlight];
  }

  /** Transfer 0 completes and its callback starts on its one payload. */
  lemma PayloadStarts(s: State, acts: seq<Action>) returns (s': State, acts': seq<Action>)
    requires IsRun(Sys(2), acts) && s == After(Sys(2), InitWith(2), acts) && s.xfers == [InFlight, InFlight]
    ensures IsRun(Sys(2), acts') && s' == After(Sys(2), InitWith(2), acts')
    ensures |acts'| == |acts| + 3 && acts'[..|acts|] == acts
    ensures forall i :: |acts| <= i < |acts'| ==> !IsApi(acts'[i])
    ensures s' == s.(xfers := [Callback(Packets(1)), InFlight])
  {
    s', acts' := FirstThen(s, acts, InFlight, Complete(0, Completed), Done(Completed));
    s', acts' := FirstThen(s', acts', Done(Completed), Enter(0), Callback(Entered(Completed)));
    s', acts' := FirstThen(s', acts', Callback(Entered(Completed)), Dispatch(0, 1), Callback(Packets(1)));
  }

  /** A wait that ends because that payload completed a frame. */
  lemma WakeRound(s: State, acts: seq<Action>) returns (s': State, acts': seq<Action>)
    requires IsRun(Sys(2), acts) && s == After(Sys(2), InitWith(2), acts)
    requires s.api.StopChecking? && s.slots == [Some(0), Some(1)] && s.xfers == [Callback(Packets(1)), InFlight]
    ensures IsRun(Sys(2), acts') && s' == After(Sys(2), InitWith(2), acts')
    ensures acts' == acts + [StopCheck, PacketDone(0, true), StopWake]
    ensures s' == s.(signal := true, xfers := [Callback(Packets(0)), InFlight])
  {
    assert s.slots[0].Some?;
    s', acts' := Extend(Sys(2), s, acts, StopCheck);
    s', acts' := Extend(Sys(2), s', acts', PacketDone(0, true));
    s', acts' := Extend(Sys(2), s', acts', StopWake);
    assert acts' == acts + [StopCheck, PacketDone(0, true), StopWake];
    assert s'.xfers == [Callback(Packets(0)), InFlight];
  }

  lemma {:induction false} TimeoutsGrow(acts: seq<Action>, b: nat, k: nat, j: nat)
    requires b <= k < j <= |acts| && acts[k].StopTimeout?
    ensures Timeouts(acts, b, j) > 0
    decreases j
  {
    if k < j - 1 { TimeoutsGrow(acts, b, k, j - 1); }
  }

  /** A stop begun at b, with one payload of transfer 0 still to be processed. */
  lemma StoppingWithPayload() returns (s: State, acts: seq<Action>, b: nat)
    ensures IsRun(Sys(2), acts) && s == After(Sys(2), InitWith(2), acts)
    ensures b < |acts| && acts[b].StopBegin? && forall i :: b < i < |acts| ==> !acts[i].StopJoin?
    ensures s.api == StopChecking(0) && s.slots == [Some(0), Some(1)]
    ensures s.xfers == [Callback(Packets(1)), InFlight]
  {
    s, acts := StoppingWithTwo();
    b := |acts| - 1;
    s, acts := Extend(Sys(2), s, acts, StopCancel);
    ghost var upTo := acts;
    s, acts := PayloadStarts(s, acts);
    assert acts[b] == upTo[b];
  }

  lemma FourMore(s: State, acts: seq<Action>) returns (s': State, acts': seq<Action>)
    requires IsRun(Sys(2), acts) && s == After(Sys(2), InitWith(2), acts)
    requires s.api == StopChecking(1) && s.slots == [Some(0), Some(1)]
    ensures IsRun(Sys(2), acts') && s' == After(Sys(2), InitWith(2), acts') && s'.api == StopJoining(false)
    ensures |acts'| == |acts| + 8 && acts'[..|acts|] == acts
    ensures forall i :: |acts| <= i < |acts'| ==> acts'[i].StopCheck? || acts'[i].StopTimeout?
  {
    s', acts' := TimeoutRound(s, acts);
    s', acts' := TimeoutRound(s', acts');
    s', acts' := TimeoutRound(s', acts');
    s', acts' := TimeoutRound(s', acts');
  }

  /**
   A stop that gives up without five consecutive timeouts: one, then a wake-up by a late frame, then
   four more.
   */
  lemma GivesUpWithoutFiveInARow() returns (acts: seq<Action>, b: nat)
    ensures IsRun(Sys(2), acts) && b < |acts| && BeginsStop(2, acts, b)
    ensures At(Sys(2), acts, |acts|).api == StopJoining(false)
    ensures Streak(acts, b, |acts|) < STOP_TIMEOUT_ATTEMPTS
  {
    var s: State;
    s, acts, b := StoppingWithPayload();
    s, acts := TimeoutRound(s, acts);
    var k := |acts| - 1;
    s, acts := WakeRound(s, acts);
    var w := |acts| - 1;
    ghost var upTo := acts;
    s, acts := FourMore(s, acts);
    assert acts[..|acts|] == acts;
    GaveUpWith(s, acts, upTo, b, k, w);
  }

  lemma GaveUpWith(s: State, acts: seq<Action>, upTo: seq<Action>, b: nat, k: nat, w: nat)
    requires IsRun(Sys(2), acts) && s == At(Sys(2), acts, |acts|) && s.api == StopJoining(false)
    requires |upTo| + 8 == |acts| && acts[..|upTo|] == upTo && w == |upTo| - 1 && b < k < w
    requires upTo[b].StopBegin? && upTo[k].StopTimeout? && upTo[w].StopWake?
    requires forall i :: |upTo| <= i < |acts| ==> acts[i].StopCheck? || acts[i].StopTimeout?
    requires forall i :: b < i < |upTo| ==> !upTo[i].StopJoin?
    ensures Streak(acts, b, |acts|) < STOP_TIMEOUT_ATTEMPTS
  {
    assert acts[b] == upTo[b] && acts[k] == upTo[k] && acts[w] == upTo[w];
    assert forall i :: b < i < |upTo| ==> acts[i] == upTo[i];
    CountsTimeouts(2, acts, b, |acts|);
    TimeoutsGrow(acts, b, k, w);
    StreakIs(acts, b, |acts|);
  }

  // ----- what happens without the discipline

  const Undisciplined := System(InitWith(2), Legal, Exec)

  lemma {:induction false} AlsoUndisciplined(s: State, acts: seq<Action>)
    requires IsRunFrom(Sys(2), s, acts)
    ensures IsRunFrom(Undisciplined, s, acts) && After(Undisciplined, s, acts) == After(Sys(2), s, acts)
    decreases |acts|
  {
    if acts != [] { AlsoUndisciplined(Exec(s, acts[0]), acts[1..]); }
  }

  predicate InCloseCall(a: Action) { IsApi(a) && !a.StartBegin? && !a.StopBegin? && !a.ReleaseIf? && !a.FreeHandle? }

  lemma FiveTimeouts(s: State, acts: seq<Action>) returns (s': State, acts': seq<Action>)
    requires IsRun(Sys(2), acts) && s == After(Sys(2), InitWith(2), acts)
    requires s.api == StopChecking(0) && s.slots == [Some(0), Some(1)]
    ensures IsRun(Sys(2), acts') && s' == After(Sys(2), InitWith(2), acts')
    ensures |acts| <= |acts'| && acts'[..|acts|] == acts
    ensures forall i :: |acts| <= i < |acts'| ==> acts'[i].StopCheck? || acts'[i].StopTimeout?
    ensures s' == s.(signal := false, api := StopJoining(false))
  {
    s', acts' := TimeoutRound(s, acts);
    s', acts' := TimeoutRound(s', acts');
    s', acts' := TimeoutRound(s', acts');
    s', acts' := TimeoutRound(s', acts');
    s', acts' := TimeoutRound(s', acts');
  }

  lemma CloseBegun(s: State, acts: seq<Action>) returns (s': State, acts': seq<Action>)
    requires IsRun(Sys(2), acts) && s == After(Sys(2), InitWith(2), acts) && s.api.Idle? && s.running
    ensures IsRun(Sys(2), acts') && s' == After(Sys(2), InitWith(2), acts')
    ensures acts' == acts + [CloseBegin] + [StopCancel]
    ensures s' == s.(closing := true, running := false, api := StopChecking(0))
  {
    s', acts' := Extend(Sys(2), s, acts, CloseBegin);
    s', acts' := Extend(Sys(2), s', acts', StopCancel);
  }

  lemma CloseScanned(s: State, acts: seq<Action>) returns (s': State, acts': seq<Action>)
    requires IsRun(Sys(2), acts) && s == After(Sys(2), InitWith(2), acts)
    requires s.api == StopJoining(false) && !s.userCb && s.closing && |s.slots| > 0 && s.slots[0].Some?
    ensures IsRun(Sys(2), acts') && s' == After(Sys(2), InitWith(2), acts')
    ensures acts' == acts + [StopJoin] + [CloseScan]
    ensures s'.api.Quarantined? && s'.xfers == s.xfers
  {
    s', acts' := Extend(Sys(2), s, acts, StopJoin);
    s', acts' := Extend(Sys(2), s', acts', CloseScan);
  }

  /** A running stream closed while its device does not answer: quarantined, with both transfers in flight. */
  lemma ClosedWithTwo() returns (s: State, first: seq<Action>, rest: seq<Action>)
    ensures first == [StartBegin(2), AllocOne, AllocOne, Spawn(false), SubmitOne(true), SubmitOne(true)]
    ensures IsRunFrom(Sys(2), InitWith(2), first)
    ensures After(Sys(2), InitWith(2), first).api.Idle?
    ensures IsRunFrom(Sys(2), After(Sys(2), InitWith(2), first), rest)
    ensures s == After(Sys(2), After(Sys(2), InitWith(2), first), rest)
    ensures forall i :: 0 <= i < |rest| ==> InCloseCall(rest[i])
    ensures s.api.Quarantined? && s.xfers == [InFlight, InFlight]
  {
    var acts: seq<Action>;
    s, first := StartedTwo();
    s, acts := CloseBegun(s, first);
    s, acts := FiveTimeouts(s, acts);
    s, acts := CloseScanned(s, acts);
    rest := TailFrom(first, acts);
  }

  lemma TailFrom(first: seq<Action>, acts: seq<Action>) returns (rest: seq<Action>)
    requires |first| <= |acts| && acts[..|first|] == first && IsRun(Sys(2), acts)
    requires forall i :: |first| <= i < |acts| ==> InCloseCall(acts[i])
    ensures IsRunFrom(Sys(2), After(Sys(2), InitWith(2), first), rest)
    ensures After(Sys(2), After(Sys(2), InitWith(2), first), rest) == After(Sys(2), InitWith(2), acts)
    ensures forall i :: 0 <= i < |rest| ==> InCloseCall(rest[i])
  {
    rest := acts[|first|..];
    assert acts == first + rest;
    RunSplit(Sys(2), InitWith(2), first, rest);
  }

  /** A stop that timed out with both transfers in flight. */
  lemma TimedOutWithTwo() returns (s: State, acts: seq<Action>)
    ensures IsRun(Sys(2), acts) && s == After(Sys(2), InitWith(2), acts)
    ensures s == State([Some(0), Some(1)], [InFlight, InFlight], [0, 0], false, StopTimedOut,
                       false, NoThread, Idle, false, false)
  {
    s, acts := StoppingWithTwo();
    s, acts := Extend(Sys(2), s, acts, StopCancel);
    s, acts := FiveTimeouts(s, acts);
    s, acts := Extend(Sys(2), s, acts, StopJoin);
  }

  /**
   Exactly when a start is safe, discipline or not: the slot each new transfer is put into must be
   empty. If it is not, the transfer it held is in no slot afterwards.
   */
  lemma AllocKeepsSlotsIff(s: State)
    requires SlotInv(s.slots, s.xfers, s.frees) && Legal(s, AllocOne)
    ensures var t, slot := Exec(s, AllocOne), s.slots[s.api.k];
      && (SlotInv(t.slots, t.xfers, t.frees) <==> slot.None?)
      && (slot.Some? ==> slot.value < |t.xfers| && Unfreed(t.xfers[slot.value]) && !InSlot(t.slots, slot.value))
  {
    var t, slot := Exec(s, AllocOne), s.slots[s.api.k];
    if slot.None? {
      AllocSlotInv(s.slots, s.xfers, s.frees, s.api.k);
    } else {
      assert t.xfers[slot.value] == s.xfers[slot.value];
      assert Unfreed(t.xfers[slot.value]) && !InSlot(t.slots, slot.value);
    }
  }

  /**
   A stream restarted after a stop that timed out: the new transfer takes the slot, and the old one,
   still with the kernel, is in none.
   */
  lemma RestartAfterTimeoutLosesSlot() returns (acts: seq<Action>)
    ensures IsRun(Undisciplined, acts)
    ensures var s := At(Undisciplined, acts, |acts|);
      |s.xfers| > 0 && s.xfers[0].InFlight? && !InSlot(s.slots, 0)
  {
    var s: State;
    s, acts := TimedOutWithTwo();
    AlsoUndisciplined(InitWith(2), acts);
    s, acts := Extend(Undisciplined, s, acts, StartBegin(2));
    s, acts := Extend(Undisciplined, s, acts, AllocOne);
    assert acts[..|acts|] == acts;
    assert s.slots == [Some(2), Some(1)];
  }
}
