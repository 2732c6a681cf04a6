/**
 Claiming and releasing the interfaces of one device handle, the reattach guard that outlives the
 process, and the order in which uvc_close gives interfaces back.

 The 32-bit masks `claimed` and `armed` are sets of interface numbers below 32.  The kernel is the
 part of the state below "kernel side"; its calls return any outcome its contract allows.  Every
 change of what a crash would leave behind is recorded in `history`, one snapshot per effect.
 */
module Interfaces {
  import opened SeqFacts

  const MAX_INTERFACES: nat := 32
  const MAX_ATTEMPTS: nat := 80

  datatype Outcome = Success | NotFound | NotSupported | Failed

  /** The outcomes of libusb_attach_kernel_driver after which the kernel has the interface back. */
  predicate HandedBack(r: Outcome) { !r.Failed? }

  /** What would be left if the process died now. */
  datatype Snapshot = Snapshot(taken: set<nat>, armed: set<nat>, exposed: set<nat>)

  /** Whatever this process took from the kernel under a guard, the guard would give back. */
  predicate Repairable(sn: Snapshot) { sn.taken - sn.exposed <= sn.armed }

  /** At every point a guard would repair what it can; on a guarded handle, everything. */
  predicate Good(history: seq<Snapshot>, drivers: set<nat>, guarded: bool) {
    && (forall k :: 0 <= k < |history| ==> Repairable(history[k]) && history[k].taken <= drivers)
    && (guarded ==> forall k :: 0 <= k < |history| ==> history[k].exposed == {})
  }

  lemma GoodAdd(history: seq<Snapshot>, drivers: set<nat>, guarded: bool, sn: Snapshot, g: bool)
    requires Good(history, drivers, guarded) && Repairable(sn) && sn.taken <= drivers
    requires g ==> guarded && sn.exposed == {}
    ensures Good(history + [sn], drivers, g)
  {
  }

  /** A call into libusb that concerns one interface, and how it ended. */
  datatype UsbCall =
    | DetachCall(idx: nat, detached: Outcome)
    | ClaimCall(idx: nat, ok: bool)
    | AltSettingCall(idx: nat)             // altsetting 0
    | ReleaseCall(idx: nat, ok: bool)
    | AttachCall(idx: nat, back: bool)

  /** What became of one interface that was to be released: released, and then back with its driver. */
  datatype Release = Release(idx: nat, ok: bool, back: bool)

  /** The libusb calls of a release: one reattach for each release that succeeds, and none other. */
  function CallsOf(r: Release): seq<UsbCall> {
    [AltSettingCall(r.idx), ReleaseCall(r.idx, r.ok)] + if r.ok then [AttachCall(r.idx, r.back)] else []
  }

  function Calls(rs: seq<Release>): seq<UsbCall> {
    if rs == [] then [] else Calls(rs[..|rs| - 1]) + CallsOf(rs[|rs| - 1])
  }

  /** The interfaces that are back with their drivers. */
  function Backs(rs: seq<Release>): set<nat> {
    if rs == [] then {}
    else Backs(rs[..|rs| - 1]) + if rs[|rs| - 1].ok && rs[|rs| - 1].back then {rs[|rs| - 1].idx} else {}
  }

  function Indices(rs: seq<Release>): seq<nat> {
    if rs == [] then [] else Indices(rs[..|rs| - 1]) + [rs[|rs| - 1].idx]
  }

  function Succeeded(rs: seq<Release>): set<nat> {
    if rs == [] then {}
    else Succeeded(rs[..|rs| - 1]) + if rs[|rs| - 1].ok then {rs[|rs| - 1].idx} else {}
  }

  lemma IndicesAppend(rs: seq<Release>, r: Release)
    ensures Indices(rs + [r]) == Indices(rs) + [r.idx]
    ensures Succeeded(rs + [r]) == Succeeded(rs) + if r.ok then {r.idx} else {}
    ensures Calls(rs + [r]) == Calls(rs) + CallsOf(r)
    ensures Backs(rs + [r]) == Backs(rs) + if r.ok && r.back then {r.idx} else {}
  {
    assert (rs + [r])[..|rs|] == rs;
  }

  lemma {:induction false} IndicesConcat(rs: seq<Release>, ts: seq<Release>)
    ensures Indices(rs + ts) == Indices(rs) + Indices(ts)
    ensures Succeeded(rs + ts) == Succeeded(rs) + Succeeded(ts) && Backs(rs + ts) == Backs(rs) + Backs(ts)
  {
    if ts == [] {
      assert rs + ts == rs;
    } else {
      var us := ts[..|ts| - 1];
      IndicesConcat(rs, us);
      IndicesAppend(rs + us, ts[|ts| - 1]);
      assert rs + us + [ts[|ts| - 1]] == rs + ts;
    }
  }

  /** The members of s below n, in ascending order. */
  function Ascending(s: set<nat>, n: nat): seq<nat> {
    if n == 0 then [] else Ascending(s, n - 1) + if n - 1 in s then [n - 1] else []
  }

  /** The order uvc_release_claimed_ifs is for: everything else first, VideoControl last. */
  function ReleaseOrder(claimed: set<nat>, ctrl: int): seq<nat> {
    Ascending((set i | i in claimed && i != ctrl), MAX_INTERFACES)
    + if 0 <= ctrl && ctrl in claimed then [ctrl] else []
  }

  lemma NoDupConcat(a: seq<nat>, b: seq<nat>)
    requires NoDup(a) && NoDup(b) && forall x :: x in a ==> x !in b
    ensures NoDup(a + b)
  {
    assert forall i :: 0 <= i < |a| ==> a[i] in a;
    assert forall i :: 0 <= i < |b| ==> b[i] in b;
  }

  lemma {:induction false} AscendingIs(s: set<nat>, n: nat)
    ensures NoDup(Ascending(s, n))
    ensures forall x :: x in Ascending(s, n) <==> x in s && x < n
  {
    if n > 0 { AscendingIs(s, n - 1); }
  }

  /** Every claimed interface is released exactly once, and VideoControl after all others. */
  lemma ReleaseOrderIs(claimed: set<nat>, ctrl: int)
    requires forall i :: i in claimed ==> i < MAX_INTERFACES
    ensures NoDup(ReleaseOrder(claimed, ctrl))
    ensures forall x :: x in ReleaseOrder(claimed, ctrl) <==> x in claimed
    ensures ctrl in claimed ==>
              var order := ReleaseOrder(claimed, ctrl);
              |order| > 0 && order[|order| - 1] == ctrl && ctrl !in order[..|order| - 1]
  {
    var others := set i | i in claimed && i != ctrl;
    AscendingIs(others, MAX_INTERFACES);
    var a := Ascending(others, MAX_INTERFACES);
    assert forall k :: 0 <= k < |a| ==> a[k] in a;
    if ctrl in claimed { assert ReleaseOrder(claimed, ctrl)[..|a|] == a; }
  }

  /** How uvc_stream_close ends for one stream of the handle. */
  datatype StreamClose = StreamClose(idx: nat, pending: bool)

  /** The interfaces of the streams that closed cleanly, in list order. */
  function CleanStreams(claimed: set<nat>, ss: seq<StreamClose>): seq<nat> {
    if ss == [] then []
    else
      var last := ss[|ss| - 1];
      CleanStreams(claimed, ss[..|ss| - 1]) + if !last.pending && last.idx in claimed then [last.idx] else []
  }

  function CleanSet(ss: seq<StreamClose>): set<nat> {
    if ss == [] then {}
    else CleanSet(ss[..|ss| - 1]) + if ss[|ss| - 1].pending then {} else {ss[|ss| - 1].idx}
  }

  lemma {:induction false} CleanSetIs(ss: seq<StreamClose>)
    ensures forall x :: x in CleanSet(ss) <==> exists i :: 0 <= i < |ss| && ss[i] == StreamClose(x, false)
  {
    if ss != [] {
      var us := ss[..|ss| - 1];
      CleanSetIs(us);
      assert forall i :: 0 <= i < |us| ==> us[i] == ss[i];
    }
  }

  predicate AnyPending(ss: seq<StreamClose>) { exists k :: 0 <= k < |ss| && ss[k].pending }

  lemma PendingStep(ss: seq<StreamClose>, n: nat)
    requires n < |ss|
    ensures AnyPending(ss[..n + 1]) <==> AnyPending(ss[..n]) || ss[n].pending
  {
    assert forall k :: 0 <= k < n ==> ss[..n][k] == ss[..n + 1][k];
    assert ss[..n + 1][n] == ss[n];
  }

  predicate DistinctStreams(ss: seq<StreamClose>) {
    forall i, j :: 0 <= i < j < |ss| ==> ss[i].idx != ss[j].idx
  }

  lemma {:induction false} CleanStreamsIs(claimed: set<nat>, ss: seq<StreamClose>)
    requires DistinctStreams(ss)
    ensures NoDup(CleanStreams(claimed, ss))
    ensures forall x :: x in CleanStreams(claimed, ss) <==>
                          x in claimed && exists i :: 0 <= i < |ss| && ss[i] == StreamClose(x, false)
  {
    if ss != [] {
      var us := ss[..|ss| - 1];
      CleanStreamsIs(claimed, us);
      assert forall i :: 0 <= i < |us| ==> us[i] == ss[i];
    }
  }

  lemma CleanSetAvoids(ss: seq<StreamClose>, n: nat)
    requires DistinctStreams(ss) && n < |ss|
    ensures ss[n].idx !in CleanSet(ss[..n])
    ensures CleanSet(ss[..n + 1]) == CleanSet(ss[..n]) + if ss[n].pending then {} else {ss[n].idx}
  {
    CleanSetIs(ss[..n]);
    assert ss[..n + 1][..n] == ss[..n];
  }

  /** One more stream closed: its release call, if any, is the next of CleanStreams. */
  lemma CleanStep(claimed: set<nat>, ss: seq<StreamClose>, n: nat, rs: seq<Release>, m: seq<Release>)
    requires n < |ss| && Indices(rs) == CleanStreams(claimed, ss[..n])
    requires if ss[n].pending || ss[n].idx !in claimed then m == [] else |m| == 1 && m[0].idx == ss[n].idx
    ensures Indices(rs + m) == CleanStreams(claimed, ss[..n + 1])
    ensures Succeeded(rs + m) == Succeeded(rs) + Succeeded(m)
    ensures Calls(rs + m) == Calls(rs) + Calls(m) && Backs(rs + m) == Backs(rs) + Backs(m)
  {
    assert ss[..n + 1][..n] == ss[..n];
    if m == [] {
      assert rs + m == rs;
    } else {
      assert m == [m[0]] && [] + m == m && m[..0] == [];
      IndicesAppend(rs, m[0]);
      IndicesAppend([], m[0]);
    }
  }

  /** What a crash, a close and the kernel see of a handle. */
  datatype Holding = Holding(claimed: set<nat>, taken: set<nat>, armed: set<nat>, bound: set<nat>)

  /** From v to w the releases rs were made: what succeeded is not claimed, and what is back is the kernel's. */
  predicate Released(v: Holding, w: Holding, rs: seq<Release>) {
    && w.claimed == v.claimed - Succeeded(rs)
    && w.taken == v.taken - Backs(rs) && w.armed == v.armed - Backs(rs)
    && v.bound + Backs(rs) * v.taken <= w.bound
  }

  lemma ReleasedMore(v: Holding, w: Holding, x: Holding, rs: seq<Release>, m: seq<Release>)
    requires Released(v, w, rs) && Released(w, x, m)
    requires Succeeded(rs + m) == Succeeded(rs) + Succeeded(m) && Backs(rs + m) == Backs(rs) + Backs(m)
    ensures Released(v, x, rs + m)
  {
    forall i | i in v.bound || (i in Backs(rs + m) && i in v.taken) ensures i in x.bound {
      if i in v.bound || i in Backs(rs) { assert i in w.bound; }
    }
  }

  lemma OneMore(rs: seq<Release>, m: seq<Release>)
    requires |m| == 1
    ensures Indices(rs + m) == Indices(rs) + [m[0].idx] && Succeeded(rs + m) == Succeeded(rs) + Succeeded(m)
    ensures Succeeded(m) == if m[0].ok then {m[0].idx} else {}
    ensures Calls(rs + m) == Calls(rs) + Calls(m) && Calls(m) == CallsOf(m[0])
    ensures Backs(rs + m) == Backs(rs) + Backs(m) && Backs(m) == if m[0].ok && m[0].back then {m[0].idx} else {}
  {
    assert m == [m[0]] && [] + [m[0]] == m;
    IndicesAppend(rs, m[0]);
    IndicesAppend([], m[0]);
  }

  /** The libusb calls of a claim: a detach, a claim unless that failed hard, and a reattach only if that failed. */
  function ClaimCalls(i: nat, r: Outcome, d: Outcome, b: bool): seq<UsbCall> {
    [DetachCall(i, d)] + (if d.Failed? then [] else [ClaimCall(i, r.Success?)])
    + (if d.Failed? || r.Success? then [] else [AttachCall(i, b)])
  }

  class DeviceHandle {
    // library side
    var claimed: set<nat>
    var guard: bool                 // reattach_guard != NULL
    var armed: set<nat>             // the shared record
    var ctrl: int                   // VideoControl interface number, -1 when info is NULL
    var quarantinedStream: bool     // has_quarantined_stream
    // kernel side
    const drivers: set<nat>         // interfaces some kernel driver matches
    var bound: set<nat>             // interfaces bound to it now
    var taken: set<nat>             // interfaces whose driver this process took and has not given back
    // proof side
    ghost var exposed: set<nat>     // taken and not armed
    ghost var guarded: bool         // so far nothing was ever taken and not armed
    ghost var bare: bool            // some driver was taken while there was no guard
    ghost var log: seq<UsbCall>     // the libusb calls so far
    ghost var history: seq<Snapshot>

    ghost predicate Valid()
      reads this
    {
      && (forall i :: i in claimed || i in armed ==> i < MAX_INTERFACES)
      && ctrl < MAX_INTERFACES
      && (!guard ==> armed == {})
      && taken <= drivers && bound <= drivers && taken !! bound
      && history != [] && history[|history| - 1] == Now() && Good(history, drivers, guarded)
    }

    ghost function Held(): Holding
      reads this
    {
      Holding(claimed, taken, armed, bound)
    }

    ghost function Now(): Snapshot
      reads this
    {
      Snapshot(taken, armed, exposed)
    }

    /** A handle fresh from uvc_open_internal: nothing claimed, no guard yet. */
    constructor (drivers: set<nat>, bound: set<nat>, ctrl: int)
      requires bound <= drivers && ctrl < MAX_INTERFACES
      ensures Valid() && claimed == {} && !guard && guarded && !bare && !quarantinedStream && log == []
      ensures this.bound == bound && this.ctrl == ctrl && this.drivers == drivers && taken == {}
    {
      this.drivers, this.bound, this.ctrl := drivers, bound, ctrl;
      claimed, armed, taken, guard, quarantinedStream := {}, {}, {}, false, false;
      guarded, bare := true, false;
      exposed, log, history := {}, [], [Snapshot({}, {}, {})];
    }

    // ----- the kernel

    /** A hard error means the driver is still bound, NOT_FOUND that there is none. */
    method Detach(i: nat) returns (r: Outcome)
      requires Valid()
      modifies this`bound, this`taken, this`exposed, this`guarded, this`bare, this`history, this`log
      ensures Valid() && old(history) <= history && log == old(log) + [DetachCall(i, r)]
      ensures r.Success? ==> i in taken && taken == old(taken) + {i} && i in old(bound) && bound == old(bound) - {i}
                             && exposed == old(exposed) + if i in armed then {} else {i}
      ensures !r.Success? ==> taken == old(taken) && exposed == old(exposed) && bound == old(bound)
      ensures guarded == (old(guarded) && (r.Success? ==> i in armed))
      ensures bare == (old(bare) || (r.Success? && !guard))
      ensures (r.Failed? ==> i !in taken && i in bound) && (r.NotFound? ==> i !in bound)
    {
      r := *;
      if i !in bound && (r.Success? || r.Failed?) { r := NotFound; }
      if i in bound && r.NotFound? { r := Failed; }
      log := log + [DetachCall(i, r)];
      if r.Success? { Take(i); }
    }

    /** The driver of interface i is taken away. */
    method Take(i: nat)
      requires Valid() && i in bound
      modifies this`bound, this`taken, this`exposed, this`guarded, this`bare, this`history
      ensures Valid() && old(history) <= history
      ensures taken == old(taken) + {i} && bound == old(bound) - {i}
      ensures exposed == old(exposed) + if i in armed then {} else {i}
      ensures guarded == (old(guarded) && i in armed) && bare == (old(bare) || !guard)
    {
      bound, taken := bound - {i}, taken + {i};
      ghost var was := guarded;
      if i !in armed { exposed, guarded := exposed + {i}, false; }
      if !guard { bare := true; }
      GoodAdd(history, drivers, was, Now(), guarded);
      history := history + [Now()];
    }

    /** An interface that has its driver cannot be claimed. */
    method ClaimInterface(i: nat) returns (r: Outcome)
      requires Valid()
      modifies this`log
      ensures Valid() && log == old(log) + [ClaimCall(i, r.Success?)] && (r.Success? ==> i !in bound)
    {
      r := *;
      if i in bound && r.Success? { r := Failed; }
      log := log + [ClaimCall(i, r.Success?)];
    }

    /** NOT_FOUND and NOT_SUPPORTED mean there is nothing to give back. */
    method Attach(i: nat) returns (r: Outcome)
      requires Valid()
      modifies this`bound, this`taken, this`exposed, this`history, this`log
      ensures Valid() && old(history) <= history && log == old(log) + [AttachCall(i, HandedBack(r))]
      ensures HandedBack(r) ==> taken == old(taken) - {i} && exposed == old(exposed) - {i}
      ensures !HandedBack(r) ==> taken == old(taken) && exposed == old(exposed) && bound == old(bound)
      ensures old(bound) <= bound <= old(bound) + {i} && (HandedBack(r) && i in old(taken) ==> i in bound)
    {
      r := *;
      if i in taken { r := if r.Success? then Success else Failed; }
      if i !in drivers && r.Success? { r := NotFound; }
      log := log + [AttachCall(i, HandedBack(r))];
      if !r.Failed? {
        if r.Success? { bound := bound + {i}; }
        taken, exposed := taken - {i}, exposed - {i};
        GoodAdd(history, drivers, guarded, Now(), guarded);
        history := history + [Now()];
      }
    }

    /** The altsetting back to 0, then the release. */
    method ReleaseInterface(i: nat) returns (r: Outcome)
      requires Valid()
      modifies this`log
      ensures Valid() && log == old(log) + [AltSettingCall(i), ReleaseCall(i, r.Success?)]
    {
      log := log + [AltSettingCall(i)];
      r := *;
      log := log + [ReleaseCall(i, r.Success?)];
    }

    // ----- the guard

    method Arm(i: nat)
      requires Valid() && i < MAX_INTERFACES
      modifies this`guard, this`armed, this`history
      ensures Valid() && old(history) <= history
      ensures old(guard) ==> guard
      ensures armed == if guard then old(armed) + {i} else {}
    {
      if !guard { guard := *; }
      if guard {
        armed := armed + {i};
        GoodAdd(history, drivers, guarded, Now(), guarded);
        history := history + [Now()];
      }
    }

    /** A taken interface that is disarmed is exposed from then on. */
    method Disarm(i: nat)
      requires Valid()
      modifies this`armed, this`exposed, this`guarded, this`history
      ensures Valid() && old(history) <= history
      ensures armed == old(armed) - {i}
      ensures guard && i in taken ==> exposed == old(exposed) + {i} && !guarded
      ensures !guard || i !in taken ==> exposed == old(exposed) && guarded == old(guarded)
    {
      if guard {
        armed := armed - {i};
        ghost var was := guarded;
        if i in taken { exposed, guarded := exposed + {i}, false; }
        GoodAdd(history, drivers, was, Now(), guarded);
        history := history + [Now()];
      }
    }

    // ----- uvc_claim_if and uvc_release_if

    /** Reattaches the driver, and disarms only on the outcomes that mean the kernel has the interface back. */
    method GiveBack(i: nat) returns (r: Outcome)
      requires Valid()
      modifies this`armed, this`bound, this`taken, this`exposed, this`guarded, this`history, this`log
      ensures Valid() && old(history) <= history && log == old(log) + [AttachCall(i, HandedBack(r))]
      ensures HandedBack(r) ==> taken == old(taken) - {i} && armed == old(armed) - {i}
      ensures !HandedBack(r) ==> taken == old(taken) && armed == old(armed) && bound == old(bound)
      ensures !HandedBack(r) ==> exposed == old(exposed)
      ensures old(bound) <= bound <= old(bound) + {i} && (HandedBack(r) && i in old(taken) ==> i in bound)
      ensures exposed <= old(exposed) && guarded == old(guarded)
    {
      r := Attach(i);
      if HandedBack(r) { Disarm(i); }
    }

    /**
     At every effect on the way, whatever a guard covers stays repairable (that is `Valid`); an
     interface is exposed only if no guard could be started; a claimed interface has lost its driver; and
     on failure the interface is either back with the kernel or still armed.
     */
    method ClaimIf(i: nat) returns (r: Outcome)
      requires Valid() && i < MAX_INTERFACES
      modifies this`guard, this`armed, this`claimed, this`bound, this`taken, this`exposed, this`guarded, this`bare,
        this`history, this`log
      ensures Valid() && old(history) <= history
      ensures old(guard) ==> guard
      ensures old(guarded) && guard ==> guarded
      ensures (old(bare) ==> bare) && (old(guarded) ==> guarded || bare)
      ensures i in old(claimed) ==> r.Success? && unchanged(this)
      ensures claimed == if r.Success? then old(claimed) + {i} else old(claimed)
      ensures i !in old(claimed) ==> exists d, b :: log == old(log) + ClaimCalls(i, r, d, b)
      ensures taken - {i} == old(taken) - {i} && armed - {i} == old(armed) - {i} && bound - {i} == old(bound) - {i}
      ensures r.Success? && i !in old(claimed) ==> i !in bound && (i in old(bound) ==> i in taken)
      ensures !r.Success? && i in old(bound) ==> i in bound || i in taken
      ensures guard ==> exposed <= old(exposed)
      ensures exposed <= old(exposed) + {i}
      ensures !r.Success? && i in taken ==> i in armed || i in exposed
    {
      if i in claimed { return Success; }
      Arm(i);
      ghost var d, b;
      r, d, b := TakeArmed(i);
    }

    /** The claim once the interface is armed, or could not be. */
    method TakeArmed(i: nat) returns (r: Outcome, ghost d: Outcome, ghost b: bool)
      requires Valid() && i < MAX_INTERFACES && i !in claimed && (guard ==> i in armed)
      modifies this`armed, this`claimed, this`bound, this`taken, this`exposed, this`guarded, this`bare, this`history,
        this`log
      ensures Valid() && old(history) <= history && log == old(log) + ClaimCalls(i, r, d, b)
      ensures (guard ==> guarded == old(guarded)) && bare == (old(bare) || (d.Success? && !guard))
      ensures old(guarded) ==> guarded || bare
      ensures claimed == if r.Success? then old(claimed) + {i} else old(claimed)
      ensures taken - {i} == old(taken) - {i} && armed - {i} == old(armed) - {i} && bound - {i} == old(bound) - {i}
      ensures r.Success? ==> i !in bound && (i in old(bound) ==> i in taken)
      ensures !r.Success? && i in old(bound) ==> i in bound || i in taken
      ensures exposed <= old(exposed) + if guard then {} else {i}
      ensures !r.Success? && i in taken ==> i in armed || i in exposed
    {
      var detached := Detach(i);
      d, b := detached, true;
      if detached.Failed? {
        Disarm(i);
        return detached, d, b;
      }
      r, b := ClaimOrGiveBack(i);
      assert log == old(log) + ClaimCalls(i, r, d, b);
    }

    method ClaimOrGiveBack(i: nat) returns (r: Outcome, ghost b: bool)
      requires Valid() && i < MAX_INTERFACES && i !in claimed
      modifies this`armed, this`claimed, this`bound, this`taken, this`exposed, this`guarded, this`history, this`log
      ensures Valid() && old(history) <= history
      ensures log == old(log) + [ClaimCall(i, r.Success?)] + if r.Success? then [] else [AttachCall(i, b)]
      ensures r.Success? ==> claimed == old(claimed) + {i} && i !in bound
      ensures r.Success? ==> taken == old(taken) && armed == old(armed) && bound == old(bound)
      ensures !r.Success? ==> claimed == old(claimed)
      ensures !r.Success? && b ==> taken == old(taken) - {i} && armed == old(armed) - {i}
      ensures !r.Success? && !b ==> taken == old(taken) && armed == old(armed)
      ensures old(bound) <= bound <= old(bound) + {i} && (!r.Success? && b && i in old(taken) ==> i in bound)
      ensures exposed <= old(exposed) && guarded == old(guarded) && (i !in old(exposed) || i in exposed || i !in taken)
    {
      r := ClaimInterface(i);
      b := true;
      if r.Success? {
        claimed := claimed + {i};
      } else {
        var given := GiveBack(i);
        b := HandedBack(given);
      }
    }

    /** One release and, if it succeeds, one reattach; given back and disarmed exactly if that hands it back. */
    method ReleaseIf(i: nat) returns (r: Outcome, ghost rs: seq<Release>)
      requires Valid() && i < MAX_INTERFACES
      modifies this`claimed, this`armed, this`bound, this`taken, this`exposed, this`guarded, this`history, this`log
      ensures Valid() && old(history) <= history && log == old(log) + Calls(rs)
      ensures i !in old(claimed) ==> r.Success? && rs == [] && unchanged(this)
      ensures i in old(claimed) ==> |rs| == 1 && rs[0].idx == i && (r.Success? <==> rs[0].ok && rs[0].back)
      ensures Released(old(Held()), Held(), rs) && bound <= old(bound) + Backs(rs)
      ensures exposed <= old(exposed) && guarded == old(guarded)
    {
      rs := [];
      if i !in claimed { return Success, []; }
      ghost var done;
      r, done := ReleaseClaimed(i);
      OneMore([], [done]);
      rs := [done];
    }

    method ReleaseClaimed(i: nat) returns (r: Outcome, ghost done: Release)
      requires Valid() && i in claimed
      modifies this`claimed, this`armed, this`bound, this`taken, this`exposed, this`guarded, this`history, this`log
      ensures Valid() && old(history) <= history && log == old(log) + CallsOf(done)
      ensures done == Release(i, done.ok, r.Success?) && (r.Success? ==> done.ok)
      ensures claimed == old(claimed) - if done.ok then {i} else {}
      ensures r.Success? ==> taken == old(taken) - {i} && armed == old(armed) - {i}
      ensures !r.Success? ==> taken == old(taken) && armed == old(armed) && bound == old(bound)
      ensures old(bound) <= bound <= old(bound) + {i} && (r.Success? && i in old(taken) ==> i in bound)
      ensures exposed <= old(exposed) && guarded == old(guarded)
    {
      r := ReleaseInterface(i);
      ghost var ok := r.Success?;
      if r.Success? {
        claimed := claimed - {i};
        r := GiveBack(i);
        if HandedBack(r) { r := Success; }
      }
      done := Release(i, ok, r.Success?);
      assert log == old(log) + CallsOf(done);
    }

    // ----- uvc_release_claimed_ifs and uvc_close

    method ReleaseClaimedIfs() returns (ghost rs: seq<Release>)
      requires Valid()
      modifies this`claimed, this`armed, this`bound, this`taken, this`exposed, this`guarded, this`history, this`log
      ensures Valid() && old(history) <= history && log == old(log) + Calls(rs)
      ensures Indices(rs) == ReleaseOrder(old(claimed), ctrl)
      ensures Released(old(Held()), Held(), rs)
      ensures exposed <= old(exposed) && guarded == old(guarded)
    {
      rs := ReleaseOthers();
      if ctrl >= 0 {
        ghost var before := Held();
        var _, m := ReleaseIf(ctrl);
        if m != [] {
          OneMore(rs, m);
          ReleasedMore(old(Held()), before, Held(), rs, m);
          ConcatAssoc(old(log), Calls(rs), Calls(m));
          rs := rs + m;
        }
      }
    }

    /** The loop over all interfaces but VideoControl. */
    method ReleaseOthers() returns (ghost rs: seq<Release>)
      requires Valid()
      modifies this`claimed, this`armed, this`bound, this`taken, this`exposed, this`guarded, this`history, this`log
      ensures Valid() && old(history) <= history && log == old(log) + Calls(rs)
      ensures Indices(rs) == Ascending((set i | i in old(claimed) && i != ctrl), MAX_INTERFACES)
      ensures Released(old(Held()), Held(), rs) && (ctrl in claimed <==> ctrl in old(claimed))
      ensures exposed <= old(exposed) && guarded == old(guarded)
    {
      ghost var others := set i | i in claimed && i != ctrl;
      rs := [];
      for idx := 0 to MAX_INTERFACES
        invariant Valid() && old(history) <= history && log == old(log) + Calls(rs)
        invariant exposed <= old(exposed) && guarded == old(guarded)
        invariant Indices(rs) == Ascending(others, idx)
        invariant Released(old(Held()), Held(), rs)
        invariant forall j :: j >= idx || j == ctrl ==> (j in claimed <==> j in old(claimed))
      {
        if idx != ctrl && idx in claimed {
          ghost var before := Held();
          var _, m := ReleaseIf(idx);
          OneMore(rs, m);
          ReleasedMore(old(Held()), before, Held(), rs, m);
          ConcatAssoc(old(log), Calls(rs), Calls(m));
          rs := rs + m;
        }
      }
    }

    /** Nothing changed for the interfaces outside xs. */
    twostate predicate KeptOutside(xs: set<nat>)
      reads this
    {
      forall j :: j !in xs ==> (j in armed <==> j in old(armed)) && (j in claimed <==> j in old(claimed))
    }

    /** The end of uvc_stream_close: a stream with pending transfers keeps its interface and marks the handle. */
    method CloseStream(s: StreamClose) returns (ghost m: seq<Release>)
      requires Valid() && s.idx < MAX_INTERFACES
      modifies this`claimed, this`armed, this`bound, this`taken, this`exposed, this`guarded, this`history,
        this`log, this`quarantinedStream
      ensures Valid() && old(history) <= history && log == old(log) + Calls(m)
      ensures if s.pending || s.idx !in old(claimed) then m == [] else |m| == 1 && m[0].idx == s.idx
      ensures Released(old(Held()), Held(), m)
      ensures quarantinedStream == (old(quarantinedStream) || s.pending)
      ensures exposed <= old(exposed) && guarded == old(guarded)
      ensures KeptOutside(if s.pending then {} else {s.idx})
    {
      m := [];
      IndicesAppend([], Release(s.idx, true, true));
      if s.pending {
        quarantinedStream := true;
      } else {
        var _, released := ReleaseIf(s.idx);
        m := released;
      }
    }

    /** uvc_stop_streaming: the cleanly closed streams give their interfaces back, the others keep them. */
    method StopStreaming(streams: seq<StreamClose>) returns (ghost rs: seq<Release>)
      requires Valid() && DistinctStreams(streams)
      requires forall k :: 0 <= k < |streams| ==> streams[k].idx < MAX_INTERFACES
      modifies this`claimed, this`armed, this`bound, this`taken, this`exposed, this`guarded, this`history,
        this`log, this`quarantinedStream
      ensures Valid() && old(history) <= history && log == old(log) + Calls(rs)
      ensures quarantinedStream <==> old(quarantinedStream) || AnyPending(streams)
      ensures Released(old(Held()), Held(), rs) && exposed <= old(exposed) && guarded == old(guarded)
      ensures Indices(rs) == CleanStreams(old(claimed), streams)
      ensures KeptOutside(CleanSet(streams))
    {
      rs := [];
      for n := 0 to |streams|
        invariant Valid() && old(history) <= history && log == old(log) + Calls(rs)
        invariant exposed <= old(exposed) && guarded == old(guarded) && Released(old(Held()), Held(), rs)
        invariant quarantinedStream <==> old(quarantinedStream) || AnyPending(streams[..n])
        invariant Indices(rs) == CleanStreams(old(claimed), streams[..n])
        invariant KeptOutside(CleanSet(streams[..n]))
      {
        CleanSetAvoids(streams, n);
        ghost var before := Held();
        var m := CloseStream(streams[n]);
        CleanStep(old(claimed), streams, n, rs, m);
        ReleasedMore(old(Held()), before, Held(), rs, m);
        ConcatAssoc(old(log), Calls(rs), Calls(m));
        PendingStep(streams, n);
        rs := rs + m;
      }
      assert streams[..|streams|] == streams;
    }

    /**
     uvc_close.  Each stream still open closes cleanly or leaves transfers pending, and the status
     transfer is confirmed stopped or not.  The close quarantines if any stream of the handle, now or
     earlier, was left pending; it then releases only the interfaces of its cleanly closed streams.
     Any other close releases everything still claimed, VideoControl last.
     */
    method Close(streams: seq<StreamClose>, statusStopped: bool)
      returns (quarantined: bool, ghost first: seq<Release>, ghost rest: seq<Release>)
      requires Valid() && DistinctStreams(streams)
      requires forall k :: 0 <= k < |streams| ==> streams[k].idx < MAX_INTERFACES
      modifies this`claimed, this`armed, this`bound, this`taken, this`exposed, this`guarded, this`history,
        this`log, this`quarantinedStream
      ensures Valid() && old(history) <= history && log == old(log) + Calls(first) + Calls(rest)
      ensures quarantined <==> old(quarantinedStream) || !statusStopped || AnyPending(streams)
      ensures exposed <= old(exposed) && guarded == old(guarded)
      ensures Indices(first) == CleanStreams(old(claimed), streams)
      ensures quarantined ==> rest == [] && KeptOutside(CleanSet(streams))
      ensures !quarantined ==> Indices(rest) == ReleaseOrder(old(claimed) - Succeeded(first), ctrl)
      ensures Released(old(Held()), Held(), first + rest)
    {
      first := StopStreaming(streams);
      rest := [];
      quarantined := quarantinedStream || !statusStopped;
      ghost var before := Held();
      if !quarantined { rest := ReleaseClaimedIfs(); }
      IndicesConcat(first, rest);
      ReleasedMore(old(Held()), before, Held(), first, rest);
    }

    /**
     Any use of the handle: claims, releases and stream closes in any order, with any outcome.  From a fresh
     handle on, it is guarded unless some driver was taken while no guard could be started.
     */
    method Use(calls: seq<Call>)
      requires Valid() && forall k :: 0 <= k < |calls| ==> calls[k].idx < MAX_INTERFACES
      modifies this
      ensures Valid() && old(history) <= history
      ensures old(guard) ==> guard
      ensures old(guard) && old(guarded) ==> guarded
      ensures (old(bare) ==> bare) && (old(guarded) ==> guarded || bare)
      ensures quarantinedStream <==> old(quarantinedStream) || LeavesPending(calls)
    {
      for n := 0 to |calls|
        invariant Valid() && old(history) <= history
        invariant (old(guard) ==> guard) && (old(guard) && old(guarded) ==> guarded)
        invariant (old(bare) ==> bare) && (old(guarded) ==> guarded || bare)
        invariant quarantinedStream <==> old(quarantinedStream) || LeavesPending(calls[..n])
      {
        LeavesStep(calls, n);
        match calls[n]
        case Claims(i) => var _ := ClaimIf(i);
        case Releases(i) => var _, _ := ReleaseIf(i);
        case Closes(i, pending) => var _ := CloseStream(StreamClose(i, pending));
      }
      assert calls[..|calls|] == calls;
    }
  }

  /** A call on a handle, and for a stream close how it ended. */
  datatype Call = Claims(idx: nat) | Releases(idx: nat) | Closes(idx: nat, pending: bool)

  predicate LeavesPending(calls: seq<Call>) { exists k :: 0 <= k < |calls| && calls[k].Closes? && calls[k].pending }

  lemma LeavesStep(calls: seq<Call>, n: nat)
    requires n < |calls|
    ensures LeavesPending(calls[..n + 1]) <==> LeavesPending(calls[..n]) || (calls[n].Closes? && calls[n].pending)
  {
    assert forall k :: 0 <= k < n ==> calls[..n][k] == calls[..n + 1][k];
    assert calls[..n + 1][n] == calls[n];
  }

  predicate AllOk(rs: seq<Release>) { forall k :: 0 <= k < |rs| ==> rs[k].ok }

  lemma {:induction false} AllOkReleases(rs: seq<Release>)
    requires AllOk(rs)
    ensures forall x :: x in Succeeded(rs) <==> x in Indices(rs)
  {
    if rs != [] { AllOkReleases(rs[..|rs| - 1]); }
  }

  /** The first phase releases claimed interfaces only, none twice, and never VideoControl. */
  lemma CleanStreamsWithin(claimed: set<nat>, ctrl: int, streams: seq<StreamClose>)
    requires DistinctStreams(streams) && forall k :: 0 <= k < |streams| ==> streams[k].idx != ctrl
    ensures NoDup(CleanStreams(claimed, streams))
    ensures forall x :: x in CleanStreams(claimed, streams) ==> x in claimed && x != ctrl
  {
    CleanStreamsIs(claimed, streams);
  }

  lemma TwoPhases(claimed: set<nat>, done: set<nat>, a: seq<nat>, b: seq<nat>)
    requires NoDup(a) && NoDup(b)
    requires forall x :: x in a <==> x in done
    requires done <= claimed && forall x :: x in b <==> x in claimed - done
    ensures NoDup(a + b) && forall x :: x in a + b <==> x in claimed
  {
    NoDupConcat(a, b);
  }

  /**
   What a close that does not quarantine achieves when every release succeeds: each claimed interface,
   orphans of failed negotiations included, is released exactly once, nothing else is, and the last
   call of all is the one for VideoControl.
   */
  lemma CleanCloseReleasesEachOnce(claimed: set<nat>, ctrl: int, streams: seq<StreamClose>,
                                   first: seq<Release>, rest: seq<Release>)
    requires forall i :: i in claimed ==> i < MAX_INTERFACES
    requires DistinctStreams(streams) && forall k :: 0 <= k < |streams| ==> streams[k].idx != ctrl
    requires Indices(first) == CleanStreams(claimed, streams)
    requires Indices(rest) == ReleaseOrder(claimed - Succeeded(first), ctrl)
    requires AllOk(first) && AllOk(rest)
    ensures NoDup(Indices(first + rest))
    ensures forall x :: x in Indices(first + rest) <==> x in claimed
    ensures claimed - Succeeded(first) - Succeeded(rest) == {}
    ensures ctrl in claimed ==> |rest| > 0 && Indices(first + rest)[|Indices(first + rest)| - 1] == ctrl
  {
    IndicesConcat(first, rest);
    CleanStreamsWithin(claimed, ctrl, streams);
    AllOkReleases(first);
    AllOkReleases(rest);
    var done := Succeeded(first);
    ReleaseOrderIs(claimed - done, ctrl);
    TwoPhases(claimed, done, Indices(first), Indices(rest));
    assert ctrl in claimed ==> ctrl in claimed - done;
  }

  /**
   The other half: if every reattach succeeds too, nothing is claimed, and every interface that was is back
   with the kernel, bound to the driver that was taken from it and off the guard's record.
   */
  lemma CleanCloseGivesAllBack(v: Holding, w: Holding, ctrl: int, streams: seq<StreamClose>,
                               first: seq<Release>, rest: seq<Release>)
    requires forall i :: i in v.claimed ==> i < MAX_INTERFACES
    requires DistinctStreams(streams) && forall k :: 0 <= k < |streams| ==> streams[k].idx != ctrl
    requires Indices(first) == CleanStreams(v.claimed, streams)
    requires Indices(rest) == ReleaseOrder(v.claimed - Succeeded(first), ctrl)
    requires AllBack(first) && AllBack(rest) && Released(v, w, first + rest)
    ensures w.claimed == {} && v.claimed !! w.taken && v.claimed !! w.armed && v.claimed * v.taken <= w.bound
  {
    CleanCloseReleasesEachOnce(v.claimed, ctrl, streams, first, rest);
    IndicesConcat(first, rest);
    AllBackIs(first);
    AllBackIs(rest);
    assert v.claimed <= Backs(first + rest);
  }

  predicate AllBack(rs: seq<Release>) { forall k :: 0 <= k < |rs| ==> rs[k].ok && rs[k].back }

  lemma {:induction false} AllBackIs(rs: seq<Release>)
    requires AllBack(rs)
    ensures forall x :: x in Backs(rs) <==> x in Indices(rs)
  {
    if rs != [] { AllBackIs(rs[..|rs| - 1]); }
  }

  /** The control interface is never released before another one, whether or not releases succeed. */
  lemma ControlReleasedLast(claimed: set<nat>, ctrl: int, streams: seq<StreamClose>,
                            first: seq<Release>, rest: seq<Release>, k: nat)
    requires forall i :: i in claimed ==> i < MAX_INTERFACES
    requires DistinctStreams(streams) && forall k :: 0 <= k < |streams| ==> streams[k].idx != ctrl
    requires Indices(first) == CleanStreams(claimed, streams)
    requires Indices(rest) == ReleaseOrder(claimed - Succeeded(first), ctrl)
    requires k < |Indices(first + rest)| && Indices(first + rest)[k] == ctrl
    ensures k == |Indices(first + rest)| - 1
  {
    IndicesConcat(first, rest);
    CleanStreamsWithin(claimed, ctrl, streams);
    ReleaseOrderIs(claimed - Succeeded(first), ctrl);
    var a, b := Indices(first), Indices(rest);
    assert forall i :: 0 <= i < |a| ==> a[i] in a && a[i] != ctrl;
    assert forall i :: 0 <= i < |b| - 1 ==> b[i] in b && b[..|b| - 1][i] == b[i] && b[i] != ctrl;
  }

  // ----- the helper process, once the owner is gone

  /** What the helper leaves bound: every armed interface whose EBUSY clears in time is rebound. */
  function Rebound(armed: set<nat>, drivers: set<nat>, bound: set<nat>, busy: nat -> nat): set<nat> {
    bound + set i | i in armed && i in drivers && busy(i) < MAX_ATTEMPTS
  }

  /** How often the helper tries an armed interface that answers EBUSY `busy` times. */
  function Tries(busy: nat): nat { if busy < MAX_ATTEMPTS then busy + 1 else MAX_ATTEMPTS }

  /**
   reattach_armed_interfaces.  `busy(i)` is how many times interface i answers EBUSY before the rebind
   is accepted; `same` says the device at the recorded address is still the recorded one.
   */
  method ReattachArmed(magicOk: bool, armed: set<nat>, same: bool, drivers: set<nat>, bound: set<nat>, busy: nat -> nat)
    returns (bound': set<nat>, calls: seq<nat>)
    requires forall i :: i in armed ==> i < MAX_INTERFACES
    ensures bound' == if magicOk && same then Rebound(armed, drivers, bound, busy) else bound
    ensures forall i :: multiset(calls)[i] == if magicOk && same && i in armed then Tries(busy(i)) else 0
  {
    bound', calls := bound, [];
    if !magicOk || armed == {} || !same { return; }
    for n := 0 to MAX_INTERFACES
      invariant bound' == bound + set i | i in armed && i < n && i in drivers && busy(i) < MAX_ATTEMPTS
      invariant forall i :: multiset(calls)[i] == if i in armed && i < n then Tries(busy(i)) else 0
    {
      if n in armed {
        var attempt := 0;
        ghost var before := calls;
        while attempt < MAX_ATTEMPTS
          invariant attempt <= MAX_ATTEMPTS && attempt <= busy(n)
          invariant forall i :: multiset(calls)[i] == multiset(before)[i] + if i == n then attempt else 0
        {
          calls := calls + [n];
          if attempt >= busy(n) {
            if n in drivers { bound' := bound' + {n}; }
            break;
          }
          attempt := attempt + 1;
        }
      }
    }
  }

  /**
   Crash safety.  A handle is guarded if its guard was there before the first detach (ClaimIf, Use).
   Stop the process after any effect of any sequence of claims, releases and closes on such a handle:
   if the device is still there and EBUSY clears within 80 tries, the helper rebinds every interface
   whose driver was taken and not given back, and leaves every disarmed one alone.
   */
  lemma CrashAtAnyStep(h: DeviceHandle, k: nat, bound: set<nat>, busy: nat -> nat)
    requires h.Valid() && h.guarded && k < |h.history|
    requires forall i :: i in h.history[k].taken ==> busy(i) < MAX_ATTEMPTS
    ensures var sn := h.history[k];
      && sn.taken <= sn.armed && sn.taken <= Rebound(sn.armed, h.drivers, bound, busy)
      && forall i :: i !in sn.armed ==> (i in Rebound(sn.armed, h.drivers, bound, busy) <==> i in bound)
  {
    var sn := h.history[k];
    assert Repairable(sn) && sn.taken <= h.drivers && sn.exposed == {};
  }

  /** Without a guard at some detach, what is taken under a guard later is still rebound. */
  lemma CrashUnguarded(h: DeviceHandle, k: nat, bound: set<nat>, busy: nat -> nat)
    requires h.Valid() && k < |h.history|
    requires forall i :: i in h.history[k].taken ==> busy(i) < MAX_ATTEMPTS
    ensures var sn := h.history[k];
      sn.taken - sn.exposed <= Rebound(sn.armed, h.drivers, bound, busy)
  {
    var sn := h.history[k];
    assert Repairable(sn) && sn.taken <= h.drivers;
  }
}
