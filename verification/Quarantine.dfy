/**
 When a handle is quarantined, and that nothing else is kept: the other half of the lifetime theorems.  A
 device is quarantined if and only if a stream of it was, or its status transfer did not stop; a context
 is freed if and only if none of its devices was; and once it is, nothing of it is left.
 */
module Quarantine {
  import opened Runs
  import opened SeqFacts
  import opened Lifetime
  import St = StatusTransfer
  import Tr = StreamTransfers

  /** Stream m of device d was closed while transfers of it were pending. */
  predicate LeftPending(s: State, d: nat, m: nat) {
    m < |s.strms| && s.strms[m].dev == d && !Linked(s, m) && StreamApi(s, m).Quarantined?
  }

  /** The flags have their causes: a stream left pending, or a status transfer that was not stopped. */
  ghost predicate Caused(s: State) {
    && (forall d :: 0 <= d < |s.devs| && s.devs[d].qStream ==> exists m :: LeftPending(s, d, m))
    && (forall d :: 0 <= d < |s.devs| && s.devs[d].qStatus ==> d !in s.ctx.open)
  }

  /** No step puts an old stream back on its list. */
  lemma StaysUnlinked(s: State, a: Action, m: nat)
    requires ListInv(s) && Legal(s, a) && m < |s.strms| && s.strms[m].dev < |s.devs| && !Linked(s, m)
    ensures m < |Exec(s, a).strms| && Exec(s, a).strms[m].dev == s.strms[m].dev && !Linked(Exec(s, a), m)
  {
    if a.UnlinkStream? {
      var d := s.strms[s.api.strm].dev;
      assert NoDup(s.devs[d].streams);
      WithoutMembers(s.devs[d].streams, s.api.strm, m);
    }
  }

  lemma LeftPendingKept(s: State, a: Action, d: nat, m: nat)
    requires Inv(s) && Legal(s, a) && LeftPending(s, d, m)
    ensures LeftPending(Exec(s, a), d, m)
  {
    StaysUnlinked(s, a, m);
    QuarantineKept(s, a, m);
  }

  /** Only the unlinking of a quarantined stream sets the first flag, only the end of a close the second. */
  lemma FlagSteps(s: State, a: Action, d: nat)
    requires Legal(s, a) && d < |Exec(s, a).devs|
    ensures Exec(s, a).devs[d].qStream && (d < |s.devs| ==> !s.devs[d].qStream) ==>
      && a.UnlinkStream? && s.api.CloseStream? && s.api.strm < |s.strms| && s.strms[s.api.strm].dev == d
      && StreamApi(s, s.api.strm).Quarantined?
    ensures Exec(s, a).devs[d].qStatus && (d < |s.devs| ==> !s.devs[d].qStatus) ==>
      a.CloseDecide? && s.api.CloseStatus? && s.api.dev == d
  {
  }

  lemma UnlinkedIsLeft(s: State)
    requires Inv(s) && Legal(s, UnlinkStream) && StreamApi(s, s.api.strm).Quarantined?
    ensures LeftPending(Exec(s, UnlinkStream), s.strms[s.api.strm].dev, s.api.strm)
  {
    var d := s.strms[s.api.strm].dev;
    assert NoDup(s.devs[d].streams);
    WithoutMembers(s.devs[d].streams, s.api.strm, s.api.strm);
  }

  lemma StreamFlagCaused(s: State, a: Action, d: nat)
    requires Inv(s) && Caused(s) && Legal(s, a) && d < |Exec(s, a).devs| && Exec(s, a).devs[d].qStream
    ensures exists m :: LeftPending(Exec(s, a), d, m)
  {
    if d < |s.devs| && s.devs[d].qStream {
      var m :| LeftPending(s, d, m);
      LeftPendingKept(s, a, d, m);
    } else {
      FlagSteps(s, a, d);
      UnlinkedIsLeft(s);
      assert LeftPending(Exec(s, a), d, s.api.strm);
    }
  }

  /** A device leaves the list for good. */
  lemma StaysClosed(s: State, a: Action, d: nat)
    requires CoreInv(s) && Legal(s, a) && d < |s.devs| && d !in s.ctx.open && s.api != Opening(d)
    ensures d !in Exec(s, a).ctx.open
  {
    if a.CloseDecide? || a.Unlink? { WithoutMembers(s.ctx.open, s.api.dev, d); }
  }

  lemma ClosedByDecide(s: State)
    requires CoreInv(s) && Legal(s, CloseDecide) && Quarantines(s, s.api.dev)
    ensures s.api.dev !in Exec(s, CloseDecide).ctx.open && Exec(s, CloseDecide).ctx.quarantined
  {
    WithoutMembers(s.ctx.open, s.api.dev, s.api.dev);
  }

  /** While a device is being opened neither flag of it is set. */
  predicate OpensClean(s: State) { s.api.Opening? && s.api.dev < |s.devs| ==> !s.devs[s.api.dev].qStatus }

  lemma StatusFlagCaused(s: State, a: Action, d: nat)
    requires Inv(s) && Caused(s) && OpensClean(s) && Legal(s, a)
    requires d < |Exec(s, a).devs| && Exec(s, a).devs[d].qStatus
    ensures d !in Exec(s, a).ctx.open
  {
    if d < |s.devs| && s.devs[d].qStatus {
      StaysClosed(s, a, d);
    } else {
      FlagSteps(s, a, d);
      ClosedByDecide(s);
    }
  }

  lemma OpensCleanKept(s: State, a: Action)
    requires OpensClean(s) && Legal(s, a)
    ensures OpensClean(Exec(s, a))
  {
  }

  ghost predicate FlagInv(s: State) { Caused(s) && OpensClean(s) }

  lemma FlagInvKept(s: State, a: Action)
    requires Inv(s) && FlagInv(s) && Legal(s, a)
    ensures FlagInv(Exec(s, a))
  {
    OpensCleanKept(s, a);
    forall d | 0 <= d < |Exec(s, a).devs| && Exec(s, a).devs[d].qStream
      ensures exists m :: LeftPending(Exec(s, a), d, m)
    {
      StreamFlagCaused(s, a, d);
    }
    forall d | 0 <= d < |Exec(s, a).devs| && Exec(s, a).devs[d].qStatus ensures d !in Exec(s, a).ctx.open {
      StatusFlagCaused(s, a, d);
    }
  }

  lemma FlagInvAt(own: bool, acts: seq<Action>, k: nat)
    requires IsRun(Sys(own), acts) && k <= |acts|
    ensures Inv(At(Sys(own), acts, k)) && FlagInv(At(Sys(own), acts, k))
  {
    InvIsInductive(own);
    InvAt(own, acts, k);
    forall s, a | Inv(s) && FlagInv(s) && Legal(s, a) ensures FlagInv(Exec(s, a)) { FlagInvKept(s, a); }
    assert At(Sys(own), acts, 0) == InitWith(own);
    StaysTrue(Sys(own), Inv, FlagInv, acts, 0, k);
  }

  // ----- theorems over every run

  /** has_quarantined_stream is set if and only if a stream of the device was left pending. */
  lemma StreamFlagIff(own: bool, acts: seq<Action>, k: nat, d: nat)
    requires IsRun(Sys(own), acts) && k <= |acts| && d < |At(Sys(own), acts, k).devs|
    ensures var s := At(Sys(own), acts, k); s.devs[d].qStream <==> exists m :: LeftPending(s, d, m)
  {
    FlagInvAt(own, acts, k);
    var s := At(Sys(own), acts, k);
    if m :| LeftPending(s, d, m) { assert StreamInv(s, m); }
  }

  /**
   The decision of uvc_close: the device is quarantined if and only if a stream of it was left pending or
   its status transfer did not stop; otherwise the close goes on to release everything.
   */
  lemma QuarantinedIff(own: bool, acts: seq<Action>, k: nat)
    requires IsRun(Sys(own), acts) && k < |acts| && acts[k].CloseDecide?
    ensures var s, s' := At(Sys(own), acts, k), At(Sys(own), acts, k + 1);
      && s.api.CloseStatus? && s.api.dev < |s.devs| && StatusApi(s, s.api.dev).Returned?
      && (Quarantines(s, s.api.dev) <==>
          (exists m :: LeftPending(s, s.api.dev, m)) || !StatusApi(s, s.api.dev).stopped)
      && (if Quarantines(s, s.api.dev) then s.api.dev !in s'.ctx.open && s'.ctx.quarantined
          else s' == s.(api := CloseRelease(s.api.dev, s.api.ret)))
  {
    FlagInvAt(own, acts, k);
    AtStep(Sys(own), acts, k);
    var s := At(Sys(own), acts, k);
    StreamFlagIff(own, acts, k, s.api.dev);
    DecideIs(s);
  }

  lemma DecideIs(s: State)
    requires Inv(s) && FlagInv(s) && Legal(s, CloseDecide)
    ensures !s.devs[s.api.dev].qStatus
    ensures if Quarantines(s, s.api.dev)
            then s.api.dev !in Exec(s, CloseDecide).ctx.open && Exec(s, CloseDecide).ctx.quarantined
            else Exec(s, CloseDecide) == s.(api := CloseRelease(s.api.dev, s.api.ret))
  {
    if Quarantines(s, s.api.dev) {
      ClosedByDecide(s);
    } else {
      var d := s.api.dev;
      assert s.devs[d := s.devs[d].(qStatus := false)] == s.devs;
    }
  }

  /** The k-th step is the decision of a close to quarantine its device. */
  ghost predicate QuarantinesAt(own: bool, acts: seq<Action>, k: nat)
    requires IsRun(Sys(own), acts) && k < |acts|
  {
    var s := At(Sys(own), acts, k);
    && acts[k].CloseDecide? && s.api.CloseStatus? && s.api.dev < |s.devs| && StatusApi(s, s.api.dev).Returned?
    && Quarantines(s, s.api.dev)
  }

  lemma ContextFlagStep(s: State, a: Action)
    requires Legal(s, a)
    ensures Exec(s, a).ctx.quarantined <==> s.ctx.quarantined || (a.CloseDecide? && Quarantines(s, s.api.dev))
  {
  }

  /** has_quarantined_device is set if and only if some close decided to quarantine. */
  lemma {:induction false} ContextFlagIff(own: bool, acts: seq<Action>, k: nat)
    requires IsRun(Sys(own), acts) && k <= |acts|
    ensures At(Sys(own), acts, k).ctx.quarantined <==> exists i :: 0 <= i < k && QuarantinesAt(own, acts, i)
  {
    if k > 0 {
      ContextFlagIff(own, acts, k - 1);
      AtStep(Sys(own), acts, k - 1);
      ContextFlagStep(At(Sys(own), acts, k - 1), acts[k - 1]);
      assert At(Sys(own), acts, k).ctx.quarantined <==>
        At(Sys(own), acts, k - 1).ctx.quarantined || QuarantinesAt(own, acts, k - 1);
    }
  }

  lemma GoneStep(s: State, a: Action)
    requires CoreInv(s) && Legal(s, a) && (s.api.Gone? ==> (s.ctx.freed <==> !s.ctx.quarantined))
    ensures Exec(s, a).api.Gone? ==> (Exec(s, a).ctx.freed <==> !Exec(s, a).ctx.quarantined)
  {
  }

  predicate FreedAtExit(s: State) { s.api.Gone? ==> (s.ctx.freed <==> !s.ctx.quarantined) }

  /** uvc_exit frees the context if and only if none of its closes quarantined a device. */
  lemma ExitFreesIff(own: bool, acts: seq<Action>, k: nat)
    requires IsRun(Sys(own), acts) && k <= |acts| && At(Sys(own), acts, k).api.Gone?
    ensures At(Sys(own), acts, k).ctx.freed <==> forall i :: 0 <= i < k ==> !QuarantinesAt(own, acts, i)
  {
    InvIsInductive(own);
    forall s, a | Inv(s) && FreedAtExit(s) && Legal(s, a) ensures FreedAtExit(Exec(s, a)) { GoneStep(s, a); }
    assert At(Sys(own), acts, 0) == InitWith(own);
    StaysTrue(Sys(own), Inv, FreedAtExit, acts, 0, k);
    ContextFlagIff(own, acts, k);
  }

  /**
   Nothing is leaked: when the context is freed every device and every stream of it has been freed, with
   every transfer, and every handler thread has been joined.
   */
  lemma NothingLeaked(own: bool, acts: seq<Action>, k: nat)
    requires IsRun(Sys(own), acts) && k <= |acts| && At(Sys(own), acts, k).ctx.freed
    ensures var s := At(Sys(own), acts, k);
      && (forall d :: 0 <= d < |s.devs| ==> StatusApi(s, d).Freed?)
      && (forall m :: 0 <= m < |s.strms| ==> StreamGone(s.strms[m].x))
      && (forall t :: 0 <= t < |s.ctx.threads| ==> s.ctx.threads[t].Joined?)
  {
    InvAt(own, acts, k);
    var s := At(Sys(own), acts, k);
    forall d | 0 <= d < |s.devs| ensures StatusApi(s, d).Freed? { assert DeviceInv(s, d); }
    forall m | 0 <= m < |s.strms| ensures StreamGone(s.strms[m].x) {
      StreamIsGone(s, m);
    }
    assert HandlerInv(s);
  }

  /** The handle is freed, and so is every transfer it ever had. */
  predicate StreamGone(x: Tr.State) { x.api.HandleFreed? && forall i :: 0 <= i < |x.xfers| ==> x.xfers[i].Freed? }

  lemma StreamIsGone(s: State, m: nat)
    requires Inv(s) && s.ctx.freed && m < |s.strms|
    ensures StreamGone(s.strms[m].x)
  {
    assert StreamInv(s, m);
    assert DeviceInv(s, s.strms[m].dev);
    assert Tr.Inv(s.strms[m].x);
    Tr.EmptySlotsAreQuiet(s.strms[m].x);
  }
}
