/**
 When an interface is released: what is still in flight on it, over every interleaving of the system of
 module `Lifetime`.  A stream's interface is released by the close of that stream, all claimed ones by
 uvc_release_claimed_ifs, which here is the step that releases the control interface.
 */
module InterfaceRelease {
  import opened Runs
  import opened SeqFacts
  import opened Lifetime
  import St = StatusTransfer
  import Tr = StreamTransfers

  predicate SameInterface(s: State, m: nat, n: nat)
    requires m < |s.strms| && n < |s.strms|
  {
    s.strms[m].dev == s.strms[n].dev && s.strms[m].iface == s.strms[n].iface
  }

  /** Stream m still has its interface: it is on its device's list, or its close is about to release it. */
  predicate Holds(s: State, m: nat) {
    m < |s.strms| && (Linked(s, m) || StreamApi(s, m).Releasing?)
  }

  /** No two streams have the same interface of a device. */
  predicate Exclusive(s: State) {
    forall m, n :: 0 <= m < n < |s.strms| && SameInterface(s, m, n) ==> !(Holds(s, m) && Holds(s, n))
  }

  /** The only way to the release of the interface is the scan that found every slot empty. */
  lemma ReleasingFrom(x: Tr.State, ta: Tr.Action)
    requires Tr.Legal(x, ta) && Tr.Exec(x, ta).api.Releasing?
    ensures x.api.Releasing? || x.api.CloseScanning?
  {
    if !Tr.IsApi(ta) { Tr.EventKeepsApi(x, ta); }
  }

  lemma StreamStepHolds(s: State, k: nat, ta: Tr.Action, m: nat)
    requires Inv(s) && Legal(s, StreamAct(k, ta)) && m < |s.strms|
    ensures Holds(Exec(s, StreamAct(k, ta)), m) ==> Holds(s, m)
  {
    assert StreamInv(s, k);
    var x := Tr.Exec(s.strms[k].x, ta);
    assert Exec(s, StreamAct(k, ta)) == WithStream(s, k, x);
    if x.api.Releasing? { ReleasingFrom(s.strms[k].x, ta); }
  }

  lemma UnlinkHolds(s: State, m: nat)
    requires Inv(s) && Legal(s, UnlinkStream) && m < |s.strms|
    ensures Holds(Exec(s, UnlinkStream), m) ==> Holds(s, m)
  {
    var d := s.strms[s.api.strm].dev;
    assert NoDup(s.devs[d].streams);
    WithoutMembers(s.devs[d].streams, s.api.strm, m);
  }

  /** Between two states: stream m stays what it is, and is not given its interface back. */
  predicate Shrinks(s: State, s': State, m: nat)
    requires m < |s.strms|
  {
    && m < |s'.strms| && s'.strms[m].dev == s.strms[m].dev && s'.strms[m].iface == s.strms[m].iface
    && (Holds(s', m) ==> Holds(s, m))
  }

  lemma HoldsShrinks(s: State, a: Action, m: nat)
    requires Inv(s) && Legal(s, a) && m < |s.strms|
    ensures Shrinks(s, Exec(s, a), m)
  {
    if a.StreamAct? { StreamStepHolds(s, a.strm, a.ta, m); }
    else if a.UnlinkStream? { UnlinkHolds(s, m); }
  }

  /** Outside a close every stream that has its interface is on its list. */
  lemma IdleHolds(s: State, m: nat)
    requires Inv(s) && s.api.Idle? && Holds(s, m)
    ensures Linked(s, m)
  {
    assert StreamInv(s, m);
  }

  lemma ExclusivePairs(s: State, s': State)
    requires Exclusive(s) && |s.strms| <= |s'.strms| <= |s.strms| + 1
    requires forall m :: 0 <= m < |s.strms| ==> Shrinks(s, s', m)
    requires |s'.strms| > |s.strms| ==>
      forall m :: 0 <= m < |s.strms| && SameInterface(s', m, |s.strms|) ==> !Holds(s', m)
    ensures Exclusive(s')
  {
    forall m, n | 0 <= m < n < |s'.strms| && SameInterface(s', m, n) ensures !(Holds(s', m) && Holds(s', n)) {
      if n < |s.strms| {
        assert Shrinks(s, s', m) && Shrinks(s, s', n);
        assert SameInterface(s, m, n);
      }
    }
  }

  lemma StreamCount(s: State, a: Action)
    requires Legal(s, a)
    ensures |Exec(s, a).strms| == |s.strms| + if a.StreamOpen? then 1 else 0
  {
  }

  lemma ExclusiveKept(s: State, a: Action)
    requires Inv(s) && Exclusive(s) && Legal(s, a)
    ensures Exclusive(Exec(s, a))
  {
    StreamCount(s, a);
    forall m | 0 <= m < |s.strms| ensures Shrinks(s, Exec(s, a), m) { HoldsShrinks(s, a, m); }
    if a.StreamOpen? {
      forall m | 0 <= m < |s.strms| && SameInterface(Exec(s, a), m, |s.strms|) ensures !Holds(Exec(s, a), m) {
        NewIsExclusive(s, a, m);
      }
    }
    ExclusivePairs(s, Exec(s, a));
  }

  lemma NewIsExclusive(s: State, a: Action, m: nat)
    requires Inv(s) && Legal(s, a) && a.StreamOpen? && m < |s.strms|
    ensures |Exec(s, a).strms| == |s.strms| + 1
    ensures SameInterface(Exec(s, a), m, |s.strms|) ==> !Holds(Exec(s, a), m)
  {
    HoldsShrinks(s, a, m);
    if Holds(s, m) { IdleHolds(s, m); }
  }

  lemma ExclusiveAt(own: bool, acts: seq<Action>, k: nat)
    requires IsRun(Sys(own), acts) && k <= |acts|
    ensures Inv(At(Sys(own), acts, k)) && Exclusive(At(Sys(own), acts, k))
  {
    InvIsInductive(own);
    InvAt(own, acts, k);
    forall s, a | Inv(s) && Exclusive(s) && Legal(s, a) ensures Exclusive(Exec(s, a)) { ExclusiveKept(s, a); }
    assert At(Sys(own), acts, 0) == InitWith(own);
    StaysTrue(Sys(own), Inv, Exclusive, acts, 0, k);
  }

  // ----- theorems over every run

  /** Some transfer of the stream is with libusb or in its callback. */
  predicate HasOutstanding(x: Tr.State) { exists i :: 0 <= i < |x.xfers| && Tr.Outstanding(x.xfers[i]) }

  /** The flag that makes uvc_close quarantine the device of stream n is set. */
  predicate KnownToDevice(s: State, n: nat)
    requires n < |s.strms|
  {
    s.strms[n].dev < |s.devs| && s.devs[s.strms[n].dev].qStream
  }

  /**
   When the close of a stream releases its interface, no transfer of that stream is in flight and no
   callback of it runs; of the other streams that ever had the interface, exactly the quarantined ones
   that still have an outstanding transfer can be reached, and their device knows of them.
   */
  lemma ReleasedInterfaceIsQuiet(own: bool, acts: seq<Action>, k: nat, n: nat)
    requires IsRun(Sys(own), acts) && k < |acts| && acts[k].StreamAct? && acts[k].ta.ReleaseIf?
    requires n < |At(Sys(own), acts, k).strms| && acts[k].strm < |At(Sys(own), acts, k).strms|
    requires SameInterface(At(Sys(own), acts, k), acts[k].strm, n)
    ensures var s, m := At(Sys(own), acts, k), acts[k].strm;
      && Tr.Quiet(s.strms[m].x)
      && (!Tr.Quiet(s.strms[n].x) <==> Quarantined(s, n) && HasOutstanding(s.strms[n].x))
      && (!Tr.Quiet(s.strms[n].x) ==> n != m && KnownToDevice(s, n))
  {
    ExclusiveAt(own, acts, k);
    AtStep(Sys(own), acts, k);
    var s, m := At(Sys(own), acts, k), acts[k].strm;
    ReleasingIsQuiet(s, m);
    if n != m { OtherIsQuiet(s, m, n); }
  }

  lemma ReleasingIsQuiet(s: State, m: nat)
    requires Inv(s) && Legal(s, StreamAct(m, Tr.ReleaseIf))
    ensures m < |s.strms| && Tr.Quiet(s.strms[m].x) && Holds(s, m)
  {
    assert Tr.Inv(s.strms[m].x);
    Tr.ClosedCleanIsQuiet(s.strms[m].x);
  }

  lemma OtherIsQuiet(s: State, m: nat, n: nat)
    requires Inv(s) && Exclusive(s) && m < |s.strms| && n < |s.strms| && m != n && SameInterface(s, m, n) && Holds(s, m)
    ensures Tr.Quiet(s.strms[n].x) || (Quarantined(s, n) && HasOutstanding(s.strms[n].x) && KnownToDevice(s, n))
  {
    assert !Holds(s, n) by {
      if n < m { assert SameInterface(s, n, m); } else { assert SameInterface(s, m, n); }
    }
    assert StreamInv(s, n);
    assert Tr.Inv(s.strms[n].x);
    if StreamApi(s, n).HandleFreed? { Tr.ClosedCleanIsQuiet(s.strms[n].x); }
  }

  /**
   When uvc_close releases everything still claimed, neither the status transfer nor any transfer of any
   stream of the device is in flight.
   */
  lemma ReleasedDeviceIsQuiet(own: bool, acts: seq<Action>, k: nat, n: nat)
    requires IsRun(Sys(own), acts) && k < |acts| && acts[k].StatusAct? && acts[k].sa.ReleaseControl?
    requires n < |At(Sys(own), acts, k).strms| && At(Sys(own), acts, k).strms[n].dev == acts[k].dev
    ensures var s := At(Sys(own), acts, k);
      Tr.Quiet(s.strms[n].x) && acts[k].dev < |s.devs| && St.Quiet(s.devs[acts[k].dev].status)
  {
    InvAt(own, acts, k);
    AtStep(Sys(own), acts, k);
    var s, d := At(Sys(own), acts, k), acts[k].dev;
    ControlIsQuiet(s, d);
    DeviceIsQuiet(s, d, n);
  }

  lemma ControlIsQuiet(s: State, d: nat)
    requires Inv(s) && Legal(s, StatusAct(d, St.ReleaseControl))
    ensures d < |s.devs| && St.Quiet(s.devs[d].status)
    ensures s.api == Opening(d) || (s.api.CloseRelease? && s.api.dev == d)
  {
    assert St.Inv(s.devs[d].status);
  }

  lemma DeviceIsQuiet(s: State, d: nat, n: nat)
    requires Inv(s) && d < |s.devs| && n < |s.strms| && s.strms[n].dev == d
    requires s.api == Opening(d) || (s.api.CloseRelease? && s.api.dev == d)
    ensures Tr.Quiet(s.strms[n].x)
  {
    assert DeviceInv(s, d);
    assert StreamInv(s, n);
    assert Tr.Inv(s.strms[n].x);
    Tr.ClosedCleanIsQuiet(s.strms[n].x);
  }

  // ----- the exception

  /** Steps of a stream the calling thread may take inside the call it is in, on or off the list. */
  predicate MayTake(api: Api, m: nat, ta: Tr.Action) {
    || (api == StreamCall(m) && !ta.CloseBegin? && !ta.CloseScan? && !ta.ReleaseIf? && !ta.FreeHandle?)
    || (api.CloseStream? && api.strm == m && Tr.InCloseCall(ta))
  }

  function WithStream(s: State, m: nat, x: Tr.State): State
    requires m < |s.strms|
  {
    s.(strms := s.strms[m := s.strms[m].(x := x)])
  }

  /** A run of a stream's transfers is a run of the whole system. */
  lemma {:induction false} StreamRun(s: State, acts: seq<Action>, m: nat, tas: seq<Tr.Action>)
    returns (s': State, acts': seq<Action>)
    requires IsRun(Sys(true), acts) && s == After(Sys(true), InitWith(true), acts)
    requires m < |s.strms| && IsRunFrom(Tr.Sys(2), s.strms[m].x, tas)
    requires forall i :: 0 <= i < |tas| ==> MayTake(s.api, m, tas[i])
    ensures IsRun(Sys(true), acts') && s' == After(Sys(true), InitWith(true), acts')
    ensures s' == WithStream(s, m, After(Tr.Sys(2), s.strms[m].x, tas))
    decreases |tas|
  {
    if tas == [] {
      s', acts' := s, acts;
      assert WithStream(s, m, s.strms[m].x) == s;
    } else {
      var x := Tr.Exec(s.strms[m].x, tas[0]);
      StreamStepIs(s, m, tas[0]);
      var t := WithStream(s, m, x);
      acts' := Then(s, acts, StreamAct(m, tas[0]), t);
      s', acts' := StreamRun(t, acts', m, tas[1..]);
    }
  }

  lemma StreamStepIs(s: State, m: nat, ta: Tr.Action)
    requires m < |s.strms| && Tr.LegalDisciplined(s.strms[m].x, ta) && MayTake(s.api, m, ta)
    ensures Sys(true).legal(s, StreamAct(m, ta))
    ensures Sys(true).exec(s, StreamAct(m, ta)) == WithStream(s, m, Tr.Exec(s.strms[m].x, ta))
  {
  }

  /** A run with one open device, whose list of streams is the given one. */
  ghost predicate OneOpen(s: State, acts: seq<Action>, list: seq<nat>) {
    && IsRun(Sys(true), acts) && s == After(Sys(true), InitWith(true), acts)
    && s.ctx.open == [0] && |s.devs| == 1 && s.devs[0].streams == list
  }

  /** uvc_stream_open_ctrl on interface 1. */
  lemma OpensStream(s: State, acts: seq<Action>) returns (s': State, acts': seq<Action>)
    requires OneOpen(s, acts, []) && s.api.Idle?
    ensures OneOpen(s', acts', [|s.strms|]) && s'.api.Idle?
    ensures s'.strms == s.strms + [Stream(0, 1, Tr.InitWith(2))]
  {
    s', acts' := Extend(Sys(true), s, acts, StreamOpen(0, 1, 2));
  }

  lemma EntersCall(s: State, acts: seq<Action>, m: nat, a: Action) returns (s': State, acts': seq<Action>)
    requires OneOpen(s, acts, [m]) && s.api.Idle? && m < |s.strms| && s.strms[m].dev == 0
    requires a == CallStream(m) || a == CloseStreamBegin(m)
    ensures OneOpen(s', acts', [m]) && s'.strms == s.strms
    ensures s'.api == if a.CallStream? then StreamCall(m) else CloseStream(m, ToCaller)
  {
    s', acts' := Extend(Sys(true), s, acts, a);
  }

  lemma LeavesCall(s: State, acts: seq<Action>, m: nat) returns (s': State, acts': seq<Action>)
    requires OneOpen(s, acts, [m]) && s.api == StreamCall(m) && m < |s.strms| && StreamApi(s, m).Idle?
    ensures OneOpen(s', acts', [m]) && s'.strms == s.strms && s'.api.Idle?
  {
    s', acts' := Extend(Sys(true), s, acts, EndStreamCall);
  }

  lemma Unlinks(s: State, acts: seq<Action>, m: nat) returns (s': State, acts': seq<Action>)
    requires OneOpen(s, acts, [m]) && s.api == CloseStream(m, ToCaller) && m < |s.strms| && s.strms[m].dev == 0
    requires StreamApi(s, m).Quarantined? || StreamApi(s, m).Releasing?
    ensures OneOpen(s', acts', []) && s'.strms == s.strms && s'.api == s.api
  {
    s', acts' := Extend(Sys(true), s, acts, UnlinkStream);
  }

  lemma LeavesClose(s: State, acts: seq<Action>, m: nat) returns (s': State, acts': seq<Action>)
    requires OneOpen(s, acts, []) && s.api == CloseStream(m, ToCaller) && m < |s.strms| && s.strms[m].dev == 0
    requires StreamApi(s, m).Quarantined?
    ensures OneOpen(s', acts', []) && s'.strms == s.strms && s'.api.Idle?
  {
    s', acts' := Extend(Sys(true), s, acts, CloseStreamEnd);
  }

  /** The steps of a stream inside a call leave the rest of the state alone. */
  lemma CallRuns(s: State, acts: seq<Action>, m: nat, tas: seq<Tr.Action>) returns (s': State, acts': seq<Action>)
    requires OneOpen(s, acts, [m]) && m < |s.strms| && IsRunFrom(Tr.Sys(2), s.strms[m].x, tas)
    requires forall i :: 0 <= i < |tas| ==> MayTake(s.api, m, tas[i])
    ensures OneOpen(s', acts', [m]) && s'.api == s.api
    ensures s'.strms == s.strms[m := s.strms[m].(x := After(Tr.Sys(2), s.strms[m].x, tas))]
  {
    s', acts' := StreamRun(s, acts, m, tas);
  }

  /** One stream on interface 1, closed while the device did not answer. */
  lemma QuarantinedOnOne() returns (s: State, acts: seq<Action>)
    ensures OneOpen(s, acts, []) && s.api.Idle?
    ensures |s.strms| == 1 && s.strms[0].dev == 0 && s.strms[0].iface == 1
    ensures s.strms[0].x.xfers == [Tr.InFlight, Tr.InFlight]
  {
    var x, first, rest := Tr.ClosedWithTwo();
    s, acts := OpenOne(InitWith(true), []);
    s, acts := OpensStream(s, acts);
    s, acts := EntersCall(s, acts, 0, CallStream(0));
    s, acts := CallRuns(s, acts, 0, first);
    s, acts := LeavesCall(s, acts, 0);
    s, acts := EntersCall(s, acts, 0, CloseStreamBegin(0));
    s, acts := CallRuns(s, acts, 0, rest);
    s, acts := Unlinks(s, acts, 0);
    s, acts := LeavesClose(s, acts, 0);
  }

  /** A stream that was never started finds its slots empty when it is closed. */
  lemma IdleCloseIsClean() returns (tas: seq<Tr.Action>)
    ensures IsRunFrom(Tr.Sys(2), Tr.InitWith(2), tas) && forall i :: 0 <= i < |tas| ==> Tr.InCloseCall(tas[i])
    ensures After(Tr.Sys(2), Tr.InitWith(2), tas).api == Tr.Releasing(false)
  {
    var x: Tr.State;
    x, tas := Extend(Tr.Sys(2), Tr.InitWith(2), [], Tr.CloseBegin);
    x, tas := Extend(Tr.Sys(2), x, tas, Tr.CloseScan);
  }

  /**
   A second stream opened on the interface of a quarantined one, and closed: it finds its own slots empty
   and releases the interface, on which two transfers of the first are still in flight.
   */
  lemma ReleasedUnderQuarantined() returns (s: State, acts: seq<Action>)
    ensures IsRun(Sys(true), acts) && s == After(Sys(true), InitWith(true), acts)
    ensures |s.strms| == 2 && SameInterface(s, 0, 1) && Legal(s, StreamAct(1, Tr.ReleaseIf))
    ensures s.strms[0].x.xfers == [Tr.InFlight, Tr.InFlight]
  {
    var tas := IdleCloseIsClean();
    s, acts := QuarantinedOnOne();
    s, acts := OpensStream(s, acts);
    s, acts := EntersCall(s, acts, 1, CloseStreamBegin(1));
    s, acts := CallRuns(s, acts, 1, tas);
    s, acts := Unlinks(s, acts, 1);
  }
}
