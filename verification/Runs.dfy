/**
 Runs of a labelled transition system: the interleavings over which the teardown theorems
 quantify.  A system is an initial state, a guard and an effect; a run is a sequence of actions,
 each legal where it happens.
 */
module Runs {

  datatype System<!S, !A> = System(init: S, legal: (S, A) -> bool, exec: (S, A) -> S)

  ghost predicate IsRunFrom<S, A>(sys: System<S, A>, s: S, acts: seq<A>)
    decreases |acts|
  {
    acts == [] || (sys.legal(s, acts[0]) && IsRunFrom(sys, sys.exec(s, acts[0]), acts[1..]))
  }

  ghost predicate IsRun<S, A>(sys: System<S, A>, acts: seq<A>) { IsRunFrom(sys, sys.init, acts) }

  ghost function After<S, A>(sys: System<S, A>, s: S, acts: seq<A>): S
    decreases |acts|
  {
    if acts == [] then s else After(sys, sys.exec(s, acts[0]), acts[1..])
  }

  /** The state a run is in before its k-th action. */
  ghost function At<S, A>(sys: System<S, A>, acts: seq<A>, k: nat): S
    requires k <= |acts|
  {
    After(sys, sys.init, acts[..k])
  }

  lemma {:induction false} ExtendFrom<S, A>(sys: System<S, A>, s: S, acts: seq<A>, a: A)
    ensures After(sys, s, acts + [a]) == sys.exec(After(sys, s, acts), a)
    ensures IsRunFrom(sys, s, acts + [a])
            <==> IsRunFrom(sys, s, acts) && sys.legal(After(sys, s, acts), a)
    decreases |acts|
  {
    if acts == [] {
      assert acts + [a] == [a] && [a][1..] == [];
    } else {
      ExtendFrom(sys, sys.exec(s, acts[0]), acts[1..], a);
      assert (acts + [a])[1..] == acts[1..] + [a];
    }
  }

  /** One more action at the end of a run. */
  lemma Extend<S, A>(sys: System<S, A>, s: S, acts: seq<A>, a: A) returns (s': S, acts': seq<A>)
    requires IsRun(sys, acts) && s == After(sys, sys.init, acts) && sys.legal(s, a)
    ensures acts' == acts + [a] && s' == sys.exec(s, a)
    ensures IsRun(sys, acts') && After(sys, sys.init, acts') == s'
  {
    acts', s' := acts + [a], sys.exec(s, a);
    ExtendFrom(sys, sys.init, acts, a);
  }

  lemma {:induction false} PrefixIsRun<S, A>(sys: System<S, A>, acts: seq<A>, k: nat)
    requires IsRun(sys, acts) && k <= |acts|
    ensures IsRun(sys, acts[..k])
    decreases |acts| - k
  {
    if k == |acts| {
      assert acts[..k] == acts;
    } else {
      PrefixIsRun(sys, acts, k + 1);
      assert acts[..k + 1] == acts[..k] + [acts[k]];
      ExtendFrom(sys, sys.init, acts[..k], acts[k]);
    }
  }

  /** The k-th action of a run is legal where it happens and leads to the next state. */
  lemma AtStep<S, A>(sys: System<S, A>, acts: seq<A>, k: nat)
    requires IsRun(sys, acts) && k < |acts|
    ensures sys.legal(At(sys, acts, k), acts[k])
    ensures At(sys, acts, k + 1) == sys.exec(At(sys, acts, k), acts[k])
  {
    PrefixIsRun(sys, acts, k + 1);
    assert acts[..k + 1] == acts[..k] + [acts[k]];
    ExtendFrom(sys, sys.init, acts[..k], acts[k]);
  }

  ghost predicate Inductive<S(!new), A(!new)>(sys: System<S, A>, inv: S -> bool) {
    && inv(sys.init)
    && forall s, a :: inv(s) && sys.legal(s, a) ==> inv(sys.exec(s, a))
  }

  /** An inductive invariant holds in every state of every run. */
  lemma {:induction false} InvariantHolds<S(!new), A(!new)>(sys: System<S, A>, inv: S -> bool, acts: seq<A>, k: nat)
    requires Inductive(sys, inv) && IsRun(sys, acts) && k <= |acts|
    ensures inv(At(sys, acts, k))
    decreases k
  {
    if k > 0 {
      InvariantHolds(sys, inv, acts, k - 1);
      AtStep(sys, acts, k - 1);
    }
  }

  /** A property kept by every step from an invariant state lasts to the end of the run. */
  lemma {:induction false} StaysTrue<S(!new), A(!new)>(sys: System<S, A>, inv: S -> bool, p: S -> bool,
                                                       acts: seq<A>, i: nat, j: nat)
    requires Inductive(sys, inv) && IsRun(sys, acts) && i <= j <= |acts|
    requires forall s, a :: inv(s) && p(s) && sys.legal(s, a) ==> p(sys.exec(s, a))
    requires p(At(sys, acts, i))
    ensures p(At(sys, acts, j))
    decreases j
  {
    if i < j {
      StaysTrue(sys, inv, p, acts, i, j - 1);
      InvariantHolds(sys, inv, acts, j - 1);
      AtStep(sys, acts, j - 1);
    }
  }

  /** The end of a run is a run from where it starts. */
  lemma {:induction false} RunSplit<S, A>(sys: System<S, A>, s: S, a: seq<A>, b: seq<A>)
    requires IsRunFrom(sys, s, a + b)
    ensures IsRunFrom(sys, s, a) && IsRunFrom(sys, After(sys, s, a), b)
    ensures After(sys, After(sys, s, a), b) == After(sys, s, a + b)
    decreases |a|
  {
    if a == [] {
      assert a + b == b;
    } else {
      assert (a + b)[1..] == a[1..] + b;
      RunSplit(sys, sys.exec(s, a[0]), a[1..], b);
    }
  }
}
