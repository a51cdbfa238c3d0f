/** Path locking comes to an end: every request takes boundedly many steps, and safe requests can
    always all be completed, which leaves nothing locked and no mutex in the map.
 */
module PathLockProgress {
  import opened Paths
  import opened PathLocks
  import opened PathLockSafety
  import opened PathLockTheorems
  import opened PathLockLimits
  import Runs

  /** The steps that a thread has before it at most. */
  ghost function Remaining(th: Thread): nat
    requires |th.held| <= |th.plan|
    requires th.phase.Waiting? || th.phase.Announced? ==> |th.held| < |th.plan|
    requires th.phase.Dropping? ==> 0 < |th.held|
  {
    var inside, left := 2 * |th.plan| + 1, |th.plan| - |th.held|;
    match th.phase
    case Idle => 0
    case Claiming => inside + 3 * left
    case Waiting(_) => inside + 3 * left - 1
    case Announced(_) => inside + 3 * left - 2
    case Inside => inside
    case Releasing => 2 * |th.held|
    case Dropping(_) => 2 * |th.held| - 1
  }

  ghost function Left(s: State, t: nat): nat
    requires Inv(s) && t < |s.threads|
  {
    assert ThreadOk(s.pathmap, |s.muxes|, s.threads[t]);
    Remaining(s.threads[t])
  }

  /** Every act but the start of a request brings its thread nearer to the end of the request, and
      leaves the other threads, and what is requested, alone. */
  lemma ActShortens(pol: Policy, s: State, t: nat, a: Act)
    requires Inv(s) && PlansOk(s) && Enabled(pol, s, t, a) && !a.Start? && Inv(Apply(pol, s, t, a))
    ensures
      var u := Apply(pol, s, t, a);
      && |u.threads| == |s.threads| && u.threads == s.threads[t := u.threads[t]]
      && u.threads[t].req == s.threads[t].req && Left(u, t) < Left(s, t)
      && (u.threads[t].phase.Idle? <==> Left(u, t) == 0)
  {
    var u := Apply(pol, s, t, a);
    assert ThreadOk(s.pathmap, |s.muxes|, s.threads[t]) && ThreadOk(u.pathmap, |u.muxes|, u.threads[t]);
    if a.Claim? { ClaimKeepsRequest(s, t); }
    assert u.threads[t].req == s.threads[t].req && u.threads[t].plan == s.threads[t].plan;
  }

  lemma ClaimKeepsRequest(s: State, t: nat)
    requires t < |s.threads| && Next(s.threads[t])
    ensures
      var u := DoClaim(s, t);
      && |u.threads| == |s.threads| && u.threads == s.threads[t := u.threads[t]]
      && u.threads[t].phase.Waiting? && u.threads[t] == s.threads[t].(phase := u.threads[t].phase)
  {
  }

  /** A request takes no more than five steps for each of its acquisitions, and one. */
  lemma StartBounds(r: Request)
    ensures Remaining(Thread(r, Plan(r), [], Claiming)) == 5 * |Plan(r)| + 1
  {
  }

  // ---------- completion ----------

  ghost function Lefts(s: State): (ns: seq<nat>)
    requires Inv(s)
    ensures |ns| == |s.threads|
  {
    seq(|s.threads|, t requires 0 <= t < |s.threads| => Left(s, t))
  }

  lemma LeftsShorten(pol: Policy, s: State, t: nat, a: Act)
    requires Inv(s) && PlansOk(s) && Enabled(pol, s, t, a) && !a.Start? && Inv(Apply(pol, s, t, a))
    ensures Sum(Lefts(Apply(pol, s, t, a))) < Sum(Lefts(s))
  {
    ActShortens(pol, s, t, a);
    OneChanges(s, Apply(pol, s, t, a), t);
  }

  lemma OneChanges(s: State, u: State, t: nat)
    requires Inv(s) && Inv(u) && t < |s.threads| == |u.threads| && u.threads == s.threads[t := u.threads[t]]
    ensures Sum(Lefts(u)) == Sum(Lefts(s)) - Left(s, t) + Left(u, t)
  {
    var ns, ms := Lefts(s), Lefts(u);
    forall k | 0 <= k < |ns| ensures ms[k] == ns[t := Left(u, t)][k] {
      assert k != t ==> u.threads[k] == s.threads[k];
    }
    assert ms == ns[t := Left(u, t)];
    SumUpdate(ns, t, Left(u, t));
  }

  lemma SafeAfter(pol: Policy, s: State, t: nat, a: Act)
    requires Inv(s) && PlansOk(s) && AllSafe(pol, s) && Enabled(pol, s, t, a) && !a.Start? && Inv(Apply(pol, s, t, a))
    ensures AllSafe(pol, Apply(pol, s, t, a))
  {
    ActShortens(pol, s, t, a);
    var u := Apply(pol, s, t, a);
    forall k | 0 <= k < |u.threads| && !u.threads[k].phase.Idle? ensures Safe(pol, u.threads[k].req) {
      assert u.threads[k].req == s.threads[k].req;
      if k == t { assert Left(u, t) < Left(s, t); }
    }
  }

  ghost predicate AllIdle(s: State) {
    forall t :: 0 <= t < |s.threads| ==> s.threads[t].phase.Idle?
  }

  /** From any state of safe requests there is a way on which all of them complete. */
  lemma {:induction false} AllComplete(pol: Policy, s: State) returns (u: State)
    requires Inv(s) && PlansOk(s) && AllSafe(pol, s)
    ensures Reaches(pol, s, u) && Inv(u) && AllIdle(u) && |u.threads| == |s.threads|
    decreases Sum(Lefts(s))
  {
    if AllIdle(s) {
      u := s;
      ReachSelf(pol, s);
    } else {
      var t: nat :| t < |s.threads| && !s.threads[t].phase.Idle?;
      var m := FindMover(pol, s, t);
      var a: Act :| !a.Start? && Enabled(pol, s, m, a);
      var v := Go(pol, s, m, a);
      LeftsShorten(pol, s, m, a);
      SafeAfter(pol, s, m, a);
      ActShortens(pol, s, m, a);
      u := AllComplete(pol, v);
      ReachTrans(pol, s, v, u);
    }
  }

  lemma ReachSelf(pol: Policy, s: State)
    ensures Reaches(pol, s, s)
  {
    var ss: seq<State>, ms: seq<Move> := [s], [];
    assert Runs.IsRun(ss, ms, Steps(pol)) && ss[|ms|] == s;
  }

  /** When no thread is busy, the map is empty and every mutex that was ever made is free. */
  lemma IdleIsClean(s: State)
    requires Inv(s) && AllIdle(s)
    ensures s.pathmap == map[]
    ensures forall o :: 0 <= o < |s.muxes| ==> s.muxes[o].readers == s.muxes[o].writers == s.muxes[o].announced == 0
  {
    forall k ensures CountOf(s.threads)(k) == 0 {
      forall t | 0 <= t < |s.threads| ensures Nums(s.threads, k)[t] == 0 {
        assert ThreadOk(s.pathmap, |s.muxes|, s.threads[t]);
      }
      ZeroSum(Nums(s.threads, k));
    }
    forall p ensures p !in s.pathmap { assert CountOf(s.threads)(ClaimOf(p)) == 0; }
    forall o | 0 <= o < |s.muxes|
      ensures s.muxes[o].readers == s.muxes[o].writers == s.muxes[o].announced == 0
    {
      assert MuxOk(s.muxes[o], CountOf(s.threads), o);
      assert CountOf(s.threads)(ReadOf(o)) == 0 && CountOf(s.threads)(WriteOf(o)) == 0;
      assert CountOf(s.threads)(AnnounceOf(o)) == 0;
    }
  }
}
