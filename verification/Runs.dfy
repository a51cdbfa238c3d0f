/** Induction over the runs of a state machine. */
module Runs {

  /** What holds at the start and is kept by every step holds everywhere in a run. */
  lemma {:induction false} Holds<S(!new), O(!new)>(ss: seq<S>, ops: seq<O>, k: nat, step: (S, O, S) -> bool,
                                   inv: S -> bool)
    requires |ss| == |ops| + 1 && k <= |ops| && inv(ss[0])
    requires forall n :: 0 <= n < |ops| ==> step(ss[n], ops[n], ss[n + 1])
    requires forall s, o, u :: inv(s) && step(s, o, u) ==> inv(u)
    ensures inv(ss[k])
  {
    if k > 0 {
      Holds(ss, ops, k - 1, step, inv);
      assert step(ss[k - 1], ops[k - 1], ss[k]);
    }
  }

  /** If a step keeps inv exactly if it is ok, then a run has kept inv exactly if all its steps were ok. */
  lemma {:induction false} HoldsExactly<S(!new), O(!new)>(ss: seq<S>, ops: seq<O>, m: nat, step: (S, O, S) -> bool,
                                                          inv: S -> bool, ok: (S, O) -> bool)
    requires |ss| == |ops| + 1 && m <= |ops| && inv(ss[0])
    requires forall n :: 0 <= n < |ops| ==> step(ss[n], ops[n], ss[n + 1])
    requires forall s, o, u :: inv(s) && step(s, o, u) ==> (inv(u) <==> ok(s, o))
    ensures (forall n :: 0 <= n <= m ==> inv(ss[n])) <==> forall n :: 0 <= n < m ==> ok(ss[n], ops[n])
  {
    if m > 0 {
      HoldsExactly(ss, ops, m - 1, step, inv, ok);
      assert step(ss[m - 1], ops[m - 1], ss[m]);
    }
  }

  ghost predicate IsRun<S, O>(ss: seq<S>, ops: seq<O>, step: (S, O, S) -> bool) {
    |ss| == |ops| + 1 && forall n :: 0 <= n < |ops| ==> step(ss[n], ops[n], ss[n + 1])
  }

  /** A run can be continued by a run from its last state. */
  lemma Joined<S, O>(ss: seq<S>, ops: seq<O>, ts: seq<S>, more: seq<O>, step: (S, O, S) -> bool)
    requires IsRun(ss, ops, step) && IsRun(ts, more, step) && ss[|ops|] == ts[0]
    ensures IsRun(ss + ts[1..], ops + more, step) && (ss + ts[1..])[|ops| + |more|] == ts[|more|]
  {
    var us, all := ss + ts[1..], ops + more;
    forall k | 0 <= k < |all| ensures step(us[k], all[k], us[k + 1]) {
      if k < |ops| {
        assert step(ss[k], ops[k], ss[k + 1]);
      } else {
        assert step(ts[k - |ops|], more[k - |ops|], ts[k - |ops| + 1]);
      }
    }
  }
}
