/** Getting the node of an ino with its path locked: the path is known only from the record, and the
    record may move until the path is locked, so it is read again under the lock.
 */
module LockedNode {
  import opened Paths

  /** What the index says about the ino at one moment. */
  datatype Lookup = Gone | At(key: Path)

  datatype Progress = Looking(pk0: Path) | Found(key: Path) | Failed

  /** One round of the loop. */
  function Advance(p: Progress, answer: Lookup): Progress
    requires p.Looking?
  {
    if answer.Gone? then Failed
    else if answer.key == p.pk0 then Found(p.pk0)
    else Looking(answer.key)
  }

  /** How far a thread has come that was given these answers. */
  function Outcome(answers: seq<Lookup>): Progress {
    if answers == [] then Looking([])
    else
      var p := Outcome(answers[..|answers| - 1]);
      if p.Looking? then Advance(p, answers[|answers| - 1]) else p
  }

  /** The answers name real paths; the empty one stands for "no path locked". */
  ghost predicate Named(answers: seq<Lookup>) {
    forall n :: 0 <= n < |answers| && answers[n].At? ==> answers[n].key != []
  }

  /** The path locks that a thread which has come this far holds. */
  function Holds(p: Progress): seq<Path> {
    if p.Found? then [p.key]
    else if p.Looking? && p.pk0 != [] then [p.pk0]
    else []
  }

  /** A thread and its path locks. It never waits for a lock while it holds another one, so that it
      may take part in the locking discipline of single paths. */
  class Thread {
    var held: seq<Path>

    constructor ()
      ensures held == []
    {
      held := [];
    }

    method LockPath(k: Path)
      requires held == []
      modifies this
      ensures held == [k]
    {
      held := [k];
    }

    method UnlockPath(k: Path)
      requires held == [k]
      modifies this
      ensures held == []
    {
      held := [];
    }

    /** getLockedNodeWithIno against any answers that the index may give while others rename. It
        stops when it succeeds or fails, or when the answers are used up; under is what was held
        at the last lookup. */
    method GetLockedNode(answers: seq<Lookup>) returns (p: Progress, used: nat, ghost under: seq<Path>)
      requires held == [] && Named(answers)
      modifies this
      ensures used <= |answers| && p == Outcome(answers[..used]) && (p.Looking? ==> used == |answers|)
      ensures held == Holds(p)
      ensures p.Found? ==> used > 0 && answers[used - 1] == At(p.key) && under == [p.key]
      ensures p.Failed? ==> used > 0 && answers[used - 1] == Gone
    {
      var pk0: Path := [];
      used, p, under := 0, Looking([]), [];
      while used < |answers| && p.Looking?
        invariant used <= |answers| && held == Holds(p)
        invariant p == Outcome(answers[..used]) && (p.Looking? ==> p.pk0 == pk0)
        invariant p.Found? ==> used > 0 && answers[used - 1] == At(p.key) && under == [p.key]
        invariant p.Failed? ==> used > 0 && answers[used - 1] == Gone
        decreases |answers| - used
      {
        var answer := answers[used];
        under := held;
        assert answers[..used + 1][..used] == answers[..used];
        used := used + 1;
        if answer.Gone? {
          if pk0 != [] {
            UnlockPath(pk0);
          }
          p := Failed;
        } else if answer.key == pk0 {
          p := Found(pk0);
        } else {
          if pk0 != [] {
            UnlockPath(pk0);
          }
          LockPath(answer.key);
          pk0 := answer.key;
          p := Looking(pk0);
        }
      }
    }
  }

  // ---------- when it ends ----------

  /** From some point on the index gives the same answer. */
  ghost predicate Quiet(answers: seq<Lookup>, m: nat) {
    forall n :: m <= n < |answers| ==> answers[n] == answers[m]
  }

  /** While it is looking, it holds the lock of the path that it read last. */
  lemma LookingAt(answers: seq<Lookup>)
    requires answers != [] && Outcome(answers).Looking?
    ensures answers[|answers| - 1] == At(Outcome(answers).pk0)
  {
  }

  /** Once the index is quiet, two more lookups decide. */
  lemma QuietDecides(answers: seq<Lookup>, m: nat)
    requires Quiet(answers, m) && m + 2 <= |answers|
    ensures !Outcome(answers[..m + 2]).Looking?
  {
    var a, b := answers[..m + 1], answers[..m + 2];
    assert b[..m + 1] == a && a[..m] == answers[..m];
    assert a[m] == b[m + 1] by { assert answers[m] == answers[m + 1]; }
    if Outcome(a).Looking? { LookingAt(a); }
  }

  /** Success means that the path was locked and confirmed: the last two answers agree. */
  lemma {:induction false} FoundIsConfirmed(answers: seq<Lookup>)
    requires Named(answers) && Outcome(answers).Found?
    ensures exists n :: 0 < n < |answers| && answers[n - 1] == answers[n] == At(Outcome(answers).key)
  {
    var front := answers[..|answers| - 1];
    if Outcome(front).Looking? {
      assert Outcome(front).pk0 != [];
      LookingAt(front);
      var n := |answers| - 1;
      assert answers[n - 1] == front[n - 1];
    } else {
      FoundIsConfirmed(front);
      var n :| 0 < n < |front| && front[n - 1] == front[n] == At(Outcome(front).key);
      assert answers[n - 1] == front[n - 1] && answers[n] == front[n];
    }
  }
}
