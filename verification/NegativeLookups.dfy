/** The cache of absent paths: a path key in it is answered with "not found" without asking the
    storage, so every operation that brings a path into being must take it out.
 */
module NegativeLookups {
  import opened Paths
  import opened TimedList
  import opened Presence
  import opened NodeIndex

  /** The keys of what the storage has, and the entries of negpres. */
  datatype State = State(stored: set<Path>, neg: Entries, now: Time)

  datatype Config = Config(timeout: nat, max: int)

  /** Atomic operations under their path locks; each carries what the storage answers. */
  datatype Step =
    | Stat(k: Path, fails: bool)
    | Make(k: Path, valid: bool, statFails: bool, makeFails: bool)
    | Remove(k: Path, reply: StorageReply)
    | Rename(k: Path, newk: Path, deleted: bool, reply: StorageReply, after: set<Path>)
    | List(k: Path, fails: bool)
    | Pass(d: nat)

  /** What a successful rename in the storage leaves: what was not at or below k, and images of what was. */
  ghost predicate Moved(stored: set<Path>, after: set<Path>, k: Path, newk: Path) {
    forall y :: y in after ==>
      (y in stored && !HasPrefix(y, k)) || exists x :: x in stored && HasPrefix(x, k) && y == Image(k, newk, x)
  }

  /** The storage keeps its contract, and keys are absolute. */
  ghost predicate Allowed(s: State, step: Step) {
    match step
    case Remove(k, reply) => reply == Missing ==> k !in s.stored
    case Rename(k, newk, _, reply, after) =>
      && ROOT <= k && ROOT <= newk
      && (reply == Success ==> if k == newk then after == s.stored else Moved(s.stored, after, k, newk))
    case _ => true
  }

  /** The answer of statNodeNoLock. */
  datatype Answer = Found | NotFound | StatFailed

  ghost function StatAnswer(c: Config, s: State, k: Path, fails: bool): Answer {
    if Hit(s.neg, k, c.timeout, s.now) then NotFound
    else if fails then StatFailed
    else if k in s.stored then Found
    else NotFound
  }

  /** Asking negpres drops an expired entry; then the storage's answer is remembered or forgotten. */
  ghost function NegAfterStat(c: Config, s: State, k: Path, fails: bool): Entries {
    var neg := Asked(s.neg, k, c.timeout, s.now);
    if Hit(s.neg, k, c.timeout, s.now) || fails then neg
    else if k in s.stored then Drop(neg, k)
    else Added(neg, k, c.max, s.now)
  }

  ghost function After(c: Config, s: State, step: Step): State {
    match step
    case Stat(k, fails) => s.(neg := NegAfterStat(c, s, k, fails))
    case Make(k, valid, statFails, makeFails) =>
      // the lookup before making has its effect; a failure of the lookup is ignored
      var neg := NegAfterStat(c, s, k, statFails);
      if valid || StatAnswer(c, s, k, statFails) == Found || makeFails then s.(neg := neg)
      else s.(stored := s.stored + {k}, neg := Drop(neg, k))
    case Remove(k, reply) =>
      if reply == Refused then s
      else s.(stored := s.stored - {k}, neg := Added(s.neg, k, c.max, s.now))
    case Rename(k, newk, deleted, reply, after) =>
      if RenameOutcome(k, newk, deleted, reply) != Done then s
      else if k == newk then s.(stored := after)
      else s.(stored := after, neg := Added([], k, c.max, s.now))
    case List(k, fails) => if fails then s else s.(neg := Drop(s.neg, k))
    case Pass(d) => s.(now := s.now + d)
  }

  /** No remembered absence is wrong. */
  ghost predicate Coherent(s: State) {
    forall e :: e in s.neg ==> e.key !in s.stored
  }

  // ---------- the entries of each operation ----------

  lemma AddedEntry(es: Entries, key: Path, max: int, now: Time, e: Entry<Path>)
    requires e in Added(es, key, max, now)
    ensures e.key == key || e in es
  {
    if e != Entry(key, now) {
      DropEntry(if !Has(es, key) && max <= |es| && es != [] then es[1..] else es, key, e);
    }
  }

  lemma AskedEntry(es: Entries, key: Path, timeout: nat, now: Time, e: Entry<Path>)
    requires e in Asked(es, key, timeout, now)
    ensures e in es
  {
    if Expired(es, key, timeout, now) { DropEntry(es, key, e); }
  }

  lemma StatEntry(c: Config, s: State, k: Path, fails: bool, e: Entry<Path>)
    requires e in NegAfterStat(c, s, k, fails)
    ensures e in s.neg || (e.key == k && k !in s.stored)
    ensures !Hit(s.neg, k, c.timeout, s.now) && !fails && k in s.stored ==> e.key != k
  {
    var neg := Asked(s.neg, k, c.timeout, s.now);
    if Hit(s.neg, k, c.timeout, s.now) || fails {
      AskedEntry(s.neg, k, c.timeout, s.now, e);
    } else if k in s.stored {
      DropEntry(neg, k, e);
      AskedEntry(s.neg, k, c.timeout, s.now, e);
    } else {
      AddedEntry(neg, k, c.max, s.now, e);
      if e in neg { AskedEntry(s.neg, k, c.timeout, s.now, e); }
    }
  }

  lemma HitEntry(s: State, k: Path, timeout: nat) returns (e: Entry<Path>)
    requires Hit(s.neg, k, timeout, s.now)
    ensures e in s.neg && e.key == k
  {
    var n :| 0 <= n < |s.neg| && s.neg[n].key == k;
    e := s.neg[n];
  }

  // ---------- coherence ----------

  lemma MakeCoherent(c: Config, s: State, k: Path, valid: bool, statFails: bool, makeFails: bool)
    requires Coherent(s)
    ensures Coherent(After(c, s, Make(k, valid, statFails, makeFails)))
  {
    var t := After(c, s, Make(k, valid, statFails, makeFails));
    var neg := NegAfterStat(c, s, k, statFails);
    var made := !(valid || StatAnswer(c, s, k, statFails) == Found || makeFails);
    forall e | e in t.neg ensures e.key !in t.stored {
      if made { DropEntry(neg, k, e); }
      StatEntry(c, s, k, statFails, e);
    }
  }

  lemma OldKeyIsGone(stored: set<Path>, after: set<Path>, k: Path, newk: Path)
    requires ROOT <= k && ROOT <= newk && !HasPrefix(k, newk) && !HasPrefix(newk, k) && Moved(stored, after, k, newk)
    ensures k !in after
  {
    forall x | x in stored && HasPrefix(x, k) ensures Image(k, newk, x) != k {
      ImageIsBelow(k, newk, x);
    }
    assert HasPrefix(k, k);
  }

  /** After a rename only the old key is remembered as absent, and it is. */
  lemma RenameCoherent(c: Config, s: State, k: Path, newk: Path, deleted: bool, reply: StorageReply, after: set<Path>)
    requires Coherent(s) && Allowed(s, Rename(k, newk, deleted, reply, after))
    ensures Coherent(After(c, s, Rename(k, newk, deleted, reply, after)))
  {
    var t := After(c, s, Rename(k, newk, deleted, reply, after));
    if RenameOutcome(k, newk, deleted, reply) == Done && k != newk {
      forall e | e in t.neg ensures e.key !in t.stored {
        AddedEntry([], k, c.max, s.now, e);
        OldKeyIsGone(s.stored, after, k, newk);
      }
    }
  }

  lemma StepCoherent(c: Config, s: State, step: Step)
    requires Coherent(s) && Allowed(s, step)
    ensures Coherent(After(c, s, step))
  {
    var t := After(c, s, step);
    match step
    case Stat(k, fails) =>
      forall e | e in t.neg ensures e.key !in t.stored { StatEntry(c, s, k, fails, e); }
    case Make(k, valid, statFails, makeFails) => MakeCoherent(c, s, k, valid, statFails, makeFails);
    case Remove(k, reply) =>
      if reply != Refused {
        forall e | e in t.neg ensures e.key !in t.stored { AddedEntry(s.neg, k, c.max, s.now, e); }
      }
    case Rename(k, newk, deleted, reply, after) => RenameCoherent(c, s, k, newk, deleted, reply, after);
    case List(k, fails) =>
      if !fails {
        forall e | e in t.neg ensures e.key !in t.stored { DropEntry(s.neg, k, e); }
      }
    case Pass(d) =>
  }

  ghost predicate IsRun(c: Config, ss: seq<State>, steps: seq<Step>) {
    && |ss| == |steps| + 1
    && forall n :: 0 <= n < |steps| ==> Allowed(ss[n], steps[n]) && ss[n + 1] == After(c, ss[n], steps[n])
  }

  lemma {:induction false} RunCoherent(c: Config, ss: seq<State>, steps: seq<Step>, n: nat)
    requires IsRun(c, ss, steps) && Coherent(ss[0]) && n <= |steps|
    ensures Coherent(ss[n])
  {
    if n > 0 {
      RunCoherent(c, ss, steps, n - 1);
      StepCoherent(c, ss[n - 1], steps[n - 1]);
    }
  }

  /** In every run, every lookup that the storage does not fail is answered as the storage would
      answer it: the cache of absences cannot be noticed. */
  lemma LookupsAreRight(c: Config, ss: seq<State>, steps: seq<Step>, n: nat, k: Path, fails: bool)
    requires IsRun(c, ss, steps) && ss[0].neg == [] && n <= |steps|
    ensures StatAnswer(c, ss[n], k, fails) == NotFound ==> k !in ss[n].stored
    ensures StatAnswer(c, ss[n], k, fails) == Found ==> k in ss[n].stored
    ensures !fails ==> (StatAnswer(c, ss[n], k, fails) == Found <==> k in ss[n].stored)
  {
    RunCoherent(c, ss, steps, n);
    if Hit(ss[n].neg, k, c.timeout, ss[n].now) {
      var e := HitEntry(ss[n], k, c.timeout);
    }
  }

  // ---------- what the operations do ----------

  /** The storage has what the operations put there: a make that is not refused adds its key, a remove
      that the storage does not refuse takes its key away, a rename that is done leaves what the
      storage says, and nothing else changes the storage. */
  lemma StorageEffect(c: Config, s: State, step: Step)
    requires Allowed(s, step)
    ensures
      var t := After(c, s, step).stored;
      && (step.Make? ==>
            t == if step.valid || step.makeFails || StatAnswer(c, s, step.k, step.statFails) == Found then s.stored
                 else s.stored + {step.k})
      && (step.Remove? && step.reply == Success ==> t == s.stored - {step.k})
      && (step.Remove? && step.reply != Success ==> t == s.stored)
      && (step.Rename? && !Related(step.k, step.newk) && !step.deleted && step.reply == Success ==> t == step.after)
      && (step.Rename? && (Related(step.k, step.newk) || step.deleted || step.reply != Success) ==> t == s.stored)
      && (step.Stat? || step.List? || step.Pass? ==> t == s.stored)
  {
  }

  /** The step has just shown that k is absent. */
  ghost predicate ShowsAbsence(c: Config, s: State, step: Step, k: Path) {
    || (step == Stat(k, false) && k !in s.stored && !Hit(s.neg, k, c.timeout, s.now))
    || (step.Remove? && step.k == k && step.reply != Refused)
    || (step.Rename? && step.k == k && k != step.newk && !Related(k, step.newk) && !step.deleted &&
        step.reply == Success)
  }

  /** Such an absence is remembered for the timeout: lookups are answered without the storage. */
  lemma AbsenceIsRemembered(c: Config, s: State, step: Step, k: Path, now: Time)
    requires ShowsAbsence(c, s, step, k) && now <= s.now + c.timeout
    ensures StatAnswer(c, After(c, s, step).(now := now), k, true) == NotFound
  {
    var es := if step.Stat? then Asked(s.neg, k, c.timeout, s.now) else if step.Remove? then s.neg else [];
    assert After(c, s, step).neg == Added(es, k, c.max, s.now);
    JustAddedHits(es, k, c.max, s.now, c.timeout, now);
  }

  lemma JustAddedHits(es: Entries, k: Path, max: int, t: Time, timeout: nat, now: Time)
    requires now <= t + timeout
    ensures Hit(Added(es, k, max, t), k, timeout, now)
  {
    var kept := if !Has(es, k) && max <= |es| && es != [] then es[1..] else es;
    var r := Drop(kept, k);
    HasDrop(kept, k, k);
    var a := Added(es, k, max, t);
    assert a == r + [Entry(k, t)] && a[|r|].key == k;
    forall n | 0 <= n < |r| ensures a[n].key != k { assert a[n] == r[n]; }
  }

  /** The step has just shown that k is there. */
  ghost predicate ShowsPresence(c: Config, s: State, step: Step, k: Path) {
    || (step == List(k, false))
    || (step.Stat? && step.k == k && StatAnswer(c, s, k, step.fails) == Found)
    || (step.Make? && step.k == k && !step.valid && !step.makeFails && StatAnswer(c, s, k, step.statFails) != Found)
  }

  /** Such a path is no longer remembered as absent. */
  lemma PresenceIsSeen(c: Config, s: State, step: Step, k: Path)
    requires ShowsPresence(c, s, step, k)
    ensures !Has(After(c, s, step).neg, k)
    ensures step.Make? ==> StatAnswer(c, After(c, s, step), k, false) == Found
  {
    var es := if step.List? then s.neg
              else if step.Make? then NegAfterStat(c, s, k, step.statFails)
              else Asked(s.neg, k, c.timeout, s.now);
    assert After(c, s, step).neg == Drop(es, k);
    HasDrop(es, k, k);
  }

  // ---------- why rename clears everything ----------

  /** Forgetting only the absence of the new path is right exactly if no other remembered absence
      is brought into being by the move. */
  lemma ClearingOneExact(s: State, after: set<Path>, k: Path, newk: Path)
    requires Coherent(s) && ROOT <= k && ROOT <= newk && !HasPrefix(k, newk) && !HasPrefix(newk, k)
    requires Moved(s.stored, after, k, newk)
    ensures Coherent(State(after, Drop(s.neg, newk), s.now)) <==>
              forall e :: e in s.neg && e.key != newk && HasPrefix(e.key, newk) ==> e.key !in after
  {
    var neg := Drop(s.neg, newk);
    forall e ensures e in neg <==> e in s.neg && e.key != newk { DropEntry(s.neg, newk, e); }
    forall e | e in neg && !HasPrefix(e.key, newk) ensures e.key !in after {
      if e.key in after {
        assert e.key !in s.stored;
        var x :| x in s.stored && HasPrefix(x, k) && e.key == Image(k, newk, x);
        ImageIsBelow(k, newk, x);
      }
    }
  }

  /** Renaming "/d", which has "/d/x", to "/e" while "/e/x" is remembered as absent. */
  lemma ClearingOneFails()
    ensures
      var d, e, x := [SLASH, 100], [SLASH, 101], [SLASH, 120];
      var s := State({d, d + x}, [Entry(e + x, 0)], 0);
      && Coherent(s) && Moved(s.stored, {e, e + x}, d, e)
      && !Coherent(State({e, e + x}, Drop(s.neg, e), 0))
  {
    var d, e, x := [SLASH, 100], [SLASH, 101], [SLASH, 120];
    var s := State({d, d + x}, [Entry(e + x, 0)], 0);
    assert HasPrefix(d, d) && HasPrefix(d + x, d);
    assert Image(d, e, d) == e && Image(d, e, d + x) == e + x;
    assert (e + x) != e && e + x != d && e + x != d + x by {
      assert (e + x)[1] == 101 && |e + x| == 4 && |e| == 2 && (d + x)[1] == 100;
    }
    DropEntry(s.neg, e, Entry(e + x, 0));
    assert s.neg[0] in s.neg;
  }
}
