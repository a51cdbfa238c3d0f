/** The worker's own code, run without interruption: each method is followed step by step by the
    write-back protocol, and a forced reset drains the cache into the storage.
 */
module Daemon {
  import opened Options
  import opened Paths
  import opened WriteBack
  import opened WriteBackSafety
  import T = WriteBackTheorems
  import opened LruQueues
  import opened TimedList

  /** What the surroundings answer during one upload or eviction, and the time that passes first. */
  datatype Faults = Faults(lookupFails: bool, sends: bool, sig: Sig, commits: bool, deletes: bool, wait: nat)

  predicate Faultless(f: Faults) {
    !f.lookupFails && f.sends && f.commits && f.deletes
  }

  /** The storage never gives an object an empty signature. */
  ghost predicate Signing(faults: nat -> Faults) {
    forall n :: faults(n).sig != ""
  }

  ghost predicate Reliable(faults: nat -> Faults) {
    forall n :: Faultless(faults(n))
  }

  datatype Outcome = Fine | NoItem | Error

  // ---------- queues as maps ----------

  ghost function Times(es: seq<Entry<nat>>): map<nat, int> {
    if es == [] then map[] else Times(es[..|es| - 1])[es[|es| - 1].key := es[|es| - 1].atime]
  }

  lemma {:induction false} TimesShow(es: seq<Entry<nat>>)
    requires NoRepeats(es)
    ensures Shows(es, Times(es))
  {
    if es != [] {
      var n := |es| - 1;
      var front := es[..n];
      TimesShow(front);
      forall i ensures Has(es, i) <==> Has(front, i) || i == es[n].key {
        if Has(es, i) {
          var m :| 0 <= m < |es| && es[m].key == i;
          assert m < n ==> front[m].key == i;
        }
        if Has(front, i) {
          var m :| 0 <= m < |front| && front[m].key == i;
          assert es[m].key == i;
        }
      }
      forall m | 0 <= m < |es| ensures es[m].key in Times(es) && Times(es)[es[m].key] == es[m].atime {
        if m < n { assert front[m] == es[m] && Has(front, es[m].key); }
      }
    }
  }

  /** The map of a queue is the only one that shows it. */
  lemma TimesUnique(es: seq<Entry<nat>>, times: map<nat, int>)
    requires NoRepeats(es) && Shows(es, times)
    ensures times == Times(es)
  {
    TimesShow(es);
    forall i | i in times ensures i in Times(es) && Times(es)[i] == times[i] {
      assert Has(es, i);
      var n :| 0 <= n < |es| && es[n].key == i;
    }
    assert forall i :: i in Times(es) ==> i in times;
  }

  // ---------- following the protocol ----------

  /** One step of the worker keeps the invariant and what readers see. */
  lemma UploadStepQuiet(s: State, up: UploadStep)
    requires Inv(s) && UploadEnabled(s, up) && !up.UpCommit?
    ensures Inv(ApplyUpload(s, up)) && T.View(ApplyUpload(s, up)) == T.View(s)
  {
    KeepUpload(s, up);
    T.UploadIsQuiet(s, up);
  }

  lemma EvictStepQuiet(s: State, ev: EvictStep)
    requires Inv(s) && EvictEnabled(s, ev)
    ensures Inv(ApplyEvict(s, ev)) && T.View(ApplyEvict(s, ev)) == T.View(s)
  {
    KeepEvict(s, ev);
    T.EvictIsQuiet(s, ev);
  }

  /** The record and the objects of an upload. */
  datatype Sent = Sent(storage: map<Path, Obj>, cat: map<nat, Rec>, open: map<nat, Handle>, outcome: Outcome)

  /** What uploadOne does between picking the ino and touching it. */
  function Send(storage: map<Path, Obj>, cat: map<nat, Rec>, local: map<nat, Bytes>, open: map<nat, Handle>,
                i: nat, f: Faults): Sent
  {
    if f.lookupFails then Sent(storage, cat, open, Error)
    else if i !in cat || i !in local then Sent(storage, cat, open, Fine)
    else if !f.sends then Sent(storage, cat, open, Error)
    else
      var stored := storage[cat[i].path := Obj(local[i], f.sig)];
      if !f.commits then Sent(stored, cat, open, Error)
      else
        var rec := cat[i].(sig := f.sig, base := Some(local[i]));
        var open' := if i in open
                     then open[i := open[i].(rec := open[i].rec.(sig := f.sig, base := Some(local[i])), valid := true)]
                     else open;
        Sent(stored, cat[i := rec], open', Fine)
  }

  /** The storage accepts the upload with another signature and the transaction fails, while a
      client has the file open. */
  predicate Untracked(cat: map<nat, Rec>, local: map<nat, Bytes>, open: map<nat, Handle>, i: nat, f: Faults) {
    && !f.lookupFails && i in cat && i in local && f.sends && !f.commits
    && i in open && open[i].hasFile && cat[i].sig != f.sig
  }

  /** The state of the protocol after sending, before the deferred touch. */
  ghost function AfterSend(s: State, i: nat, f: Faults): State {
    var r := Send(s.storage, s.cat, s.local, s.open, i, f);
    s.(storage := r.storage, cat := r.cat, open := r.open, worker := UpUnlocked(i, r.outcome == Error))
  }

  /** Sending is a run of the protocol from the pick to the deferred touch. For every combination of
      faults readers see what they saw, and the invariant is lost exactly if the upload is untracked. */
  lemma SendFollows(s: State, i: nat, f: Faults)
    requires Inv(s) && s.worker == UpPicked(i) && i !in s.rw && f.sig != ""
    ensures T.View(AfterSend(s, i, f)) == T.View(s)
    ensures Inv(AfterSend(s, i, f)) <==> !Untracked(s.cat, s.local, s.open, i, f)
  {
    if f.lookupFails || i !in s.cat {
      SendNothing(s, i, f);
    } else {
      var s1 := SendChecked(s, i);
      if i !in s.local || !f.sends { SendFails(s, s1, i, f); } else { SendAccepted(s, s1, i, f); }
    }
  }

  /** The lookup fails, or finds no record. */
  lemma SendNothing(s: State, i: nat, f: Faults)
    requires Inv(s) && s.worker == UpPicked(i) && (f.lookupFails || i !in s.cat)
    ensures Inv(AfterSend(s, i, f)) && T.View(AfterSend(s, i, f)) == T.View(s)
  {
    UploadStepQuiet(s, UpLock(f.lookupFails));
    assert ApplyUpload(s, UpLock(f.lookupFails)) == AfterSend(s, i, f);
  }

  /** The path is locked and the ino has not come back. */
  lemma SendChecked(s: State, i: nat) returns (t: State)
    requires Inv(s) && s.worker == UpPicked(i) && i !in s.rw && i in s.cat
    ensures t == s.(worker := UpChecked(i, s.cat[i].path)) && Inv(t) && T.View(t) == T.View(s)
  {
    UploadStepQuiet(s, UpLock(false));
    var s1 := ApplyUpload(s, UpLock(false));
    UploadStepQuiet(s1, UpRecheck);
    t := ApplyUpload(s1, UpRecheck);
  }

  /** There is no local file, or the storage refuses it. */
  lemma SendFails(s: State, t: State, i: nat, f: Faults)
    requires Inv(t) && i in s.cat && t == s.(worker := UpChecked(i, s.cat[i].path)) && f.sig != ""
    requires !f.lookupFails && (i !in s.local || !f.sends)
    ensures Inv(AfterSend(s, i, f)) && T.View(AfterSend(s, i, f)) == T.View(t)
  {
    UploadStepQuiet(t, UpSend(f.sends, f.sig));
    assert ApplyUpload(t, UpSend(f.sends, f.sig)) == AfterSend(s, i, f);
  }

  /** The storage accepts the file; the transaction may fail. */
  lemma SendAccepted(s: State, t: State, i: nat, f: Faults)
    requires Inv(t) && i in s.cat && t == s.(worker := UpChecked(i, s.cat[i].path)) && f.sig != ""
    requires !f.lookupFails && i in s.local && f.sends
    ensures T.View(AfterSend(s, i, f)) == T.View(t)
    ensures Inv(AfterSend(s, i, f)) <==> !Untracked(s.cat, s.local, s.open, i, f)
  {
    UploadStepQuiet(t, UpSend(true, f.sig));
    var u := ApplyUpload(t, UpSend(true, f.sig));
    T.CommitShows(u, f.commits);
    assert DoCommit(u, f.commits) == AfterSend(s, i, f);
  }

  /** The deferred touch shows nothing, and does not bring an untracked upload back. */
  lemma TouchAfterSend(s: State, i: nat, f: Faults)
    requires Inv(s) && s.worker == UpPicked(i) && i !in s.rw && f.sig != ""
    ensures
      var t := AfterSend(s, i, f);
      var v := WriteBack.Touch(t, i, t.worker.failed).(worker := Idle);
      T.View(v) == T.View(s) && (Inv(v) <==> !Untracked(s.cat, s.local, s.open, i, f))
  {
    SendFollows(s, i, f);
    var t := AfterSend(s, i, f);
    if Untracked(s.cat, s.local, s.open, i, f) {
      UntrackedTouch(s, t, i, f);
    } else {
      UploadStepQuiet(t, UpTouch);
    }
  }

  lemma UntrackedTouch(s: State, t: State, i: nat, f: Faults)
    requires Inv(s) && Untracked(s.cat, s.local, s.open, i, f) && t == AfterSend(s, i, f) && T.View(t) == T.View(s)
    ensures
      var v := WriteBack.Touch(t, i, true).(worker := Idle);
      T.View(v) == T.View(s) && !Inv(v)
  {
    var v := WriteBack.Touch(t, i, true).(worker := Idle);
    T.SameOwners(s, t);
    T.SameView(t, v);
    assert !NodeOk(v, i);
  }

  datatype Evicted = Evicted(cat: map<nat, Rec>, local: map<nat, Bytes>, outcome: Outcome)

  /** What evictOne does after picking the ino, which no queue holds. */
  function Discard(cat: map<nat, Rec>, local: map<nat, Bytes>, open: map<nat, Handle>, i: nat, f: Faults): Evicted {
    if f.lookupFails then Evicted(cat, local, Error)
    else if i !in cat then Evicted(cat, local - {i}, Fine)
    else if i in open then Evicted(cat, local, Fine)
    else if !f.deletes then Evicted(cat, local, Error)
    else Evicted(cat - {i}, local - {i}, Fine)
  }

  lemma DiscardFollows(s: State, i: nat, f: Faults)
    requires Inv(s) && s.worker == EvPicked(i) && i !in s.rw && i !in s.ro
    ensures
      var r := Discard(s.cat, s.local, s.open, i, f);
      var t := s.(cat := r.cat, local := r.local, worker := if r.outcome == Error then EvUnlocked(i) else Idle);
      Inv(t) && T.View(t) == T.View(s) && r.outcome != NoItem
  {
    var r := Discard(s.cat, s.local, s.open, i, f);
    var t := s.(cat := r.cat, local := r.local, worker := if r.outcome == Error then EvUnlocked(i) else Idle);
    EvictStepQuiet(s, EvLock(f.lookupFails));
    var s1 := ApplyEvict(s, EvLock(f.lookupFails));
    if f.lookupFails {
      assert s1 == t;
    } else if i !in s.cat {
      EvictStepQuiet(s1, EvUnlink);
      assert ApplyEvict(s1, EvUnlink) == t;
    } else {
      EvictStepQuiet(s1, EvRecheck);
      var s2 := ApplyEvict(s1, EvRecheck);
      EvictStepQuiet(s2, EvCheckOpen);
      var s3 := ApplyEvict(s2, EvCheckOpen);
      if i in s.open {
        assert s3 == t;
      } else {
        EvictStepQuiet(s3, EvDelete(f.deletes));
        var s4 := ApplyEvict(s3, EvDelete(f.deletes));
        if f.deletes {
          EvictStepQuiet(s4, EvUnlink);
          assert ApplyEvict(s4, EvUnlink) == t;
        } else {
          assert s4 == t;
        }
      }
    }
  }

  /** Advancing the clock, picking and touching, on queues and on the protocol's maps. */
  ghost predicate SameQueues(q: Queues, s: State) {
    QueuesOk(q, s.now) && s.rw == Times(q.rw) && s.ro == Times(q.ro)
  }

  lemma SameShows(q: Queues, s: State)
    requires SameQueues(q, s)
    ensures LruQueues.Shows(q.rw, s.rw) && LruQueues.Shows(q.ro, s.ro)
  {
    TimesShow(q.rw);
    TimesShow(q.ro);
  }

  lemma TouchFollows(q: Queues, s: State, i: nat, dirty: bool)
    requires SameQueues(q, s)
    ensures SameQueues(LruQueues.Touch(q, i, dirty, s.now), WriteBack.Touch(s, i, dirty))
  {
    SameShows(q, s);
    TouchInOrder(q, i, dirty, s.now);
    TouchRefines(q, s, i, dirty);
    var q', t := LruQueues.Touch(q, i, dirty, s.now), WriteBack.Touch(s, i, dirty);
    TimesUnique(q'.rw, t.rw);
    TimesUnique(q'.ro, t.ro);
  }

  lemma TickFollows(q: Queues, s: State, d: nat)
    requires SameQueues(q, s) && Inv(s)
    ensures SameQueues(q, s.(now := s.now + d))
    ensures Inv(s.(now := s.now + d)) && T.View(s.(now := s.now + d)) == T.View(s)
  {
    T.KeepTick(s, d);
    T.SameView(s, s.(now := s.now + d));
  }

  /** Picking the head for upload is a step of the protocol. */
  lemma PickFollows(q: Queues, s: State, force: bool)
    requires SameQueues(q, s) && Inv(s) && s.worker.Idle? && Due(q.rw, force, s.cfg.uploadDelay, s.now)
    ensures
      var i, q' := q.rw[0].key, q.(rw := q.rw[1..]);
      var t := s.(rw := Times(q'.rw), worker := UpPicked(i));
      SameQueues(q', t) && Inv(t) && T.View(t) == T.View(s) && i !in t.rw
  {
    SameShows(q, s);
    PickRefines(q, s, force);
    PickInOrder(q.rw, s.now);
    var i := q.rw[0].key;
    TimesUnique(q.rw[1..], s.rw - {i});
    UploadStepQuiet(s, UpPick(i, force));
  }

  lemma PickEvictFollows(q: Queues, s: State, force: bool)
    requires SameQueues(q, s) && Inv(s) && s.worker.Idle? && Due(q.ro, force, s.cfg.evictDelay, s.now)
    ensures
      var i, q' := q.ro[0].key, q.(ro := q.ro[1..]);
      var t := s.(ro := Times(q'.ro), worker := EvPicked(i));
      SameQueues(q', t) && Inv(t) && T.View(t) == T.View(s) && i !in t.ro && i !in t.rw
  {
    SameShows(q, s);
    PickEvictRefines(q, s, force);
    PickInOrder(q.ro, s.now);
    var i := q.ro[0].key;
    TimesUnique(q.ro[1..], s.ro - {i});
    EvictStepQuiet(s, EvPick(i, force));
    assert NodeOk(s, i);
  }

  // ---------- one upload, one eviction ----------

  /** The fields of the cache. */
  datatype Image = Image(storage: map<Path, Obj>, cat: map<nat, Rec>, local: map<nat, Bytes>, open: map<nat, Handle>,
                         q: Queues, now: int)

  datatype Setup = Setup(nextIno: nat, cfg: Config)

  /** The same as a state of the protocol in which the worker is idle. */
  ghost function Protocol(m: Image, u: Setup): State {
    State(m.storage, m.cat, m.local, m.open, Times(m.q.rw), Times(m.q.ro), u.nextIno, m.now, u.cfg, Idle)
  }

  ghost function View(m: Image, u: Setup): map<Path, Bytes> {
    T.View(Protocol(m, u))
  }

  /** Queues in order, and the invariant of the protocol. */
  ghost predicate Sound(m: Image, u: Setup) {
    QueuesOk(m.q, m.now) && Inv(Protocol(m, u))
  }

  ghost predicate NoFileOpen(m: Image) {
    forall i :: i in m.open ==> !m.open[i].hasFile
  }

  ghost function Uploaded(m: Image, u: Setup, force: bool, f: Faults): (Image, Outcome) {
    var n := m.(now := m.now + f.wait);
    if !Due(m.q.rw, force, u.cfg.uploadDelay, n.now) then (n, NoItem)
    else UploadedIno(n.(q := m.q.(rw := m.q.rw[1..])), m.q.rw[0].key, f)
  }

  ghost function UploadedIno(m: Image, i: nat, f: Faults): (Image, Outcome) {
    var r := Send(m.storage, m.cat, m.local, m.open, i, f);
    var q := LruQueues.Touch(m.q, i, r.outcome == Error, m.now);
    (m.(storage := r.storage, cat := r.cat, open := r.open, q := q), r.outcome)
  }

  ghost function Discarded(m: Image, u: Setup, force: bool, f: Faults): (Image, Outcome) {
    var n := m.(now := m.now + f.wait);
    if !Due(m.q.ro, force, u.cfg.evictDelay, n.now) then (n, NoItem)
    else DiscardedIno(n.(q := m.q.(ro := m.q.ro[1..])), m.q.ro[0].key, f)
  }

  ghost function DiscardedIno(m: Image, i: nat, f: Faults): (Image, Outcome) {
    var r := Discard(m.cat, m.local, m.open, i, f);
    var q := if r.outcome == Error then LruQueues.Touch(m.q, i, false, m.now) else m.q;
    (m.(cat := r.cat, local := r.local, q := q), r.outcome)
  }

  lemma TickSound(m: Image, u: Setup, d: nat)
    requires Sound(m, u)
    ensures var n := m.(now := m.now + d); Sound(n, u) && View(n, u) == View(m, u)
  {
    var s, n := Protocol(m, u), m.(now := m.now + d);
    TickFollows(m.q, s, d);
    assert Protocol(n, u) == s.(now := n.now);
  }

  /** An upload is a run of the protocol from pick to touch. */
  lemma UploadFollows(m: Image, u: Setup, force: bool, f: Faults)
    requires Sound(m, u) && f.sig != "" && Due(m.q.rw, force, u.cfg.uploadDelay, m.now)
    ensures
      var i := m.q.rw[0].key;
      var t := UploadedIno(m.(q := m.q.(rw := m.q.rw[1..])), i, f).0;
      View(t, u) == View(m, u) && (Sound(t, u) <==> !Untracked(m.cat, m.local, m.open, i, f))
  {
    var q, s, i := m.q, Protocol(m, u), m.q.rw[0].key;
    PickFollows(q, s, force);
    var q1 := q.(rw := q.rw[1..]);
    var s1 := s.(rw := Times(q1.rw), worker := UpPicked(i));
    var s2 := AfterSend(s1, i, f);
    TouchAfterSend(s1, i, f);
    TouchFollows(q1, s2, i, s2.worker.failed);
    var t := UploadedIno(m.(q := q1), i, f).0;
    assert Protocol(t, u) == WriteBack.Touch(s2, i, s2.worker.failed).(worker := Idle);
  }

  lemma EvictFollows(m: Image, u: Setup, force: bool, f: Faults)
    requires Sound(m, u) && Due(m.q.ro, force, u.cfg.evictDelay, m.now)
    ensures var t := DiscardedIno(m.(q := m.q.(ro := m.q.ro[1..])), m.q.ro[0].key, f).0;
            Sound(t, u) && View(t, u) == View(m, u)
  {
    var q, s, i := m.q, Protocol(m, u), m.q.ro[0].key;
    PickEvictFollows(q, s, force);
    var q1 := q.(ro := q.ro[1..]);
    var s1 := s.(ro := Times(q1.ro), worker := EvPicked(i));
    DiscardFollows(s1, i, f);
    var r := Discard(s.cat, s.local, s.open, i, f);
    var t := DiscardedIno(m.(q := q1), i, f).0;
    if r.outcome == Error {
      var s2 := s1.(worker := EvUnlocked(i));
      EvictStepQuiet(s2, EvTouch);
      TouchFollows(q1, s2, i, false);
      assert Protocol(t, u) == ApplyEvict(s2, EvTouch);
    } else {
      assert Protocol(t, u) == s1.(cat := r.cat, local := r.local, worker := Idle);
    }
  }

  lemma SendKeepsOpen(storage: map<Path, Obj>, cat: map<nat, Rec>, local: map<nat, Bytes>, open: map<nat, Handle>,
                      i: nat, f: Faults)
    ensures var r := Send(storage, cat, local, open, i, f);
            && r.open.Keys == open.Keys && (forall j :: j in open ==> r.open[j].hasFile == open[j].hasFile)
            && (r.outcome == Error ==> !Faultless(f))
  {
  }

  /** What holds after the clock has moved, and after an upload of a due head, holds after uploadOne. */
  lemma UploadedHas(m: Image, u: Setup, force: bool, f: Faults, good: Image -> bool)
    requires
      var n := m.(now := m.now + f.wait);
      if Due(n.q.rw, force, u.cfg.uploadDelay, n.now)
      then good(UploadedIno(n.(q := n.q.(rw := n.q.rw[1..])), n.q.rw[0].key, f).0)
      else good(n)
    ensures good(Uploaded(m, u, force, f).0)
  {
  }

  /** uploadOne picks an ino whose upload becomes untracked. */
  ghost predicate LosesTrack(m: Image, u: Setup, force: bool, f: Faults) {
    Due(m.q.rw, force, u.cfg.uploadDelay, m.now + f.wait) &&
    Untracked(m.cat, m.local, m.open, m.q.rw[0].key, f)
  }

  /** uploadOne keeps what readers see, whatever fails and whatever is open; it keeps the cache sound
      exactly if it does not lose track of an upload, and then it has failed. */
  lemma UploadedSound(m: Image, u: Setup, force: bool, f: Faults)
    requires Sound(m, u) && f.sig != ""
    ensures var r := Uploaded(m, u, force, f);
            && View(r.0, u) == View(m, u) && (Sound(r.0, u) <==> !LosesTrack(m, u, force, f))
            && (LosesTrack(m, u, force, f) ==> r.1 == Error)
  {
    var n, lost := m.(now := m.now + f.wait), LosesTrack(m, u, force, f);
    TickSound(m, u, f.wait);
    if Due(n.q.rw, force, u.cfg.uploadDelay, n.now) {
      UploadFollows(n, u, force, f);
    }
    UploadedHas(m, u, force, f, t => View(t, u) == View(m, u) && (Sound(t, u) <==> !lost));
  }

  /** It opens and closes nothing. */
  lemma UploadedOpen(m: Image, u: Setup, force: bool, f: Faults)
    ensures var t := Uploaded(m, u, force, f).0; SameOpen(m, t)
  {
    if m.q.rw != [] {
      SendKeepsOpen(m.storage, m.cat, m.local, m.open, m.q.rw[0].key, f);
    }
  }

  ghost predicate SameOpen(m: Image, t: Image) {
    t.open.Keys == m.open.Keys && forall i :: i in m.open ==> t.open[i].hasFile == m.open[i].hasFile
  }

  /** The queues stay in order whatever happens. */
  lemma UploadedInOrder(m: Image, u: Setup, force: bool, f: Faults)
    requires QueuesOk(m.q, m.now)
    ensures var t := Uploaded(m, u, force, f).0; QueuesOk(t.q, t.now)
  {
    var n := m.(now := m.now + f.wait);
    assert QueuesOk(n.q, n.now);
    if n.q.rw != [] {
      HeadInOrder(n.q, n.now, true);
      HeadInOrder(n.q, n.now, false);
    }
    UploadedHas(m, u, force, f, (t: Image) => QueuesOk(t.q, t.now));
  }

  /** Taking the head of rw and touching it keeps the queues in order. */
  lemma HeadInOrder(q: Queues, now: int, dirty: bool)
    requires QueuesOk(q, now) && q.rw != []
    ensures QueuesOk(LruQueues.Touch(q.(rw := q.rw[1..]), q.rw[0].key, dirty, now), now)
  {
    var q1 := q.(rw := q.rw[1..]);
    assert QueuesOk(q1, now) by { PickInOrder(q.rw, now); }
    TouchInOrder(q1, q.rw[0].key, dirty, now);
  }

  lemma EvictHeadInOrder(q: Queues, now: int)
    requires QueuesOk(q, now) && q.ro != []
    ensures var q1 := q.(ro := q.ro[1..]);
            QueuesOk(q1, now) && QueuesOk(LruQueues.Touch(q1, q.ro[0].key, false, now), now)
  {
    var q1 := q.(ro := q.ro[1..]);
    assert QueuesOk(q1, now) by { PickInOrder(q.ro, now); }
    TouchInOrder(q1, q.ro[0].key, false, now);
  }

  lemma DiscardedInOrder(m: Image, u: Setup, force: bool, f: Faults)
    requires QueuesOk(m.q, m.now)
    ensures var t := Discarded(m, u, force, f).0; QueuesOk(t.q, t.now)
  {
    var n := m.(now := m.now + f.wait);
    assert QueuesOk(n.q, n.now);
    if n.q.ro != [] { EvictHeadInOrder(n.q, n.now); }
    DiscardedHas(m, u, force, f, (t: Image) => QueuesOk(t.q, t.now));
  }

  lemma UploadedQueues(m: Image, u: Setup, force: bool, f: Faults)
    requires QueuesOk(m.q, m.now)
    ensures var r := Uploaded(m, u, force, f);
            && (r.1 == Fine ==> m.q.rw != [] && r.0.q.rw == m.q.rw[1..])
            && (r.1 == NoItem <==> !Due(m.q.rw, force, u.cfg.uploadDelay, m.now + f.wait))
            && (r.1 == NoItem ==> r.0.q == m.q) && r.0.now == m.now + f.wait
            && (r.1 == Error ==> m.q.rw != [] && r.0.q.rw == m.q.rw[1..] + [Entry(m.q.rw[0].key, r.0.now)])
            && (Faultless(f) ==> r.1 != Error)
  {
    if m.q.rw != [] {
      var i := m.q.rw[0].key;
      NoRepeatsTail(m.q.rw);
      DropAbsent(m.q.rw[1..], i);
      SendKeepsOpen(m.storage, m.cat, m.local, m.open, i, f);
    }
  }

  lemma DiscardedHas(m: Image, u: Setup, force: bool, f: Faults, good: Image -> bool)
    requires
      var n := m.(now := m.now + f.wait);
      if Due(n.q.ro, force, u.cfg.evictDelay, n.now)
      then good(DiscardedIno(n.(q := n.q.(ro := n.q.ro[1..])), n.q.ro[0].key, f).0)
      else good(n)
    ensures good(Discarded(m, u, force, f).0)
  {
  }

  /** evictOne keeps the cache sound and what readers see. */
  lemma DiscardedSound(m: Image, u: Setup, force: bool, f: Faults)
    requires Sound(m, u)
    ensures var t := Discarded(m, u, force, f).0; Sound(t, u) && View(t, u) == View(m, u)
  {
    var n := m.(now := m.now + f.wait);
    TickSound(m, u, f.wait);
    if Due(n.q.ro, force, u.cfg.evictDelay, n.now) {
      EvictFollows(n, u, force, f);
    }
    DiscardedHas(m, u, force, f, t => Sound(t, u) && View(t, u) == View(m, u));
  }

  lemma DiscardedQueues(m: Image, u: Setup, force: bool, f: Faults)
    requires QueuesOk(m.q, m.now)
    ensures var r := Discarded(m, u, force, f);
            && r.0.q.rw == m.q.rw && r.0.open == m.open && r.0.storage == m.storage
            && (r.1 == Fine ==> m.q.ro != [] && r.0.q.ro == m.q.ro[1..])
            && (r.1 == NoItem <==> !Due(m.q.ro, force, u.cfg.evictDelay, m.now + f.wait))
            && (r.1 == NoItem ==> r.0.q == m.q) && r.0.now == m.now + f.wait
            && (r.1 == Error ==> m.q.ro != [] && r.0.q.ro == m.q.ro[1..] + [Entry(m.q.ro[0].key, r.0.now)])
            && (Faultless(f) ==> r.1 != Error)
  {
    if m.q.ro != [] {
      var i := m.q.ro[0].key;
      NoRepeatsTail(m.q.ro);
      DropAbsent(m.q.ro[1..], i);
      assert Has(m.q.ro, i);
    }
  }

  /** Empty queues mean that only open inos are catalogued. */
  lemma EmptyQueuesOnlyOpen(m: Image, u: Setup)
    requires Sound(m, u) && m.q == Queues([], [])
    ensures m.cat.Keys <= m.open.Keys
  {
    forall i | i in m.cat ensures i in m.open { assert NodeOk(Protocol(m, u), i); }
  }

  /** With nothing open, empty queues mean an empty cache, and readers see the storage itself. */
  lemma EmptyQueuesEmptyCache(m: Image, u: Setup)
    requires Sound(m, u) && m.q == Queues([], []) && m.open == map[]
    ensures m.cat == map[] && m.local == map[]
    ensures View(m, u) == map p | p in m.storage :: m.storage[p].content
  {
    var s := Protocol(m, u);
    forall i ensures i !in m.cat && i !in m.local { assert NodeOk(s, i); }
    assert m.cat == map[] && m.local == map[];
    T.ViewIs(s, map p | p in m.storage :: m.storage[p].content);
  }

  /** m' is m at a later time, with the head of rw taken off if it is due. */
  ghost predicate UploadPicked(m: Image, m': Image, u: Setup, force: bool, wait: nat, found: bool, i: nat) {
    var n := m.(now := m.now + wait);
    && found == Due(n.q.rw, force, u.cfg.uploadDelay, n.now)
    && (found ==> i == n.q.rw[0].key && m' == n.(q := n.q.(rw := n.q.rw[1..])))
    && (!found ==> m' == n)
  }

  lemma UploadedByPick(m: Image, m': Image, u: Setup, force: bool, f: Faults, found: bool, i: nat)
    requires UploadPicked(m, m', u, force, f.wait, found, i)
    ensures Uploaded(m, u, force, f) == if found then UploadedIno(m', i, f) else (m', NoItem)
  {
  }

  /** m' is m at a later time, with the head of ro taken off if it is due. */
  ghost predicate EvictPicked(m: Image, m': Image, u: Setup, force: bool, wait: nat, found: bool, i: nat) {
    var n := m.(now := m.now + wait);
    && found == Due(n.q.ro, force, u.cfg.evictDelay, n.now)
    && (found ==> i == n.q.ro[0].key && m' == n.(q := n.q.(ro := n.q.ro[1..])))
    && (!found ==> m' == n)
  }

  lemma DiscardedByPick(m: Image, m': Image, u: Setup, force: bool, f: Faults, found: bool, i: nat)
    requires EvictPicked(m, m', u, force, f.wait, found, i)
    ensures Discarded(m, u, force, f) == if found then DiscardedIno(m', i, f) else (m', NoItem)
  {
  }

  /** Readers see what they saw of m0, and the same files are open. */
  ghost predicate Seen(m0: Image, m: Image, u: Setup) {
    View(m, u) == View(m0, u) && SameOpen(m0, m)
  }

  ghost predicate Kept(m0: Image, m: Image, u: Setup) {
    Sound(m, u) && Seen(m0, m, u)
  }

  /** No upload can be untracked: no file is open, or no transaction fails. */
  ghost predicate Safe(m0: Image, faults: nat -> Faults) {
    NoFileOpen(m0) || forall n :: faults(n).commits
  }

  /** What the loops keep while they go on: order, and if the cache was sound, soundness and view. */
  ghost predicate GoesOn(m0: Image, m: Image, u: Setup, faults: nat -> Faults) {
    QueuesOk(m.q, m.now) && (Sound(m0, u) && Signing(faults) ==> Kept(m0, m, u))
  }

  /** One upload keeps good unless it fails; it shortens rw, or stops uploadAll. */
  ghost predicate UploadKeeps(good: Image -> bool, m: Image, u: Setup, force: bool, f: Faults) {
    var r := Uploaded(m, u, force, f);
    && (r.1 != Error ==> good(r.0)) && |r.0.q.rw| <= |m.q.rw| && m.now <= r.0.now
    && (r.1 == Fine ==> |r.0.q.rw| < |m.q.rw|)
    && (r.1 == NoItem ==> !Due(r.0.q.rw, force, u.cfg.uploadDelay, r.0.now))
    && (Faultless(f) ==> r.1 != Error)
  }

  ghost predicate UploadsKeep(good: Image -> bool, u: Setup, force: bool, faults: nat -> Faults) {
    forall m: Image, n: nat {:trigger UploadKeeps(good, m, u, force, faults(n))} ::
      good(m) ==> UploadKeeps(good, m, u, force, faults(n))
  }

  /** One eviction keeps good and rw; it shortens ro, or stops evictAll. */
  ghost predicate EvictKeeps(good: Image -> bool, m: Image, u: Setup, force: bool, f: Faults) {
    var r := Discarded(m, u, force, f);
    && good(r.0) && r.0.q.rw == m.q.rw && |r.0.q.ro| <= |m.q.ro| && m.now <= r.0.now
    && (r.1 == Fine ==> |r.0.q.ro| < |m.q.ro|)
    && (r.1 == NoItem ==> !Due(r.0.q.ro, force, u.cfg.evictDelay, r.0.now))
    && (Faultless(f) ==> r.1 != Error)
  }

  ghost predicate EvictsKeep(good: Image -> bool, u: Setup, force: bool, faults: nat -> Faults) {
    forall m: Image, n: nat {:trigger EvictKeeps(good, m, u, force, faults(n))} ::
      good(m) ==> EvictKeeps(good, m, u, force, faults(n))
  }

  lemma SameOpenTrans(m0: Image, m: Image, t: Image)
    requires SameOpen(m0, m) && SameOpen(m, t)
    ensures SameOpen(m0, t) && (NoFileOpen(m0) ==> NoFileOpen(m))
  {
  }

  lemma UploadGoesOn(m0: Image, m: Image, u: Setup, force: bool, faults: nat -> Faults, n: nat)
    requires GoesOn(m0, m, u, faults)
    ensures var r := Uploaded(m, u, force, faults(n)); r.1 != Error ==> GoesOn(m0, r.0, u, faults)
  {
    var f := faults(n);
    UploadedInOrder(m, u, force, f);
    if Sound(m0, u) && Signing(faults) {
      UploadedSound(m, u, force, f);
      UploadedOpen(m, u, force, f);
      SameOpenTrans(m0, m, Uploaded(m, u, force, f).0);
    }
  }

  /** A failed upload, after rounds that went on, shows what readers saw, and leaves the cache sound
      exactly if it did not lose track. */
  lemma UploadStops(m0: Image, m: Image, u: Setup, force: bool, faults: nat -> Faults, n: nat)
    requires GoesOn(m0, m, u, faults)
    ensures var t := Uploaded(m, u, force, faults(n)).0;
            && QueuesOk(t.q, t.now)
            && (Sound(m0, u) && Signing(faults) ==>
                  && Seen(m0, t, u) && (Sound(t, u) <==> !LosesTrack(m, u, force, faults(n)))
                  && (Safe(m0, faults) ==> Sound(t, u)))
  {
    var f := faults(n);
    UploadedInOrder(m, u, force, f);
    if Sound(m0, u) && Signing(faults) {
      UploadedSound(m, u, force, f);
      UploadedOpen(m, u, force, f);
      SameOpenTrans(m0, m, Uploaded(m, u, force, f).0);
    }
  }

  lemma EvictGoesOn(m0: Image, m: Image, u: Setup, force: bool, faults: nat -> Faults, n: nat)
    requires GoesOn(m0, m, u, faults)
    ensures GoesOn(m0, Discarded(m, u, force, faults(n)).0, u, faults)
  {
    var f := faults(n);
    DiscardedInOrder(m, u, force, f);
    if Sound(m0, u) && Signing(faults) {
      DiscardedSound(m, u, force, f);
      DiscardedQueues(m, u, force, f);
    }
  }

  lemma UploadsGoOn(m0: Image, u: Setup, force: bool, faults: nat -> Faults, good: Image -> bool)
    requires forall m :: good(m) <==> GoesOn(m0, m, u, faults)
    ensures UploadsKeep(good, u, force, faults)
  {
    forall m: Image, n: nat | good(m) ensures UploadKeeps(good, m, u, force, faults(n)) {
      UploadGoesOn(m0, m, u, force, faults, n);
      UploadedQueues(m, u, force, faults(n));
    }
  }

  lemma EvictsGoOn(m0: Image, u: Setup, force: bool, faults: nat -> Faults, good: Image -> bool)
    requires forall m :: good(m) <==> GoesOn(m0, m, u, faults)
    ensures EvictsKeep(good, u, force, faults)
  {
    forall m: Image, n: nat | good(m) ensures EvictKeeps(good, m, u, force, faults(n)) {
      EvictGoesOn(m0, m, u, force, faults, n);
      DiscardedQueues(m, u, force, faults(n));
    }
  }

  /** Nothing is cached, and the storage holds exactly what readers saw of m0. */
  ghost predicate Drained(m0: Image, m: Image, u: Setup) {
    && m.cat == map[] && m.local == map[] && m.open == map[]
    && m.storage.Keys == View(m0, u).Keys
    && forall p :: p in m.storage && p in View(m0, u) ==> m.storage[p].content == View(m0, u)[p]
  }

  lemma EmptyIsDrained(m0: Image, m: Image, u: Setup)
    requires Kept(m0, m, u) && m0.open == map[] && m.q == Queues([], [])
    ensures Drained(m0, m, u)
  {
    assert m.open.Keys == {};
    EmptyQueuesEmptyCache(m, u);
  }

  /** A reset: the cache before and after it, if it ended in a failed upload, what that found, and the
      time at which it went over from uploading to evicting. */
  datatype Reset = Reset(before: Image, after: Image, err: Outcome, uploading: bool, last: Image, call: int, mid: int)

  /** Nothing waited past its delay for upload when uploading ended, or for eviction at the end. */
  ghost predicate NothingLeft(r: Reset, u: Setup, force: bool) {
    && r.before.now <= r.mid <= r.after.now
    && NothingDue(r.after.q.rw, force, u.cfg.uploadDelay, r.mid)
    && NothingDue(r.after.q.ro, force, u.cfg.evictDelay, r.after.now)
  }

  /** What a reset makes of a sound cache: readers see what they saw whatever fails, and the cache is sound
      afterwards exactly if the reset did not end in an upload that lost track; a forced success
      leaves only open inos catalogued and, with nothing open, an empty cache and the storage holding
      exactly what readers saw. */
  ghost predicate ResetShows(r: Reset, u: Setup, force: bool, faults: nat -> Faults) {
    Sound(r.before, u) && Signing(faults) ==>
      && Seen(r.before, r.after, u)
      && (Sound(r.after, u) <==> !(r.uploading && r.call >= 0 && LosesTrack(r.last, u, force, faults(r.call))))
      && (Safe(r.before, faults) ==> Sound(r.after, u))
      && (r.err == Fine && force ==> r.after.cat.Keys <= r.after.open.Keys)
      && (r.err == Fine && force && r.before.open == map[] ==> Drained(r.before, r.after, u))
  }

  /** The n-th call was an upload that found last, failed and left m. */
  ghost predicate Failed(last: Image, m: Image, u: Setup, force: bool, faults: nat -> Faults, n: int) {
    n >= 0 && (m, Error) == Uploaded(last, u, force, faults(n))
  }

  /** good is what the loops keep while they go on. */
  ghost predicate IsGoing(good: Image -> bool, m0: Image, u: Setup, faults: nat -> Faults) {
    forall m {:trigger GoesOn(m0, m, u, faults)} :: good(m) <==> GoesOn(m0, m, u, faults)
  }

  lemma Going(m0: Image, u: Setup, force: bool, faults: nat -> Faults) returns (good: Image -> bool)
    requires QueuesOk(m0.q, m0.now)
    ensures IsGoing(good, m0, u, faults) && good(m0)
    ensures UploadsKeep(good, u, force, faults) && EvictsKeep(good, u, force, faults)
  {
    good := m => GoesOn(m0, m, u, faults);
    UploadsGoOn(m0, u, force, faults, good);
    EvictsGoOn(m0, u, force, faults, good);
  }

  lemma ResetEnds(r: Reset, u: Setup, force: bool, faults: nat -> Faults, good: Image -> bool)
    requires IsGoing(good, r.before, u, faults)
    requires r.uploading ==> r.err == Error && good(r.last) && Failed(r.last, r.after, u, force, faults, r.call)
    requires !r.uploading ==> good(r.after)
    requires r.before.now <= r.mid <= r.after.now
    requires r.err == Fine ==> !Due(r.after.q.rw, force, u.cfg.uploadDelay, r.mid)
    requires r.err == Fine ==> !Due(r.after.q.ro, force, u.cfg.evictDelay, r.after.now)
    ensures QueuesOk(r.after.q, r.after.now) && ResetShows(r, u, force, faults)
    ensures r.err == Fine ==> NothingLeft(r, u, force)
    ensures r.err == Fine && force ==> r.after.q == Queues([], [])
  {
    var m0, m := r.before, r.after;
    assert if r.uploading then GoesOn(m0, r.last, u, faults) else GoesOn(m0, m, u, faults);
    if r.uploading {
      UploadStops(m0, r.last, u, force, faults, r.call);
    }
    if r.err == Fine {
      DueExact(m.q.rw, force, u.cfg.uploadDelay, r.mid);
      DueExact(m.q.ro, force, u.cfg.evictDelay, m.now);
    }
    if r.err == Fine && force && Sound(m0, u) && Signing(faults) {
      EmptyQueuesOnlyOpen(m, u);
      if m0.open == map[] { EmptyIsDrained(m0, m, u); }
    }
  }

  // ---------- the code ----------

  class Cache {
    var storage: map<Path, Obj>
    var cat: map<nat, Rec>
    var local: map<nat, Bytes>
    var open: map<nat, Handle>
    var now: int
    var calls: nat
    const setup: Setup
    const lru: Lru
    const faults: nat -> Faults

    /** An empty cache over a storage. */
    constructor (storage: map<Path, Obj>, setup: Setup, now: int, faults: nat -> Faults)
      ensures Valid() && Value() == Image(storage, map[], map[], map[], Queues([], []), now)
      ensures this.setup == setup && this.faults == faults && calls == 0 && fresh(lru.repr)
    {
      this.storage, this.setup, this.now, this.faults := storage, setup, now, faults;
      cat, local, open, calls := map[], map[], map[], 0;
      lru := new Lru(setup.cfg.uploadDelay, setup.cfg.evictDelay);
    }

    ghost function Value(): Image
      reads this, lru.rw, lru.ro
    {
      Image(storage, cat, local, open, lru.Value(), now)
    }

    ghost predicate Valid()
      reads this, lru, lru.repr
    {
      && lru.Valid() && lru.uploadDelay == setup.cfg.uploadDelay && lru.evictDelay == setup.cfg.evictDelay
      && this !in lru.repr
    }

    method UploadOne(force: bool) returns (err: Outcome)
      requires Valid()
      modifies this, lru.repr
      ensures Valid() && fresh(lru.repr - old(lru.repr)) && calls == old(calls) + 1
      ensures (Value(), err) == Uploaded(old(Value()), setup, force, faults(old(calls)))
    {
      var f := faults(calls);
      calls := calls + 1;
      ghost var m := Value();
      var found, i := PickUpload(force, f.wait);
      UploadedByPick(m, Value(), setup, force, f, found, i);
      if !found {
        return NoItem;
      }
      err := UploadIno(i, f);
    }

    /** uploadOne up to the pick, at a later time. */
    method PickUpload(force: bool, wait: nat) returns (found: bool, i: nat)
      requires Valid()
      modifies this, lru.repr
      ensures Valid() && lru.repr == old(lru.repr) && calls == old(calls)
      ensures UploadPicked(old(Value()), Value(), setup, force, wait, found, i)
    {
      now := now + wait;
      found, i := lru.TakeUpload(force, now);
    }

    /** uploadOne after the pick: a failed upload is tried again later, a successful one may be evicted. */
    method UploadIno(i: nat, f: Faults) returns (err: Outcome)
      requires Valid()
      modifies this, lru.repr
      ensures Valid() && fresh(lru.repr - old(lru.repr)) && calls == old(calls)
      ensures (Value(), err) == UploadedIno(old(Value()), i, f)
    {
      err := SendFile(i, f);
      lru.TouchIno(i, err == Error, now);
    }

    /** The part of uploadOne under the path lock. */
    method SendFile(i: nat, f: Faults) returns (err: Outcome)
      modifies this`storage, this`cat, this`open
      ensures Sent(storage, cat, open, err) == Send(old(storage), old(cat), local, old(open), i, f)
    {
      if f.lookupFails {
        return Error;
      }
      if i !in cat || i !in local {
        return Fine;
      }
      if !f.sends {
        return Error;
      }
      storage := storage[cat[i].path := Obj(local[i], f.sig)];
      if !f.commits {
        return Error;
      }
      cat := cat[i := cat[i].(sig := f.sig, base := Some(local[i]))];
      if i in open {
        open := open[i := open[i].(rec := open[i].rec.(sig := f.sig, base := Some(local[i])), valid := true)];
      }
      return Fine;
    }

    method EvictOne(force: bool) returns (err: Outcome)
      requires Valid()
      modifies this, lru.repr
      ensures Valid() && fresh(lru.repr - old(lru.repr)) && calls == old(calls) + 1
      ensures (Value(), err) == Discarded(old(Value()), setup, force, faults(old(calls)))
    {
      var f := faults(calls);
      calls := calls + 1;
      ghost var m := Value();
      var found, i := PickEvict(force, f.wait);
      DiscardedByPick(m, Value(), setup, force, f, found, i);
      if !found {
        return NoItem;
      }
      err := EvictIno(i, f);
    }

    /** evictOne up to the pick, at a later time. */
    method PickEvict(force: bool, wait: nat) returns (found: bool, i: nat)
      requires Valid()
      modifies this, lru.repr
      ensures Valid() && lru.repr == old(lru.repr) && calls == old(calls)
      ensures EvictPicked(old(Value()), Value(), setup, force, wait, found, i)
    {
      now := now + wait;
      found, i := lru.TakeEvict(force, now);
    }

    /** evictOne after the pick. */
    method EvictIno(i: nat, f: Faults) returns (err: Outcome)
      requires Valid()
      modifies this, lru.repr
      ensures Valid() && fresh(lru.repr - old(lru.repr)) && calls == old(calls)
      ensures (Value(), err) == DiscardedIno(old(Value()), i, f)
    {
      err := DiscardFile(i, f);
      if err == Error {
        lru.TouchIno(i, false, now);
      }
    }

    /** The part of evictOne under the path lock. */
    method DiscardFile(i: nat, f: Faults) returns (err: Outcome)
      modifies this`cat, this`local
      ensures Evicted(cat, local, err) == Discard(old(cat), old(local), open, i, f)
    {
      if f.lookupFails {
        return Error;
      }
      if i !in cat {
        local := local - {i};
        return Fine;
      }
      if i in open {
        return Fine;
      }
      if !f.deletes {
        return Error;
      }
      cat := cat - {i};
      local := local - {i};
      return Fine;
    }

    /** The last call was an upload that failed on last. */
    ghost predicate FailedOn(last: Image, force: bool)
      reads this, lru.rw, lru.ro
    {
      Failed(last, Value(), setup, force, faults, calls - 1)
    }

    method UploadRound(force: bool, ghost good: Image -> bool) returns (err: Outcome)
      requires Valid() && good(Value()) && UploadsKeep(good, setup, force, faults)
      modifies this, lru.repr
      ensures Valid() && fresh(lru.repr - old(lru.repr)) && old(now) <= now
      ensures if err == Error then FailedOn(old(Value()), force) else good(Value())
      ensures |Value().q.rw| <= |old(Value().q.rw)| && (err == Fine ==> |Value().q.rw| < |old(Value().q.rw)|)
      ensures err == NoItem ==> !Due(Value().q.rw, force, setup.cfg.uploadDelay, now)
      ensures err == Error ==> !Reliable(faults)
    {
      assert UploadKeeps(good, Value(), setup, force, faults(calls));
      err := UploadOne(force);
    }

    /** uploadAll goes on until nothing is due: it ends because every success shortens rw and the first
        failure stops it; last is then what that upload found. */
    method UploadAll(force: bool, ghost good: Image -> bool) returns (err: Outcome, ghost last: Image)
      requires Valid() && good(Value()) && UploadsKeep(good, setup, force, faults)
      modifies this, lru.repr
      ensures Valid() && fresh(lru.repr - old(lru.repr)) && old(now) <= now
      ensures if err == Error then good(last) && FailedOn(last, force) else good(Value())
      ensures err != NoItem && (err == Fine ==> !Due(Value().q.rw, force, setup.cfg.uploadDelay, now))
      ensures Reliable(faults) ==> err == Fine
    {
      err, last := Fine, Value();
      while err == Fine
        invariant Valid() && fresh(lru.repr - old(lru.repr)) && good(last) && old(now) <= now
        invariant if err == Error then FailedOn(last, force) else good(Value())
        invariant err == NoItem ==> !Due(Value().q.rw, force, setup.cfg.uploadDelay, now)
        invariant err == Error ==> !Reliable(faults)
        decreases |Value().q.rw|, err == Fine
      {
        last := Value();
        err := UploadRound(force, good);
      }
      if err == NoItem {
        err := Fine;
      }
    }

    method EvictRound(force: bool, ghost good: Image -> bool) returns (err: Outcome)
      requires Valid() && good(Value()) && EvictsKeep(good, setup, force, faults)
      modifies this, lru.repr
      ensures Valid() && fresh(lru.repr - old(lru.repr)) && good(Value()) && old(now) <= now
      ensures Value().q.rw == old(Value().q.rw)
      ensures |Value().q.ro| <= |old(Value().q.ro)| && (err == Fine ==> |Value().q.ro| < |old(Value().q.ro)|)
      ensures err == NoItem ==> !Due(Value().q.ro, force, setup.cfg.evictDelay, now)
      ensures err == Error ==> !Reliable(faults)
    {
      assert EvictKeeps(good, Value(), setup, force, faults(calls));
      err := EvictOne(force);
    }

    /** evictAll goes on until nothing is due. */
    method EvictAll(force: bool, ghost good: Image -> bool) returns (err: Outcome)
      requires Valid() && good(Value()) && EvictsKeep(good, setup, force, faults)
      modifies this, lru.repr
      ensures Valid() && fresh(lru.repr - old(lru.repr)) && good(Value()) && old(now) <= now
      ensures Value().q.rw == old(Value().q.rw)
      ensures err != NoItem && (err == Fine ==> !Due(Value().q.ro, force, setup.cfg.evictDelay, now))
      ensures Reliable(faults) ==> err == Fine
    {
      ghost var rw := Value().q.rw;
      err := Fine;
      while err == Fine
        invariant Valid() && fresh(lru.repr - old(lru.repr)) && good(Value()) && old(now) <= now
        invariant Value().q.rw == rw
        invariant err == NoItem ==> !Due(Value().q.ro, force, setup.cfg.evictDelay, now)
        invariant err == Error ==> !Reliable(faults)
        decreases |Value().q.ro|, err == Fine
      {
        err := EvictRound(force, good);
      }
      if err == NoItem {
        err := Fine;
      }
    }

    /** mid is the time at which uploading ended. */
    method UploadThenEvict(force: bool, ghost good: Image -> bool)
      returns (err: Outcome, ghost uploading: bool, ghost last: Image, ghost mid: int)
      requires Valid() && good(Value())
      requires UploadsKeep(good, setup, force, faults) && EvictsKeep(good, setup, force, faults)
      modifies this, lru.repr
      ensures Valid() && fresh(lru.repr - old(lru.repr)) && old(now) <= mid <= now
      ensures if uploading then err == Error && good(last) && FailedOn(last, force) else good(Value())
      ensures err == Fine ==> !Due(Value().q.rw, force, setup.cfg.uploadDelay, mid)
      ensures err == Fine ==> !Due(Value().q.ro, force, setup.cfg.evictDelay, now)
      ensures Reliable(faults) ==> err == Fine
    {
      err, last := UploadAll(force, good);
      uploading, mid := err == Error, now;
      if err == Fine {
        err := EvictAll(force, good);
      }
    }

    /** resetCache, with any files open and any faults: it ends; success means that nothing is due any
        more, and if it was forced that both queues are empty; ResetShows says what becomes of a
        sound cache. */
    method ResetCache(force: bool) returns (err: Outcome, ghost r: Reset)
      requires Valid() && QueuesOk(Value().q, now)
      modifies this, lru.repr
      ensures Valid() && fresh(lru.repr - old(lru.repr))
      ensures r.before == old(Value()) && r.after == Value() && r.err == err && r.call == calls - 1
      ensures r.uploading ==> err == Error && FailedOn(r.last, force)
      ensures QueuesOk(r.after.q, r.after.now) && ResetShows(r, setup, force, faults)
      ensures err == Fine ==> NothingLeft(r, setup, force)
      ensures err == Fine && force ==> Value().q == Queues([], [])
      ensures (forall n :: var f := faults(n); !f.lookupFails && f.sends && f.commits && f.deletes) ==> err == Fine
    {
      ghost var m0 := Value();
      ghost var good := Going(m0, setup, force, faults);
      ghost var uploading, last, mid;
      err, uploading, last, mid := UploadThenEvict(force, good);
      r := Reset(m0, Value(), err, uploading, last, calls - 1, mid);
      ResetEnds(r, setup, force, faults, good);
    }
  }
}
