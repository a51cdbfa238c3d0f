/** The two LRU queues: rw holds the inos that must be uploaded, ro those that may be evicted. */
module LruQueues {
  import opened Ring
  import opened TimedList
  import WB = WriteBack

  type Ino = nat

  datatype Queues = Queues(rw: seq<Entry<Ino>>, ro: seq<Entry<Ino>>)

  /** No ino is queued twice, in one queue or in both, and times ascend in each queue. */
  ghost predicate QueuesOk(q: Queues, now: Time) {
    Ok(q.rw, now) && Ok(q.ro, now) && forall i :: !(Has(q.rw, i) && Has(q.ro, i))
  }

  /** touchIno: to the tail of its queue; an ino waiting for upload does not leave for eviction. */
  ghost function Touch(q: Queues, i: Ino, dirty: bool, now: Time): Queues {
    if dirty then Queues(Touched(q.rw, i, now), Drop(q.ro, i))
    else if Has(q.rw, i) then q
    else Queues(q.rw, Touched(q.ro, i, now))
  }

  ghost predicate Due(es: seq<Entry<Ino>>, force: bool, delay: nat, now: Time) {
    es != [] && (force || es[0].atime + delay < now)
  }

  /** No entry is past its delay; if forced, there is no entry at all. */
  ghost predicate NothingDue(es: seq<Entry<Ino>>, force: bool, delay: nat, now: Time) {
    forall n :: 0 <= n < |es| ==> !force && now <= es[n].atime + delay
  }

  /** What the head decides is decided for all: it is due exactly if anything is, at any time. */
  lemma DueExact(es: seq<Entry<Ino>>, force: bool, delay: nat, now: Time)
    requires forall i, j :: 0 <= i < j < |es| ==> es[i].atime <= es[j].atime
    ensures Due(es, force, delay, now) <==> !NothingDue(es, force, delay, now)
  {
    if es != [] && !Due(es, force, delay, now) {
      forall n | 0 <= n < |es| ensures now <= es[n].atime + delay { assert n == 0 || es[0].atime <= es[n].atime; }
    }
  }

  // ---------- every step keeps the queues in order ----------

  lemma HasTouched(es: seq<Entry<Ino>>, i: Ino, now: Time, j: Ino)
    ensures Has(Touched(es, i, now), j) <==> Has(es, j) || j == i
  {
    var r := Drop(es, i);
    HasDrop(es, i, j);
    var t := Touched(es, i, now);
    assert t[|r|].key == i;
    if Has(r, j) {
      var n :| 0 <= n < |r| && r[n].key == j;
      assert t[n] == r[n];
    }
  }

  lemma TouchInOrder(q: Queues, i: Ino, dirty: bool, now: Time)
    requires QueuesOk(q, now)
    ensures QueuesOk(Touch(q, i, dirty, now), now)
    ensures forall j :: Has(Touch(q, i, dirty, now).rw, j) <==> Has(q.rw, j) || (dirty && j == i)
    ensures forall j :: Has(Touch(q, i, dirty, now).ro, j) <==>
              if j == i then !dirty && !Has(q.rw, i) else Has(q.ro, j)
  {
    TouchKeeps(q.rw, i, now);
    TouchKeeps(q.ro, i, now);
    DropKeeps(q.ro, i, now);
    forall j ensures Has(Touched(q.rw, i, now), j) <==> Has(q.rw, j) || j == i
      ensures Has(Touched(q.ro, i, now), j) <==> Has(q.ro, j) || j == i
      ensures Has(Drop(q.ro, i), j) <==> Has(q.ro, j) && j != i
    {
      HasTouched(q.rw, i, now, j);
      HasTouched(q.ro, i, now, j);
      HasDrop(q.ro, i, j);
    }
  }

  lemma PickInOrder(es: seq<Entry<Ino>>, now: Time)
    requires Ok(es, now) && es != []
    ensures Ok(es[1..], now) && Drop(es, es[0].key) == es[1..]
    ensures forall j :: Has(es[1..], j) <==> Has(es, j) && j != es[0].key
  {
    DropAt(es, 0);
    forall j ensures Has(es[1..], j) <==> Has(es, j) && j != es[0].key { HasDrop(es, es[0].key, j); }
  }

  /** The steps of all users of the queues, and the passing of time. */
  datatype Step = TouchStep(i: Ino, dirty: bool) | PickUpload(force: bool) | PickEvict(force: bool) | Wait(d: nat)

  datatype Timed = Timed(q: Queues, now: Time)

  ghost function After(t: Timed, step: Step, uploadDelay: nat, evictDelay: nat): Timed {
    match step
    case TouchStep(i, dirty) => t.(q := Touch(t.q, i, dirty, t.now))
    case PickUpload(force) =>
      if Due(t.q.rw, force, uploadDelay, t.now) then t.(q := t.q.(rw := t.q.rw[1..])) else t
    case PickEvict(force) =>
      if Due(t.q.ro, force, evictDelay, t.now) then t.(q := t.q.(ro := t.q.ro[1..])) else t
    case Wait(d) => t.(now := t.now + d)
  }

  lemma StepInOrder(t: Timed, step: Step, uploadDelay: nat, evictDelay: nat)
    requires QueuesOk(t.q, t.now)
    ensures var t' := After(t, step, uploadDelay, evictDelay); QueuesOk(t'.q, t'.now)
  {
    match step
    case TouchStep(i, dirty) => TouchInOrder(t.q, i, dirty, t.now);
    case PickUpload(force) => if t.q.rw != [] { PickInOrder(t.q.rw, t.now); }
    case PickEvict(force) => if t.q.ro != [] { PickInOrder(t.q.ro, t.now); }
    case Wait(d) =>
  }

  ghost function AfterAll(t: Timed, steps: seq<Step>, uploadDelay: nat, evictDelay: nat): Timed
    decreases |steps|
  {
    if steps == [] then t
    else AfterAll(After(t, steps[0], uploadDelay, evictDelay), steps[1..], uploadDelay, evictDelay)
  }

  /** After every sequence of steps the queues are disjoint, without repeats and in order of time. */
  lemma {:induction false} RunInOrder(t: Timed, steps: seq<Step>, uploadDelay: nat, evictDelay: nat)
    requires QueuesOk(t.q, t.now)
    ensures var t' := AfterAll(t, steps, uploadDelay, evictDelay); QueuesOk(t'.q, t'.now)
    decreases |steps|
  {
    if steps != [] {
      StepInOrder(t, steps[0], uploadDelay, evictDelay);
      RunInOrder(After(t, steps[0], uploadDelay, evictDelay), steps[1..], uploadDelay, evictDelay);
    }
  }

  // ---------- the queues and the maps of the protocol ----------

  /** The protocol's map from inos to touch times shows the same entries. */
  ghost predicate Shows(es: seq<Entry<Ino>>, times: map<WB.Ino, WB.Time>) {
    && (forall i :: i in times <==> Has(es, i))
    && (forall n :: 0 <= n < |es| && es[n].key in times ==> times[es[n].key] == es[n].atime)
  }

  lemma DropShows(es: seq<Entry<Ino>>, times: map<WB.Ino, WB.Time>, i: Ino)
    requires Shows(es, times) && NoRepeats(es)
    ensures Shows(Drop(es, i), times - {i})
  {
    forall j ensures Has(Drop(es, i), j) <==> Has(es, j) && j != i { HasDrop(es, i, j); }
    if Has(es, i) {
      var n :| 0 <= n < |es| && es[n].key == i;
      DropAt(es, n);
    } else {
      DropAbsent(es, i);
    }
  }

  lemma TouchedShows(es: seq<Entry<Ino>>, times: map<WB.Ino, WB.Time>, i: Ino, now: Time)
    requires Shows(es, times) && NoRepeats(es)
    ensures Shows(Touched(es, i, now), times[i := now])
  {
    DropShows(es, times, i);
    forall j ensures Has(Touched(es, i, now), j) <==> Has(es, j) || j == i { HasTouched(es, i, now, j); }
    var r, t := Drop(es, i), Touched(es, i, now);
    forall n | 0 <= n < |t| && t[n].key in times[i := now] ensures times[i := now][t[n].key] == t[n].atime {
      if n < |r| {
        assert t[n] == r[n] && Has(r, r[n].key);
        HasDrop(es, i, r[n].key);
      }
    }
  }

  /** touchIno on the queues is Touch of the protocol on its maps. */
  lemma TouchRefines(q: Queues, s: WB.State, i: Ino, dirty: bool)
    requires QueuesOk(q, s.now) && Shows(q.rw, s.rw) && Shows(q.ro, s.ro)
    ensures Shows(Touch(q, i, dirty, s.now).rw, WB.Touch(s, i, dirty).rw)
    ensures Shows(Touch(q, i, dirty, s.now).ro, WB.Touch(s, i, dirty).ro)
  {
    if dirty {
      TouchedShows(q.rw, s.rw, i, s.now);
      DropShows(q.ro, s.ro, i);
    } else if !Has(q.rw, i) {
      TouchedShows(q.ro, s.ro, i, s.now);
    }
  }

  /** Looking at the head is enough: an upload can be picked exactly if the head is due, and then the
      head is one that the protocol lets the worker pick. */
  lemma PickRefines(q: Queues, s: WB.State, force: bool)
    requires QueuesOk(q, s.now) && Shows(q.rw, s.rw) && s.worker.Idle?
    ensures Due(q.rw, force, s.cfg.uploadDelay, s.now) <==>
              exists i :: WB.UploadEnabled(s, WB.UpPick(i, force))
    ensures Due(q.rw, force, s.cfg.uploadDelay, s.now) ==>
              && WB.UploadEnabled(s, WB.UpPick(q.rw[0].key, force))
              && Shows(q.rw[1..], s.rw - {q.rw[0].key})
  {
    if Due(q.rw, force, s.cfg.uploadDelay, s.now) {
      var i := q.rw[0].key;
      assert Has(q.rw, i);
      assert WB.UploadEnabled(s, WB.UpPick(i, force));
      PickInOrder(q.rw, s.now);
      DropShows(q.rw, s.rw, i);
    }
    if i :| WB.UploadEnabled(s, WB.UpPick(i, force)) {
      assert Has(q.rw, i);
      var n :| 0 <= n < |q.rw| && q.rw[n].key == i;
      assert q.rw[0].atime <= q.rw[n].atime;
    }
  }

  lemma PickEvictRefines(q: Queues, s: WB.State, force: bool)
    requires QueuesOk(q, s.now) && Shows(q.ro, s.ro) && s.worker.Idle?
    ensures Due(q.ro, force, s.cfg.evictDelay, s.now) <==>
              exists i :: WB.EvictEnabled(s, WB.EvPick(i, force))
    ensures Due(q.ro, force, s.cfg.evictDelay, s.now) ==>
              && WB.EvictEnabled(s, WB.EvPick(q.ro[0].key, force))
              && Shows(q.ro[1..], s.ro - {q.ro[0].key})
  {
    if Due(q.ro, force, s.cfg.evictDelay, s.now) {
      var i := q.ro[0].key;
      assert Has(q.ro, i);
      assert WB.EvictEnabled(s, WB.EvPick(i, force));
      PickInOrder(q.ro, s.now);
      DropShows(q.ro, s.ro, i);
    }
    if i :| WB.EvictEnabled(s, WB.EvPick(i, force)) {
      assert Has(q.ro, i);
      var n :| 0 <= n < |q.ro| && q.ro[n].key == i;
      assert q.ro[0].atime <= q.ro[n].atime;
    }
  }

  // ---------- retries ----------

  /** The inos that successive forced uploads pick when each of them fails, at the given times. */
  ghost function Attempts(es: seq<Entry<Ino>>, times: seq<Time>): seq<Ino>
    requires es != []
    decreases |times|
  {
    if times == [] then []
    else [es[0].key] + Attempts(Touched(es[1..], es[0].key, times[0]), times[1..])
  }

  lemma {:induction false} AttemptsInOrder(es: seq<Entry<Ino>>, times: seq<Time>)
    requires es != [] && NoRepeats(es) && |times| <= |es|
    ensures |Attempts(es, times)| == |times|
    ensures forall n :: 0 <= n < |times| ==> Attempts(es, times)[n] == es[n].key
    decreases |times|
  {
    if times != [] {
      var i, rest := es[0].key, es[1..];
      NoRepeatsTail(es);
      DropAbsent(rest, i);
      var next := Touched(rest, i, times[0]);
      assert next == rest + [Entry(i, times[0])];
      AttemptsInOrder(next, times[1..]);
    }
  }

  /** With n inos waiting, n failing attempts try each of them once. */
  lemma EachTriedOnce(es: seq<Entry<Ino>>, times: seq<Time>)
    requires es != [] && NoRepeats(es) && |times| == |es|
    ensures |Attempts(es, times)| == |es|
    ensures forall n :: 0 <= n < |es| ==> Attempts(es, times)[n] == es[n].key
    ensures forall i :: Has(es, i) <==> i in Attempts(es, times)
  {
    AttemptsInOrder(es, times);
    forall i | Has(es, i) ensures i in Attempts(es, times) {
      var n :| 0 <= n < |es| && es[n].key == i;
      assert Attempts(es, times)[n] == i;
    }
  }

  // ---------- the lists themselves ----------

  lemma AbsentFrom(list: KeyedList<Ino>, i: Ino)
    requires list.Valid() && i !in list.index
    ensures Drop(list.entries, i) == list.entries
  {
    list.IndexHas(i);
    DropAbsent(list.entries, i);
  }

  class Lru {
    const rw: KeyedList<Ino>
    const ro: KeyedList<Ino>
    const uploadDelay: nat
    const evictDelay: nat
    ghost var repr: set<object>

    constructor (uploadDelay: nat, evictDelay: nat)
      ensures this.uploadDelay == uploadDelay && this.evictDelay == evictDelay
      ensures Valid() && Value() == Queues([], []) && fresh(repr)
    {
      this.uploadDelay, this.evictDelay := uploadDelay, evictDelay;
      rw := new KeyedList(0);
      ro := new KeyedList(0);
      new;
      repr := {this} + rw.Repr() + ro.Repr();
    }

    ghost predicate Valid()
      reads this, repr
    {
      && this in repr && rw in repr && ro in repr && rw.Repr() <= repr && ro.Repr() <= repr
      && this !in rw.Repr() && this !in ro.Repr() && rw.Repr() !! ro.Repr()
      && rw.Valid() && ro.Valid()
      && forall i :: !(i in rw.index && i in ro.index)
    }

    ghost function Value(): Queues
      reads rw, ro
    {
      Queues(rw.entries, ro.entries)
    }

    /** touchIno: an item that is already in a list is moved, with its link, not copied. */
    method TouchIno(i: Ino, dirty: bool, now: Time)
      requires Valid()
      modifies repr
      ensures Valid() && Value() == Touch(old(Value()), i, dirty, now)
      ensures old(repr) <= repr && fresh(repr - old(repr))
    {
      if dirty {
        TouchDirty(i, now);
      } else {
        TouchClean(i, now);
      }
    }

    method TouchDirty(i: Ino, now: Time)
      requires Valid()
      modifies repr
      ensures Valid() && Value() == Touch(old(Value()), i, true, now)
      ensures old(repr) <= repr && fresh(repr - old(repr))
    {
      var link := Detach(i, now);
      rw.Append(link, i, now);
    }

    /** The link of an ino, taken from the queue that it is in, or a new one. */
    method Detach(i: Ino, now: Time) returns (link: Link<Entry<Ino>>)
      requires Valid()
      modifies repr
      ensures Valid() && Value() == Queues(Drop(old(Value()).rw, i), Drop(old(Value()).ro, i))
      ensures i !in rw.index && i !in ro.index
      ensures link in repr && link !in rw.Repr() && link !in ro.Repr()
      ensures old(repr) <= repr && fresh(repr - old(repr))
    {
      if i in rw.index {
        AbsentFrom(ro, i);
        link := rw.Take(i);
      } else if i in ro.index {
        AbsentFrom(rw, i);
        link := ro.Take(i);
      } else {
        AbsentFrom(rw, i);
        AbsentFrom(ro, i);
        link := new Link(Entry(i, now));
        repr := repr + {link};
      }
    }

    /** An ino that is a candidate for upload cannot be evicted. */
    method TouchClean(i: Ino, now: Time)
      requires Valid()
      modifies repr
      ensures Valid() && Value() == Touch(old(Value()), i, false, now)
      ensures old(repr) <= repr && fresh(repr - old(repr))
    {
      rw.IndexHas(i);
      if i in rw.index {
        return;
      }
      AbsentFrom(rw, i);
      var link := Detach(i, now);
      ro.Append(link, i, now);
    }

    /** The first half of uploadOne: the head of rw leaves its queue if it is due. */
    method TakeUpload(force: bool, now: Time) returns (found: bool, i: Ino)
      requires Valid()
      modifies repr
      ensures Valid() && repr == old(repr) && found == Due(old(Value()).rw, force, uploadDelay, now)
      ensures found ==> i == old(Value()).rw[0].key && Value() == old(Value()).(rw := old(Value()).rw[1..])
      ensures !found ==> Value() == old(Value())
    {
      found, i := false, 0;
      var empty, head := rw.First();
      if !empty && (force || head.item.atime + uploadDelay < now) {
        DropAt(rw.entries, 0);
        found, i := true, head.item.key;
        var _ := rw.Take(i);
      }
    }

    /** The first half of evictOne. */
    method TakeEvict(force: bool, now: Time) returns (found: bool, i: Ino)
      requires Valid()
      modifies repr
      ensures Valid() && repr == old(repr) && found == Due(old(Value()).ro, force, evictDelay, now)
      ensures found ==> i == old(Value()).ro[0].key && Value() == old(Value()).(ro := old(Value()).ro[1..])
      ensures !found ==> Value() == old(Value())
    {
      found, i := false, 0;
      var empty, head := ro.First();
      if !empty && (force || head.item.atime + evictDelay < now) {
        DropAt(ro.entries, 0);
        found, i := true, head.item.key;
        var _ := ro.Take(i);
      }
    }
  }
}
