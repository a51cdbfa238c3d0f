/** Hierarchical path locks: lockPath read-locks every ancestor and write-locks the path, with
    reference-counted mutexes that are created on demand and forgotten when unused. Rename locks
    two paths. Any number of threads interleave, one critical section of the map or one operation
    of a mutex at a time.
 */
module PathLocks {
  import opened Paths

  // ---------- requests ----------

  /** One acquisition of a mutex: for writing the path itself, for reading an ancestor. */
  datatype Acq = Acq(path: Path, write: bool)

  /** What a thread asks for: one path, or the two paths of a rename in their locking order. */
  datatype Request = One(p: Path) | Two(first: Path, second: Path)

  function LockPlan(p: Path): (plan: seq<Acq>)
  {
    var ps := PartialPaths(p);
    seq(|ps|, i requires 0 <= i < |ps| => Acq(ps[i], i == |ps| - 1))
  }

  /** The acquisitions in order; they are released in the opposite order. */
  function Plan(r: Request): seq<Acq> {
    match r
    case One(p) => LockPlan(p)
    case Two(a, b) => LockPlan(a) + LockPlan(b)
  }

  datatype RenameStart = Invalid | Locks(r: Request)

  /** renameNode: refuse a path and its own ancestor, lock the smaller key first, lock one key once. */
  function StartRename(k: Path, newk: Path): RenameStart {
    if k != newk && (HasPrefix(k, newk) || HasPrefix(newk, k)) then Invalid
    else if Less(k, newk) then Locks(Two(k, newk))
    else if Less(newk, k) then Locks(Two(newk, k))
    else Locks(One(k))
  }

  /** Two different canonical keys in ascending order, neither at or below the other. */
  ghost predicate Allowed(r: Request) {
    r.Two? ==>
      && Canonical(r.first) && Canonical(r.second) && Less(r.first, r.second)
      && !HasPrefix(r.first, r.second) && !HasPrefix(r.second, r.first)
  }

  /** For canonical keys: a rename is refused exactly if one key is strictly below the other; otherwise it
      write-locks both keys, one of them only once, in an order that is allowed, and everything else
      that it locks it locks for reading. */
  lemma RenameIsAllowed(k: Path, newk: Path)
    requires Canonical(k) && Canonical(newk)
    ensures StartRename(k, newk).Invalid? <==> k != newk && (HasPrefix(k, newk) || HasPrefix(newk, k))
    ensures StartRename(k, newk).Locks? ==>
              var r := StartRename(k, newk).r;
              && Allowed(r) && (r.One? <==> k == newk)
              && Acq(k, true) in Plan(r) && Acq(newk, true) in Plan(r)
              && forall n :: 0 <= n < |Plan(r)| && Plan(r)[n].write ==> Plan(r)[n].path in {k, newk}
  {
    LessIrreflexive(k);
    LessTotal(k, newk);
    LeafLocked(k);
    LeafLocked(newk);
  }

  /** lockPath locks the path itself, and only that, for writing. */
  lemma LeafLocked(p: Path)
    requires Canonical(p)
    ensures Acq(p, true) in LockPlan(p)
    ensures forall n :: 0 <= n < |LockPlan(p)| ==> (LockPlan(p)[n].write <==> n == |LockPlan(p)| - 1)
    ensures forall n :: 0 <= n < |LockPlan(p)| && LockPlan(p)[n].write ==> LockPlan(p)[n].path == p
  {
    var cs := Components(p);
    assert cs[..|cs|] == cs;
    assert LockPlan(p)[|cs|] == Acq(p, true);
  }

  // ---------- the machine ----------

  type Id = nat

  /** A pathmux_t: its reference count, and its RWMutex as counts of holders and of writers that
      have announced themselves. */
  datatype Mux = Mux(refcnt: int, readers: int, writers: int, announced: int)

  datatype Phase =
    | Idle
    | Claiming
    | Waiting(o: Id)
    | Announced(o: Id)
    | Inside
    | Releasing
    | Dropping(o: Id)

  /** plan is the plan of the request. held records the mutexes that the thread has locked; the
      program itself looks them up again. */
  datatype Thread = Thread(req: Request, plan: seq<Acq>, held: seq<Id>, phase: Phase)

  datatype State = State(pathmap: map<Path, Id>, muxes: seq<Mux>, threads: seq<Thread>)

  /** Whether taking a read lock again that the thread already holds waits for an announced writer.
      Go's RWMutex makes it wait. */
  datatype Policy = Waits | Reenters

  datatype Act = Start(r: Request) | Claim | Announce | Lock | ReadLock | Leave | Unclaim | Drop

  ghost predicate MayRead(pol: Policy, m: Mux, again: bool) {
    m.writers == 0 && (m.announced == 0 || (pol.Reenters? && again))
  }

  ghost predicate Next(th: Thread) {
    |th.held| < |th.plan|
  }

  ghost predicate Enabled(pol: Policy, s: State, t: nat, a: Act) {
    t < |s.threads| &&
    var th := s.threads[t];
    match a
    case Start(r) => th.phase.Idle? && Allowed(r)
    case Claim => th.phase.Claiming? && Next(th)
    case Announce => th.phase.Waiting? && Next(th) && th.phase.o < |s.muxes| && th.plan[|th.held|].write
    case Lock =>
      th.phase.Announced? && Next(th) && th.phase.o < |s.muxes| &&
      s.muxes[th.phase.o].writers == 0 && s.muxes[th.phase.o].readers == 0
    case ReadLock =>
      th.phase.Waiting? && Next(th) && th.phase.o < |s.muxes| && !th.plan[|th.held|].write &&
      MayRead(pol, s.muxes[th.phase.o], th.phase.o in th.held)
    case Leave => th.phase.Inside? && th.plan != []
    case Unclaim =>
      th.phase.Releasing? && 0 < |th.held| <= |th.plan| &&
      th.plan[|th.held| - 1].path in s.pathmap && s.pathmap[th.plan[|th.held| - 1].path] < |s.muxes|
    case Drop => th.phase.Dropping? && 0 < |th.held| <= |th.plan| && th.phase.o < |s.muxes|
  }

  /** The thread after locking the mutex it waited for. */
  ghost function Locked(th: Thread): Thread
    requires th.phase.Waiting? || th.phase.Announced?
  {
    var held := th.held + [th.phase.o];
    Thread(th.req, th.plan, held, if |held| == |th.plan| then Inside else Claiming)
  }

  /** The map step of lockPath: find or create the mutex of the next partial path. */
  ghost function DoClaim(s: State, t: nat): State
    requires t < |s.threads| && Next(s.threads[t])
  {
    var th := s.threads[t];
    var p := th.plan[|th.held|].path;
    if p in s.pathmap && s.pathmap[p] < |s.muxes| then
      var o := s.pathmap[p];
      State(s.pathmap, s.muxes[o := s.muxes[o].(refcnt := s.muxes[o].refcnt + 1)],
            s.threads[t := th.(phase := Waiting(o))])
    else
      var o := |s.muxes|;
      State(s.pathmap[p := o], s.muxes + [Mux(1, 0, 0, 0)], s.threads[t := th.(phase := Waiting(o))])
  }

  /** The map step of unlockPath: look the mutex up again and forget it with its last reference. */
  ghost function DoUnclaim(s: State, t: nat): State
    requires t < |s.threads| && 0 < |s.threads[t].held| <= |s.threads[t].plan|
    requires var p := s.threads[t].plan[|s.threads[t].held| - 1].path; p in s.pathmap && s.pathmap[p] < |s.muxes|
  {
    var th := s.threads[t];
    var p := th.plan[|th.held| - 1].path;
    var o := s.pathmap[p];
    var m := s.muxes[o].(refcnt := s.muxes[o].refcnt - 1);
    State(if m.refcnt == 0 then s.pathmap - {p} else s.pathmap, s.muxes[o := m],
          s.threads[t := th.(phase := Dropping(o))])
  }

  /** The thread after unlocking its last mutex. */
  ghost function Dropped(th: Thread): Thread
    requires 0 < |th.held|
  {
    var n := |th.held| - 1;
    Thread(th.req, th.plan, th.held[..n], if n == 0 then Idle else Releasing)
  }

  /** How much the counts of a mutex move: readers, writers, announced writers. */
  datatype Shift = Shift(o: Id, dr: int, dw: int, da: int) {
    ghost function Moved(m: Mux): Mux {
      Mux(m.refcnt, m.readers + dr, m.writers + dw, m.announced + da)
    }

    ghost predicate Fits(m: Mux) {
      m.writers + dw <= 1 && (m.writers + dw == 1 ==> m.readers + dr == 0)
    }
  }

  ghost function LockShift(th: Thread): Shift
    requires th.phase.Announced? || th.phase.Waiting?
  {
    if th.phase.Announced? then Shift(th.phase.o, 0, 1, -1) else Shift(th.phase.o, 1, 0, 0)
  }

  ghost function DropShift(th: Thread): Shift
    requires th.phase.Dropping? && 0 < |th.held| <= |th.plan|
  {
    if th.plan[|th.held| - 1].write then Shift(th.phase.o, 0, -1, 0) else Shift(th.phase.o, -1, 0, 0)
  }

  /** A mutex and thread t change together. */
  ghost function ShiftMux(s: State, t: nat, th: Thread, x: Shift): State
    requires x.o < |s.muxes| && t < |s.threads|
  {
    State(s.pathmap, s.muxes[x.o := x.Moved(s.muxes[x.o])], s.threads[t := th])
  }

  ghost function Apply(pol: Policy, s: State, t: nat, a: Act): State
    requires Enabled(pol, s, t, a)
  {
    var th := s.threads[t];
    match a
    case Start(r) => s.(threads := s.threads[t := Thread(r, Plan(r), [], Claiming)])
    case Claim => DoClaim(s, t)
    case Announce => ShiftMux(s, t, th.(phase := Announced(th.phase.o)), Shift(th.phase.o, 0, 0, 1))
    case Lock => ShiftMux(s, t, Locked(th), LockShift(th))
    case ReadLock => ShiftMux(s, t, Locked(th), LockShift(th))
    case Leave => s.(threads := s.threads[t := th.(phase := Releasing)])
    case Unclaim => DoUnclaim(s, t)
    case Drop => ShiftMux(s, t, Dropped(th), DropShift(th))
  }
}
