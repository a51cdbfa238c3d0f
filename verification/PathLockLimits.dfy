/** Where path locking can deadlock: the conditions of the deadlock-freedom theorem are needed. */
module PathLockLimits {
  import opened Paths
  import opened PathLocks
  import opened PathLockSafety
  import opened PathLockTheorems
  import Runs

  // ---------- when the locking order of a rename is ascending ----------

  lemma PartialIsPrefix(b: Path, q: Path)
    requires Canonical(b) && q in PartialPaths(b)
    ensures Canonical(q) && HasPrefix(b, q)
  {
    var cs := Components(b);
    var i :| 0 <= i <= |cs| && q == FromComponents(cs[..i]);
    ComponentsOfJoin(cs[..i]);
    HasPrefixIsComponentPrefix(b, q);
  }

  /** A path other than the root that a extends by a byte below the slash. */
  ghost predicate Undercuts(a: Path, d: Path) {
    d != ROOT && Interposes(a, d)
  }

  /** The two paths of a rename are locked in ascending order exactly if the first does not extend a
      partial path of the second by a byte below the slash, such as '-', '.' or a space. */
  lemma AscendingExact(a: Path, b: Path)
    requires Allowed(Two(a, b))
    ensures Ascending(a, b) <==> forall d :: d in PartialPaths(b) ==> !Undercuts(a, d)
  {
    forall d | d in PartialPaths(b) && Undercuts(a, d) ensures !Ascending(a, b) {
      InterposedIsLater(a, b, d);
    }
    if !exists d :: d in PartialPaths(b) && Undercuts(a, d) {
      forall q | q in PartialPaths(b) && q !in PartialPaths(a) ensures Less(a, q) {
        OutsideIsLater(a, b, q);
      }
    }
  }

  lemma InterposedIsLater(a: Path, b: Path, d: Path)
    requires Allowed(Two(a, b)) && d in PartialPaths(b) && Undercuts(a, d)
    ensures Canonical(d) && d !in PartialPaths(a) && Less(d, a) && !Less(a, d)
    ensures Allowed(Two(d, a)) && d != b && !Ascending(a, b)
  {
    PartialIsPrefix(b, d);
    HasPrefixIsPartialPath(a, d);
    PrefixLess(d, a);
    if Less(a, d) {
      LessTransitive(a, d, a);
      LessIrreflexive(a);
    }
    if d == b {
      LessTransitive(a, b, a);
      LessIrreflexive(a);
    }
  }

  lemma OutsideIsLater(a: Path, b: Path, q: Path)
    requires Allowed(Two(a, b)) && q in PartialPaths(b) && q !in PartialPaths(a)
    requires !Undercuts(a, q)
    ensures Less(a, q)
  {
    PartialIsPrefix(b, q);
    HasPrefixIsPartialPath(a, q);
    assert q != ROOT by { assert PartialPaths(a)[0] == ROOT; }
    NotBefore(a, b, q);
  }

  /** On bytes: what is at or below q is not later than a key behind q that is neither. */
  lemma NotBefore(a: Path, b: Path, q: Path)
    requires HasPrefix(b, q) && !HasPrefix(a, q) && !Undercuts(a, q) && q != ROOT && q != [] && Less(a, b)
    ensures Less(a, q)
  {
    LessTotal(a, q);
    if Less(q, a) {
      LessIrreflexive(q);
      if Less(a, q) { LessTransitive(q, a, q); }
      Between(q, a, b);
      var n := |q|;
      assert a == q + a[n..] && b == q + b[n..];
      LessBehindPrefix(q, a[n..], b[n..]);
    }
  }

  /** If every byte but the slash is above the slash, renames are locked in ascending order. */
  lemma HighBytesAscend(a: Path, b: Path)
    requires Allowed(Two(a, b)) && forall i :: 0 <= i < |a| ==> a[i] >= SLASH
    ensures Ascending(a, b)
  {
    AscendingExact(a, b);
  }

  // ---------- reaching states ----------

  ghost function Steps(pol: Policy): (State, Move, State) -> bool {
    (s: State, m: Move, u: State) => IsStep(pol, s, m, u)
  }

  ghost predicate Reaches(pol: Policy, s: State, u: State) {
    exists ss, ms :: Runs.IsRun(ss, ms, Steps(pol)) && ss[0] == s && ss[|ms|] == u
  }

  lemma ReachStep(pol: Policy, s: State, m: Move, u: State)
    requires IsStep(pol, s, m, u)
    ensures Reaches(pol, s, u)
  {
    var ss, ms := [s, u], [m];
    assert Runs.IsRun(ss, ms, Steps(pol)) && ss[|ms|] == u;
  }

  lemma ReachTrans(pol: Policy, s: State, u: State, v: State)
    requires Reaches(pol, s, u) && Reaches(pol, u, v)
    ensures Reaches(pol, s, v)
  {
    var ss, ms :| Runs.IsRun(ss, ms, Steps(pol)) && ss[0] == s && ss[|ms|] == u;
    var ts, ns :| Runs.IsRun(ts, ns, Steps(pol)) && ts[0] == u && ts[|ns|] == v;
    Runs.Joined(ss, ms, ts, ns, Steps(pol));
    var us, ls := ss + ts[1..], ms + ns;
    assert Runs.IsRun(us, ls, Steps(pol)) && us[0] == s && us[|ls|] == v;
  }

  /** Every busy thread is blocked, and there is one. */
  ghost predicate Deadlocked(pol: Policy, s: State) {
    && (exists t: nat :: t < |s.threads| && !s.threads[t].phase.Idle?)
    && (forall t: nat :: t < |s.threads| && !s.threads[t].phase.Idle? ==> !CanMove(pol, s, t))
  }

  /** Threads are acquiring or inside, and no writer waits. */
  ghost predicate Quiet(s: State) {
    && Inv(s) && PlansOk(s)
    && forall t :: 0 <= t < |s.threads| ==>
         var ph := s.threads[t].phase; ph.Idle? || ph.Claiming? || ph.Waiting? || ph.Inside?
  }

  ghost predicate Compatible(x: Acq, y: Acq) {
    x.path == y.path ==> !x.write && !y.write
  }

  /** What thread t acquires at index n is compatible with everything held. */
  ghost predicate NoConflict(s: State, t: nat, n: nat)
    requires t < |s.threads| && n < |s.threads[t].plan|
  {
    forall h, j :: 0 <= h < |s.threads| && 0 <= j < |s.threads[h].held| && j < |s.threads[h].plan| ==>
      Compatible(s.threads[t].plan[n], s.threads[h].plan[j])
  }

  /** Thread t has advanced to x; nothing else has happened to the threads. */
  ghost predicate Advanced(s: State, u: State, t: nat, n: nat) {
    && t < |s.threads| == |u.threads| && u.threads == s.threads[t := u.threads[t]]
    && u.threads[t].req == s.threads[t].req && u.threads[t].plan == s.threads[t].plan
    && |u.threads[t].held| == n
    && u.threads[t].phase == if n == |u.threads[t].plan| then Inside else Claiming
  }

  lemma FreeMutex(s: State, t: nat)
    requires Quiet(s) && t < |s.threads| && s.threads[t].phase.Waiting? && Next(s.threads[t])
    requires NoConflict(s, t, |s.threads[t].held|)
    ensures
      var o := s.threads[t].phase.o;
      && o < |s.muxes| && s.muxes[o].writers == 0 && s.muxes[o].announced == 0
      && (s.threads[t].plan[|s.threads[t].held|].write ==> s.muxes[o].readers == 0)
  {
    var th := s.threads[t];
    var o, n := th.phase.o, |th.held|;
    WaitsForMux(s, t);
    assert ThreadOk(s.pathmap, |s.muxes|, th);
    assert Mapped(s.pathmap, th, n);
    assert MuxOk(s.muxes[o], CountOf(s.threads), o);
    if s.muxes[o].announced > 0 {
      var h := FindAnnouncer(s, o);
    }
    if s.muxes[o].writers > 0 {
      var h, i := FindHolder(s, WriteOf(o), o);
      HolderConflicts(s, t, h, i);
    }
    if s.muxes[o].readers > 0 && th.plan[n].write {
      var h, i := FindHolder(s, ReadOf(o), o);
      HolderConflicts(s, t, h, i);
    }
  }

  lemma HolderConflicts(s: State, t: nat, h: nat, i: nat)
    requires Quiet(s) && t < |s.threads| && s.threads[t].phase.Waiting? && Next(s.threads[t])
    requires NoConflict(s, t, |s.threads[t].held|)
    requires h < |s.threads| && i < |s.threads[h].held| <= |s.threads[h].plan|
    requires s.threads[h].held[i] == s.threads[t].phase.o
    ensures !s.threads[h].plan[i].write && !s.threads[t].plan[|s.threads[t].held|].write
  {
    var x, y := s.threads[t], s.threads[h];
    assert ThreadOk(s.pathmap, |s.muxes|, x) && ThreadOk(s.pathmap, |s.muxes|, y);
    assert Mapped(s.pathmap, x, |x.held|) && Mapped(s.pathmap, y, i);
    assert Compatible(x.plan[|x.held|], y.plan[i]);
  }

  lemma Go(pol: Policy, s: State, t: nat, a: Act) returns (u: State)
    requires Inv(s) && PlansOk(s) && Enabled(pol, s, t, a)
    ensures u == Apply(pol, s, t, a) && Reaches(pol, s, u) && Inv(u) && PlansOk(u)
  {
    u := Apply(pol, s, t, a);
    ReachStep(pol, s, Move(t, a), u);
    Keep(pol, s, t, a);
    KeepPlans(pol, s, t, a);
  }

  lemma TakeRead(pol: Policy, s: State, t: nat) returns (u: State)
    requires Quiet(s) && t < |s.threads| && s.threads[t].phase.Waiting? && Next(s.threads[t])
    requires NoConflict(s, t, |s.threads[t].held|) && !s.threads[t].plan[|s.threads[t].held|].write
    ensures Reaches(pol, s, u) && Quiet(u) && Advanced(s, u, t, |s.threads[t].held| + 1)
  {
    FreeMutex(s, t);
    u := Go(pol, s, t, ReadLock);
    assert u.threads == s.threads[t := Locked(s.threads[t])];
  }

  lemma TakeWrite(pol: Policy, s: State, t: nat) returns (u: State)
    requires Quiet(s) && t < |s.threads| && s.threads[t].phase.Waiting? && Next(s.threads[t])
    requires NoConflict(s, t, |s.threads[t].held|) && s.threads[t].plan[|s.threads[t].held|].write
    ensures Reaches(pol, s, u) && Quiet(u) && Advanced(s, u, t, |s.threads[t].held| + 1)
  {
    FreeMutex(s, t);
    var v := Go(pol, s, t, Announce);
    assert v.threads == s.threads[t := s.threads[t].(phase := Announced(s.threads[t].phase.o))];
    u := Go(pol, v, t, Lock);
    ReachTrans(pol, s, v, u);
    assert u.threads == s.threads[t := Locked(v.threads[t])];
  }

  /** The map step before an acquisition. */
  lemma TakeClaim(pol: Policy, s: State, t: nat) returns (u: State)
    requires Quiet(s) && t < |s.threads| && s.threads[t].phase.Claiming? && Next(s.threads[t])
    ensures Reaches(pol, s, u) && Quiet(u)
    ensures |u.threads| == |s.threads| && u.threads[t].phase.Waiting?
    ensures u.threads == s.threads[t := s.threads[t].(phase := u.threads[t].phase)]
  {
    u := Go(pol, s, t, Claim);
  }

  lemma ClaimNoConflict(s: State, v: State, t: nat)
    requires t < |s.threads| == |v.threads| && Next(s.threads[t]) && NoConflict(s, t, |s.threads[t].held|)
    requires v.threads == s.threads[t := s.threads[t].(phase := v.threads[t].phase)]
    ensures Next(v.threads[t]) && NoConflict(v, t, |v.threads[t].held|)
  {
    forall h, j | 0 <= h < |v.threads| && 0 <= j < |v.threads[h].held| && j < |v.threads[h].plan|
      ensures Compatible(v.threads[t].plan[|v.threads[t].held|], v.threads[h].plan[j])
    {
      assert v.threads[h].held == s.threads[h].held && v.threads[h].plan == s.threads[h].plan;
    }
  }

  /** One acquisition that nothing is in the way of. */
  lemma AcquireOne(pol: Policy, s: State, t: nat) returns (u: State)
    requires Quiet(s)
    requires t < |s.threads| && s.threads[t].phase.Claiming? && Next(s.threads[t])
    requires NoConflict(s, t, |s.threads[t].held|)
    ensures Reaches(pol, s, u) && Quiet(u) && Advanced(s, u, t, |s.threads[t].held| + 1)
  {
    var v := TakeClaim(pol, s, t);
    ClaimNoConflict(s, v, t);
    if v.threads[t].plan[|v.threads[t].held|].write {
      u := TakeWrite(pol, v, t);
    } else {
      u := TakeRead(pol, v, t);
    }
    ReachTrans(pol, s, v, u);
  }

  /** A plan never takes a path twice except for reading. */
  ghost predicate SelfCompatible(plan: seq<Acq>) {
    forall j, k :: 0 <= j < k < |plan| ==> Compatible(plan[k], plan[j])
  }

  /** The acquisitions of thread t before index n are compatible with what the others hold. */
  ghost predicate WayClear(s: State, t: nat, n: nat)
    requires t < |s.threads| && n <= |s.threads[t].plan|
  {
    forall k, h, j :: |s.threads[t].held| <= k < n && 0 <= h < |s.threads| && h != t &&
                      0 <= j < |s.threads[h].held| && j < |s.threads[h].plan| ==>
      Compatible(s.threads[t].plan[k], s.threads[h].plan[j])
  }

  /** A run of acquisitions that nothing is in the way of. */
  lemma {:induction false} AcquireUpTo(pol: Policy, s: State, t: nat, n: nat) returns (u: State)
    requires Quiet(s)
    requires t < |s.threads| && s.threads[t].phase.Claiming? && |s.threads[t].held| < n <= |s.threads[t].plan|
    requires SelfCompatible(s.threads[t].plan) && WayClear(s, t, n)
    ensures Reaches(pol, s, u) && Quiet(u) && Advanced(s, u, t, n)
    decreases n - |s.threads[t].held|
  {
    var k := |s.threads[t].held|;
    assert NoConflict(s, t, k);
    u := AcquireOne(pol, s, t);
    if k + 1 < n {
      var v := u;
      u := AcquireUpTo(pol, v, t, n);
      ReachTrans(pol, s, v, u);
    }
  }

  lemma LockPlanSelfCompatible(p: Path)
    ensures SelfCompatible(LockPlan(p))
  {
    var plan := LockPlan(p);
    forall j, k | 0 <= j < k < |plan| ensures Compatible(plan[k], plan[j]) {
      PartialPathsAscend(p, j, k);
      LessIrreflexive(plan[j].path);
    }
  }

  /** The paths that the two sides of a rename share are read-locked by both. */
  lemma SharedAreRead(a: Path, b: Path, j: nat, k: nat)
    requires Allowed(Two(a, b)) && j < |LockPlan(a)| && k < |LockPlan(b)|
    ensures Compatible(LockPlan(a)[j], LockPlan(b)[k])
  {
    HasPrefixIsPartialPath(a, b);
    HasPrefixIsPartialPath(b, a);
    LastPartial(a);
    LastPartial(b);
    assert LockPlan(b)[k].path in PartialPaths(b) && LockPlan(a)[j].path in PartialPaths(a);
  }

  lemma TwoSelfCompatible(a: Path, b: Path)
    requires Allowed(Two(a, b))
    ensures SelfCompatible(Plan(Two(a, b)))
  {
    var plan, m := Plan(Two(a, b)), |LockPlan(a)|;
    LockPlanSelfCompatible(a);
    LockPlanSelfCompatible(b);
    forall j, k | 0 <= j < k < |plan| ensures Compatible(plan[k], plan[j]) {
      if k < m {
        assert Compatible(LockPlan(a)[k], LockPlan(a)[j]);
      } else if j >= m {
        assert Compatible(LockPlan(b)[k - m], LockPlan(b)[j - m]);
      } else {
        SharedAreRead(a, b, j, k - m);
      }
    }
  }

  // ---------- blocked threads ----------

  lemma AnnouncedBlocks(pol: Policy, s: State, t: nat)
    requires t < |s.threads| && s.threads[t].phase.Announced?
    requires s.threads[t].phase.o < |s.muxes|
    requires s.muxes[s.threads[t].phase.o].writers != 0 || s.muxes[s.threads[t].phase.o].readers != 0
    ensures !CanMove(pol, s, t)
  {
  }

  lemma WaitingBlocks(pol: Policy, s: State, t: nat)
    requires t < |s.threads| && s.threads[t].phase.Waiting? && Next(s.threads[t])
    requires !s.threads[t].plan[|s.threads[t].held|].write && s.threads[t].phase.o < |s.muxes|
    requires !MayRead(pol, s.muxes[s.threads[t].phase.o], s.threads[t].phase.o in s.threads[t].held)
    ensures !CanMove(pol, s, t)
  {
  }

  /** A reader and a writer that wait for each other. */
  lemma BothBlocked(pol: Policy, s: State)
    requires |s.threads| == 2 && s.threads[0].phase.Waiting? && Next(s.threads[0]) && s.threads[1].phase.Announced?
    requires !s.threads[0].plan[|s.threads[0].held|].write && s.threads[0].phase.o < |s.muxes|
    requires !MayRead(pol, s.muxes[s.threads[0].phase.o], s.threads[0].phase.o in s.threads[0].held)
    requires s.threads[1].phase.o < |s.muxes|
    requires s.muxes[s.threads[1].phase.o].writers != 0 || s.muxes[s.threads[1].phase.o].readers != 0
    ensures Deadlocked(pol, s)
  {
    AnnouncedBlocks(pol, s, 1);
    WaitingBlocks(pol, s, 0);
  }

  lemma AnnounceIsCounted(s: State, t: nat)
    requires t < |s.threads| && s.threads[t].phase.Announced?
    ensures CountOf(s.threads)(AnnounceOf(s.threads[t].phase.o)) >= 1
  {
    var k := AnnounceOf(s.threads[t].phase.o);
    SumIncludes(Nums(s.threads, k), t);
    assert Nums(s.threads, k)[t] >= 1;
  }

  /** What a waiting thread holds is counted in the mutex of its path. */
  lemma HeldInMux(u: State, t: nat, i: nat)
    requires Inv(u) && t < |u.threads| && (u.threads[t].phase.Waiting? || u.threads[t].phase.Announced?)
    requires i < |u.threads[t].held|
    ensures
      var th := u.threads[t];
      && i < |th.plan| && th.plan[i].path in u.pathmap && u.pathmap[th.plan[i].path] < |u.muxes|
      && var m := u.muxes[u.pathmap[th.plan[i].path]];
         if th.plan[i].write then m.writers > 0 else m.readers > 0
    ensures u.threads[t].held[i] == u.pathmap[u.threads[t].plan[i].path]
  {
    var th := u.threads[t];
    assert ThreadOk(u.pathmap, |u.muxes|, th);
    assert Mapped(u.pathmap, th, i);
    var o := th.held[i];
    HeldIsCounted(u.threads, t, i);
    assert MuxOk(u.muxes[o], CountOf(u.threads), o);
  }

  /** What a waiting thread wants is the mutex of its path; an announced writer is counted there. */
  lemma WantedMux(u: State, t: nat)
    requires Inv(u) && t < |u.threads| && (u.threads[t].phase.Waiting? || u.threads[t].phase.Announced?)
    requires Next(u.threads[t])
    ensures
      var th := u.threads[t];
      && th.plan[|th.held|].path in u.pathmap && th.phase.o == u.pathmap[th.plan[|th.held|].path] < |u.muxes|
      && (th.phase.Announced? ==> u.muxes[th.phase.o].announced > 0)
  {
    var th := u.threads[t];
    WaitsForMux(u, t);
    assert ThreadOk(u.pathmap, |u.muxes|, th);
    assert Mapped(u.pathmap, th, |th.held|);
    if th.phase.Announced? {
      AnnounceIsCounted(u, t);
      assert MuxOk(u.muxes[th.phase.o], CountOf(u.threads), th.phase.o);
    }
  }

  const TWO_IDLE := State(map[], [], [Thread(One([]), [], [], Idle), Thread(One([]), [], [], Idle)])

  lemma StartsClean()
    ensures Initial(TWO_IDLE) && Quiet(TWO_IDLE)
  {
    InitialOk(TWO_IDLE);
  }

  /** Thread t asks for r. */
  lemma Begin(pol: Policy, s: State, t: nat, r: Request) returns (u: State)
    requires Quiet(s) && t < |s.threads| && s.threads[t].phase.Idle? && Allowed(r)
    ensures Reaches(pol, s, u) && Quiet(u) && u.threads == s.threads[t := Thread(r, Plan(r), [], Claiming)]
  {
    u := Go(pol, s, t, Start(r));
  }

  /** Thread 0 acquires while thread 1 holds nothing. */
  lemma AcquireAlone(pol: Policy, s: State, n: nat) returns (u: State)
    requires Quiet(s) && |s.threads| == 2 && s.threads[1].held == []
    requires s.threads[0].phase.Claiming? && |s.threads[0].held| < n < |s.threads[0].plan|
    requires SelfCompatible(s.threads[0].plan)
    ensures Reaches(pol, s, u) && Quiet(u) && Advanced(s, u, 0, n)
  {
    AloneIsClear(s, n);
    u := AcquireUpTo(pol, s, 0, n);
  }

  lemma AloneIsClear(s: State, n: nat)
    requires |s.threads| == 2 && s.threads[1].held == [] && n <= |s.threads[0].plan|
    ensures WayClear(s, 0, n)
  {
  }

  /** Thread 0 has locked the first path of a rename; thread 1 is idle. */
  lemma FirstPathLocked(pol: Policy, a: Path, b: Path) returns (s: State)
    requires Allowed(Two(a, b))
    ensures Reaches(pol, TWO_IDLE, s) && Quiet(s) && |s.threads| == 2 && s.threads[1].phase.Idle?
    ensures s.threads[0].req == Two(a, b) && s.threads[0].plan == Plan(Two(a, b)) && s.threads[0].phase.Claiming?
    ensures |s.threads[0].held| == |LockPlan(a)|
    ensures s.threads[1].held == []
  {
    StartsClean();
    TwoSelfCompatible(a, b);
    PlanLengths(a, b);
    s := FirstAcquires(pol, Two(a, b), Plan(Two(a, b)), |LockPlan(a)|);
  }

  lemma PlanLengths(a: Path, b: Path)
    requires Allowed(Two(a, b))
    ensures 0 < |LockPlan(a)| < |Plan(Two(a, b))| == |LockPlan(a)| + |LockPlan(b)|
  {
  }

  lemma FirstAcquires(pol: Policy, r: Request, plan: seq<Acq>, n: nat) returns (s: State)
    requires Allowed(r) && plan == Plan(r) && SelfCompatible(plan) && 0 < n < |plan|
    requires Quiet(TWO_IDLE)
    ensures Reaches(pol, TWO_IDLE, s) && Quiet(s) && |s.threads| == 2 && s.threads[1] == TWO_IDLE.threads[1]
    ensures s.threads[0].req == r && s.threads[0].plan == plan && s.threads[0].phase.Claiming? &&
        |s.threads[0].held| == n
  {
    var v := Begin(pol, TWO_IDLE, 0, r);
    s := AcquireAlone(pol, v, n);
    ReachTrans(pol, TWO_IDLE, v, s);
  }

  /** With Go's RWMutex every rename can deadlock: a concurrent lockPath("/") announces itself as a
      writer of the root after the first path is locked, and the second path waits for it. */
  lemma RenameDeadlocksWithRoot(a: Path, b: Path) returns (u: State)
    requires Allowed(Two(a, b))
    ensures Reaches(Waits, TWO_IDLE, u) && Deadlocked(Waits, u) && |u.threads| == 2
    ensures u.threads[0].req == Two(a, b) && u.threads[1].req == One(ROOT)
  {
    var s := FirstPathLocked(Waits, a, b);
    RootPlans(a, b);
    u := RootRace(s);
    ReachTrans(Waits, TWO_IDLE, s, u);
  }

  lemma RootRace(s: State) returns (u: State)
    requires Quiet(s) && |s.threads| == 2
    requires s.threads[0].phase.Claiming? && s.threads[1].phase.Idle? && s.threads[1].held == []
    requires 0 < |s.threads[0].held| < |s.threads[0].plan|
    requires s.threads[0].plan[0] == s.threads[0].plan[|s.threads[0].held|] == Acq(ROOT, false)
    requires Plan(One(ROOT)) == [Acq(ROOT, true)]
    ensures Reaches(Waits, s, u) && Deadlocked(Waits, u) && |u.threads| == 2
    ensures u.threads[0].req == s.threads[0].req && u.threads[1].req == One(ROOT)
  {
    var v := Begin(Waits, s, 1, One(ROOT));
    u := ClaimsThenAnnounce(Waits, v);
    ReachTrans(Waits, s, v, u);
    RootBlocks(u, |s.threads[0].held|);
  }

  /** Both threads claim their next mutex, and thread 1 announces itself as a writer. */
  lemma ClaimsThenAnnounce(pol: Policy, s: State) returns (u: State)
    requires Quiet(s) && |s.threads| == 2 && s.threads[0].phase.Claiming? && s.threads[1].phase.Claiming?
    requires Next(s.threads[0]) && Next(s.threads[1]) && s.threads[1].plan[|s.threads[1].held|].write
    ensures Reaches(pol, s, u) && Inv(u) && |u.threads| == 2
    ensures u.threads[0].phase.Waiting? && u.threads[0] == s.threads[0].(phase := u.threads[0].phase)
    ensures u.threads[1].phase.Announced? && u.threads[1] == s.threads[1].(phase := u.threads[1].phase)
  {
    var v := TakeClaim(pol, s, 0);
    var w := TakeClaim(pol, v, 1);
    u := AnnounceLast(pol, w);
    ReachTrans(pol, s, v, w);
    ReachTrans(pol, s, w, u);
  }

  /** Thread 1, about to lock for writing, announces itself. */
  lemma AnnounceLast(pol: Policy, s: State) returns (u: State)
    requires Quiet(s) && |s.threads| == 2 && s.threads[1].phase.Waiting?
    requires Next(s.threads[1]) && s.threads[1].plan[|s.threads[1].held|].write
    ensures Reaches(pol, s, u) && Inv(u)
    ensures u.threads == [s.threads[0], s.threads[1].(phase := Announced(s.threads[1].phase.o))]
  {
    WaitsForMux(s, 1);
    u := Go(pol, s, 1, Announce);
  }

  lemma RootBlocks(u: State, m: nat)
    requires Inv(u) && |u.threads| == 2 && u.threads[0].phase.Waiting? && u.threads[1].phase.Announced?
    requires 0 < m == |u.threads[0].held| < |u.threads[0].plan| && u.threads[1].held == []
    requires u.threads[0].plan[0] == u.threads[0].plan[m] == Acq(ROOT, false)
    requires u.threads[1].plan == [Acq(ROOT, true)]
    ensures Deadlocked(Waits, u)
  {
    HeldInMux(u, 0, 0);
    WantedMux(u, 0);
    WantedMux(u, 1);
    BothBlocked(Waits, u);
  }

  lemma RootPlans(a: Path, b: Path)
    requires Allowed(Two(a, b))
    ensures Plan(One(ROOT)) == [Acq(ROOT, true)]
    ensures |LockPlan(a)| > 1 && |LockPlan(b)| > 1
    ensures Plan(Two(a, b))[0] == Plan(Two(a, b))[|LockPlan(a)|] == Acq(ROOT, false)
  {
    assert Components(ROOT) == [] by { assert ROOT[1..] == []; }
    HasPrefixIsPartialPath(a, b);
    HasPrefixIsPartialPath(b, a);
    assert PartialPaths(a)[0] == ROOT && PartialPaths(b)[0] == ROOT;
    LastPartial(a);
    LastPartial(b);
  }

  // ---------- an order that is not ascending ----------

  /** The second thread, a rename from d to a, can lock d and then everything above a. */
  lemma SecondThreadLocks(pol: Policy, s: State, a: Path, d: Path, n: nat) returns (u: State)
    requires Quiet(s) && |s.threads| == 2 && Allowed(Two(d, a))
    requires s.threads[1].req == Two(d, a) && s.threads[1].plan == Plan(Two(d, a)) && s.threads[1].phase.Claiming?
    requires |s.threads[1].held| < n < |Plan(Two(d, a))|
    requires forall j :: 0 <= j < |s.threads[0].held| && j < |s.threads[0].plan| ==>
               s.threads[0].plan[j].path != d && (s.threads[0].plan[j].write ==> s.threads[0].plan[j].path == a)
    ensures Reaches(pol, s, u) && Quiet(u) && Advanced(s, u, 1, n)
  {
    TwoSelfCompatible(d, a);
    SecondIsClear(s, a, d, n);
    u := AcquireUpTo(pol, s, 1, n);
  }

  lemma SecondIsClear(s: State, a: Path, d: Path, n: nat)
    requires |s.threads| == 2 && Allowed(Two(d, a)) && s.threads[1].plan == Plan(Two(d, a)) && n < |Plan(Two(d, a))|
    requires forall j :: 0 <= j < |s.threads[0].held| && j < |s.threads[0].plan| ==>
               s.threads[0].plan[j].path != d && (s.threads[0].plan[j].write ==> s.threads[0].plan[j].path == a)
    ensures WayClear(s, 1, n)
  {
    forall k, h, j | |s.threads[1].held| <= k < n && 0 <= h < 2 && h != 1 &&
                     0 <= j < |s.threads[h].held| && j < |s.threads[h].plan|
      ensures Compatible(s.threads[1].plan[k], s.threads[h].plan[j])
    {
      NotTheLeaf(d, a, k);
    }
  }

  /** Before its end the plan of a rename from d to a write-locks d only, and does not touch a. */
  lemma NotTheLeaf(d: Path, a: Path, k: nat)
    requires Allowed(Two(d, a)) && k < |Plan(Two(d, a))| - 1
    ensures Plan(Two(d, a))[k].path != a
    ensures Plan(Two(d, a))[k].write ==> Plan(Two(d, a))[k].path == d
  {
    var m, q := |LockPlan(d)|, Plan(Two(d, a))[k].path;
    LastPartial(d);
    LastPartial(a);
    HasPrefixIsPartialPath(d, a);
    if k < m {
      assert q in PartialPaths(d);
    } else {
      PartialPathsAscend(a, k - m, |PartialPaths(a)| - 1);
      LessIrreflexive(a);
    }
  }

  lemma CrossBlocks(pol: Policy, u: State, i: nat, j: nat)
    requires Inv(u) && |u.threads| == 2 && u.threads[0].phase.Waiting? && u.threads[1].phase.Announced?
    requires Next(u.threads[0]) && Next(u.threads[1])
    requires i < |u.threads[0].held| && j < |u.threads[1].held|
    requires !u.threads[0].plan[|u.threads[0].held|].write
    requires u.threads[1].plan[j] == Acq(u.threads[0].plan[|u.threads[0].held|].path, true)
    requires u.threads[0].plan[i] == Acq(u.threads[1].plan[|u.threads[1].held|].path, true)
    ensures Deadlocked(pol, u)
  {
    HeldInMux(u, 0, i);
    HeldInMux(u, 1, j);
    WantedMux(u, 0);
    WantedMux(u, 1);
    BothBlocked(pol, u);
  }

  /** The last steps of two crossing renames: each claims what the other has written-locked. */
  lemma CrossRace(pol: Policy, s: State, i: nat, j: nat) returns (u: State)
    requires Quiet(s) && |s.threads| == 2
    requires s.threads[0].phase.Claiming? && s.threads[1].phase.Claiming?
    requires Next(s.threads[0]) && Next(s.threads[1])
    requires i < |s.threads[0].held| && j < |s.threads[1].held|
    requires !s.threads[0].plan[|s.threads[0].held|].write && s.threads[1].plan[|s.threads[1].held|].write
    requires s.threads[1].plan[j] == Acq(s.threads[0].plan[|s.threads[0].held|].path, true)
    requires s.threads[0].plan[i] == Acq(s.threads[1].plan[|s.threads[1].held|].path, true)
    ensures Reaches(pol, s, u) && Deadlocked(pol, u) && |u.threads| == 2
    ensures u.threads[0].req == s.threads[0].req && u.threads[1].req == s.threads[1].req
  {
    u := ClaimsThenAnnounce(pol, s);
    CrossBlocks(pol, u, i, j);
  }

  /** Thread 0 goes on to lock the ancestors of d, which thread 1 has locked. */
  lemma FirstThreadGoesOn(pol: Policy, s: State, a: Path, b: Path, j: nat) returns (u: State)
    requires Quiet(s) && |s.threads| == 2 && Allowed(Two(a, b))
    requires s.threads[0].req == Two(a, b) && s.threads[0].plan == Plan(Two(a, b)) && s.threads[0].phase.Claiming?
    requires |s.threads[0].held| == |LockPlan(a)| && 0 < j < |LockPlan(b)| - 1
    requires s.threads[1].held == []
    ensures Reaches(pol, s, u) && Quiet(u) && Advanced(s, u, 0, |LockPlan(a)| + j)
  {
    TwoSelfCompatible(a, b);
    PlanLengths(a, b);
    u := AcquireAlone(pol, s, |LockPlan(a)| + j);
  }

  /** What thread 0 holds before it reaches d: not d, and a for writing. */
  lemma HeldBeforeD(a: Path, b: Path, j: nat, i: nat)
    requires Allowed(Two(a, b)) && j < |LockPlan(b)| - 1 && PartialPaths(b)[j] !in PartialPaths(a)
    requires i < |LockPlan(a)| + j
    ensures
      var x := Plan(Two(a, b))[i];
      x.path != PartialPaths(b)[j] && (x.write ==> x.path == a)
  {
    var m := |LockPlan(a)|;
    LastPartial(a);
    if i < m {
      assert LockPlan(a)[i].path in PartialPaths(a);
    } else {
      PartialPathsAscend(b, i - m, j);
      LessIrreflexive(PartialPaths(b)[j]);
    }
  }

  /** The end of the first half and of the second half of a rename's plan, and what is in between. */
  lemma PlanEnds(a: Path, b: Path)
    requires Allowed(Two(a, b))
    ensures |LockPlan(a)| == |PartialPaths(a)| && |LockPlan(b)| == |PartialPaths(b)|
    ensures Plan(Two(a, b))[|LockPlan(a)| - 1] == Acq(a, true)
    ensures Plan(Two(a, b))[|Plan(Two(a, b))| - 1] == Acq(b, true)
  {
    LastPartial(a);
    LastPartial(b);
  }

  lemma PlanBetween(a: Path, b: Path, j: nat)
    requires Allowed(Two(a, b)) && j < |PartialPaths(b)| - 1
    ensures Plan(Two(a, b))[|LockPlan(a)| + j] == Acq(PartialPaths(b)[j], false)
  {
  }

  /** Where the two crossing renames lock what the other wants. */
  lemma CrossPlans(a: Path, b: Path, d: Path, j: nat)
    requires Allowed(Two(a, b)) && Allowed(Two(d, a)) && j < |PartialPaths(b)| && PartialPaths(b)[j] == d
    requires d != b && d !in PartialPaths(a)
    ensures 0 < j < |LockPlan(b)| - 1
    ensures Plan(Two(a, b))[|LockPlan(a)| - 1] == Acq(a, true)
    ensures Plan(Two(a, b))[|LockPlan(a)| + j] == Acq(d, false)
    ensures |LockPlan(d)| < |Plan(Two(d, a))| - 1
    ensures Plan(Two(d, a))[|LockPlan(d)| - 1] == Acq(d, true)
    ensures Plan(Two(d, a))[|Plan(Two(d, a))| - 1] == Acq(a, true)
  {
    LastPartial(b);
    assert PartialPaths(a)[0] == ROOT && PartialPaths(b)[0] == ROOT;
    PlanEnds(a, b);
    PlanEnds(d, a);
    PlanBetween(a, b, j);
    RootPlans(d, a);
    PlanLengths(d, a);
  }

  /** The two crossing renames, each up to the acquisition that the other blocks. */
  lemma CrossSetUp(pol: Policy, a: Path, b: Path, d: Path, j: nat) returns (s: State)
    requires Allowed(Two(a, b)) && Allowed(Two(d, a))
    requires 0 < j < |LockPlan(b)| - 1 && PartialPaths(b)[j] == d && d !in PartialPaths(a)
    requires |LockPlan(d)| < |Plan(Two(d, a))| - 1
    ensures Reaches(pol, TWO_IDLE, s) && Quiet(s) && |s.threads| == 2
    ensures s.threads[0].req == Two(a, b) && s.threads[0].plan == Plan(Two(a, b)) && s.threads[0].phase.Claiming?
    ensures s.threads[1].req == Two(d, a) && s.threads[1].plan == Plan(Two(d, a)) && s.threads[1].phase.Claiming?
    ensures |s.threads[0].held| == |LockPlan(a)| + j && |s.threads[1].held| == |Plan(Two(d, a))| - 1
  {
    var s1 := FirstPathLocked(pol, a, b);
    var s2 := FirstThreadGoesOn(pol, s1, a, b, j);
    var s3 := Begin(pol, s2, 1, Two(d, a));
    forall i | 0 <= i < |s3.threads[0].held| && i < |s3.threads[0].plan|
      ensures s3.threads[0].plan[i].path != d && (s3.threads[0].plan[i].write ==> s3.threads[0].plan[i].path == a)
    {
      HeldBeforeD(a, b, j, i);
    }
    s := SecondThreadLocks(pol, s3, a, d, |Plan(Two(d, a))| - 1);
    ReachTrans(pol, TWO_IDLE, s1, s2);
    ReachTrans(pol, TWO_IDLE, s2, s3);
    ReachTrans(pol, TWO_IDLE, s3, s);
  }

  /** The partial path at which the order of a rename goes down. */
  lemma FindInterposed(a: Path, b: Path) returns (d: Path, j: nat)
    requires Allowed(Two(a, b)) && !Ascending(a, b)
    ensures j < |PartialPaths(b)| && PartialPaths(b)[j] == d && d != b && d !in PartialPaths(a) && Allowed(Two(d, a))
  {
    AscendingExact(a, b);
    d :| d in PartialPaths(b) && Undercuts(a, d);
    InterposedIsLater(a, b, d);
    j :| 0 <= j < |PartialPaths(b)| && PartialPaths(b)[j] == d;
  }

  /** A rename whose locking order is not ascending can deadlock, whatever the policy of the mutexes:
      if a extends a partial path d of b by a byte below the slash, the rename from d to a is its
      counterpart. So Ascending is exactly what deadlock freedom needs of a rename. */
  lemma RenameDeadlocksAcross(pol: Policy, a: Path, b: Path) returns (u: State)
    requires Allowed(Two(a, b)) && !Ascending(a, b)
    ensures Reaches(pol, TWO_IDLE, u) && Deadlocked(pol, u) && |u.threads| == 2
    ensures u.threads[0].req == Two(a, b) && Allowed(u.threads[1].req)
  {
    var d, j := FindInterposed(a, b);
    CrossPlans(a, b, d, j);
    var s := CrossSetUp(pol, a, b, d, j);
    u := CrossRace(pol, s, |LockPlan(a)| - 1, |LockPlan(d)| - 1);
    ReachTrans(pol, TWO_IDLE, s, u);
  }
}
