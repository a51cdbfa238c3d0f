/** Path locks over whole runs: mutual exclusion along the hierarchy, one live mutex per path, and
    exactly when locking cannot deadlock.
 */
module PathLockTheorems {
  import opened Paths
  import opened PathLocks
  import opened PathLockSafety
  import Runs

  // ---------- runs ----------

  datatype Move = Move(t: nat, a: Act)

  ghost predicate Initial(s: State) {
    && s.pathmap == map[] && s.muxes == []
    && forall t :: 0 <= t < |s.threads| ==> s.threads[t].phase.Idle? && s.threads[t].held == []
  }

  ghost predicate IsStep(pol: Policy, s: State, m: Move, u: State) {
    Enabled(pol, s, m.t, m.a) && u == Apply(pol, s, m.t, m.a)
  }

  ghost predicate IsRun(pol: Policy, ss: seq<State>, ms: seq<Move>) {
    && |ss| == |ms| + 1 && Initial(ss[0])
    && forall k :: 0 <= k < |ms| ==> IsStep(pol, ss[k], ms[k], ss[k + 1])
  }

  /** A busy thread works off the plan of an allowed request. */
  ghost predicate PlanOk(th: Thread) {
    th.phase.Idle? || (Allowed(th.req) && th.plan == Plan(th.req))
  }

  ghost predicate PlansOk(s: State) {
    forall t :: 0 <= t < |s.threads| ==> PlanOk(s.threads[t])
  }

  lemma {:induction false} ZeroSum(ns: seq<nat>)
    requires forall i :: 0 <= i < |ns| ==> ns[i] == 0
    ensures Sum(ns) == 0
  {
    if ns != [] { ZeroSum(ns[1..]); }
  }

  lemma InitialOk(s: State)
    requires Initial(s)
    ensures Inv(s) && PlansOk(s)
  {
    forall k ensures CountOf(s.threads)(k) == 0 {
      ZeroSum(Nums(s.threads, k));
    }
  }

  lemma KeepPlans(pol: Policy, s: State, t: nat, a: Act)
    requires PlansOk(s) && Enabled(pol, s, t, a)
    ensures PlansOk(Apply(pol, s, t, a))
  {
    var u := Apply(pol, s, t, a);
    assert PlanOk(s.threads[t]);
    forall k | 0 <= k < |u.threads| ensures PlanOk(u.threads[k]) {
      if k != t { assert PlanOk(s.threads[k]); }
    }
  }

  lemma KeepMove(pol: Policy, s: State, m: Move, u: State)
    requires IsStep(pol, s, m, u) && Inv(s) && PlansOk(s)
    ensures Inv(u) && PlansOk(u)
  {
    Keep(pol, s, m.t, m.a);
    KeepPlans(pol, s, m.t, m.a);
  }

  /** In every run every state has the invariant. */
  lemma RunKeeps(pol: Policy, ss: seq<State>, ms: seq<Move>, k: nat)
    requires IsRun(pol, ss, ms) && k <= |ms|
    ensures Inv(ss[k]) && PlansOk(ss[k])
  {
    var inv := (s: State) => Inv(s) && PlansOk(s);
    var step := (s: State, m: Move, u: State) => IsStep(pol, s, m, u);
    InitialOk(ss[0]);
    forall s, m, u | inv(s) && step(s, m, u) ensures inv(u) { KeepMove(pol, s, m, u); }
    Runs.Holds(ss, ms, k, step, inv);
  }

  // ---------- one live mutex per path ----------

  /** In every run the reference count of a path is the number of claims on it, and the map has a
      mutex exactly for the claimed paths. */
  lemma RefcountIsClaims(pol: Policy, ss: seq<State>, ms: seq<Move>, k: nat, p: Path)
    requires IsRun(pol, ss, ms) && k <= |ms|
    ensures p in ss[k].pathmap <==> Count(ss[k].threads, ClaimOf(p)) > 0
    ensures p in ss[k].pathmap ==>
              ss[k].pathmap[p] < |ss[k].muxes| &&
              ss[k].muxes[ss[k].pathmap[p]].refcnt == Count(ss[k].threads, ClaimOf(p))
  {
    RunKeeps(pol, ss, ms, k);
    assert CountOf(ss[k].threads)(ClaimOf(p)) == Count(ss[k].threads, ClaimOf(p));
  }

  lemma ClaimIsMapped(s: State, t: nat, i: nat)
    requires Inv(s) && t < |s.threads| && i < ClaimCount(s.threads[t])
    ensures i < |s.threads[t].plan| && Mapped(s.pathmap, s.threads[t], i)
    ensures s.threads[t].phase.Dropping? ==>
              |s.threads[t].held| > 0 && s.threads[t].phase.o == s.threads[t].held[|s.threads[t].held| - 1]
  {
    assert ThreadOk(s.pathmap, |s.muxes|, s.threads[t]);
  }

  /** In every run two threads that hold or wait for the same path do so on the same mutex, the one
      in the map, and what unlockPath unlocks is the mutex that lockPath locked. */
  lemma OneLiveMutex(pol: Policy, ss: seq<State>, ms: seq<Move>, k: nat, t: nat, u: nat, i: nat, j: nat)
    requires IsRun(pol, ss, ms) && k <= |ms| && t < |ss[k].threads| && u < |ss[k].threads|
    requires i < ClaimCount(ss[k].threads[t]) && j < ClaimCount(ss[k].threads[u])
    ensures i < |ss[k].threads[t].plan| && Mapped(ss[k].pathmap, ss[k].threads[t], i)
    ensures j < |ss[k].threads[u].plan| &&
            (ss[k].threads[t].plan[i].path == ss[k].threads[u].plan[j].path ==>
               MuxAt(ss[k].threads[t], i) == MuxAt(ss[k].threads[u], j))
    ensures ss[k].threads[t].phase.Dropping? ==>
              |ss[k].threads[t].held| > 0 &&
              ss[k].threads[t].phase.o == ss[k].threads[t].held[|ss[k].threads[t].held| - 1]
  {
    RunKeeps(pol, ss, ms, k);
    ClaimIsMapped(ss[k], t, i);
    ClaimIsMapped(ss[k], u, j);
  }

  // ---------- mutual exclusion ----------

  /** The thread has locked its i-th mutex and has not begun to unlock it. */
  ghost predicate Has(th: Thread, i: nat) {
    i < |th.held| && i < ClaimCount(th) && i < |th.plan|
  }

  /** Two threads that have the same path locked have it locked for reading. */
  lemma SharedIsRead(s: State, t: nat, u: nat, i: nat, j: nat)
    requires Inv(s) && t < |s.threads| && u < |s.threads| && t != u
    requires Has(s.threads[t], i) && Has(s.threads[u], j)
    ensures s.threads[t].plan[i].path == s.threads[u].plan[j].path ==>
              !s.threads[t].plan[i].write && !s.threads[u].plan[j].write
  {
    var x, y := s.threads[t], s.threads[u];
    assert ThreadOk(s.pathmap, |s.muxes|, x) && ThreadOk(s.pathmap, |s.muxes|, y);
    assert Mapped(s.pathmap, x, i) && Mapped(s.pathmap, y, j);
    if x.plan[i].path == y.plan[j].path {
      var o := x.held[i];
      assert y.held[j] == o;
      HeldIsCounted(s.threads, t, i);
      HeldIsCounted(s.threads, u, j);
      TwoWriters(s.threads, t, u, i, j);
      assert MuxOk(s.muxes[o], CountOf(s.threads), o);
    }
  }

  lemma TwoWriters(ths: seq<Thread>, t: nat, u: nat, i: nat, j: nat)
    requires t < |ths| && u < |ths| && t != u
    requires i < |ths[t].held| <= |ths[t].plan| && j < |ths[u].held| <= |ths[u].plan|
    requires ths[t].held[i] == ths[u].held[j]
    ensures ths[t].plan[i].write && ths[u].plan[j].write ==> CountOf(ths)(WriteOf(ths[t].held[i])) >= 2
  {
    var k := WriteOf(ths[t].held[i]);
    if ths[t].plan[i].write && ths[u].plan[j].write {
      HeldHas(ths[t].plan, ths[t].held, i);
      HeldHas(ths[u].plan, ths[u].held, j);
      SumIncludesTwo(Nums(ths, k), if t < u then t else u, if t < u then u else t);
    }
  }

  /** Between the return of lockPath(p) and the call of unlockPath(p). */
  ghost predicate InSection(th: Thread, p: Path) {
    exists i: nat :: Has(th, i) && th.plan[i] == Acq(p, true)
  }

  /** lockPath of x ends with the path itself, after all its partial paths. */
  lemma LockPlanLeaf(x: Path, i: nat, q: Path, p: Path) returns (j: nat)
    requires i < |LockPlan(x)| && LockPlan(x)[i] == Acq(q, true) && p in PartialPaths(q)
    ensures j <= i && LockPlan(x)[j].path == p
  {
    var cs := Components(x);
    assert cs[..|cs|] == cs;
    ComponentsOfJoin(cs);
    assert PartialPaths(q) == PartialPaths(x);
    j :| 0 <= j < |PartialPaths(x)| && PartialPaths(x)[j] == p;
  }

  /** Before a path, its ancestors are locked. */
  lemma AncestorsPlanned(r: Request, i: nat, q: Path, p: Path) returns (j: nat)
    requires i < |Plan(r)| && Plan(r)[i] == Acq(q, true) && p in PartialPaths(q)
    ensures j <= i && Plan(r)[j].path == p
  {
    match r
    case One(x) => j := LockPlanLeaf(x, i, q, p);
    case Two(x, y) =>
      var n := |LockPlan(x)|;
      if i < n {
        j := LockPlanLeaf(x, i, q, p);
      } else {
        j := LockPlanLeaf(y, i - n, q, p);
        j := j + n;
      }
  }

  lemma SectionsExclude(s: State, t: nat, u: nat, p: Path, q: Path)
    requires Inv(s) && PlansOk(s) && t < |s.threads| && u < |s.threads| && t != u
    requires InSection(s.threads[t], p) && InSection(s.threads[u], q)
    ensures p !in PartialPaths(q)
  {
    var x, y := s.threads[t], s.threads[u];
    assert PlanOk(y);
    var i: nat :| Has(x, i) && x.plan[i] == Acq(p, true);
    var k: nat :| Has(y, k) && y.plan[k] == Acq(q, true);
    if p in PartialPaths(q) {
      var j := AncestorsPlanned(y.req, k, q, p);
      SharedIsRead(s, t, u, i, j);
    }
  }

  /** Hierarchical mutual exclusion: in every run, no two threads are inside the sections of paths
      of which one is at or below the other. */
  lemma MutualExclusion(pol: Policy, ss: seq<State>, ms: seq<Move>, k: nat, t: nat, u: nat, p: Path, q: Path)
    requires IsRun(pol, ss, ms) && k <= |ms| && t < |ss[k].threads| && u < |ss[k].threads| && t != u
    requires Canonical(p) && Canonical(q)
    requires InSection(ss[k].threads[t], p) && InSection(ss[k].threads[u], q)
    ensures !HasPrefix(p, q) && !HasPrefix(q, p)
  {
    RunKeeps(pol, ss, ms, k);
    SectionsExclude(ss[k], t, u, p, q);
    SectionsExclude(ss[k], u, t, q, p);
    HasPrefixIsPartialPath(p, q);
    HasPrefixIsPartialPath(q, p);
  }

  // ---------- deadlock ----------

  /** Some step of the thread other than starting a request is possible. */
  ghost predicate CanMove(pol: Policy, s: State, t: nat) {
    exists a: Act :: !a.Start? && Enabled(pol, s, t, a)
  }

  /** The second path of a rename has no partial path below the first path that the first does not
      share: whatever is still to be locked comes later in byte order than what is held. */
  ghost predicate Ascending(a: Path, b: Path) {
    forall q :: q in PartialPaths(b) && q !in PartialPaths(a) ==> Less(a, q)
  }

  /** Requests that cannot deadlock: one path always, two if re-taking a read lock does not wait
      and their locking order is ascending. */
  ghost predicate Safe(pol: Policy, r: Request) {
    r.Two? ==> pol.Reenters? && Ascending(r.first, r.second)
  }

  /** The n-th acquisition repeats an earlier read lock. */
  ghost predicate Repeats(plan: seq<Acq>, n: nat)
    requires n < |plan|
  {
    !plan[n].write && exists j: nat :: j < n && plan[j] == plan[n]
  }

  /** Behind index k of a plan, a path is later in byte order or is read-locked again. */
  lemma PlanAscends(pol: Policy, r: Request, k: nat, n: nat)
    requires Allowed(r) && Safe(pol, r) && k < n < |Plan(r)|
    ensures Less(Plan(r)[k].path, Plan(r)[n].path) || (pol.Reenters? && Repeats(Plan(r), n))
  {
    match r
    case One(p) => PartialPathsAscend(p, k, n);
    case Two(a, b) => TwoAscends(a, b, Plan(r), k, n);
  }

  lemma TwoAscends(a: Path, b: Path, plan: seq<Acq>, k: nat, n: nat)
    requires Allowed(Two(a, b)) && Ascending(a, b) && plan == LockPlan(a) + LockPlan(b) && k < n < |plan|
    ensures Less(plan[k].path, plan[n].path) || Repeats(plan, n)
  {
    var m := |LockPlan(a)|;
    if n < m {
      LockPlanAscends(a, k, n);
    } else if k >= m {
      LockPlanAscends(b, k - m, n - m);
    } else {
      LockPlanLength(a);
      LockPlanLength(b);
      CrossAscends(a, b, k, n - m);
    }
  }

  lemma LockPlanAscends(p: Path, k: nat, n: nat)
    requires k < n < |LockPlan(p)|
    ensures Less(LockPlan(p)[k].path, LockPlan(p)[n].path)
  {
    PartialPathsAscend(p, k, n);
  }

  lemma LockPlanLength(p: Path)
    ensures |LockPlan(p)| == |PartialPaths(p)|
  {
  }

  lemma CrossAscends(a: Path, b: Path, k: nat, n: nat)
    requires Allowed(Two(a, b)) && Ascending(a, b) && k < |PartialPaths(a)| && n < |PartialPaths(b)|
    ensures
      var plan := LockPlan(a) + LockPlan(b);
      Less(plan[k].path, plan[|LockPlan(a)| + n].path) || Repeats(plan, |LockPlan(a)| + n)
  {
    var plan, m := LockPlan(a) + LockPlan(b), |LockPlan(a)|;
    SecondAscends(a, b, k, n);
    var q := PartialPaths(b)[n];
    if q in PartialPaths(a) {
      var j :| 0 <= j < |PartialPaths(a)| && PartialPaths(a)[j] == q;
      LastPartial(a);
      assert j < |PartialPaths(a)| - 1;
      assert plan[j] == Acq(q, false) == plan[m + n];
    }
  }

  /** The second path of a rename: either a shared ancestor, read-locked both times, or later. */
  lemma SecondAscends(a: Path, b: Path, k: nat, n: nat)
    requires Allowed(Two(a, b)) && Ascending(a, b) && k < |PartialPaths(a)| && n < |PartialPaths(b)|
    ensures var q := PartialPaths(b)[n];
            if q in PartialPaths(a) then q != a && q != b && n < |PartialPaths(b)| - 1
            else Less(PartialPaths(a)[k], q)
  {
    var q := PartialPaths(b)[n];
    HasPrefixIsPartialPath(a, b);
    HasPrefixIsPartialPath(b, a);
    LastPartial(a);
    LastPartial(b);
    if q !in PartialPaths(a) && k < |PartialPaths(a)| - 1 {
      PartialPathsAscend(a, k, |PartialPaths(a)| - 1);
      LessTransitive(PartialPaths(a)[k], a, q);
    }
  }

  lemma LastPartial(p: Path)
    requires Canonical(p)
    ensures PartialPaths(p)[|PartialPaths(p)| - 1] == p
  {
    assert Components(p)[..|Components(p)|] == Components(p);
  }

  // Finding a thread that can move.

  ghost predicate Wants(th: Thread) {
    (th.phase.Waiting? || th.phase.Announced?) && Next(th)
  }

  ghost function Wanted(th: Thread): Path
    requires Wants(th)
  {
    th.plan[|th.held|].path
  }

  /** A thread that is not waiting can move. */
  lemma OnlyWaitersBlock(pol: Policy, s: State, t: nat)
    requires Inv(s) && PlansOk(s) && t < |s.threads| && !s.threads[t].phase.Idle?
    ensures CanMove(pol, s, t) || Wants(s.threads[t])
    ensures CanMove(pol, s, t) || (s.threads[t].phase.Waiting? ==> !s.threads[t].plan[|s.threads[t].held|].write)
  {
    var th := s.threads[t];
    assert ThreadOk(s.pathmap, |s.muxes|, th);
    match th.phase
    case Claiming => assert Enabled(pol, s, t, Claim);
    case Waiting(o) =>
      WaitsForMux(s, t);
      if th.plan[|th.held|].write { assert Enabled(pol, s, t, Announce); }
    case Announced(_) =>
    case Inside =>
      PlanNotEmpty(th.req);
      assert PlanOk(th);
      assert Enabled(pol, s, t, Leave);
    case Releasing =>
      assert Mapped(s.pathmap, th, |th.held| - 1);
      assert Enabled(pol, s, t, Unclaim);
    case Dropping(_) => assert Enabled(pol, s, t, Drop);
  }

  ghost predicate AllSafe(pol: Policy, s: State) {
    forall t :: 0 <= t < |s.threads| && !s.threads[t].phase.Idle? ==> Safe(pol, s.threads[t].req)
  }

  /** Re-taking a read lock never waits under the policy that allows it. */
  lemma RepeatsMove(s: State, t: nat)
    requires Inv(s) && t < |s.threads| && Wants(s.threads[t]) && Repeats(s.threads[t].plan, |s.threads[t].held|)
    ensures CanMove(Reenters, s, t)
  {
    var th := s.threads[t];
    var n := |th.held|;
    assert ThreadOk(s.pathmap, |s.muxes|, th);
    var j: nat :| j < n && th.plan[j] == th.plan[n];
    assert Mapped(s.pathmap, th, j) && Mapped(s.pathmap, th, n);
    var o := th.phase.o;
    assert th.held[j] == o && o in th.held;
    HeldIsCounted(s.threads, t, j);
    WaitsForMux(s, t);
    assert MuxOk(s.muxes[o], CountOf(s.threads), o);
    assert Enabled(Reenters, s, t, ReadLock);
  }

  /** Whoever holds the mutex of p can move or wants something later than p. */
  lemma HolderMoves(pol: Policy, s: State, h: nat, i: nat, p: Path)
    requires Inv(s) && PlansOk(s) && AllSafe(pol, s) && h < |s.threads| && i < |s.threads[h].held|
    requires p in s.pathmap && s.pathmap[p] == s.threads[h].held[i]
    ensures !s.threads[h].phase.Idle?
    ensures CanMove(pol, s, h) || (Wants(s.threads[h]) && Less(p, Wanted(s.threads[h])))
  {
    var th := s.threads[h];
    assert ThreadOk(s.pathmap, |s.muxes|, th) && PlanOk(th);
    if !CanMove(pol, s, h) {
      OnlyWaitersBlock(pol, s, h);
      assert Mapped(s.pathmap, th, i);
      assert th.plan[i].path == p;
      PlanAscends(pol, th.req, i, |th.held|);
      if pol.Reenters? && Repeats(th.plan, |th.held|) { RepeatsMove(s, h); }
    }
  }

  /** The thread behind a positive count of held mutexes. */
  lemma FindHolder(s: State, k: Token, o: Id) returns (h: nat, i: nat)
    requires Inv(s) && (k == ReadOf(o) || k == WriteOf(o)) && CountOf(s.threads)(k) > 0
    ensures h < |s.threads| && i < |s.threads[h].held| <= |s.threads[h].plan| && s.threads[h].held[i] == o
    ensures k == HeldToken(s.threads[h].plan, i, o)
  {
    h := SumOwner(Nums(s.threads, k));
    var th := s.threads[h];
    ClaimNumOther(th.plan, ClaimCount(th), k);
    i := HeldIndex(th.plan, th.held, k);
  }

  lemma FindAnnouncer(s: State, o: Id) returns (h: nat)
    requires Inv(s) && CountOf(s.threads)(AnnounceOf(o)) > 0
    ensures h < |s.threads| && s.threads[h].phase == Announced(o)
  {
    var k := AnnounceOf(o);
    h := SumOwner(Nums(s.threads, k));
    var th := s.threads[h];
    ClaimNumOther(th.plan, ClaimCount(th), k);
    if HeldNum(th.plan, th.held, k) > 0 {
      var i := HeldIndex(th.plan, th.held, k);
    }
  }

  /** A blocked thread is blocked by one that can move or that wants something later. */
  lemma FindBlocker(pol: Policy, s: State, t: nat) returns (h: nat)
    requires Inv(s) && PlansOk(s) && AllSafe(pol, s)
    requires t < |s.threads| && !s.threads[t].phase.Idle? && !CanMove(pol, s, t)
    ensures Wants(s.threads[t]) && h < |s.threads| && !s.threads[h].phase.Idle?
    ensures CanMove(pol, s, h) || (Wants(s.threads[h]) && Less(Wanted(s.threads[t]), Wanted(s.threads[h])))
  {
    OnlyWaitersBlock(pol, s, t);
    var o := BlockedAt(pol, s, t);
    var m := s.muxes[o];
    if m.writers > 0 || m.readers > 0 {
      var i;
      h, i := FindHolder(s, if m.writers > 0 then WriteOf(o) else ReadOf(o), o);
      HolderMoves(pol, s, h, i, Wanted(s.threads[t]));
    } else {
      h := AnnouncerMoves(pol, s, o);
    }
  }

  /** A blocked thread waits for the mutex of the path it wants, and that mutex is held or announced. */
  lemma BlockedAt(pol: Policy, s: State, t: nat) returns (o: Id)
    requires Inv(s) && t < |s.threads| && Wants(s.threads[t]) && !CanMove(pol, s, t)
    requires s.threads[t].phase.Waiting? ==> !s.threads[t].plan[|s.threads[t].held|].write
    ensures Wanted(s.threads[t]) in s.pathmap && s.pathmap[Wanted(s.threads[t])] == o < |s.muxes|
    ensures
      var m, c := s.muxes[o], CountOf(s.threads);
      && (m.writers > 0 ==> c(WriteOf(o)) > 0) && (m.readers > 0 ==> c(ReadOf(o)) > 0)
      && (m.writers == 0 && m.readers == 0 ==> c(AnnounceOf(o)) > 0)
  {
    WaitsForMux(s, t);
    var th := s.threads[t];
    o := th.phase.o;
    assert ThreadOk(s.pathmap, |s.muxes|, th);
    assert Mapped(s.pathmap, th, |th.held|);
    assert MuxOk(s.muxes[o], CountOf(s.threads), o);
    BusyMux(pol, s, t);
  }

  lemma BusyMux(pol: Policy, s: State, t: nat)
    requires t < |s.threads| && Wants(s.threads[t]) && s.threads[t].phase.o < |s.muxes| && !CanMove(pol, s, t)
    requires s.threads[t].phase.Waiting? ==> !s.threads[t].plan[|s.threads[t].held|].write
    ensures var m := s.muxes[s.threads[t].phase.o]; m.writers != 0 || m.readers != 0 || m.announced != 0
  {
    assert !Enabled(pol, s, t, Lock) && !Enabled(pol, s, t, ReadLock);
  }

  lemma AnnouncerMoves(pol: Policy, s: State, o: Id) returns (h: nat)
    requires Inv(s) && o < |s.muxes| && s.muxes[o].writers == 0 && s.muxes[o].readers == 0
    requires CountOf(s.threads)(AnnounceOf(o)) > 0
    ensures h < |s.threads| && !s.threads[h].phase.Idle? && CanMove(pol, s, h)
  {
    h := FindAnnouncer(s, o);
    assert ThreadOk(s.pathmap, |s.muxes|, s.threads[h]);
    assert Enabled(pol, s, h, Lock);
  }

  ghost function WantingMore(s: State, p: Path): set<nat> {
    set j: nat | j < |s.threads| && Wants(s.threads[j]) && Less(p, Wanted(s.threads[j]))
  }

  /** Following the blockers ends at a thread that can move. */
  lemma {:induction false} FindMover(pol: Policy, s: State, t: nat) returns (m: nat)
    requires Inv(s) && PlansOk(s) && AllSafe(pol, s)
    requires t < |s.threads| && !s.threads[t].phase.Idle?
    ensures m < |s.threads| && CanMove(pol, s, m)
    decreases if CanMove(pol, s, t) || !Wants(s.threads[t]) then 0 else 1 + |WantingMore(s, Wanted(s.threads[t]))|
  {
    if CanMove(pol, s, t) {
      m := t;
    } else {
      var h := FindBlocker(pol, s, t);
      if !CanMove(pol, s, h) {
        var p, q := Wanted(s.threads[t]), Wanted(s.threads[h]);
        forall j | j in WantingMore(s, q) ensures j in WantingMore(s, p) {
          LessTransitive(p, q, Wanted(s.threads[j]));
        }
        LessIrreflexive(q);
        assert h in WantingMore(s, p) && h !in WantingMore(s, q);
        SmallerSet(WantingMore(s, q), WantingMore(s, p), h);
      }
      m := FindMover(pol, s, h);
    }
  }

  lemma SmallerSet(a: set<nat>, b: set<nat>, x: nat)
    requires a <= b && x in b && x !in a
    ensures |a| < |b|
  {
    var c := b - a;
    assert b == a + c && a !! c && x in c;
  }

  /** No deadlock: in every run in which every pending request is safe, if any thread is busy then
      some thread can move on its own, without a new request. */
  lemma NoDeadlock(pol: Policy, ss: seq<State>, ms: seq<Move>, k: nat, t: nat) returns (m: nat)
    requires IsRun(pol, ss, ms) && k <= |ms| && AllSafe(pol, ss[k])
    requires t < |ss[k].threads| && !ss[k].threads[t].phase.Idle?
    ensures m < |ss[k].threads| && CanMove(pol, ss[k], m)
  {
    RunKeeps(pol, ss, ms, k);
    m := FindMover(pol, ss[k], t);
  }
}
