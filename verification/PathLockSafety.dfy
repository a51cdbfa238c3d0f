/** What every step of the path locks keeps: mutexes, map and threads agree by counting. */
module PathLockSafety {
  import opened Paths
  import opened PathLocks

  // ---------- counting ----------

  /** What a thread contributes to the counts. */
  datatype Token = ClaimOf(p: Path) | ReadOf(o: Id) | WriteOf(o: Id) | AnnounceOf(o: Id)

  ghost function ClaimCount(th: Thread): int {
    match th.phase
    case Idle => 0
    case Waiting(_) => |th.held| + 1
    case Announced(_) => |th.held| + 1
    case Dropping(_) => |th.held| - 1
    case _ => |th.held|
  }

  ghost function ClaimNum(plan: seq<Acq>, n: int, k: Token): nat
    decreases n
  {
    if 0 < n <= |plan| then ClaimNum(plan, n - 1, k) + (if k == ClaimOf(plan[n - 1].path) then 1 else 0) else 0
  }

  /** What the n-th acquisition of a plan contributes once mutex o is locked for it. */
  ghost function HeldToken(plan: seq<Acq>, n: nat, o: Id): Token
    requires n < |plan|
  {
    if plan[n].write then WriteOf(o) else ReadOf(o)
  }

  ghost function HeldNum(plan: seq<Acq>, held: seq<Id>, k: Token): nat {
    if 0 < |held| <= |plan| then
      var n := |held| - 1;
      HeldNum(plan, held[..n], k) + (if k == HeldToken(plan, n, held[n]) then 1 else 0)
    else 0
  }

  ghost function Num(th: Thread, k: Token): nat {
    ClaimNum(th.plan, ClaimCount(th), k) + HeldNum(th.plan, th.held, k)
    + (if th.phase.Announced? && k == AnnounceOf(th.phase.o) then 1 else 0)
  }

  ghost function Sum(ns: seq<nat>): nat {
    if ns == [] then 0 else ns[0] + Sum(ns[1..])
  }

  lemma {:induction false} SumUpdate(ns: seq<nat>, t: nat, n: nat)
    requires t < |ns|
    ensures Sum(ns[t := n]) == Sum(ns) - ns[t] + n
  {
    if t == 0 {
      assert ns[t := n][1..] == ns[1..];
    } else {
      assert ns[t := n][1..] == ns[1..][t - 1 := n];
      SumUpdate(ns[1..], t - 1, n);
    }
  }

  lemma {:induction false} SumIncludes(ns: seq<nat>, t: nat)
    requires t < |ns|
    ensures ns[t] <= Sum(ns)
  {
    if t > 0 { SumIncludes(ns[1..], t - 1); }
  }

  lemma {:induction false} SumIncludesTwo(ns: seq<nat>, t: nat, u: nat)
    requires t < u < |ns|
    ensures ns[t] + ns[u] <= Sum(ns)
  {
    if t == 0 { SumIncludes(ns[1..], u - 1); } else { SumIncludesTwo(ns[1..], t - 1, u - 1); }
  }

  /** A positive count has a thread behind it. */
  lemma {:induction false} SumOwner(ns: seq<nat>) returns (t: nat)
    requires Sum(ns) > 0
    ensures t < |ns| && ns[t] > 0
  {
    if ns[0] > 0 {
      t := 0;
    } else {
      t := SumOwner(ns[1..]);
      t := t + 1;
    }
  }

  ghost function Nums(ths: seq<Thread>, k: Token): seq<nat> {
    seq(|ths|, i requires 0 <= i < |ths| => Num(ths[i], k))
  }

  ghost function Count(ths: seq<Thread>, k: Token): nat {
    Sum(Nums(ths, k))
  }

  lemma {:induction false} HeldIndex(plan: seq<Acq>, held: seq<Id>, k: Token) returns (i: nat)
    requires HeldNum(plan, held, k) > 0
    ensures |held| <= |plan| && i < |held| && k == HeldToken(plan, i, held[i])
  {
    var n := |held| - 1;
    if HeldNum(plan, held[..n], k) > 0 {
      i := HeldIndex(plan, held[..n], k);
    } else {
      i := n;
    }
  }

  lemma {:induction false} HeldHas(plan: seq<Acq>, held: seq<Id>, i: nat)
    requires i < |held| <= |plan|
    ensures HeldNum(plan, held, HeldToken(plan, i, held[i])) > 0
  {
    var n := |held| - 1;
    if i < n {
      HeldHas(plan, held[..n], i);
    }
  }

  lemma {:induction false} ClaimHas(plan: seq<Acq>, n: int, i: nat)
    requires i < n <= |plan|
    ensures ClaimNum(plan, n, ClaimOf(plan[i].path)) > 0
    decreases n
  {
    if i < n - 1 { ClaimHas(plan, n - 1, i); }
  }

  /** Claims and held mutexes are counted apart. */
  lemma {:induction false} ClaimNumOther(plan: seq<Acq>, n: int, k: Token)
    requires !k.ClaimOf?
    ensures ClaimNum(plan, n, k) == 0
    decreases n
  {
    if 0 < n <= |plan| { ClaimNumOther(plan, n - 1, k); }
  }

  // ---------- the invariant ----------

  /** The mutex that the thread has claimed for its i-th acquisition. */
  ghost function MuxAt(th: Thread, i: nat): Id
    requires i < ClaimCount(th)
  {
    if i < |th.held| then th.held[i] else th.phase.o
  }

  /** A thread claims a prefix of its plan, each time the mutex that the map has for the path. */
  ghost predicate ThreadOk(pathmap: map<Path, Id>, muxes: nat, th: Thread) {
    var plan := th.plan;
    && |th.held| <= |plan|
    && (th.phase.Idle? ==> th.held == [])
    && (th.phase.Claiming? || th.phase.Waiting? || th.phase.Announced? ==> |th.held| < |plan|)
    && (th.phase.Announced? ==> plan[|th.held|].write)
    && (th.phase.Inside? ==> |th.held| == |plan|)
    && (th.phase.Releasing? || th.phase.Dropping? ==> 0 < |th.held|)
    && (th.phase.Dropping? ==> th.phase.o == th.held[|th.held| - 1])
    && (forall i :: 0 <= i < |th.held| ==> th.held[i] < muxes)
    && (forall i :: 0 <= i < ClaimCount(th) ==> Mapped(pathmap, th, i))
  }

  ghost predicate Mapped(pathmap: map<Path, Id>, th: Thread, i: nat)
    requires i < ClaimCount(th) && i < |th.plan|
  {
    th.plan[i].path in pathmap && pathmap[th.plan[i].path] == MuxAt(th, i)
  }

  /** How often each token occurs among the threads. */
  type Counts = Token -> nat

  ghost function CountOf(ths: seq<Thread>): Counts {
    (k: Token) => Count(ths, k)
  }

  /** The reference counts are the numbers of claims, and no two paths share a mutex. */
  ghost predicate MapOk(pathmap: map<Path, Id>, muxes: seq<Mux>, c: Counts) {
    && (forall p :: p in pathmap <==> c(ClaimOf(p)) > 0)
    && (forall p :: p in pathmap ==> pathmap[p] < |muxes| && muxes[pathmap[p]].refcnt == c(ClaimOf(p)))
    && (forall p, q :: p in pathmap && q in pathmap && pathmap[p] == pathmap[q] ==> p == q)
  }

  /** The counts in a mutex are the numbers of threads that hold or have announced it;
      a written mutex has one holder. */
  ghost predicate HoldersOk(muxes: seq<Mux>, c: Counts) {
    && (forall o: Id :: o < |muxes| ==> MuxOk(muxes[o], c, o))
    && (forall o: Id :: o >= |muxes| ==> c(ReadOf(o)) == c(WriteOf(o)) == c(AnnounceOf(o)) == 0)
  }

  ghost predicate MuxOk(m: Mux, c: Counts, o: Id) {
    && m.readers == c(ReadOf(o)) && m.writers == c(WriteOf(o)) && m.announced == c(AnnounceOf(o))
    && m.writers <= 1 && (m.writers == 1 ==> m.readers == 0)
  }

  ghost predicate ThreadsOk(s: State) {
    forall t :: 0 <= t < |s.threads| ==> ThreadOk(s.pathmap, |s.muxes|, s.threads[t])
  }

  ghost predicate Inv(s: State) {
    && ThreadsOk(s)
    && MapOk(s.pathmap, s.muxes, CountOf(s.threads))
    && HoldersOk(s.muxes, CountOf(s.threads))
  }

  // ---------- preservation ----------

  /** Whatever a thread has claimed is in the map. */
  lemma ClaimsAreMapped(pathmap: map<Path, Id>, muxes: seq<Mux>, ths: seq<Thread>, t: nat, i: nat)
    requires MapOk(pathmap, muxes, CountOf(ths))
    requires t < |ths| && i < ClaimCount(ths[t]) <= |ths[t].plan|
    ensures ths[t].plan[i].path in pathmap
  {
    var k := ClaimOf(ths[t].plan[i].path);
    ClaimHas(ths[t].plan, ClaimCount(ths[t]), i);
    SumIncludes(Nums(ths, k), t);
    assert CountOf(ths)(k) > 0;
  }

  /** Thread t moved to th and the map kept its entries, except ones that nobody claims. */
  lemma KeepThreads(s: State, u: State, t: nat)
    requires ThreadsOk(s) && MapOk(u.pathmap, u.muxes, CountOf(u.threads))
    requires t < |s.threads| == |u.threads| && u.threads == s.threads[t := u.threads[t]]
    requires |s.muxes| <= |u.muxes| && forall p :: p in s.pathmap && p in u.pathmap ==> u.pathmap[p] == s.pathmap[p]
    requires ThreadOk(u.pathmap, |u.muxes|, u.threads[t])
    ensures ThreadsOk(u)
  {
    forall k | 0 <= k < |u.threads| && k != t ensures ThreadOk(u.pathmap, |u.muxes|, u.threads[k]) {
      var th := s.threads[k];
      assert ThreadOk(s.pathmap, |s.muxes|, th);
      forall i | 0 <= i < ClaimCount(th) ensures Mapped(u.pathmap, th, i) {
        ClaimsAreMapped(u.pathmap, u.muxes, u.threads, k, i);
        assert Mapped(s.pathmap, th, i);
      }
    }
  }

  /** The count of one token grew by n; all others stayed. */
  ghost predicate Grew(c: Counts, d: Counts, k: Token, n: int) {
    d(k) == c(k) + n && forall j :: j != k ==> d(j) == c(j)
  }

  lemma CountStep(ths: seq<Thread>, t: nat, th: Thread, k: Token)
    requires t < |ths|
    ensures CountOf(ths[t := th])(k) == CountOf(ths)(k) - Num(ths[t], k) + Num(th, k)
  {
    var ns := Nums(ths, k);
    assert Nums(ths[t := th], k) == ns[t := Num(th, k)];
    SumUpdate(ns, t, Num(th, k));
  }

  lemma CountChange(ths: seq<Thread>, t: nat, th: Thread, k: Token, n: int)
    requires t < |ths|
    requires Num(th, k) == Num(ths[t], k) + n
    requires forall j :: j != k ==> Num(th, j) == Num(ths[t], j)
    ensures Grew(CountOf(ths), CountOf(ths[t := th]), k, n)
  {
    forall j ensures CountOf(ths[t := th])(j) == CountOf(ths)(j) - Num(ths[t], j) + Num(th, j) {
      CountStep(ths, t, th, j);
    }
  }

  lemma ClaimNumStep(plan: seq<Acq>, n: nat, k: Token)
    requires n < |plan|
    ensures ClaimNum(plan, n + 1, k) == ClaimNum(plan, n, k) + if k == ClaimOf(plan[n].path) then 1 else 0
  {
  }

  lemma HeldNumStep(plan: seq<Acq>, held: seq<Id>, o: Id, k: Token)
    requires |held| < |plan|
    ensures HeldNum(plan, held + [o], k) ==
            HeldNum(plan, held, k) + if k == HeldToken(plan, |held|, o) then 1 else 0
  {
    assert (held + [o])[..|held|] == held;
  }

  // The thread's own side of each step.

  lemma ClaimTokens(th: Thread, o: Id, k: Token)
    requires th.phase.Claiming? && Next(th)
    ensures Num(th.(phase := Waiting(o)), k) ==
            Num(th, k) + if k == ClaimOf(th.plan[|th.held|].path) then 1 else 0
  {
    ClaimNumStep(th.plan, |th.held|, k);
  }

  lemma UnclaimTokens(th: Thread, o: Id, k: Token)
    requires th.phase.Releasing? && 0 < |th.held| <= |th.plan|
    ensures Num(th.(phase := Dropping(o)), k) ==
            Num(th, k) - if k == ClaimOf(th.plan[|th.held| - 1].path) then 1 else 0
  {
    ClaimNumStep(th.plan, |th.held| - 1, k);
  }

  lemma LockTokens(th: Thread, k: Token)
    requires (th.phase.Waiting? || th.phase.Announced?) && Next(th)
    ensures Num(Locked(th), k) ==
            Num(th, k) + (if k == HeldToken(th.plan, |th.held|, th.phase.o) then 1 else 0)
                       - (if th.phase.Announced? && k == AnnounceOf(th.phase.o) then 1 else 0)
  {
    HeldNumStep(th.plan, th.held, th.phase.o, k);
  }

  lemma DropTokens(th: Thread, k: Token)
    requires th.phase.Dropping? && 0 < |th.held| <= |th.plan|
    ensures
      var n := |th.held| - 1;
      Num(Dropped(th), k) == Num(th, k) - if k == HeldToken(th.plan, n, th.held[n]) then 1 else 0
  {
    var n := |th.held| - 1;
    assert th.held == th.held[..n] + [th.held[n]];
    HeldNumStep(th.plan, th.held[..n], th.held[n], k);
  }

  // The map's and the mutexes' side of each step.

  /** Only claims changed. */
  lemma HoldersUnclaimed(muxes: seq<Mux>, nuxes: seq<Mux>, c: Counts, d: Counts, p: Path, n: int)
    requires HoldersOk(muxes, c) && Grew(c, d, ClaimOf(p), n) && |muxes| <= |nuxes|
    requires forall o :: 0 <= o < |muxes| ==>
               nuxes[o].readers == muxes[o].readers && nuxes[o].writers == muxes[o].writers &&
               nuxes[o].announced == muxes[o].announced
    requires forall o :: |muxes| <= o < |nuxes| ==>
               nuxes[o].readers == nuxes[o].writers == nuxes[o].announced == 0
    ensures HoldersOk(nuxes, d)
  {
    forall o: Id | o < |nuxes| ensures MuxOk(nuxes[o], d, o) {
      assert o < |muxes| ==> MuxOk(muxes[o], c, o);
    }
  }

  /** No claims changed. */
  lemma MapUnclaimed(pathmap: map<Path, Id>, muxes: seq<Mux>, nuxes: seq<Mux>, c: Counts, d: Counts)
    requires MapOk(pathmap, muxes, c) && |nuxes| == |muxes|
    requires forall p :: d(ClaimOf(p)) == c(ClaimOf(p))
    requires forall o :: 0 <= o < |muxes| ==> nuxes[o].refcnt == muxes[o].refcnt
    ensures MapOk(pathmap, nuxes, d)
  {
  }

  lemma MapClaimed(pathmap: map<Path, Id>, muxes: seq<Mux>, c: Counts, d: Counts, p: Path)
    requires MapOk(pathmap, muxes, c) && Grew(c, d, ClaimOf(p), 1)
    ensures p in pathmap ==>
              pathmap[p] < |muxes| &&
              MapOk(pathmap, muxes[pathmap[p] := muxes[pathmap[p]].(refcnt := muxes[pathmap[p]].refcnt + 1)], d)
    ensures p !in pathmap ==> MapOk(pathmap[p := |muxes|], muxes + [Mux(1, 0, 0, 0)], d)
  {
  }

  lemma MapReleased(pathmap: map<Path, Id>, muxes: seq<Mux>, c: Counts, d: Counts, p: Path)
    requires MapOk(pathmap, muxes, c) && p in pathmap && Grew(c, d, ClaimOf(p), -1)
    ensures
      var o := pathmap[p];
      var m := muxes[o].(refcnt := muxes[o].refcnt - 1);
      MapOk(if m.refcnt == 0 then pathmap - {p} else pathmap, muxes[o := m], d)
  {
  }

  /** Mutex o changed as its own counts did. */
  lemma HoldersMoved(muxes: seq<Mux>, m: Mux, c: Counts, d: Counts, o: Id)
    requires HoldersOk(muxes, c) && o < |muxes| && MuxOk(m, d, o)
    requires forall j :: j != o ==>
               d(ReadOf(j)) == c(ReadOf(j)) && d(WriteOf(j)) == c(WriteOf(j)) && d(AnnounceOf(j)) == c(AnnounceOf(j))
    ensures HoldersOk(muxes[o := m], d)
  {
    var nuxes := muxes[o := m];
    forall j: Id | j < |muxes| ensures MuxOk(nuxes[j], d, j) {
      assert MuxOk(muxes[j], c, j);
    }
  }

  lemma PlanNotEmpty(r: Request)
    ensures Plan(r) != []
  {
  }

  lemma KeepPhase(s: State, t: nat, th: Thread)
    requires Inv(s) && t < |s.threads| && forall k :: Num(th, k) == Num(s.threads[t], k)
    requires ThreadOk(s.pathmap, |s.muxes|, th)
    ensures Inv(s.(threads := s.threads[t := th]))
  {
    var u := s.(threads := s.threads[t := th]);
    var c, d := CountOf(s.threads), CountOf(u.threads);
    CountChange(s.threads, t, th, ClaimOf([]), 0);
    MapUnclaimed(s.pathmap, s.muxes, s.muxes, c, d);
    HoldersUnclaimed(s.muxes, s.muxes, c, d, [], 0);
    KeepThreads(s, u, t);
  }

  lemma WaitingOk(pathmap: map<Path, Id>, muxes: nat, pathmap': map<Path, Id>, muxes': nat, th: Thread, o: Id)
    requires ThreadOk(pathmap, muxes, th) && th.phase.Claiming? && muxes <= muxes'
    requires forall q :: q in pathmap ==> q in pathmap' && pathmap'[q] == pathmap[q]
    requires th.plan[|th.held|].path in pathmap' && pathmap'[th.plan[|th.held|].path] == o
    ensures ThreadOk(pathmap', muxes', th.(phase := Waiting(o)))
  {
    var th' := th.(phase := Waiting(o));
    forall i | 0 <= i < ClaimCount(th') ensures Mapped(pathmap', th', i) {
      if i < |th.held| { assert Mapped(pathmap, th, i); }
    }
  }

  lemma DroppingOk(pathmap: map<Path, Id>, muxes: nat, pathmap': map<Path, Id>, th: Thread)
    requires ThreadOk(pathmap, muxes, th) && th.phase.Releasing?
    requires forall q :: q in pathmap && q in pathmap' ==> pathmap'[q] == pathmap[q]
    requires forall i :: 0 <= i < |th.held| - 1 ==> th.plan[i].path in pathmap'
    ensures
      var p := th.plan[|th.held| - 1].path;
      p in pathmap && ThreadOk(pathmap', muxes, th.(phase := Dropping(pathmap[p])))
  {
    var n := |th.held| - 1;
    assert Mapped(pathmap, th, n);
    var th' := th.(phase := Dropping(pathmap[th.plan[n].path]));
    forall i | 0 <= i < ClaimCount(th') ensures Mapped(pathmap', th', i) {
      assert Mapped(pathmap, th, i);
    }
  }

  lemma CountClaim(s: State, t: nat)
    requires Inv(s) && t < |s.threads| && s.threads[t].phase.Claiming? && Next(s.threads[t])
    ensures Grew(CountOf(s.threads), CountOf(DoClaim(s, t).threads),
                 ClaimOf(s.threads[t].plan[|s.threads[t].held|].path), 1)
  {
    var th := s.threads[t];
    var p := th.plan[|th.held|].path;
    var o := if p in s.pathmap then s.pathmap[p] else |s.muxes|;
    var th' := th.(phase := Waiting(o));
    forall k ensures Num(th', k) == Num(th, k) + if k == ClaimOf(p) then 1 else 0 { ClaimTokens(th, o, k); }
    CountChange(s.threads, t, th', ClaimOf(p), 1);
  }

  lemma ClaimMuxes(s: State, t: nat, c: Counts, d: Counts)
    requires t < |s.threads| && Next(s.threads[t])
    requires MapOk(s.pathmap, s.muxes, c) && HoldersOk(s.muxes, c)
    requires Grew(c, d, ClaimOf(s.threads[t].plan[|s.threads[t].held|].path), 1)
    ensures MapOk(DoClaim(s, t).pathmap, DoClaim(s, t).muxes, d) && HoldersOk(DoClaim(s, t).muxes, d)
  {
    var p := s.threads[t].plan[|s.threads[t].held|].path;
    MapClaimed(s.pathmap, s.muxes, c, d, p);
    HoldersUnclaimed(s.muxes, DoClaim(s, t).muxes, c, d, p, 1);
  }

  lemma ClaimThread(s: State, t: nat, c: Counts)
    requires ThreadsOk(s) && MapOk(s.pathmap, s.muxes, c)
    requires t < |s.threads| && s.threads[t].phase.Claiming? && Next(s.threads[t])
    ensures var u := DoClaim(s, t); ThreadOk(u.pathmap, |u.muxes|, u.threads[t])
  {
    var u, th := DoClaim(s, t), s.threads[t];
    assert ThreadOk(s.pathmap, |s.muxes|, th);
    WaitingOk(s.pathmap, |s.muxes|, u.pathmap, |u.muxes|, th, u.threads[t].phase.o);
  }

  lemma ClaimShape(s: State, t: nat, c: Counts)
    requires t < |s.threads| && Next(s.threads[t]) && MapOk(s.pathmap, s.muxes, c)
    ensures
      var u := DoClaim(s, t);
      && |u.threads| == |s.threads| && u.threads == s.threads[t := u.threads[t]] && |s.muxes| <= |u.muxes|
      && forall p :: p in s.pathmap && p in u.pathmap ==> u.pathmap[p] == s.pathmap[p]
  {
  }

  lemma KeepClaim(s: State, t: nat)
    requires Inv(s) && t < |s.threads| && s.threads[t].phase.Claiming? && Next(s.threads[t])
    ensures Inv(DoClaim(s, t))
  {
    var u := DoClaim(s, t);
    CountClaim(s, t);
    ClaimMuxes(s, t, CountOf(s.threads), CountOf(u.threads));
    ClaimThread(s, t, CountOf(s.threads));
    ClaimShape(s, t, CountOf(s.threads));
    KeepThreads(s, u, t);
  }

  ghost predicate CanUnclaim(s: State, t: nat) {
    && t < |s.threads| && s.threads[t].phase.Releasing? && 0 < |s.threads[t].held| <= |s.threads[t].plan|
    && var p := s.threads[t].plan[|s.threads[t].held| - 1].path;
       p in s.pathmap && s.pathmap[p] < |s.muxes|
  }

  lemma CountUnclaim(s: State, t: nat)
    requires CanUnclaim(s, t)
    ensures Grew(CountOf(s.threads), CountOf(DoUnclaim(s, t).threads),
                 ClaimOf(s.threads[t].plan[|s.threads[t].held| - 1].path), -1)
  {
    var th, th' := s.threads[t], DoUnclaim(s, t).threads[t];
    var p := th.plan[|th.held| - 1].path;
    forall k ensures Num(th', k) == Num(th, k) - if k == ClaimOf(p) then 1 else 0 {
      UnclaimTokens(th, s.pathmap[p], k);
    }
    CountChange(s.threads, t, th', ClaimOf(p), -1);
  }

  lemma UnclaimMap(s: State, t: nat, c: Counts, d: Counts)
    requires CanUnclaim(s, t) && MapOk(s.pathmap, s.muxes, c)
    requires Grew(c, d, ClaimOf(s.threads[t].plan[|s.threads[t].held| - 1].path), -1)
    ensures MapOk(DoUnclaim(s, t).pathmap, DoUnclaim(s, t).muxes, d)
  {
    MapReleased(s.pathmap, s.muxes, c, d, s.threads[t].plan[|s.threads[t].held| - 1].path);
  }

  lemma UnclaimHolders(s: State, t: nat, c: Counts, d: Counts)
    requires CanUnclaim(s, t) && HoldersOk(s.muxes, c)
    requires Grew(c, d, ClaimOf(s.threads[t].plan[|s.threads[t].held| - 1].path), -1)
    ensures HoldersOk(DoUnclaim(s, t).muxes, d)
  {
    HoldersUnclaimed(s.muxes, DoUnclaim(s, t).muxes, c, d, s.threads[t].plan[|s.threads[t].held| - 1].path, -1);
  }

  lemma KeepUnclaim(s: State, t: nat)
    requires Inv(s) && CanUnclaim(s, t)
    ensures Inv(DoUnclaim(s, t))
  {
    var u, th := DoUnclaim(s, t), s.threads[t];
    CountUnclaim(s, t);
    UnclaimMap(s, t, CountOf(s.threads), CountOf(u.threads));
    UnclaimHolders(s, t, CountOf(s.threads), CountOf(u.threads));
    forall i | 0 <= i < |th.held| - 1 ensures th.plan[i].path in u.pathmap {
      ClaimsAreMapped(u.pathmap, u.muxes, u.threads, t, i);
    }
    assert ThreadOk(s.pathmap, |s.muxes|, th);
    DroppingOk(s.pathmap, |s.muxes|, u.pathmap, th);
    KeepThreads(s, u, t);
  }

  ghost function ShiftOf(x: Shift, k: Token): int {
    if k == ReadOf(x.o) then x.dr else if k == WriteOf(x.o) then x.dw else if k == AnnounceOf(x.o) then x.da else 0
  }

  ghost predicate NumsShift(th: Thread, th': Thread, x: Shift) {
    forall k :: Num(th', k) == Num(th, k) + ShiftOf(x, k)
  }

  ghost predicate CountsShift(c: Counts, d: Counts, x: Shift) {
    forall k :: d(k) == c(k) + ShiftOf(x, k)
  }

  lemma ShiftCounts(ths: seq<Thread>, t: nat, th: Thread, x: Shift)
    requires t < |ths| && NumsShift(ths[t], th, x)
    ensures CountsShift(CountOf(ths), CountOf(ths[t := th]), x)
  {
    forall k ensures CountOf(ths[t := th])(k) == CountOf(ths)(k) + ShiftOf(x, k) { CountStep(ths, t, th, k); }
  }

  lemma ShiftMuxes(pathmap: map<Path, Id>, muxes: seq<Mux>, c: Counts, d: Counts, x: Shift)
    requires MapOk(pathmap, muxes, c) && HoldersOk(muxes, c) && x.o < |muxes|
    requires CountsShift(c, d, x) && x.Fits(muxes[x.o])
    ensures
      var nuxes := muxes[x.o := x.Moved(muxes[x.o])];
      MapOk(pathmap, nuxes, d) && HoldersOk(nuxes, d)
  {
    MapUnclaimed(pathmap, muxes, muxes[x.o := x.Moved(muxes[x.o])], c, d);
    assert MuxOk(muxes[x.o], c, x.o);
    HoldersMoved(muxes, x.Moved(muxes[x.o]), c, d, x.o);
  }

  /** A step on one mutex that claims nothing and gives nothing up. */
  lemma KeepSetMux(s: State, t: nat, th: Thread, x: Shift)
    requires Inv(s) && t < |s.threads| && x.o < |s.muxes| && ThreadOk(s.pathmap, |s.muxes|, th)
    requires NumsShift(s.threads[t], th, x) && x.Fits(s.muxes[x.o])
    ensures Inv(ShiftMux(s, t, th, x))
  {
    var u := ShiftMux(s, t, th, x);
    ShiftCounts(s.threads, t, th, x);
    ShiftMuxes(s.pathmap, s.muxes, CountOf(s.threads), CountOf(u.threads), x);
    KeepThreads(s, u, t);
  }

  lemma AnnouncedOk(pathmap: map<Path, Id>, muxes: nat, th: Thread)
    requires ThreadOk(pathmap, muxes, th) && th.phase.Waiting? && th.plan[|th.held|].write
    ensures
      var th' := th.(phase := Announced(th.phase.o));
      ThreadOk(pathmap, muxes, th') && NumsShift(th, th', Shift(th.phase.o, 0, 0, 1))
  {
    var th' := th.(phase := Announced(th.phase.o));
    forall i | 0 <= i < ClaimCount(th') ensures Mapped(pathmap, th', i) {
      assert Mapped(pathmap, th, i);
    }
  }

  lemma LockedOk(pathmap: map<Path, Id>, muxes: nat, th: Thread)
    requires ThreadOk(pathmap, muxes, th) && (th.phase.Waiting? || th.phase.Announced?) && th.phase.o < muxes
    ensures ThreadOk(pathmap, muxes, Locked(th))
  {
    var th' := Locked(th);
    forall i | 0 <= i < ClaimCount(th') ensures Mapped(pathmap, th', i) {
      assert Mapped(pathmap, th, i);
    }
  }

  lemma LockedShift(th: Thread)
    requires (th.phase.Announced? || th.phase.Waiting?) && Next(th) &&
        (th.phase.Announced? <==> th.plan[|th.held|].write)
    ensures NumsShift(th, Locked(th), LockShift(th))
  {
    var x := LockShift(th);
    forall k ensures Num(Locked(th), k) == Num(th, k) + ShiftOf(x, k) { LockTokens(th, k); }
  }

  lemma DroppedOk(pathmap: map<Path, Id>, muxes: nat, th: Thread)
    requires ThreadOk(pathmap, muxes, th) && th.phase.Dropping?
    ensures ThreadOk(pathmap, muxes, Dropped(th))
  {
    var th' := Dropped(th);
    forall i | 0 <= i < ClaimCount(th') ensures Mapped(pathmap, th', i) {
      assert Mapped(pathmap, th, i);
    }
  }

  lemma DroppedShift(th: Thread)
    requires th.phase.Dropping? && 0 < |th.held| <= |th.plan| && th.phase.o == th.held[|th.held| - 1]
    ensures NumsShift(th, Dropped(th), DropShift(th))
  {
    forall k ensures Num(Dropped(th), k) == Num(th, k) + ShiftOf(DropShift(th), k) { DropTokens(th, k); }
  }

  /** Whoever waits for a mutex waits for one that exists. */
  lemma WaitsForMux(s: State, t: nat)
    requires Inv(s) && t < |s.threads| && (s.threads[t].phase.Waiting? || s.threads[t].phase.Announced?)
    ensures s.threads[t].phase.o < |s.muxes|
  {
    var th := s.threads[t];
    assert ThreadOk(s.pathmap, |s.muxes|, th);
    assert Mapped(s.pathmap, th, |th.held|);
  }

  /** Every step keeps the invariant. */
  lemma Keep(pol: Policy, s: State, t: nat, a: Act)
    requires Inv(s) && Enabled(pol, s, t, a)
    ensures Inv(Apply(pol, s, t, a))
  {
    match a
    case Start(r) => KeepStart(s, t, r);
    case Claim => KeepClaim(s, t);
    case Announce => KeepAnnounce(s, t);
    case Lock => KeepLock(s, t);
    case ReadLock => KeepLock(s, t);
    case Leave => KeepLeave(s, t);
    case Unclaim => KeepUnclaim(s, t);
    case Drop => KeepDrop(s, t);
  }

  lemma KeepStart(s: State, t: nat, r: Request)
    requires Inv(s) && t < |s.threads| && s.threads[t].phase.Idle?
    ensures Inv(s.(threads := s.threads[t := Thread(r, Plan(r), [], Claiming)]))
  {
    assert ThreadOk(s.pathmap, |s.muxes|, s.threads[t]);
    PlanNotEmpty(r);
    KeepPhase(s, t, Thread(r, Plan(r), [], Claiming));
  }

  lemma KeepAnnounce(s: State, t: nat)
    requires Inv(s) && t < |s.threads| && s.threads[t].phase.Waiting?
    requires var th := s.threads[t]; Next(th) && th.phase.o < |s.muxes| && th.plan[|th.held|].write
    ensures var th := s.threads[t]; Inv(ShiftMux(s, t, th.(phase := Announced(th.phase.o)), Shift(th.phase.o, 0, 0, 1)))
  {
    var th := s.threads[t];
    assert ThreadOk(s.pathmap, |s.muxes|, th);
    AnnouncedOk(s.pathmap, |s.muxes|, th);
    assert MuxOk(s.muxes[th.phase.o], CountOf(s.threads), th.phase.o);
    KeepSetMux(s, t, th.(phase := Announced(th.phase.o)), Shift(th.phase.o, 0, 0, 1));
  }

  /** What a thread holds is counted. */
  lemma HeldIsCounted(ths: seq<Thread>, t: nat, i: nat)
    requires t < |ths| && i < |ths[t].held| <= |ths[t].plan|
    ensures CountOf(ths)(HeldToken(ths[t].plan, i, ths[t].held[i])) >= 1
  {
    var k := HeldToken(ths[t].plan, i, ths[t].held[i]);
    HeldHas(ths[t].plan, ths[t].held, i);
    SumIncludes(Nums(ths, k), t);
    assert Nums(ths, k)[t] >= 1;
  }

  lemma KeepLock(s: State, t: nat)
    requires Inv(s) && t < |s.threads| && (s.threads[t].phase.Announced? || s.threads[t].phase.Waiting?)
    requires var th := s.threads[t];
             && Next(th) && th.phase.o < |s.muxes| && (th.phase.Announced? <==> th.plan[|th.held|].write)
             && s.muxes[th.phase.o].writers == 0 && (th.phase.Announced? ==> s.muxes[th.phase.o].readers == 0)
    ensures Inv(ShiftMux(s, t, Locked(s.threads[t]), LockShift(s.threads[t])))
  {
    var th := s.threads[t];
    assert ThreadOk(s.pathmap, |s.muxes|, th);
    LockedOk(s.pathmap, |s.muxes|, th);
    LockedShift(th);
    KeepSetMux(s, t, Locked(th), LockShift(th));
  }

  lemma KeepDrop(s: State, t: nat)
    requires Inv(s) && t < |s.threads| && s.threads[t].phase.Dropping?
    requires var th := s.threads[t]; 0 < |th.held| <= |th.plan| && th.phase.o < |s.muxes|
    ensures Inv(ShiftMux(s, t, Dropped(s.threads[t]), DropShift(s.threads[t])))
  {
    var th := s.threads[t];
    assert ThreadOk(s.pathmap, |s.muxes|, th);
    DroppedOk(s.pathmap, |s.muxes|, th);
    DroppedShift(th);
    HeldIsCounted(s.threads, t, |th.held| - 1);
    assert MuxOk(s.muxes[th.phase.o], CountOf(s.threads), th.phase.o);
    KeepSetMux(s, t, Dropped(th), DropShift(th));
  }

  lemma KeepLeave(s: State, t: nat)
    requires Inv(s) && t < |s.threads| && s.threads[t].phase.Inside? && s.threads[t].plan != []
    ensures Inv(s.(threads := s.threads[t := s.threads[t].(phase := Releasing)]))
  {
    var th := s.threads[t];
    assert ThreadOk(s.pathmap, |s.muxes|, th);
    var th' := th.(phase := Releasing);
    forall i | 0 <= i < ClaimCount(th') ensures Mapped(s.pathmap, th', i) { assert Mapped(s.pathmap, th, i); }
    KeepPhase(s, t, th');
  }
}
