/** Client operations as the code runs them: the path of an open node is read, then its key is
    locked, then a record with the node's path is put at that key. Nothing reads the path again under
    the lock, so a rename that completes in between leaves the operation at an outdated key.
 */
module StaleKeys {
  import opened Paths
  import opened PrefixScan
  import opened NodeIndex
  import Runs

  /** A client thread that works on ino i with the key that it computed from the path it read. */
  datatype Phase = Idle | Chosen(i: Ino, k: Path) | Locked(i: Ino, k: Path)

  /** The index, the paths of the open nodes, and the client threads. */
  datatype State<A> = State(idx: map<Ino, Path>, cat: map<Path, Rec<A>>, open: map<Ino, Path>, threads: seq<Phase>)

  datatype Step<A> =
    | OpenFresh(i: Ino, path: Path)
    | OpenKnown(k: Path)
    | CloseNode(i: Ino)
    | ReadPath(t: nat, i: Ino)
    | LockPath(t: nat)
    | Act(t: nat, attrs: A)
    | RenameTo(oldpath: Path, newpath: Path, ks: seq<Path>)

  // ---------- steps ----------

  /** Sections of these keys exclude one another. */
  predicate Conflict(a: Path, b: Path) {
    HasPrefix(a, b) || HasPrefix(b, a)
  }

  ghost predicate Free<A>(s: State<A>, k: Path) {
    forall u :: 0 <= u < |s.threads| && s.threads[u].Locked? ==> !Conflict(s.threads[u].k, k)
  }

  /** No thread works on the node; one that does holds a reference to it. */
  ghost predicate Unused<A>(s: State<A>, i: Ino) {
    forall u :: 0 <= u < |s.threads| && !s.threads[u].Idle? ==> s.threads[u].i != i
  }

  ghost function Put<A>(s: State<A>, i: Ino, k: Path, attrs: A): State<A>
    requires i in s.open
  {
    s.(idx := s.idx[i := k], cat := s.cat[k := Rec(i, s.open[i], attrs)])
  }

  ghost predicate CanRename<A>(fold: nat -> nat, s: State<A>, oldpath: Path, newpath: Path, ks: seq<Path>) {
    var k, newk := KeyOf(fold, oldpath), KeyOf(fold, newpath);
    && k != newk && Movable(Buckets(s.idx, s.cat), ks, k, newk) && Free(s, k) && Free(s, newk)
    && forall j :: j in s.open ==> !HasPrefix(KeyOf(fold, s.open[j]), newk)
  }

  /** A rename under its two locks, as the transaction leaves the index and the open nodes. */
  ghost function Renaming<A>(fold: nat -> nat, s: State<A>, oldpath: Path, newpath: Path, ks: seq<Path>): State<A>
    requires CanRename(fold, s, oldpath, newpath, ks)
  {
    var b := MoveAll(Buckets(s.idx, s.cat), ks, |ks|, KeyOf(fold, oldpath), KeyOf(fold, newpath), oldpath, newpath);
    s.(idx := b.idx, cat := b.cat, open := OpenMoved(s.cat, s.open, ks, oldpath, newpath))
  }

  ghost predicate Enabled<A>(fold: nat -> nat, s: State<A>, step: Step<A>) {
    match step
    case OpenFresh(i, path) => i !in s.open && i !in s.idx && KeyOf(fold, path) !in s.cat && Unused(s, i)
    case OpenKnown(k) => k in s.cat && s.cat[k].ino !in s.open && Unused(s, s.cat[k].ino)
    case CloseNode(i) => i in s.open && Unused(s, i)
    case ReadPath(t, i) => t < |s.threads| && s.threads[t].Idle? && i in s.open
    case LockPath(t) => t < |s.threads| && s.threads[t].Chosen? && Free(s, s.threads[t].k)
    case Act(t, _) => t < |s.threads| && s.threads[t].Locked? && s.threads[t].i in s.open
    case RenameTo(oldpath, newpath, ks) => CanRename(fold, s, oldpath, newpath, ks)
  }

  /** openNode makes a new node for a path that has no record, whatever is open. */
  ghost function After<A>(fold: nat -> nat, s: State<A>, step: Step<A>): State<A>
    requires Enabled(fold, s, step)
  {
    match step
    case OpenFresh(i, path) => s.(open := s.open[i := path])
    case OpenKnown(k) => s.(open := s.open[s.cat[k].ino := s.cat[k].path])
    case CloseNode(i) => s.(open := s.open - {i})
    case ReadPath(t, i) => s.(threads := s.threads[t := Chosen(i, KeyOf(fold, s.open[i]))])
    case LockPath(t) => s.(threads := s.threads[t := Locked(s.threads[t].i, s.threads[t].k)])
    case Act(t, attrs) => Put(s, s.threads[t].i, s.threads[t].k, attrs).(threads := s.threads[t := Idle])
    case RenameTo(oldpath, newpath, ks) => Renaming(fold, s, oldpath, newpath, ks)
  }

  ghost predicate IsStep<A>(fold: nat -> nat, s: State<A>, step: Step<A>, u: State<A>) {
    Enabled(fold, s, step) && u == After(fold, s, step)
  }

  /** The rename of the index object is such a step. */
  method RenameIsStep<A>(ix: Index<A>, keys: seq<Path>, oldpath: Path, newpath: Path, deleted: bool,
                         reply: StorageReply, ghost threads: seq<Phase>)
    returns (result: RenameResult, ghost ks: seq<Path>)
    requires ix.Valid() && Sorted(keys) && (forall x :: x in keys <==> x in ix.cat)
    requires ROOT <= KeyOf(ix.fold, oldpath) && ROOT <= KeyOf(ix.fold, newpath)
    requires KeyOf(ix.fold, oldpath) != KeyOf(ix.fold, newpath)
    requires var s := State(ix.idx, ix.cat, ix.open, threads);
             && Free(s, KeyOf(ix.fold, oldpath)) && Free(s, KeyOf(ix.fold, newpath))
             && forall j :: j in ix.open ==> !HasPrefix(KeyOf(ix.fold, ix.open[j]), KeyOf(ix.fold, newpath))
    modifies ix`idx, ix`cat, ix`open
    ensures result == RenameOutcome(KeyOf(ix.fold, oldpath), KeyOf(ix.fold, newpath), deleted, reply)
    ensures result == Done ==>
              IsStep(ix.fold, old(State(ix.idx, ix.cat, ix.open, threads)), RenameTo(oldpath, newpath, ks),
                     State(ix.idx, ix.cat, ix.open, threads))
  {
    result, ks := ix.Rename(keys, oldpath, newpath, deleted, reply);
  }

  // ---------- what has to hold ----------

  /** The index is one-to-one and keyed by path; open nodes agree with it, own their keys and are apart. */
  ghost predicate Valid<A>(fold: nat -> nat, s: State<A>) {
    && OneToOne(s.idx, s.cat) && KeysOfPaths(fold, s.cat)
    && (forall j :: j in s.open && j in s.idx ==> s.open[j] == s.cat[s.idx[j]].path)
    && (forall j :: j in s.open ==> Owns(fold, s, j))
    && (forall i, j :: i in s.open && j in s.open && i != j ==> KeyOf(fold, s.open[i]) != KeyOf(fold, s.open[j]))
  }

  ghost predicate Owns<A>(fold: nat -> nat, s: State<A>, j: Ino)
    requires j in s.open
  {
    KeyOf(fold, s.open[j]) in s.cat ==> s.cat[KeyOf(fold, s.open[j])].ino == j
  }

  /** The thread has locked the key that its node has. */
  ghost predicate Fresh<A>(fold: nat -> nat, s: State<A>, t: nat)
    requires t < |s.threads|
  {
    s.threads[t].Locked? && s.threads[t].i in s.open ==> KeyOf(fold, s.open[s.threads[t].i]) == s.threads[t].k
  }

  /** An open node that is catalogued is at the key of its path. */
  lemma OpenAtKey<A>(fold: nat -> nat, s: State<A>, i: Ino)
    requires Valid(fold, s) && i in s.open && i in s.idx
    ensures s.idx[i] == KeyOf(fold, s.open[i])
  {
  }

  // ---------- acting ----------

  /** Putting the record keeps everything valid exactly if the key is the one that the node has. For a
      catalogued node any other key leaves an index that is not one-to-one. */
  lemma PutValidExact<A>(fold: nat -> nat, s: State<A>, i: Ino, k: Path, attrs: A)
    requires Valid(fold, s) && i in s.open
    ensures Valid(fold, Put(s, i, k, attrs)) <==> k == KeyOf(fold, s.open[i])
    ensures i in s.idx && k != KeyOf(fold, s.open[i]) ==>
              !OneToOne(Put(s, i, k, attrs).idx, Put(s, i, k, attrs).cat)
  {
    var u, r := Put(s, i, k, attrs), Rec(i, s.open[i], attrs);
    PutExact(s.idx, s.cat, r, k);
    if i in s.idx { OpenAtKey(fold, s, i); }
    if k == KeyOf(fold, s.open[i]) {
      assert Owns(fold, s, i);
      assert OneToOne(u.idx, u.cat);
      forall j | j in u.open && j in u.idx ensures u.open[j] == u.cat[u.idx[j]].path {
        if j != i { OpenAtKey(fold, s, j); }
      }
      forall j | j in u.open ensures Owns(fold, u, j) { assert Owns(fold, s, j); }
    } else {
      assert u.cat[k] == r;
    }
  }

  // ---------- renaming ----------

  /** The transaction keeps the index one-to-one and moves the scanned records. */
  lemma RenamingMoves<A>(fold: nat -> nat, s: State<A>, oldpath: Path, newpath: Path, ks: seq<Path>)
    requires CanRename(fold, s, oldpath, newpath, ks)
    ensures var u := Renaming(fold, s, oldpath, newpath, ks);
            && OneToOne(u.idx, u.cat) && u.threads == s.threads && u.open.Keys == s.open.Keys
            && Renamed(s.cat, u.cat, ks, KeyOf(fold, oldpath), KeyOf(fold, newpath), oldpath, newpath)
  {
    AllMoved(Buckets(s.idx, s.cat), ks, KeyOf(fold, oldpath), KeyOf(fold, newpath), oldpath, newpath);
  }

  lemma MovedKey<A>(fold: nat -> nat, s: State<A>, oldpath: Path, newpath: Path, ks: seq<Path>, j: Ino)
    requires Valid(fold, s) && CanRename(fold, s, oldpath, newpath, ks) && j in s.open
    ensures
      var k, newk, x := KeyOf(fold, oldpath), KeyOf(fold, newpath), KeyOf(fold, s.open[j]);
      var y := OpenMoved(s.cat, s.open, ks, oldpath, newpath)[j];
      if InoScanned(s.cat, ks, j)
      then HasPrefix(x, k) && HasPrefix(KeyOf(fold, y), newk) && KeyOf(fold, y) == Image(k, newk, x)
      else y == s.open[j]
  {
    if InoScanned(s.cat, ks, j) {
      var n :| 0 <= n < |ks| && s.cat[ks[n]].ino == j;
      assert s.idx[j] == ks[n];
      OpenAtKey(fold, s, j);
      KeyOfMoved(fold, oldpath, newpath, s.open[j]);
      ImageIsBelow(KeyOf(fold, oldpath), KeyOf(fold, newpath), ks[n]);
    }
  }

  /** The keys of open nodes stay apart. */
  lemma StayApart<A>(fold: nat -> nat, s: State<A>, oldpath: Path, newpath: Path, ks: seq<Path>, i: Ino, j: Ino)
    requires Valid(fold, s) && CanRename(fold, s, oldpath, newpath, ks) && i in s.open && j in s.open && i != j
    ensures var open := OpenMoved(s.cat, s.open, ks, oldpath, newpath); KeyOf(fold, open[i]) != KeyOf(fold, open[j])
  {
    var k, newk := KeyOf(fold, oldpath), KeyOf(fold, newpath);
    MovedKey(fold, s, oldpath, newpath, ks, i);
    MovedKey(fold, s, oldpath, newpath, ks, j);
    if InoScanned(s.cat, ks, i) && InoScanned(s.cat, ks, j) {
      ImageBack(k, newk, KeyOf(fold, s.open[i]));
      ImageBack(k, newk, KeyOf(fold, s.open[j]));
    }
  }

  lemma StillOwns<A>(fold: nat -> nat, s: State<A>, oldpath: Path, newpath: Path, ks: seq<Path>, u: State<A>, j: Ino)
    requires Valid(fold, s) && CanRename(fold, s, oldpath, newpath, ks) && u == Renaming(fold, s, oldpath, newpath, ks)
    requires j in s.open && OneToOne(u.idx, u.cat) && KeysOfPaths(fold, u.cat)
    requires j in u.idx ==> u.open[j] == u.cat[u.idx[j]].path
    ensures Owns(fold, u, j)
  {
    var k, newk := KeyOf(fold, oldpath), KeyOf(fold, newpath);
    RenamingMoves(fold, s, oldpath, newpath, ks);
    MovedKey(fold, s, oldpath, newpath, ks, j);
    var x := KeyOf(fold, u.open[j]);
    if j !in u.idx && x in u.cat {
      assert KeptAt(s.cat, u.cat, ks, k, newk, x);
      NotCatalogued(fold, s, oldpath, newpath, ks, u, j);
      assert Owns(fold, s, j);
    }
  }

  /** A node that is not catalogued afterwards was not scanned, and its key is no image. */
  lemma NotCatalogued<A>(fold: nat -> nat, s: State<A>, oldpath: Path, newpath: Path, ks: seq<Path>, u: State<A>,
                         j: Ino)
    requires Valid(fold, s) && CanRename(fold, s, oldpath, newpath, ks) && u == Renaming(fold, s, oldpath, newpath, ks)
    requires j in s.open && j !in u.idx
    ensures !InoScanned(s.cat, ks, j)
    ensures !IsImage(ks, KeyOf(fold, oldpath), KeyOf(fold, newpath), KeyOf(fold, s.open[j]))
  {
    var k, newk := KeyOf(fold, oldpath), KeyOf(fold, newpath);
    RenamingMoves(fold, s, oldpath, newpath, ks);
    forall n | 0 <= n < |ks| ensures s.cat[ks[n]].ino != j && Image(k, newk, ks[n]) != KeyOf(fold, s.open[j]) {
      assert MovedAt(s.cat, u.cat, ks, n, k, newk, oldpath, newpath);
      assert u.cat[Image(k, newk, ks[n])].ino == s.cat[ks[n]].ino;
      ImageIsBelow(k, newk, ks[n]);
    }
  }

  lemma RenameKeepsValid<A>(fold: nat -> nat, s: State<A>, oldpath: Path, newpath: Path, ks: seq<Path>)
    requires Valid(fold, s) && CanRename(fold, s, oldpath, newpath, ks)
    ensures Valid(fold, Renaming(fold, s, oldpath, newpath, ks))
  {
    var u := Renaming(fold, s, oldpath, newpath, ks);
    var k, newk := KeyOf(fold, oldpath), KeyOf(fold, newpath);
    RenamingMoves(fold, s, oldpath, newpath, ks);
    RenameKeepsKeys(fold, s.cat, u.cat, ks, oldpath, newpath);
    forall j | j in u.open && j in u.idx ensures u.open[j] == u.cat[u.idx[j]].path {
      RenamedIno(s.idx, s.cat, u.idx, u.cat, ks, k, newk, oldpath, newpath, j);
    }
    forall j | j in u.open ensures Owns(fold, u, j) { StillOwns(fold, s, oldpath, newpath, ks, u, j); }
    forall i, j | i in u.open && j in u.open && i != j ensures KeyOf(fold, u.open[i]) != KeyOf(fold, u.open[j]) {
      StayApart(fold, s, oldpath, newpath, ks, i, j);
    }
  }

  /** A rename neither makes a locked key outdated nor makes an outdated one current again. */
  lemma RenameKeepsFresh<A>(fold: nat -> nat, s: State<A>, oldpath: Path, newpath: Path, ks: seq<Path>, t: nat)
    requires Valid(fold, s) && CanRename(fold, s, oldpath, newpath, ks) && t < |s.threads|
    ensures Fresh(fold, s, t) <==> Fresh(fold, Renaming(fold, s, oldpath, newpath, ks), t)
  {
    if s.threads[t].Locked? && s.threads[t].i in s.open {
      MovedKey(fold, s, oldpath, newpath, ks, s.threads[t].i);
    }
  }

  // ---------- opening ----------

  /** Nobody else has a node at the key. */
  ghost predicate Apart<A>(fold: nat -> nat, s: State<A>, k: Path) {
    forall j :: j in s.open ==> KeyOf(fold, s.open[j]) != k
  }

  /** A fresh open keeps everything valid exactly if no other node has the key. */
  lemma OpenFreshExact<A>(fold: nat -> nat, s: State<A>, i: Ino, path: Path)
    requires Valid(fold, s) && Enabled(fold, s, OpenFresh(i, path))
    ensures Valid(fold, After(fold, s, OpenFresh(i, path))) <==> Apart(fold, s, KeyOf(fold, path))
  {
    var u := After(fold, s, OpenFresh(i, path));
    if Apart(fold, s, KeyOf(fold, path)) {
      forall j | j in u.open ensures Owns(fold, u, j) { assert j != i ==> Owns(fold, s, j); }
    } else {
      var j :| j in s.open && KeyOf(fold, s.open[j]) == KeyOf(fold, path);
      assert u.open[j] == s.open[j] && u.open[i] == path;
    }
  }

  lemma OpenCloseKeep<A>(fold: nat -> nat, s: State<A>, step: Step<A>)
    requires Valid(fold, s) && Enabled(fold, s, step) && (step.OpenKnown? || step.CloseNode?)
    ensures Valid(fold, After(fold, s, step))
  {
    var u := After(fold, s, step);
    forall j | j in s.open ensures Owns(fold, s, j) {}
    forall j | j in u.open ensures Owns(fold, u, j) {}
  }

  /** Any record can be opened whose node is not open, and any node closed that no thread works on. */
  lemma OpenCloseCan<A>(fold: nat -> nat, s: State<A>, k: Path, i: Ino)
    ensures k in s.cat && s.cat[k].ino !in s.open && Unused(s, s.cat[k].ino) ==>
              && Enabled(fold, s, OpenKnown(k))
              && After(fold, s, OpenKnown(k)) == s.(open := s.open[s.cat[k].ino := s.cat[k].path])
    ensures i in s.open && Unused(s, i) ==>
              Enabled(fold, s, CloseNode(i)) && After(fold, s, CloseNode(i)) == s.(open := s.open - {i})
  {
  }

  // ---------- runs ----------

  ghost predicate ActsAlone<A>(step: Step<A>, t: nat) {
    (step.ReadPath? || step.LockPath? || step.Act?) && step.t == t
  }

  /** Steps of others leave a locked key as current or as outdated as it was. */
  lemma FreshStable<A>(fold: nat -> nat, s: State<A>, step: Step<A>, u: State<A>, t: nat)
    requires Valid(fold, s) && IsStep(fold, s, step, u) && t < |s.threads| && !ActsAlone(step, t)
    ensures t < |u.threads| && u.threads[t] == s.threads[t]
    ensures Fresh(fold, s, t) <==> Fresh(fold, u, t)
  {
    match step
    case RenameTo(oldpath, newpath, ks) => RenameKeepsFresh(fold, s, oldpath, newpath, ks, t);
    case _ =>
  }

  ghost predicate IsRun<A>(fold: nat -> nat, ss: seq<State<A>>, steps: seq<Step<A>>) {
    |ss| == |steps| + 1 && forall n :: 0 <= n < |steps| ==> IsStep(fold, ss[n], steps[n], ss[n + 1])
  }

  /** A record is put at the key that its node has, a fresh node gets a key that no other node has. */
  ghost predicate Orderly<A>(fold: nat -> nat, s: State<A>, step: Step<A>) {
    && (step.Act? ==> step.t < |s.threads| && Fresh(fold, s, step.t))
    && (step.OpenFresh? ==> Apart(fold, s, KeyOf(fold, step.path)))
  }

  lemma StepValidExact<A>(fold: nat -> nat, s: State<A>, step: Step<A>, u: State<A>)
    requires Valid(fold, s) && IsStep(fold, s, step, u)
    ensures Valid(fold, u) <==> Orderly(fold, s, step)
  {
    match step
    case OpenFresh(i, path) => OpenFreshExact(fold, s, i, path);
    case OpenKnown(_) => OpenCloseKeep(fold, s, step);
    case CloseNode(_) => OpenCloseKeep(fold, s, step);
    case Act(t, attrs) => ActExact(fold, s, t, attrs);
    case RenameTo(oldpath, newpath, ks) => RenameKeepsValid(fold, s, oldpath, newpath, ks);
    case _ => SameIndex(fold, s, u);
  }

  lemma SameIndex<A>(fold: nat -> nat, s: State<A>, u: State<A>)
    requires u == s.(threads := u.threads)
    ensures Valid(fold, s) <==> Valid(fold, u)
  {
    assert forall j :: j in s.open ==> (Owns(fold, u, j) <==> Owns(fold, s, j));
  }

  lemma ActExact<A>(fold: nat -> nat, s: State<A>, t: nat, attrs: A)
    requires Valid(fold, s) && Enabled(fold, s, Act(t, attrs))
    ensures Valid(fold, After(fold, s, Act(t, attrs))) <==> Fresh(fold, s, t)
  {
    var i, k := s.threads[t].i, s.threads[t].k;
    PutValidExact(fold, s, i, k, attrs);
    SameIndex(fold, Put(s, i, k, attrs), After(fold, s, Act(t, attrs)));
  }

  /** Up to any point of a run of any number of threads the index and the open nodes have stayed valid
      exactly if every step was orderly. */
  lemma RunValidExact<A(!new)>(fold: nat -> nat, ss: seq<State<A>>, steps: seq<Step<A>>, m: nat)
    requires IsRun(fold, ss, steps) && Valid(fold, ss[0]) && m <= |steps|
    ensures (forall n :: 0 <= n <= m ==> Valid(fold, ss[n])) <==>
              forall n :: 0 <= n < m ==> Orderly(fold, ss[n], steps[n])
  {
    var step := (s: State<A>, st: Step<A>, u: State<A>) => IsStep(fold, s, st, u);
    var inv, ok := (s: State<A>) => Valid(fold, s), (s: State<A>, st: Step<A>) => Orderly(fold, s, st);
    forall s, st, u | inv(s) && step(s, st, u) ensures inv(u) <==> ok(s, st) { StepValidExact(fold, s, st, u); }
    Runs.HoldsExactly(ss, steps, m, step, inv, ok);
    assert forall n :: 0 <= n <= m ==> (inv(ss[n]) <==> Valid(fold, ss[n]));
    assert forall n :: 0 <= n < m ==> (ok(ss[n], steps[n]) <==> Orderly(fold, ss[n], steps[n]));
  }

  /** Thread t took a lock at step n and has not acted before step m. */
  ghost predicate HoldsSince<A>(steps: seq<Step<A>>, t: nat, n: nat, m: nat) {
    n < m <= |steps| && steps[n] == LockPath(t) && forall x :: n < x < m ==> !ActsAlone(steps[x], t)
  }

  lemma LockTaken<A>(fold: nat -> nat, s: State<A>, step: Step<A>, u: State<A>, t: nat)
    requires IsStep(fold, s, step, u) && step == LockPath(t)
    ensures t < |u.threads| && u.threads[t].Locked?
  {
  }

  lemma {:induction false} FreshSinceLock<A>(fold: nat -> nat, ss: seq<State<A>>, steps: seq<Step<A>>, t: nat,
                                             n: nat, m: nat)
    requires IsRun(fold, ss, steps) && HoldsSince(steps, t, n, m)
    requires forall x :: 0 <= x < m ==> Valid(fold, ss[x])
    ensures t < |ss[n + 1].threads| && t < |ss[m].threads| && ss[m].threads[t] == ss[n + 1].threads[t]
    ensures Fresh(fold, ss[m], t) <==> Fresh(fold, ss[n + 1], t)
    decreases m
  {
    if m == n + 1 {
      LockTaken(fold, ss[n], steps[n], ss[m], t);
    } else {
      FreshSinceLock(fold, ss, steps, t, n, m - 1);
      FreshStable(fold, ss[m - 1], steps[m - 1], ss[m], t);
    }
  }

  /** An operation leaves the index valid exactly if, when it got its lock, the path of its node still
      had the key that it locked, whatever renames and operations ran before and since. */
  lemma ActValidExact<A>(fold: nat -> nat, ss: seq<State<A>>, steps: seq<Step<A>>, t: nat, n: nat, m: nat)
    requires IsRun(fold, ss, steps) && HoldsSince(steps, t, n, m) && m < |steps| && steps[m].Act? && steps[m].t == t
    requires forall x :: 0 <= x <= m ==> Valid(fold, ss[x])
    ensures t < |ss[n + 1].threads|
    ensures Valid(fold, ss[m + 1]) <==> Fresh(fold, ss[n + 1], t)
  {
    FreshSinceLock(fold, ss, steps, t, n, m);
    assert IsStep(fold, ss[m], steps[m], ss[m + 1]);
    StepValidExact(fold, ss[m], steps[m], ss[m + 1]);
  }

  // ---------- the two races ----------

  /** A thread reads the path of a node, takes the lock and acts, with nothing in between. */
  ghost function Operate<A>(fold: nat -> nat, s: State<A>, t: nat, i: Ino, attrs: A): State<A>
    requires t < |s.threads| && s.threads[t].Idle? && i in s.open && Free(s, KeyOf(fold, s.open[i]))
  {
    var s1 := After(fold, s, ReadPath(t, i));
    var s2 := After(fold, s1, LockPath(t));
    After(fold, s2, Act(t, attrs))
  }

  lemma OperatePuts<A>(fold: nat -> nat, s: State<A>, t: nat, i: Ino, attrs: A)
    requires t < |s.threads| && s.threads[t].Idle? && i in s.open && Free(s, KeyOf(fold, s.open[i]))
    ensures Operate(fold, s, t, i, attrs) == Put(s, i, KeyOf(fold, s.open[i]), attrs)
  {
    assert s.threads[t := Idle] == s.threads;
  }

  /** The race of a rename: from any valid state a thread reads the path of a catalogued node, the node is
      renamed, and the thread goes on. Every step can happen, and the index is then not one-to-one. */
  lemma StaleActBreaks<A>(fold: nat -> nat, s: State<A>, t: nat, i: Ino, attrs: A, newpath: Path, ks: seq<Path>)
    returns (s1: State<A>, s2: State<A>, s3: State<A>, s4: State<A>)
    requires Valid(fold, s) && t < |s.threads| && s.threads[t].Idle? && i in s.open && i in s.idx
    requires CanRename(fold, s, s.open[i], newpath, ks) && s.idx[i] in ks
    ensures IsStep(fold, s, ReadPath(t, i), s1) && IsStep(fold, s1, RenameTo(s.open[i], newpath, ks), s2)
    ensures IsStep(fold, s2, LockPath(t), s3) && IsStep(fold, s3, Act(t, attrs), s4)
    ensures Valid(fold, s3) && !OneToOne(s4.idx, s4.cat) && !Valid(fold, s4)
  {
    s1, s2, s3 := StaleLock(fold, s, t, i, newpath, ks);
    s4 := After(fold, s3, Act(t, attrs));
    StalePut(fold, s3, t, i, attrs);
  }

  lemma StaleLock<A>(fold: nat -> nat, s: State<A>, t: nat, i: Ino, newpath: Path, ks: seq<Path>)
    returns (s1: State<A>, s2: State<A>, s3: State<A>)
    requires Valid(fold, s) && t < |s.threads| && s.threads[t].Idle? && i in s.open && i in s.idx
    requires CanRename(fold, s, s.open[i], newpath, ks) && s.idx[i] in ks
    ensures IsStep(fold, s, ReadPath(t, i), s1) && IsStep(fold, s1, RenameTo(s.open[i], newpath, ks), s2)
    ensures IsStep(fold, s2, LockPath(t), s3) && Valid(fold, s3) && s3.threads[t] == Locked(i, KeyOf(fold, s.open[i]))
    ensures i in s3.open && i in s3.idx && KeyOf(fold, s3.open[i]) != KeyOf(fold, s.open[i])
  {
    var k := KeyOf(fold, s.open[i]);
    s1 := s.(threads := s.threads[t := Chosen(i, k)]);
    SameIndex(fold, s, s1);
    assert Free(s1, k) && Free(s1, KeyOf(fold, newpath));
    s2 := Renaming(fold, s1, s.open[i], newpath, ks);
    RenameKeepsValid(fold, s1, s.open[i], newpath, ks);
    RenamedAway(fold, s1, newpath, ks, i);
    assert Free(s2, k);
    s3 := s2.(threads := s2.threads[t := Locked(i, k)]);
    SameIndex(fold, s2, s3);
  }

  lemma StalePut<A>(fold: nat -> nat, s: State<A>, t: nat, i: Ino, attrs: A)
    requires Valid(fold, s) && Enabled(fold, s, Act(t, attrs)) && s.threads[t].i == i && i in s.idx
    requires KeyOf(fold, s.open[i]) != s.threads[t].k
    ensures var u := After(fold, s, Act(t, attrs)); !OneToOne(u.idx, u.cat) && !Valid(fold, u)
  {
    PutValidExact(fold, s, i, s.threads[t].k, attrs);
  }

  /** A catalogued node that is renamed is catalogued, and has another key. */
  lemma RenamedAway<A>(fold: nat -> nat, s: State<A>, newpath: Path, ks: seq<Path>, i: Ino)
    requires Valid(fold, s) && i in s.open && i in s.idx
    requires CanRename(fold, s, s.open[i], newpath, ks) && s.idx[i] in ks
    ensures var u := Renaming(fold, s, s.open[i], newpath, ks);
            i in u.open && i in u.idx && KeyOf(fold, u.open[i]) != KeyOf(fold, s.open[i])
  {
    var k, newk := KeyOf(fold, s.open[i]), KeyOf(fold, newpath);
    var u := Renaming(fold, s, s.open[i], newpath, ks);
    RenamingMoves(fold, s, s.open[i], newpath, ks);
    var n :| 0 <= n < |ks| && ks[n] == s.idx[i];
    assert InoScanned(s.cat, ks, i);
    MovedKey(fold, s, s.open[i], newpath, ks, i);
    assert MovedAt(s.cat, u.cat, ks, n, k, newk, s.open[i], newpath);
  }

  /** The race of two opens: from any valid state in which an open node has no record yet, its path is
      opened again, and both nodes are looked up. Every step can happen, and the index is then not
      one-to-one. So a fresh open that is not apart is what breaks the index. */
  lemma SecondOpenBreaks<A>(fold: nat -> nat, s: State<A>, t: nat, i: Ino, j: Ino, attrs: A) returns (u: State<A>)
    requires Valid(fold, s) && t < |s.threads| && s.threads[t].Idle? && j in s.open
    requires Free(s, KeyOf(fold, s.open[j])) && Enabled(fold, s, OpenFresh(i, s.open[j]))
    ensures
      var s1 := After(fold, s, OpenFresh(i, s.open[j]));
      var s2 := Operate(fold, s1, t, i, attrs);
      && s2.threads == s.threads && j in s2.open && Free(s2, KeyOf(fold, s2.open[j]))
      && u == Operate(fold, s2, t, j, attrs) && !OneToOne(u.idx, u.cat)
  {
    var k, s1 := KeyOf(fold, s.open[j]), After(fold, s, OpenFresh(i, s.open[j]));
    assert Free(s1, k);
    OperatePuts(fold, s1, t, i, attrs);
    var s2 := Put(s1, i, k, attrs);
    assert Free(s2, k);
    OperatePuts(fold, s2, t, j, attrs);
    u := Put(s2, j, k, attrs);
    assert u.idx[i] == k && u.cat[k].ino == j;
  }

  /** The hypotheses can be met: one node at "/a", and a rename to "/b". */
  lemma RaceExample() returns (s: State<nat>)
    ensures Valid(Same, s) && |s.threads| == 1 && s.threads[0].Idle? && 1 in s.open && 1 in s.idx
    ensures s.open[1] == [SLASH, 97] && s.idx[1] == [SLASH, 97]
    ensures CanRename(Same, s, [SLASH, 97], [SLASH, 98], [[SLASH, 97]])
  {
    var a, b := [SLASH, 97], [SLASH, 98];
    s := State(map[1 := a], map[a := Rec(1, a, 0)], map[1 := a], [Idle]);
    KeyOfSame(a);
    KeyOfSame(b);
    assert Owns(Same, s, 1);
    assert a[..|b|][1] == 97 && b[..|a|][1] == 98 && a[1] == 97 && b[1] == 98;
    assert !HasPrefix(a, b) && !HasPrefix(b, a);
    assert ROOT <= a && ROOT <= b && HasPrefix(a, a);
    assert Movable(Buckets(s.idx, s.cat), [a], a, b);
  }

  /** The fold of case-sensitive storage. */
  function Same(x: nat): nat {
    x
  }

  lemma KeyOfSame(p: Path)
    ensures KeyOf(Same, p) == p
  {
    forall i | 0 <= i < |p| ensures KeyOf(Same, p)[i] == p[i] {
      assert KeyOf(Same, p)[i] == Same(p[i]);
    }
  }
}
