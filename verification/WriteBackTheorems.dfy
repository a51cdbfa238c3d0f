/** The write-back cache over whole runs: it never discards unsent data, and to its clients it is
    a single copy of every file.
 */
module WriteBackTheorems {
  import opened Options
  import opened Paths
  import opened WriteBack
  import opened WriteBackSafety

  // ---------- runs ----------

  /** Careful steps, one after the other. */
  ghost predicate IsRun(ss: seq<State>, ops: seq<Op>) {
    && |ss| == |ops| + 1
    && forall k :: 0 <= k < |ops| ==>
         Enabled(ss[k], ops[k]) && Careful(ss[k], ops[k]) && ss[k + 1] == Apply(ss[k], ops[k])
  }

  /** An empty cache over any storage. */
  ghost predicate Initial(s: State) {
    && s.cat == map[] && s.local == map[] && s.open == map[] && s.rw == map[] && s.ro == map[]
    && s.worker.Idle? && forall p :: p in s.storage ==> s.storage[p].sig != ""
  }

  lemma InitialOk(s: State)
    requires Initial(s)
    ensures Inv(s)
  {
    assert forall i :: NodeOk(s, i);
  }

  /** Every careful step keeps the invariant. */
  lemma Keep(s: State, op: Op)
    requires Inv(s) && Enabled(s, op) && Careful(s, op)
    ensures Inv(Apply(s, op))
  {
    match op
    case Open(i) => KeepOpen(s, i);
    case OpenFresh(p) => KeepOpenFresh(s, p);
    case Stat(i) => KeepStat(s, i);
    case Make(i, sig) => KeepMake(s, i, sig);
    case Remove(i) => KeepRemove(s, i);
    case Rename(i, q) => KeepRename(s, i, q);
    case Fetch(i) => KeepFetch(s, i);
    case Write(i, off, buf) => KeepSetFile(s, i, Splice(s.local[i], off, buf));
    case Truncate(i, size) => KeepTruncate(s, i, size);
    case Close(i) => KeepClose(s, i);
    case ListKnown(i) => KeepListKnown(s, i);
    case ListNew(p) => KeepListNew(s, p);
    case Tick(d) => KeepTick(s, d);
    case Upload(up) => KeepUpload(s, up);
    case Evict(ev) => KeepEvict(s, ev);
    case Restart => KeepRestart(s);
  }

  lemma KeepTick(s: State, d: nat)
    requires Inv(s)
    ensures Inv(s.(now := s.now + d))
  {
    var t := s.(now := s.now + d);
    forall j ensures NodeOk(t, j) { assert NodeOk(s, j); }
    forall j, k, p | Owns(t, j, p) && Owns(t, k, p) ensures j == k {
      assert Owns(s, j, p) && Owns(s, k, p);
    }
  }

  lemma {:induction false} RunKeeps(ss: seq<State>, ops: seq<Op>, k: nat)
    requires IsRun(ss, ops) && Inv(ss[0]) && k <= |ops|
    ensures Inv(ss[k])
  {
    if k > 0 {
      RunKeeps(ss, ops, k - 1);
      Keep(ss[k - 1], ops[k - 1]);
    }
  }

  /** No unsent data is discarded: in every run, whenever the worker drops a record, what a reader would
      get from its file is the stored object, and the file equals it unless the object has been
      replaced since; and whenever it unlinks a file, that is such a file, or one of an ino that
      neither the catalogue nor a live node names. */
  lemma NoUnsentDataEvicted(ss: seq<State>, ops: seq<Op>, k: nat)
    requires IsRun(ss, ops) && Inv(ss[0]) && k < |ops|
    ensures ops[k] == Evict(EvDelete(true)) ==>
              var s := ss[k];
              && s.worker.i in s.cat && s.cat[s.worker.i].path == s.worker.p && s.worker.p in s.storage
              && !Dirty(s, s.worker.i)
              && (s.worker.i in s.local ==> ReadBack(s, s.worker.i) == s.storage[s.worker.p].content)
    ensures ops[k] == Evict(EvUnlink) ==>
              var s := ss[k];
              && s.worker.i !in s.cat
              && (s.worker.i in s.open ==> s.open[s.worker.i].deleted)
              && (s.worker.EvDeleted? && s.worker.current && s.worker.i in s.local ==>
                    s.worker.p in s.storage && s.local[s.worker.i] == s.storage[s.worker.p].content)
  {
    RunKeeps(ss, ops, k);
    var s := ss[k];
    if ops[k] == Evict(EvDelete(true)) || ops[k] == Evict(EvUnlink) {
      assert NodeOk(s, s.worker.i);
      if s.worker.i in s.cat && s.worker.i in s.local { ReadBackIs(s, s.worker.i); }
    }
  }

  /** In every reachable state unsent data is queued for upload or in the uploader's hand, and
      everything catalogued and every local file can still be found. */
  lemma UnsentDataIsKnown(ss: seq<State>, ops: seq<Op>, k: nat, i: Ino)
    requires IsRun(ss, ops) && Inv(ss[0]) && k <= |ops|
    ensures Dirty(ss[k], i) ==> i in ss[k].rw || ss[k].worker.Uploading(i)
    ensures i in ss[k].cat ==> Queued(ss[k], i) || i in ss[k].open
    ensures i in ss[k].local ==> i in ss[k].cat || Queued(ss[k], i) || i in ss[k].open
    ensures !(i in ss[k].rw && i in ss[k].ro)
  {
    RunKeeps(ss, ops, k);
    assert NodeOk(ss[k], i);
  }

  // ---------- what readers see ----------

  ghost predicate Serves(s: State, i: Ino, p: Path) {
    i in s.cat && s.cat[i].path == p && i in s.local
  }

  /** What a client reads from the file of i: the file if it is open already or its signature is
      current, else the file with the stored object copied over it. */
  ghost function ReadBack(s: State, i: Ino): Bytes
    requires i in s.cat && i in s.local && s.cat[i].path in s.storage
  {
    if FileOpen(s, i) || Current(s, i) then s.local[i]
    else Overlay(s.storage[s.cat[i].path].content, s.local[i])
  }

  /** Under the invariant that is the file if its signature is current, else the stored object. */
  lemma ReadBackIs(s: State, i: Ino)
    requires NodeOk(s, i) && WorkerOk(s) && i in s.cat && i in s.local
    ensures ReadBack(s, i) == FileSeen(s, i)
  {
  }

  ghost function FileSeen(s: State, i: Ino): Bytes
    requires i in s.cat && i in s.local && s.cat[i].path in s.storage
  {
    if Current(s, i) then s.local[i] else s.storage[s.cat[i].path].content
  }

  /** What a client reads at p: through the local file if there is one, else the stored object. */
  ghost function ViewAt(s: State, p: Path): Bytes
    requires p in s.storage
  {
    if exists i :: Serves(s, i, p) then
      var i :| Serves(s, i, p);
      ReadBack(s, i)
    else s.storage[p].content
  }

  ghost function View(s: State): map<Path, Bytes> {
    map p | p in s.storage :: ViewAt(s, p)
  }

  /** What readers see at p is c. */
  ghost predicate Shows(s: State, p: Path, c: Bytes)
    requires p in s.storage
  {
    && (forall i :: Serves(s, i, p) ==> ReadBack(s, i) == c)
    && ((exists i :: Serves(s, i, p)) || s.storage[p].content == c)
  }

  /** The view is what opening a closed file and reading it yields. */
  lemma FetchReadsView(s: State, i: Ino)
    requires i in s.open && i in s.cat && i in s.local && Stored(s, i) && !s.open[i].hasFile
    requires s.open[i].rec == s.cat[i] && s.storage[s.cat[i].path].sig != ""
    ensures DoFetch(s, i).local[i] == ReadBack(s, i)
  {
  }

  lemma ShowsView(s: State, p: Path, c: Bytes)
    requires OneToOne(s) && p in s.storage
    ensures Shows(s, p, c) <==> ViewAt(s, p) == c
  {
    forall i, j | Serves(s, i, p) && Serves(s, j, p) ensures i == j {
      assert Owns(s, i, p) && Owns(s, j, p);
    }
  }

  /** A read through an open file returns what the view shows at its path. */
  lemma ReadSeesView(s: State, i: Ino)
    requires Inv(s) && FileOpen(s, i) && !s.open[i].deleted
    ensures s.open[i].rec.path in s.storage && i in s.local
    ensures View(s)[s.open[i].rec.path] == s.local[i]
  {
    assert NodeOk(s, i);
    var p := s.open[i].rec.path;
    assert Serves(s, i, p);
    ShowsView(s, p, ViewAt(s, p));
  }

  // ---------- a single copy ----------

  /** The operations of a file system without a cache. */
  datatype FsOp =
    | FsNone
    | FsMake(p: Path)
    | FsRemove(p: Path)
    | FsRename(p: Path, q: Path)
    | FsWrite(p: Path, off: nat, buf: Bytes)
    | FsTruncate(p: Path, size: nat)

  function FsApply(v: map<Path, Bytes>, op: FsOp): map<Path, Bytes> {
    match op
    case FsNone => v
    case FsMake(p) => v[p := []]
    case FsRemove(p) => v - {p}
    case FsRename(p, q) => if p in v then (v - {p})[q := v[p]] else v
    case FsWrite(p, off, buf) => if p in v then v[p := Splice(v[p], off, buf)] else v
    case FsTruncate(p, size) => if p in v then v[p := Resize(v[p], size)] else v
  }

  /** What an operation of the cache means to a client; all the worker's steps mean nothing,
      and so do writes to a file that was removed while open. */
  ghost function Meaning(s: State, op: Op): FsOp
    requires Enabled(s, op)
  {
    match op
    case Make(i, _) => FsMake(s.open[i].rec.path)
    case Remove(i) => FsRemove(s.open[i].rec.path)
    case Rename(i, q) => FsRename(s.open[i].rec.path, q)
    case Write(i, off, buf) => if s.open[i].deleted then FsNone else FsWrite(s.open[i].rec.path, off, buf)
    case Truncate(i, size) => if s.open[i].deleted then FsNone else FsTruncate(s.open[i].rec.path, size)
    case _ => FsNone
  }

  /** To show that t shows v, show it path by path. */
  lemma ViewIs(t: State, v: map<Path, Bytes>)
    requires OneToOne(t) && t.storage.Keys == v.Keys
    requires forall p :: p in v ==> Shows(t, p, v[p])
    ensures View(t) == v
  {
    forall p | p in v ensures View(t)[p] == v[p] {
      ShowsView(t, p, v[p]);
    }
  }

  /** Steps that move neither files nor objects nor paths are invisible. */
  lemma QuietStep(s: State, t: State)
    requires OneToOne(s) && OneToOne(t) && t.storage == s.storage
    requires forall i, p :: Serves(t, i, p) && p in s.storage ==> Serves(s, i, p) && ReadBack(t, i) == ReadBack(s, i)
    requires forall i, p :: Serves(s, i, p) ==> Serves(t, i, p)
    ensures View(t) == View(s)
  {
    forall p | p in s.storage ensures Shows(t, p, ViewAt(s, p)) {
      ShowsView(s, p, ViewAt(s, p));
    }
    ViewIs(t, View(s));
  }

  /** The same between two states with the invariant. */
  lemma QuietChange(s: State, t: State)
    requires Inv(s) && Inv(t) && t.storage == s.storage
    requires forall i, p :: Serves(t, i, p) && p in s.storage ==> Serves(s, i, p) && FileSeen(t, i) == FileSeen(s, i)
    requires forall i, p :: Serves(s, i, p) ==> Serves(t, i, p)
    ensures View(t) == View(s)
  {
    forall i, p | Serves(t, i, p) && p in s.storage ensures Serves(s, i, p) && ReadBack(t, i) == ReadBack(s, i) {
      assert NodeOk(s, i) && NodeOk(t, i);
      ReadBackIs(s, i);
      ReadBackIs(t, i);
    }
    QuietStep(s, t);
  }

  lemma FetchIsQuiet(s: State, i: Ino)
    requires Inv(s) && Live(s, i) && !s.open[i].hasFile && Stored(s, i)
    ensures View(DoFetch(s, i)) == View(s)
  {
    KeepFetch(s, i);
    var t := DoFetch(s, i);
    forall p | p in s.storage ensures Shows(t, p, ViewAt(s, p)) {
      if p == s.open[i].rec.path { FetchedShows(s, i); } else { FetchLeaves(s, i, p); }
    }
    ViewIs(t, View(s));
  }

  lemma FetchedShows(s: State, i: Ino)
    requires Inv(s) && Live(s, i) && !s.open[i].hasFile && Stored(s, i)
    ensures var p := s.open[i].rec.path; Shows(DoFetch(s, i), p, ViewAt(s, p))
  {
    var t, p := DoFetch(s, i), s.open[i].rec.path;
    assert NodeOk(s, i) && Owns(s, i, p);
    ShowsView(s, p, ViewAt(s, p));
    assert Serves(t, i, p) && ReadBack(t, i) == t.local[i];
    forall j | Serves(s, j, p) || Serves(t, j, p) ensures j == i {
      assert j == i || Owns(s, j, p);
    }
    if i in s.local { FetchReadsView(s, i); }
  }

  lemma FetchLeaves(s: State, i: Ino, p: Path)
    requires Inv(s) && Live(s, i) && !s.open[i].hasFile && Stored(s, i) && p in s.storage && p != s.open[i].rec.path
    ensures Shows(DoFetch(s, i), p, ViewAt(s, p))
  {
    var t := DoFetch(s, i);
    assert NodeOk(s, i);
    ShowsView(s, p, ViewAt(s, p));
    assert forall j :: Serves(t, j, p) <==> Serves(s, j, p);
    assert forall j :: Serves(s, j, p) ==> ReadBack(t, j) == ReadBack(s, j);
  }

  /** Giving the file of a live node a new content changes what is seen at its path, and only that. */
  lemma SetFileShows(s: State, i: Ino, c: Bytes)
    requires Inv(s) && CanWrite(s, i) && !s.open[i].deleted
    ensures Stored(s, i) && View(s)[s.open[i].rec.path] == s.local[i]
    ensures View(SetFile(s, i, c)) == View(s)[s.open[i].rec.path := c]
  {
    KeepSetFile(s, i, c);
    ReadSeesView(s, i);
    var t, q := SetFile(s, i, c), s.open[i].rec.path;
    assert NodeOk(s, i) && Serves(t, i, q);
    forall p | p in s.storage ensures Shows(t, p, if p == q then c else ViewAt(s, p)) {
      ShowsView(s, p, ViewAt(s, p));
      forall j | Serves(t, j, p) ensures Serves(s, j, p) && (j == i <==> p == q) {
        assert Owns(s, j, p) && Owns(s, i, q);
      }
      assert forall j :: Serves(s, j, p) ==> Serves(t, j, p);
    }
    ViewIs(t, View(s)[q := c]);
  }

  lemma SetBaseIsQuiet(s: State, i: Ino, base: Option<Bytes>)
    requires Inv(s) && i in s.open && i in s.cat
    ensures View(SetBase(s, i, base)) == View(s)
  {
    KeepSetBase(s, i, base);
    QuietStep(s, SetBase(s, i, base));
  }

  /** Fetching only as much as a truncate keeps equals fetching everything and truncating. */
  lemma PrefixSuffices(c: Bytes, size: nat)
    ensures Resize(Prefix(c, size), size) == Resize(c, size)
  {
  }

  lemma TruncateFileShows(s: State, i: Ino, size: nat)
    requires Inv(s) && CanWrite(s, i)
    ensures View(SetFile(s, i, Resize(s.local[i], size))) == FsApply(View(s), Meaning(s, Truncate(i, size)))
  {
    assert NodeOk(s, i);
    var c := Resize(s.local[i], size);
    if s.open[i].deleted {
      KeepSetFile(s, i, c);
      QuietStep(s, SetFile(s, i, c));
    } else {
      SetFileShows(s, i, c);
    }
  }

  lemma TruncateFetchedShows(s: State, i: Ino, size: nat)
    requires Inv(s) && Live(s, i) && !s.open[i].hasFile && Stored(s, i)
    ensures View(DoTruncate(s, i, size)) ==
            View(s)[s.open[i].rec.path := Resize(View(s)[s.open[i].rec.path], size)]
  {
    assert NodeOk(s, i);
    var v, c := TruncateByFetch(s, i, size);
    KeepFetch(s, i);
    FetchIsQuiet(s, i);
    var f := DoFetch(s, i);
    SetFileShows(f, i, c);
    KeepSetFile(f, i, c);
    SetBaseIsQuiet(v, i, DoTruncate(s, i, size).cat[i].base);
    TruncatedContent(s, i, size);
    assert c == Resize(f.local[i], size);
  }

  lemma TruncateShows(s: State, i: Ino, size: nat)
    requires Inv(s) && CanTruncate(s, i)
    ensures View(DoTruncate(s, i, size)) == FsApply(View(s), Meaning(s, Truncate(i, size)))
  {
    if s.open[i].hasFile {
      TruncateFileShows(s, i, size);
    } else {
      TruncateFetchedShows(s, i, size);
      TruncateMeans(s, i, size, View(s));
    }
  }

  lemma TruncateMeans(s: State, i: Ino, size: nat, v: map<Path, Bytes>)
    requires CanTruncate(s, i) && !s.open[i].deleted && s.open[i].rec.path in v
    ensures FsApply(v, Meaning(s, Truncate(i, size))) == v[s.open[i].rec.path := Resize(v[s.open[i].rec.path], size)]
  {
  }

  lemma TruncatedContent(s: State, i: Ino, size: nat)
    requires NodeOk(s, i) && Live(s, i) && !s.open[i].hasFile && Stored(s, i)
    ensures DoTruncate(s, i, size).local[i] == Resize(DoFetch(s, i).local[i], size)
  {
    var c := s.storage[s.open[i].rec.path].content;
    PrefixSuffices(c, size);
    if i in s.local && s.local[i] == c {
      assert Overlay(Prefix(c, size), c) == c;
    }
  }

  lemma SendIsQuiet(s: State, ok: bool, sig: Sig)
    requires Inv(s) && UploadEnabled(s, UpSend(ok, sig))
    ensures View(ApplyUpload(s, UpSend(ok, sig))) == View(s)
  {
    KeepSend(s, ok, sig);
    var t := ApplyUpload(s, UpSend(ok, sig));
    var i, q := s.worker.i, s.worker.p;
    assert NodeOk(s, i);
    if t.storage == s.storage {
      SameView(s, t);
    } else {
      forall p | p in s.storage ensures Shows(t, p, ViewAt(s, p)) {
        ShowsView(s, p, ViewAt(s, p));
        assert Serves(s, i, q);
        forall j | Serves(s, j, p) ensures ReadBack(t, j) == ReadBack(s, j) { SentReads(s, sig, j); }
        assert forall j :: Serves(t, j, p) <==> Serves(s, j, p);
      }
      ViewIs(t, View(s));
    }
  }

  /** Sending a file leaves every file reading as it did. */
  lemma SentReads(s: State, sig: Sig, j: Ino)
    requires Inv(s) && UploadEnabled(s, UpSend(true, sig)) && s.worker.i in s.local && j in s.cat && j in s.local
    ensures j in s.cat && s.cat[j].path in s.storage
    ensures ReadBack(ApplyUpload(s, UpSend(true, sig)), j) == ReadBack(s, j)
  {
    KeepSend(s, true, sig);
    var t, i := ApplyUpload(s, UpSend(true, sig)), s.worker.i;
    assert NodeOk(s, j) && NodeOk(t, j);
    if j == i {
      ReadBackIs(s, j);
      ReadBackIs(t, j);
    } else {
      assert Owns(s, i, s.worker.p) && Owns(s, j, s.cat[j].path);
    }
  }

  lemma EvictIsQuiet(s: State, ev: EvictStep)
    requires Inv(s) && EvictEnabled(s, ev)
    ensures View(ApplyEvict(s, ev)) == View(s)
  {
    KeepEvict(s, ev);
    var t := ApplyEvict(s, ev);
    if ev == EvDelete(true) {
      var i, q := s.worker.i, s.worker.p;
      assert NodeOk(s, i);
      if i in s.local { ReadBackIs(s, i); }
      forall p | p in s.storage ensures Shows(t, p, ViewAt(s, p)) {
        ShowsView(s, p, ViewAt(s, p));
        forall j | Serves(s, j, p)
          ensures if j == i then p == q else Serves(t, j, p) && ReadBack(t, j) == ReadBack(s, j)
        {
        }
        assert forall j :: Serves(t, j, p) ==> Serves(s, j, p) && j != i;
      }
      ViewIs(t, View(s));
    } else {
      QuietEviction(s, ev);
    }
  }

  lemma QuietEviction(s: State, ev: EvictStep)
    requires Inv(s) && EvictEnabled(s, ev) && Inv(ApplyEvict(s, ev)) && ev != EvDelete(true)
    ensures View(ApplyEvict(s, ev)) == View(s)
  {
    EvictMoves(s, ev);
    if ev == EvUnlink {
      UnlinkIsQuiet(s, ApplyEvict(s, ev));
    } else {
      SameView(s, ApplyEvict(s, ev));
    }
  }

  /** Before a record is dropped, and after, evicting moves only the queues and the file. */
  lemma EvictMoves(s: State, ev: EvictStep)
    requires EvictEnabled(s, ev) && ev != EvDelete(true)
    ensures var t := ApplyEvict(s, ev);
            && t.storage == s.storage && t.cat == s.cat && t.open == s.open
            && t.local == if ev == EvUnlink then s.local - {s.worker.i} else s.local
  {
    match ev
    case EvTouch => TouchMovesNothing(s, s.worker.i, false);
    case _ =>
  }

  lemma UnlinkIsQuiet(s: State, t: State)
    requires Inv(s) && OneToOne(t) && (s.worker.EvDeleted? || s.worker.EvAbsent?)
    requires t.storage == s.storage && t.cat == s.cat && t.open == s.open && t.local == s.local - {s.worker.i}
    ensures View(t) == View(s)
  {
    forall i, p | Serves(t, i, p) && p in s.storage ensures Serves(s, i, p) && ReadBack(t, i) == ReadBack(s, i) {
    }
    QuietStep(s, t);
  }

  lemma RestartIsQuiet(s: State)
    requires Inv(s) && HashesTell(s)
    ensures View(Restarted(s)) == View(s)
  {
    KeepRestart(s);
    QuietChange(s, Restarted(s));
  }

  lemma MakeShows(s: State, i: Ino, sig: Sig)
    requires Inv(s) && Live(s, i) && !Stored(s, i) && sig != ""
    ensures View(DoMake(s, i, sig)) == View(s)[s.open[i].rec.path := []]
  {
    KeepMake(s, i, sig);
    var t, q := DoMake(s, i, sig), s.open[i].rec.path;
    assert NodeOk(s, i);
    forall p | p in t.storage ensures Shows(t, p, if p == q then [] else ViewAt(s, p)) {
      if p != q { ShowsView(s, p, ViewAt(s, p)); }
      assert forall j :: Serves(s, j, p) ==> Serves(t, j, p);
      forall j | Serves(t, j, p) ensures p != q && Serves(s, j, p) { assert NodeOk(s, j); }
    }
    ViewIs(t, View(s)[q := []]);
  }

  lemma RemoveShows(s: State, i: Ino)
    requires Inv(s) && Live(s, i)
    ensures View(DoRemove(s, i)) == View(s) - {s.open[i].rec.path}
  {
    KeepRemove(s, i);
    var t, q := DoRemove(s, i), s.open[i].rec.path;
    assert Owns(s, i, q);
    forall p | p in t.storage ensures Shows(t, p, ViewAt(s, p)) {
      ShowsView(s, p, ViewAt(s, p));
      assert NodeOk(s, i);
      assert forall j :: Serves(t, j, p) <==> Serves(s, j, p);
    }
    ViewIs(t, View(s) - {q});
  }

  /** Readers at q get o once it is there: a local file with the signature of o has its content, and one
      with another signature, over which o will be copied, is no longer than o. */
  ghost predicate ReadsAs(s: State, q: Path, o: Obj) {
    forall j :: Serves(s, j, q) ==>
      if s.cat[j].sig == o.sig then s.local[j] == o.content else |s.local[j]| <= |o.content|
  }

  /** A rename shows as that rename, except that for a node without a record the index does not learn of
      it, and then it shows exactly if readers at the target get the object all the same. */
  lemma RenameShows(s: State, i: Ino, q: Path)
    requires Inv(s) && CanRename(s, i, q)
    ensures View(DoRename(s, i, q)) == FsApply(View(s), FsRename(s.open[i].rec.path, q)) <==>
              (i !in s.cat ==> ReadsAs(s, q, s.storage[s.open[i].rec.path]))
  {
    if i in s.cat { RenameKnownShows(s, i, q); } else { RenameFreshShows(s, i, q); }
  }

  lemma RenameKnownShows(s: State, i: Ino, q: Path)
    requires Inv(s) && CanRename(s, i, q) && i in s.cat
    ensures View(DoRename(s, i, q)) == FsApply(View(s), FsRename(s.open[i].rec.path, q))
  {
    KeepRename(s, i, q);
    var t, o := DoRename(s, i, q), s.open[i].rec.path;
    var v := (View(s) - {o})[q := View(s)[o]];
    assert NodeOk(s, i) && Owns(s, i, o);
    forall p | p in v ensures Shows(t, p, v[p]) {
      var r := if p == q then o else p;
      ShowsView(s, r, ViewAt(s, r));
      forall j | Serves(t, j, p) ensures Serves(s, j, r) && (j == i <==> p == q) && ReadBack(t, j) == ReadBack(s, j) {
        assert Owns(s, j, r);
      }
      forall j | Serves(s, j, r) ensures Serves(t, j, p) {
        assert Owns(s, j, r);
      }
    }
    ViewIs(t, v);
  }

  lemma RenameFreshShows(s: State, i: Ino, q: Path)
    requires Inv(s) && CanRename(s, i, q) && i !in s.cat
    ensures View(DoRename(s, i, q)) == FsApply(View(s), FsRename(s.open[i].rec.path, q)) <==>
              ReadsAs(s, q, s.storage[s.open[i].rec.path])
  {
    var t, o := DoRename(s, i, q), s.open[i].rec.path;
    var c := s.storage[o].content;
    var v := (View(s) - {o})[q := c];
    assert Owns(s, i, o);
    forall j ensures !Serves(s, j, o) { assert Serves(s, j, o) ==> Owns(s, j, o); }
    ShowsView(s, o, c);
    SameOwners(s, t);
    ShowsView(t, q, c);
    ArrivedShows(s, i, q);
    forall p | p in v && p != q ensures Shows(t, p, v[p]) {
      ShowsView(s, p, ViewAt(s, p));
      assert forall j :: Serves(t, j, p) <==> Serves(s, j, p);
      assert forall j :: Serves(s, j, p) ==> ReadBack(t, j) == ReadBack(s, j);
    }
    if Shows(t, q, c) { ViewIs(t, v); } else { assert View(t)[q] != v[q]; }
  }

  lemma ArrivedShows(s: State, i: Ino, q: Path)
    requires Inv(s) && CanRename(s, i, q) && i !in s.cat
    ensures var o := s.storage[s.open[i].rec.path];
            q in DoRename(s, i, q).storage && (Shows(DoRename(s, i, q), q, o.content) <==> ReadsAs(s, q, o))
  {
    var t, o := DoRename(s, i, q), s.storage[s.open[i].rec.path];
    forall j | Serves(s, j, q)
      ensures ReadBack(t, j) == if s.cat[j].sig == o.sig then s.local[j] else Overlay(o.content, s.local[j])
      ensures Overlay(o.content, s.local[j]) == o.content <==> |s.local[j]| <= |o.content|
    {
      assert NodeOk(s, j);
      OverlayGives(o.content, s.local[j]);
    }
    assert forall j :: Serves(t, j, q) <==> Serves(s, j, q);
  }

  lemma OverlayGives(c: Bytes, file: Bytes)
    ensures Overlay(c, file) == c <==> |file| <= |c|
  {
  }

  /** For a rename that can arrive, readers get the object; and if they do and the invariant is kept,
      it could arrive. */
  lemma ArrivalExact(s: State, i: Ino, q: Path)
    requires Inv(s) && CanRename(s, i, q) && i !in s.cat
    ensures
      var o := s.storage[s.open[i].rec.path];
      Inv(DoRename(s, i, q)) && ReadsAs(s, q, o) <==> CanArrive(s, q, o)
  {
    var t, o := DoRename(s, i, q), s.storage[s.open[i].rec.path];
    if CanArrive(s, q, o) {
      KeepRename(s, i, q);
    } else if Inv(t) && ReadsAs(s, q, o) {
      forall j | j in s.cat && s.cat[j].path == q && j in s.local
        ensures s.local[j] == o.content || (s.cat[j].sig != o.sig && Replaceable(s, j, o.content))
      {
        assert Serves(s, j, q) && NodeOk(t, j);
      }
    }
  }

  lemma SameOwners(s: State, t: State)
    requires OneToOne(s) && t.cat == s.cat && t.open == s.open
    ensures OneToOne(t)
  {
    forall i, j, p | Owns(t, i, p) && Owns(t, j, p) ensures i == j { assert Owns(s, i, p) && Owns(s, j, p); }
  }

  /** No step of an upload changes what readers see, whatever fails. */
  lemma UploadIsQuiet(s: State, up: UploadStep)
    requires Inv(s) && UploadEnabled(s, up)
    ensures View(ApplyUpload(s, up)) == View(s)
  {
    match up
    case UpSend(ok, sig) => SendIsQuiet(s, ok, sig);
    case UpCommit(ok) => CommitShows(s, ok);
    case _ =>
      UploadMovesNothing(s, up);
      SameView(s, ApplyUpload(s, up));
  }

  /** Between sending and committing, uploading moves only the queues. */
  lemma UploadMovesNothing(s: State, up: UploadStep)
    requires UploadEnabled(s, up) && !up.UpSend? && !up.UpCommit?
    ensures var t := ApplyUpload(s, up);
            t.storage == s.storage && t.local == s.local && t.cat == s.cat && t.open == s.open
  {
    match up
    case UpTouch => TouchMovesNothing(s, s.worker.i, s.worker.failed);
    case _ =>
  }

  lemma TouchMovesNothing(s: State, i: Ino, dirty: bool)
    ensures var t := Touch(s, i, dirty);
            t.storage == s.storage && t.local == s.local && t.cat == s.cat && t.open == s.open
  {
  }

  lemma WriteShows(s: State, i: Ino, off: nat, buf: Bytes)
    requires Inv(s) && CanWrite(s, i)
    ensures View(DoWrite(s, i, off, buf)) == FsApply(View(s), Meaning(s, Write(i, off, buf)))
  {
    var c := Splice(s.local[i], off, buf);
    assert NodeOk(s, i);
    if s.open[i].deleted {
      KeepSetFile(s, i, c);
      QuietStep(s, SetFile(s, i, c));
    } else {
      SetFileShows(s, i, c);
    }
  }

  lemma CloseIsQuiet(s: State, i: Ino)
    requires Inv(s) && CanClose(s, i)
    ensures View(DoClose(s, i)) == View(s)
  {
    KeepClose(s, i);
    assert NodeOk(s, i);
    var t := DoClose(s, i);
    assert t.cat.Keys == s.cat.Keys && t.local == s.local;
    assert forall j :: j in s.cat ==> t.cat[j] == s.cat[j];
    QuietChange(s, t);
  }

  /** Opening and looking up change nothing that readers see. */
  lemma LookupIsQuiet(s: State, op: Op)
    requires Inv(s) && Enabled(s, op) && Careful(s, op)
    requires op.Open? || op.OpenFresh? || op.Stat? || op.ListKnown? || op.ListNew? || op.Tick?
    ensures View(Apply(s, op)) == View(s)
  {
    Keep(s, op);
    if op.Stat? { assert NodeOk(s, op.i); }
    if op.ListNew? { assert NodeOk(s, s.nextIno); }
    QuietChange(s, Apply(s, op));
  }

  /** Refinement, one step: after any careful step readers see what a file system without a cache
      would show after the operation that the step means, which for every step of the worker, for
      opening, closing, listing and fetching, and for a restart, is no operation at all. */
  lemma StepRefines(s: State, op: Op)
    requires Inv(s) && Enabled(s, op) && Careful(s, op)
    ensures Inv(Apply(s, op))
    ensures View(Apply(s, op)) == FsApply(View(s), Meaning(s, op))
  {
    Keep(s, op);
    StepShows(s, op);
  }

  lemma StepShows(s: State, op: Op)
    requires Inv(s) && Enabled(s, op) && Careful(s, op)
    ensures View(Apply(s, op)) == FsApply(View(s), Meaning(s, op))
  {
    match op
    case Make(i, sig) => MakeShows(s, i, sig);
    case Remove(i) => RemoveShows(s, i);
    case Rename(i, q) => RenameShows(s, i, q);
    case Fetch(i) => FetchIsQuiet(s, i);
    case Write(i, off, buf) => WriteShows(s, i, off, buf);
    case Truncate(i, size) => TruncateShows(s, i, size);
    case Upload(up) => UploadIsQuiet(s, up);
    case Evict(ev) => EvictIsQuiet(s, ev);
    case Restart => RestartIsQuiet(s);
    case Close(i) => CloseIsQuiet(s, i);
    case _ => LookupIsQuiet(s, op);
  }

  /** Exactly the careful steps keep the invariant and refine the operation that they mean. */
  lemma StepExact(s: State, op: Op)
    requires Inv(s) && Enabled(s, op)
    ensures Inv(Apply(s, op)) && View(Apply(s, op)) == FsApply(View(s), Meaning(s, op)) <==> Careful(s, op)
  {
    if Careful(s, op) {
      StepRefines(s, op);
    } else if op.Rename? {
      RenameShows(s, op.i, op.q);
      ArrivalExact(s, op.i, op.q);
    } else if op.Restart? {
      KeepRestart(s);
    } else if op.Stat? {
      StatNeedsCare(s, op.i);
    } else {
      CommitNeedsCare(s);
    }
  }

  /** Recording an upload, or failing to, changes nothing that readers see. */
  lemma CommitShows(s: State, ok: bool)
    requires Inv(s) && CanCommit(s)
    ensures View(DoCommit(s, ok)) == View(s)
    ensures Inv(DoCommit(s, ok)) <==> ok || CommitSafe(s)
  {
    if ok {
      KeepCommit(s, ok);
      RecordedShows(s);
    } else {
      if CommitSafe(s) { KeepCommit(s, ok); } else { CommitNeedsCare(s); }
      SameView(s, DoCommit(s, ok));
    }
  }

  lemma RecordedShows(s: State)
    requires CanCommit(s) && Inv(s) && Inv(DoCommit(s, true))
    ensures View(DoCommit(s, true)) == View(s)
  {
    assert NodeOk(s, s.worker.i);
    QuietChange(s, DoCommit(s, true));
  }

  /** What readers see depends on the storage, the catalogue, the local files and what is open. */
  lemma SameView(s: State, t: State)
    requires OneToOne(s) && t.storage == s.storage && t.cat == s.cat && t.local == s.local && t.open == s.open
    ensures View(t) == View(s)
  {
    forall p | p in s.storage ensures ViewAt(t, p) == ViewAt(s, p) {
      forall i, j | Serves(s, i, p) && Serves(s, j, p) ensures i == j { assert Owns(s, i, p) && Owns(s, j, p); }
      assert forall i :: Serves(t, i, p) <==> Serves(s, i, p);
      assert forall i :: Serves(s, i, p) ==> ReadBack(t, i) == ReadBack(s, i);
    }
  }

  /** A superseded file whose signature is refreshed looks changed, and does not wait for upload. */
  lemma StatNeedsCare(s: State, i: Ino)
    requires Inv(s) && Live(s, i) && Stored(s, i) && Superseded(s, i)
    ensures !Inv(PutStat(s, i, s.storage[s.open[i].rec.path].sig))
  {
    assert NodeOk(s, i);
    assert !NodeOk(PutStat(s, i, s.storage[s.open[i].rec.path].sig), i);
  }

  /** An accepted upload that is not recorded breaks the invariant if the file is open. */
  lemma CommitNeedsCare(s: State)
    requires CanCommit(s) && !CommitSafe(s) && s.cat[s.worker.i].path == s.worker.p
    ensures !Inv(DoCommit(s, false))
  {
    assert !NodeOk(DoCommit(s, false), s.worker.i);
  }

  ghost function Meanings(ss: seq<State>, ops: seq<Op>): seq<FsOp>
    requires IsRun(ss, ops)
  {
    seq(|ops|, k requires 0 <= k < |ops| => Meaning(ss[k], ops[k]))
  }

  function FsRun(v: map<Path, Bytes>, ops: seq<FsOp>): map<Path, Bytes> {
    if ops == [] then v else FsApply(FsRun(v, ops[..|ops| - 1]), ops[|ops| - 1])
  }

  /** Refinement over runs: what readers see after any run, with uploads, evictions, failed
      uploads and restarts interleaved anywhere, is what the client operations alone produce. */
  lemma {:induction false} RunRefines(ss: seq<State>, ops: seq<Op>)
    requires IsRun(ss, ops) && Inv(ss[0])
    ensures Inv(ss[|ops|])
    ensures View(ss[|ops|]) == FsRun(View(ss[0]), Meanings(ss, ops))
    decreases |ops|
  {
    if ops != [] {
      var n := |ops| - 1;
      RunRefines(ss[..n + 1], ops[..n]);
      StepRefines(ss[n], ops[n]);
      assert Meanings(ss, ops)[..n] == Meanings(ss[..n + 1], ops[..n]);
    }
  }
}
