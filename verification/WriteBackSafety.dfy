/** What every step of the write-back protocol keeps. */
module WriteBackSafety {
  import opened Options
  import opened Paths
  import opened WriteBack

  // ---------- the invariant ----------

  /** The local file of a catalogued ino differs from the stored object. */
  ghost predicate Differs(s: State, i: Ino) {
    i in s.cat && i in s.local && s.cat[i].path in s.storage &&
    s.local[i] != s.storage[s.cat[i].path].content
  }

  /** The record has the signature of the stored object. */
  ghost predicate Current(s: State, i: Ino) {
    i in s.cat && s.cat[i].path in s.storage && s.cat[i].sig == s.storage[s.cat[i].path].sig
  }

  /** The file has been changed since it was fetched or sent. */
  ghost predicate Dirty(s: State, i: Ino) {
    Differs(s, i) && Current(s, i)
  }

  /** The object has been replaced since the file was fetched or sent. */
  ghost predicate Superseded(s: State, i: Ino) {
    Differs(s, i) && !Current(s, i)
  }

  ghost predicate FileOpen(s: State, i: Ino) {
    i in s.open && s.open[i].hasFile
  }

  ghost predicate Queued(s: State, i: Ino) {
    i in s.rw || i in s.ro || s.worker.Holds(i)
  }

  /** The record of the ino: it names a stored object. A file with an outdated signature is open to
      nobody (unless its upload is about to be committed); if it was superseded, it is no longer than
      the object, which will be copied over it, and it does not wait for upload. */
  ghost predicate RecordOk(s: State, i: Ino) {
    i in s.cat ==>
      && s.cat[i].path in s.storage
      && (i in s.local && !Current(s, i) && FileOpen(s, i) ==> s.worker.UpSent? && s.worker.i == i)
      && (Superseded(s, i) ==> Replaceable(s, i, s.storage[s.cat[i].path].content))
  }

  /** Copying c over the file of i leaves c, and the file is not about to be uploaded. */
  ghost predicate Replaceable(s: State, i: Ino, c: Bytes) {
    i in s.local && |s.local[i]| <= |c| && i !in s.rw && !s.worker.Uploading(i)
  }

  /** The open node agrees with the record; without one it is fresh and nothing else knows it. */
  ghost predicate HandleOk(s: State, i: Ino) {
    i in s.open ==>
      var h := s.open[i];
      && h.refs > 0
      && (i in s.cat ==> !h.deleted && h.rec == s.cat[i])
      && (!h.deleted && i !in s.cat ==> i !in s.local && !Queued(s, i))
      && (!h.deleted ==> (h.valid <==> i in s.cat))
      && (h.hasFile || i in s.local ==> h.valid)
      && (h.hasFile && !h.deleted ==> i in s.local)
  }

  /** Unsent data is queued for upload or being uploaded. */
  ghost predicate UnsentOk(s: State, i: Ino) {
    Dirty(s, i) ==> i in s.rw || s.worker.Uploading(i)
  }

  /** Whatever is catalogued or has a local file is queued, in the worker's hand, or open. */
  ghost predicate NotLost(s: State, i: Ino) {
    && (i in s.cat ==> Queued(s, i) || i in s.open)
    && (i in s.local ==> i in s.cat || Queued(s, i) || i in s.open)
    && !(i in s.rw && i in s.ro)
  }

  ghost predicate Issued(s: State, i: Ino) {
    i in s.cat || i in s.open || i in s.local || Queued(s, i) ==> i < s.nextIno
  }

  ghost predicate NodeOk(s: State, i: Ino) {
    RecordOk(s, i) && HandleOk(s, i) && UnsentOk(s, i) && NotLost(s, i) && Issued(s, i)
  }

  /** No path has two owners. */
  ghost predicate OneToOne(s: State) {
    forall i, j, p :: Owns(s, i, p) && Owns(s, j, p) ==> i == j
  }

  ghost predicate WorkerOk(s: State) {
    var w := s.worker;
    && (w.UpLocked? || w.UpChecked? || w.UpSent? || w.EvLocked? || w.EvNotQueued? || w.EvNotOpen? ==>
          w.i in s.cat && s.cat[w.i].path == w.p)
    && (w.UpChecked? || w.UpSent? || w.EvNotQueued? || w.EvNotOpen? ==> w.i !in s.rw)
    && (w.UpSent? ==> w.i in s.local && !Differs(s, w.i))
    && (w.EvNotOpen? || w.EvDeleted? ==> w.i !in s.open)
    && (w.EvAbsent? || w.EvDeleted? ==> w.i !in s.cat)
    && (w.EvDeleted? ==> w.p in s.storage)
    && (w.EvDeleted? && w.current && w.i in s.local ==> s.local[w.i] == s.storage[w.p].content)
  }

  ghost predicate Inv(s: State) {
    && (forall i :: NodeOk(s, i))
    && (forall p :: p in s.storage ==> s.storage[p].sig != "")
    && OneToOne(s) && WorkerOk(s)
  }

  // ---------- when the protocol is safe ----------

  /** Restarting trusts recorded hashes: one must not match a changed file, and must match a file that
      was superseded. */
  ghost predicate HashTells(s: State, i: Ino) {
    && (Dirty(s, i) ==> s.cat[i].base != Some(s.local[i]))
    && (Superseded(s, i) ==> s.cat[i].base == Some(s.local[i]))
  }

  ghost predicate HashesTell(s: State) {
    forall i :: HashTells(s, i)
  }

  /** The upload that is about to be recorded leaves no outdated signature on a file that is open. */
  ghost predicate CommitSafe(s: State)
    requires CanCommit(s)
  {
    !FileOpen(s, s.worker.i) || s.cat[s.worker.i].sig == s.storage[s.worker.p].sig
  }

  /** Object o may come to path q without the index learning of it: the local file of an ino that is
      catalogued there has the same content, or an outdated signature and can be replaced. */
  ghost predicate CanArrive(s: State, q: Path, o: Obj) {
    forall j :: j in s.cat && s.cat[j].path == q && j in s.local ==>
      s.local[j] == o.content || (s.cat[j].sig != o.sig && Replaceable(s, j, o.content))
  }

  /** The four moments at which the protocol can fail: the transaction of an upload fails after the
      storage accepted it while a client has the file open; a node without a record is renamed over
      a path whose local file cannot be replaced; the signature of a superseded file is refreshed; a
      restart finds a recorded hash that does not tell. */
  ghost predicate Careful(s: State, op: Op)
    requires Enabled(s, op)
  {
    && (op == Upload(UpCommit(false)) ==> CommitSafe(s))
    && (op.Rename? && op.i !in s.cat ==> CanArrive(s, op.q, s.storage[s.open[op.i].rec.path]))
    && (op.Stat? ==> !Superseded(s, op.i))
    && (op.Restart? ==> HashesTell(s))
  }

  // ---------- framing ----------

  ghost predicate SameIn<T>(m: map<Ino, T>, n: map<Ino, T>, i: Ino) {
    (i in m <==> i in n) && (i in m ==> m[i] == n[i])
  }

  /** A step left ino i and the object it owns alone. */
  ghost predicate Untouched(s: State, t: State, i: Ino) {
    && s.nextIno <= t.nextIno
    && (t.worker == s.worker || (!s.worker.Holds(i) && !t.worker.Holds(i)))
    && SameIn(s.cat, t.cat, i) && SameIn(s.local, t.local, i) && SameIn(s.open, t.open, i)
    && (i in s.rw <==> i in t.rw) && (i in s.ro <==> i in t.ro)
    && (i in s.cat && s.cat[i].path in s.storage ==>
          s.cat[i].path in t.storage && t.storage[s.cat[i].path] == s.storage[s.cat[i].path])
  }

  lemma UntouchedOk(s: State, t: State, i: Ino)
    requires Untouched(s, t, i) && NodeOk(s, i)
    ensures NodeOk(t, i)
  {
  }

  /** A step that changes nothing but ino i and the object it owns keeps the invariant if it keeps
      what is said of i and of the worker and takes no path from anybody. */
  lemma KeepStep(s: State, t: State, i: Ino)
    requires Inv(s) && NodeOk(t, i) && WorkerOk(t)
    requires forall j :: j != i ==> Untouched(s, t, j)
    requires forall p :: p in t.storage ==> t.storage[p].sig != ""
    requires forall p :: Owns(t, i, p) ==> Owns(s, i, p) || Unowned(s, p)
    ensures Inv(t)
  {
    forall j ensures NodeOk(t, j) {
      assert NodeOk(s, j);
      if j != i { UntouchedOk(s, t, j); }
    }
    forall j, k, p | Owns(t, j, p) && Owns(t, k, p) ensures j == k {
      assert (j == i || Untouched(s, t, j)) && (k == i || Untouched(s, t, k));
      assert (j == i || Owns(s, j, p)) && (k == i || Owns(s, k, p));
    }
  }

  /** The worker is not at work under the path lock of ino i, nor about to unlink its file. */
  ghost predicate Available(s: State, i: Ino) {
    s.worker.Holds(i) ==> (s.worker.UpPicked? || s.worker.UpUnlocked? || s.worker.EvPicked? || s.worker.EvUnlocked?)
  }

  lemma FreeIsAvailable(s: State, i: Ino)
    requires Inv(s)
    requires (i in s.cat && Free(s, s.cat[i].path)) || Live(s, i) || i >= s.nextIno
    ensures Available(s, i)
  {
    assert NodeOk(s, i);
  }

  /** The same for a client step on ino i that the worker has not locked. */
  lemma KeepOthers(s: State, t: State, i: Ino)
    requires Inv(s) && NodeOk(t, i) && (Available(s, i) || WorkerOk(t))
    requires t.worker == s.worker && t.storage == s.storage
    requires forall j :: j != i ==> Untouched(s, t, j)
    requires forall p :: Owns(t, i, p) ==> Owns(s, i, p) || Unowned(s, p)
    ensures Inv(t)
  {
    if !s.worker.Idle? && s.worker.i != i {
      assert Untouched(s, t, s.worker.i);
      assert NodeOk(s, s.worker.i);
    }
    KeepStep(s, t, i);
  }

  lemma KeepOpen(s: State, i: Ino)
    requires Inv(s) && i in s.cat && Free(s, s.cat[i].path)
    ensures Inv(DoOpen(s, i))
  {
    assert NodeOk(s, i);
    FreeIsAvailable(s, i);
    KeepOthers(s, DoOpen(s, i), i);
  }

  lemma KeepOpenFresh(s: State, p: Path)
    requires Inv(s) && Unowned(s, p) && Free(s, p)
    ensures Inv(DoOpenFresh(s, p))
  {
    var i := s.nextIno;
    assert NodeOk(s, i);
    FreeIsAvailable(s, i);
    KeepOthers(s, DoOpenFresh(s, p), i);
  }

  lemma KeepStat(s: State, i: Ino)
    requires Inv(s) && Live(s, i) && Stored(s, i) && !Superseded(s, i)
    ensures Inv(PutStat(s, i, s.storage[s.open[i].rec.path].sig))
  {
    assert NodeOk(s, i);
    FreeIsAvailable(s, i);
    KeepOthers(s, PutStat(s, i, s.storage[s.open[i].rec.path].sig), i);
  }

  lemma KeepFetch(s: State, i: Ino)
    requires Inv(s) && Live(s, i) && !s.open[i].hasFile && Stored(s, i)
    ensures Inv(DoFetch(s, i))
  {
    assert NodeOk(s, i);
    FreeIsAvailable(s, i);
    KeepOthers(s, DoFetch(s, i), i);
  }

  lemma KeepListKnown(s: State, i: Ino)
    requires Inv(s) && i in s.cat && Free(s, s.cat[i].path)
    ensures Inv(Touch(s, i, false))
  {
    assert NodeOk(s, i);
    FreeIsAvailable(s, i);
    KeepOthers(s, Touch(s, i, false), i);
  }

  lemma KeepListNew(s: State, p: Path)
    requires Inv(s) && p in s.storage && Unowned(s, p) && Free(s, p)
    ensures Inv(DoListNew(s, p))
  {
    var i := s.nextIno;
    assert NodeOk(s, i);
    FreeIsAvailable(s, i);
    KeepOthers(s, DoListNew(s, p), i);
  }

  lemma KeepSetFile(s: State, i: Ino, c: Bytes)
    requires Inv(s) && CanWrite(s, i)
    ensures Inv(SetFile(s, i, c))
  {
    assert NodeOk(s, i);
    assert Available(s, i) || WorkerOk(SetFile(s, i, c));
    KeepOthers(s, SetFile(s, i, c), i);
  }

  /** The same state with another hash in the record of a live node. */
  ghost function SetBase(s: State, i: Ino, base: Option<Bytes>): State
    requires i in s.open && i in s.cat
  {
    s.(cat := s.cat[i := s.cat[i].(base := base)],
       open := s.open[i := s.open[i].(rec := s.open[i].rec.(base := base))])
  }

  lemma KeepSetBase(s: State, i: Ino, base: Option<Bytes>)
    requires Inv(s) && i in s.open && i in s.cat
    ensures Inv(SetBase(s, i, base))
  {
    assert NodeOk(s, i);
    assert WorkerOk(SetBase(s, i, base));
    KeepOthers(s, SetBase(s, i, base), i);
  }

  /** A truncate is a full fetch, a change of the file, and a change of the recorded hash. */
  lemma TruncateByFetch(s: State, i: Ino, size: nat) returns (v: State, c: Bytes)
    requires NodeOk(s, i) && Live(s, i) && !s.open[i].hasFile && Stored(s, i)
    ensures v == SetFile(DoFetch(s, i), i, c) && i in v.open && i in v.cat
    ensures DoTruncate(s, i, size) == SetBase(v, i, DoTruncate(s, i, size).cat[i].base)
  {
    c := DoTruncate(s, i, size).local[i];
    v := SetFile(DoFetch(s, i), i, c);
    FetchesAgree(s, i, Prefix(s.storage[s.open[i].rec.path].content, size), c);
  }

  /** Fetching d instead of the whole object makes a difference to the file and the hash only. */
  lemma FetchesAgree(s: State, i: Ino, d: Bytes, c: Bytes)
    requires NodeOk(s, i) && Live(s, i) && !s.open[i].hasFile && Stored(s, i)
    ensures
      var v, t := SetFile(DoFetch(s, i), i, c), SetFile(FetchContent(s, i, d), i, c);
      i in v.open && i in v.cat && i in t.cat && t == SetBase(v, i, t.cat[i].base)
  {
    var f, g := DoFetch(s, i), FetchContent(s, i, d);
    FetchedRecords(s, i, s.storage[s.open[i].rec.path].content, d);
    assert f.local[i := c] == g.local[i := c];
  }

  lemma FetchedRecords(s: State, i: Ino, c: Bytes, d: Bytes)
    requires NodeOk(s, i) && Live(s, i) && !s.open[i].hasFile && Stored(s, i)
    ensures
      var f, g := FetchContent(s, i, c), FetchContent(s, i, d);
      && i in f.cat && i in f.open && i in g.cat
      && g == SetBase(f, i, g.cat[i].base).(local := g.local) && g.local[i := []] == f.local[i := []]
  {
    var f, g := FetchContent(s, i, c), FetchContent(s, i, d);
    assert g.cat == f.cat[i := f.cat[i].(base := g.cat[i].base)];
    assert g.open == f.open[i := f.open[i].(rec := f.open[i].rec.(base := g.cat[i].base))];
  }

  lemma KeepTruncate(s: State, i: Ino, size: nat)
    requires Inv(s) && CanTruncate(s, i)
    ensures Inv(DoTruncate(s, i, size))
  {
    assert NodeOk(s, i);
    if s.open[i].hasFile {
      KeepSetFile(s, i, Resize(s.local[i], size));
    } else {
      var v, c := TruncateByFetch(s, i, size);
      KeepFetch(s, i);
      KeepSetFile(DoFetch(s, i), i, c);
      KeepSetBase(v, i, DoTruncate(s, i, size).cat[i].base);
    }
  }

  lemma KeepClose(s: State, i: Ino)
    requires Inv(s) && CanClose(s, i)
    ensures Inv(DoClose(s, i))
  {
    if s.open[i].refs > 1 { KeepDereference(s, i); } else { KeepLastClose(s, i); }
  }

  lemma KeepDereference(s: State, i: Ino)
    requires Inv(s) && i in s.open && s.open[i].refs > 1
    ensures Inv(s.(open := s.open[i := s.open[i].(refs := s.open[i].refs - 1)]))
  {
    var t := s.(open := s.open[i := s.open[i].(refs := s.open[i].refs - 1)]);
    assert NodeOk(s, i);
    assert WorkerOk(t);
    KeepOthers(s, t, i);
  }

  lemma KeepLastClose(s: State, i: Ino)
    requires Inv(s) && CanClose(s, i)
    ensures Inv(LastClose(s, i))
  {
    assert NodeOk(s, i);
    CloseNode(s, i);
    KeepOthers(s, LastClose(s, i), i);
  }

  lemma CloseNode(s: State, i: Ino)
    requires i in s.open && NodeOk(s, i) && WorkerOk(s)
    ensures NodeOk(LastClose(s, i), i) && WorkerOk(LastClose(s, i))
    ensures forall j :: j != i ==> Untouched(s, LastClose(s, i), j)
  {
    var t := LastClose(s, i);
    assert s.open[i].hasFile && s.open[i].valid && !s.open[i].deleted ==> s.cat[i := s.open[i].rec] == s.cat;
    var u := s.(open := s.open - {i});
    assert t == u || t == Touch(u, i, false);
    ClosedWorker(s, t, i);
    ClosedNode(s, t, i);
  }

  lemma ClosedWorker(s: State, t: State, i: Ino)
    requires WorkerOk(s)
    requires var u := s.(open := s.open - {i}); t == u || t == Touch(u, i, false)
    ensures WorkerOk(t)
  {
  }

  lemma ClosedNode(s: State, t: State, i: Ino)
    requires i in s.open && NodeOk(s, i)
    requires t == if s.open[i].valid then Touch(s.(open := s.open - {i}), i, false) else s.(open := s.open - {i})
    ensures NodeOk(t, i)
  {
  }

  lemma KeepMake(s: State, i: Ino, sig: Sig)
    requires Inv(s) && Live(s, i) && !Stored(s, i) && sig != ""
    ensures Inv(DoMake(s, i, sig))
  {
    var t := DoMake(s, i, sig);
    assert NodeOk(s, i);
    assert WorkerOk(t);
    KeepStep(s, t, i);
  }

  lemma KeepRemove(s: State, i: Ino)
    requires Inv(s) && Live(s, i)
    ensures Inv(DoRemove(s, i))
  {
    var t := DoRemove(s, i);
    assert NodeOk(s, i) && Owns(s, i, s.open[i].rec.path);
    forall j | j != i ensures Untouched(s, t, j) {
      assert !Owns(s, j, s.open[i].rec.path);
    }
    assert WorkerOk(t);
    KeepStep(s, t, i);
  }

  lemma KeepRename(s: State, i: Ino, q: Path)
    requires Inv(s) && CanRename(s, i, q)
    requires i !in s.cat ==> CanArrive(s, q, s.storage[s.open[i].rec.path])
    ensures Inv(DoRename(s, i, q))
  {
    if i in s.cat { KeepRenameKnown(s, i, q); } else { KeepRenameFresh(s, i, q); }
  }

  lemma KeepRenameKnown(s: State, i: Ino, q: Path)
    requires Inv(s) && CanRename(s, i, q) && i in s.cat
    ensures Inv(DoRename(s, i, q))
  {
    var t := DoRename(s, i, q);
    var p := s.open[i].rec.path;
    assert NodeOk(s, i) && Owns(s, i, p);
    forall j ensures NodeOk(t, j) {
      assert NodeOk(s, j);
      if j != i {
        assert !Owns(s, j, p);
        if !(j in s.cat && s.cat[j].path == q) { UntouchedOk(s, t, j); }
      }
    }
    forall j, k, r | Owns(t, j, r) && Owns(t, k, r) ensures j == k {
      assert j != i ==> Owns(s, j, r) && r != q;
      assert k != i ==> Owns(s, k, r) && r != q;
    }
    RenamedWorker(s, i, q);
  }

  /** Without a record only the object moves. */
  lemma KeepRenameFresh(s: State, i: Ino, q: Path)
    requires Inv(s) && CanRename(s, i, q) && i !in s.cat
    requires CanArrive(s, q, s.storage[s.open[i].rec.path])
    ensures Inv(DoRename(s, i, q))
  {
    var t, p := DoRename(s, i, q), s.open[i].rec.path;
    assert Owns(s, i, p);
    forall j ensures NodeOk(t, j) {
      assert NodeOk(s, j);
      assert j != i ==> !Owns(s, j, p);
      if !(j in s.cat && s.cat[j].path == q) { UntouchedOk(s, t, j); }
    }
    forall j, k, r | Owns(t, j, r) && Owns(t, k, r) ensures j == k {
      assert Owns(s, j, r) && Owns(s, k, r);
    }
    RenamedWorker(s, i, q);
  }

  lemma RenamedWorker(s: State, i: Ino, q: Path)
    requires Inv(s) && CanRename(s, i, q)
    ensures WorkerOk(DoRename(s, i, q))
  {
    var w := s.worker;
    assert NodeOk(s, i);
    if !w.Idle? {
      assert NodeOk(s, w.i);
      assert Owns(s, i, s.open[i].rec.path);
    }
  }

  // ---------- the worker ----------

  lemma KeepUpPick(s: State, i: Ino, force: bool)
    requires Inv(s) && UploadEnabled(s, UpPick(i, force))
    ensures Inv(ApplyUpload(s, UpPick(i, force)))
  {
    assert NodeOk(s, i);
    KeepStep(s, ApplyUpload(s, UpPick(i, force)), i);
  }

  lemma KeepUpLock(s: State, failed: bool)
    requires Inv(s) && UploadEnabled(s, UpLock(failed))
    ensures Inv(ApplyUpload(s, UpLock(failed)))
  {
    assert NodeOk(s, s.worker.i);
    KeepStep(s, ApplyUpload(s, UpLock(failed)), s.worker.i);
  }

  lemma KeepUpRecheck(s: State)
    requires Inv(s) && UploadEnabled(s, UpRecheck)
    ensures Inv(ApplyUpload(s, UpRecheck))
  {
    assert NodeOk(s, s.worker.i);
    KeepStep(s, ApplyUpload(s, UpRecheck), s.worker.i);
  }

  lemma KeepSend(s: State, ok: bool, sig: Sig)
    requires Inv(s) && UploadEnabled(s, UpSend(ok, sig))
    ensures Inv(ApplyUpload(s, UpSend(ok, sig)))
  {
    var t := ApplyUpload(s, UpSend(ok, sig));
    var i, p := s.worker.i, s.worker.p;
    assert NodeOk(s, i) && Owns(s, i, p);
    forall j | j != i ensures Untouched(s, t, j) {
      assert !Owns(s, j, p);
    }
    KeepStep(s, t, i);
  }

  lemma KeepCommit(s: State, ok: bool)
    requires Inv(s) && CanCommit(s) && (!ok ==> CommitSafe(s))
    ensures Inv(DoCommit(s, ok))
  {
    assert NodeOk(s, s.worker.i);
    KeepStep(s, DoCommit(s, ok), s.worker.i);
  }

  lemma KeepUpTouch(s: State)
    requires Inv(s) && UploadEnabled(s, UpTouch)
    ensures Inv(ApplyUpload(s, UpTouch))
  {
    assert NodeOk(s, s.worker.i);
    KeepTouchIdle(s, s.worker.i, s.worker.failed);
  }

  /** The deferred touch puts the ino back into a queue and empties the worker's hand. */
  lemma KeepTouchIdle(s: State, i: Ino, failed: bool)
    requires Inv(s) && s.worker.Holds(i)
    requires if failed then !Superseded(s, i) else Dirty(s, i) ==> i in s.rw
    requires s.worker.UpUnlocked? || s.worker.EvUnlocked?
    ensures Inv(Touch(s, i, failed).(worker := Idle))
  {
    var t := Touch(s, i, failed).(worker := Idle);
    assert NodeOk(t, i) by {
      assert NodeOk(s, i);
      if failed { TouchedDirty(s, i); } else { TouchedClean(s, i); }
    }
    TouchLeavesOthers(s, i, failed);
    KeepStep(s, t, i);
  }

  lemma TouchedDirty(s: State, i: Ino)
    requires NodeOk(s, i) && s.worker.Holds(i) && (s.worker.UpUnlocked? || s.worker.EvUnlocked?)
    requires !Superseded(s, i)
    ensures NodeOk(Touch(s, i, true).(worker := Idle), i)
  {
  }

  lemma TouchedClean(s: State, i: Ino)
    requires NodeOk(s, i) && s.worker.Holds(i) && (s.worker.UpUnlocked? || s.worker.EvUnlocked?)
    requires Dirty(s, i) ==> i in s.rw
    ensures NodeOk(Touch(s, i, false).(worker := Idle), i)
  {
  }

  lemma TouchLeavesOthers(s: State, i: Ino, dirty: bool)
    requires s.worker.Holds(i)
    ensures forall j :: j != i ==> Untouched(s, Touch(s, i, dirty).(worker := Idle), j)
  {
  }

  lemma KeepUpload(s: State, up: UploadStep)
    requires Inv(s) && UploadEnabled(s, up) && (up == UpCommit(false) ==> CommitSafe(s))
    ensures Inv(ApplyUpload(s, up))
  {
    match up
    case UpPick(i, force) => KeepUpPick(s, i, force);
    case UpLock(failed) => KeepUpLock(s, failed);
    case UpRecheck => KeepUpRecheck(s);
    case UpSend(ok, sig) => KeepSend(s, ok, sig);
    case UpCommit(ok) => KeepCommit(s, ok);
    case UpTouch => KeepUpTouch(s);
  }

  lemma KeepEvPick(s: State, i: Ino, force: bool)
    requires Inv(s) && EvictEnabled(s, EvPick(i, force))
    ensures Inv(ApplyEvict(s, EvPick(i, force)))
  {
    assert NodeOk(s, i);
    KeepStep(s, ApplyEvict(s, EvPick(i, force)), i);
  }

  lemma KeepEvLock(s: State, failed: bool)
    requires Inv(s) && EvictEnabled(s, EvLock(failed))
    ensures Inv(ApplyEvict(s, EvLock(failed)))
  {
    assert NodeOk(s, s.worker.i);
    KeepStep(s, ApplyEvict(s, EvLock(failed)), s.worker.i);
  }

  lemma KeepEvRecheck(s: State)
    requires Inv(s) && EvictEnabled(s, EvRecheck)
    ensures Inv(ApplyEvict(s, EvRecheck))
  {
    assert NodeOk(s, s.worker.i);
    KeepStep(s, ApplyEvict(s, EvRecheck), s.worker.i);
  }

  lemma KeepEvCheckOpen(s: State)
    requires Inv(s) && EvictEnabled(s, EvCheckOpen)
    ensures Inv(ApplyEvict(s, EvCheckOpen))
  {
    assert NodeOk(s, s.worker.i);
    KeepStep(s, ApplyEvict(s, EvCheckOpen), s.worker.i);
  }

  lemma KeepEvDelete(s: State, ok: bool)
    requires Inv(s) && EvictEnabled(s, EvDelete(ok))
    ensures Inv(ApplyEvict(s, EvDelete(ok)))
  {
    assert NodeOk(s, s.worker.i);
    KeepStep(s, ApplyEvict(s, EvDelete(ok)), s.worker.i);
  }

  lemma KeepEvUnlink(s: State)
    requires Inv(s) && EvictEnabled(s, EvUnlink)
    ensures Inv(ApplyEvict(s, EvUnlink))
  {
    assert NodeOk(s, s.worker.i);
    KeepStep(s, ApplyEvict(s, EvUnlink), s.worker.i);
  }

  lemma KeepEvTouch(s: State)
    requires Inv(s) && EvictEnabled(s, EvTouch)
    ensures Inv(ApplyEvict(s, EvTouch))
  {
    assert NodeOk(s, s.worker.i);
    KeepTouchIdle(s, s.worker.i, false);
  }

  lemma KeepEvict(s: State, ev: EvictStep)
    requires Inv(s) && EvictEnabled(s, ev)
    ensures Inv(ApplyEvict(s, ev))
  {
    match ev
    case EvPick(i, force) => KeepEvPick(s, i, force);
    case EvLock(failed) => KeepEvLock(s, failed);
    case EvRecheck => KeepEvRecheck(s);
    case EvCheckOpen => KeepEvCheckOpen(s);
    case EvDelete(ok) => KeepEvDelete(s, ok);
    case EvUnlink => KeepEvUnlink(s);
    case EvTouch => KeepEvTouch(s);
  }

  lemma KeepRestart(s: State)
    requires Inv(s)
    ensures Inv(Restarted(s)) <==> HashesTell(s)
  {
    var t := Restarted(s);
    forall j ensures NodeOk(t, j) <==> HashTells(s, j) { RestartedNode(s, j); }
    forall j, k, p | Owns(t, j, p) && Owns(t, k, p) ensures j == k {
      assert Owns(s, j, p) && Owns(s, k, p);
    }
  }

  lemma RestartedNode(s: State, j: Ino)
    requires NodeOk(s, j)
    ensures NodeOk(Restarted(s), j) <==> HashTells(s, j)
  {
    var t := Restarted(s);
    assert Differs(t, j) <==> Differs(s, j);
    assert Current(t, j) <==> Current(s, j);
    assert j in t.rw <==> j in s.cat && HashDiffers(s, j);
  }
}
