/** Where the write-back protocol stops being safe, with the exact conditions. */
module WriteBackLimits {
  import opened Paths
  import opened Options
  import opened WriteBack
  import opened WriteBackSafety
  import opened WriteBackTheorems

  /** The state after the given operations, if each of them is enabled in its turn. */
  ghost function RunOps(s: State, ops: seq<Op>): Option<State>
    decreases |ops|
  {
    if ops == [] then Some(s)
    else if Enabled(s, ops[0]) then RunOps(Apply(s, ops[0]), ops[1..])
    else None
  }

  lemma RunFirst(s: State, op: Op, ops: seq<Op>)
    requires Enabled(s, op)
    ensures RunOps(s, [op] + ops) == RunOps(Apply(s, op), ops)
  {
    assert ([op] + ops)[1..] == ops;
  }

  // ---------- an upload that is accepted but not recorded ----------

  /** When the transaction fails after the storage accepted an upload, the invariant survives
      exactly if nobody has the file open (or the storage did not change the signature). */
  lemma CommitFailureExact(s: State)
    requires Inv(s) && CanCommit(s)
    ensures Inv(DoCommit(s, false)) <==>
              !FileOpen(s, s.worker.i) || s.cat[s.worker.i].sig == s.storage[s.worker.p].sig
  {
    if CommitSafe(s) { KeepCommit(s, false); } else { CommitNeedsCare(s); }
  }

  function Closes(i: Ino, n: nat): (ops: seq<Op>)
    ensures |ops| == n
  {
    if n == 0 then [] else [Close(i)] + Closes(i, n - 1)
  }

  /** A client writes through the open file, everybody closes it, and somebody opens and reads it. */
  function WriteAndReopen(i: Ino, off: nat, buf: Bytes, refs: nat): seq<Op> {
    [Write(i, off, buf)] + Closes(i, refs) + [Open(i), Fetch(i)]
  }

  /** After an accepted upload that was not recorded, a write through a file that was open survives
      closing and reopening exactly if the signature did not change or the write left the uploaded
      content as a prefix of the file; otherwise an acknowledged write is lost. */
  lemma CommitFailureLosesWrite(s: State, off: nat, buf: Bytes)
    requires Inv(s) && CanCommit(s) && FileOpen(s, s.worker.i)
    ensures
      var i, p := s.worker.i, s.worker.p;
      var written := Splice(s.local[i], off, buf);
      var r := RunOps(s, [Upload(UpCommit(false)), Upload(UpTouch)] + WriteAndReopen(i, off, buf, s.open[i].refs));
      && r.Some? && FileOpen(r.value, i) && r.value.open[i].rec.path == p && i in r.value.local
      && (r.value.local[i] == written <==> s.cat[i].sig == s.storage[p].sig || s.local[i] <= written)
  {
    var i := s.worker.i;
    assert NodeOk(s, i);
    var s1 := DoCommit(s, false);
    var s2 := Touch(s1, i, true).(worker := Idle);
    var rest := WriteAndReopen(i, off, buf, s.open[i].refs);
    assert [Upload(UpCommit(false)), Upload(UpTouch)] + rest == [Upload(UpCommit(false))] + ([Upload(UpTouch)] + rest);
    RunFirst(s1, Upload(UpTouch), rest);
    RunFirst(s, Upload(UpCommit(false)), [Upload(UpTouch)] + rest);
    assert ApplyUpload(s1, UpTouch) == s2;
    ReopenedContent(s2, i, off, buf);
  }

  /** Overlaying c keeps a file exactly if the file begins with c. */
  lemma OverlayKeeps(c: Bytes, file: Bytes)
    ensures Overlay(c, file) == file <==> c <= file
  {
    if c <= file { assert file == c + file[|c|..]; }
  }

  lemma ReopenedContent(s: State, i: Ino, off: nat, buf: Bytes)
    requires s.worker.Idle? && FileOpen(s, i) && i in s.cat && i in s.local && s.open[i].refs > 0
    requires s.open[i] == Handle(s.cat[i], s.open[i].refs, true, false, true)
    requires s.cat[i].path in s.storage && s.storage[s.cat[i].path].sig != ""
    requires s.local[i] == s.storage[s.cat[i].path].content
    ensures
      var p, written := s.cat[i].path, Splice(s.local[i], off, buf);
      var r := RunOps(s, WriteAndReopen(i, off, buf, s.open[i].refs));
      && r.Some? && FileOpen(r.value, i) && r.value.open[i].rec.path == p && i in r.value.local
      && (r.value.local[i] == written <==> s.cat[i].sig == s.storage[p].sig || s.local[i] <= written)
  {
    var s3, n := DoWrite(s, i, off, buf), s.open[i].refs;
    var tail := Closes(i, n) + [Open(i), Fetch(i)];
    assert WriteAndReopen(i, off, buf, n) == [Write(i, off, buf)] + tail;
    RunFirst(s, Write(i, off, buf), tail);
    var s4 := ClosesRun(s3, i, n, [Open(i), Fetch(i)]);
    FetchRun(s4, i);
    OverlayKeeps(s.local[i], s3.local[i]);
  }

  /** Closing every reference forgets the open node and nothing else, if the ino waits for upload. */
  lemma {:induction false} ClosesRun(s: State, i: Ino, n: nat, ops: seq<Op>) returns (t: State)
    requires s.worker.Idle? && i in s.open && i in s.cat && i in s.rw && n > 0
    requires s.open[i] == Handle(s.cat[i], n, true, false, true)
    ensures t == s.(open := s.open - {i}) && RunOps(s, Closes(i, n) + ops) == RunOps(t, ops)
    decreases n
  {
    assert Closes(i, n) + ops == [Close(i)] + (Closes(i, n - 1) + ops);
    RunFirst(s, Close(i), Closes(i, n - 1) + ops);
    if n == 1 {
      assert s.cat[i := s.cat[i]] == s.cat;
      t := s.(open := s.open - {i});
      assert Closes(i, 0) + ops == ops;
    } else {
      var u := s.(open := s.open[i := Handle(s.cat[i], n - 1, true, false, true)]);
      t := ClosesRun(u, i, n - 1, ops);
      assert u.open - {i} == s.open - {i};
    }
  }

  /** Opening a closed file keeps it if its recorded signature is current, else the stored object is
      copied over it. */
  lemma FetchRun(s: State, i: Ino)
    requires s.worker.Idle? && i in s.cat && i in s.local && i !in s.open
    requires s.cat[i].path in s.storage && s.storage[s.cat[i].path].sig != ""
    ensures
      var o, r := s.storage[s.cat[i].path], RunOps(s, [Open(i), Fetch(i)]);
      && r.Some? && FileOpen(r.value, i) && r.value.open[i].rec.path == s.cat[i].path && i in r.value.local
      && r.value.local[i] == if s.cat[i].sig == o.sig then s.local[i] else Overlay(o.content, s.local[i])
  {
    var t := s.(open := s.open[i := Handle(s.cat[i], 1, true, false, false)]);
    RunFirst(t, Fetch(i), []);
    RunFirst(s, Open(i), [Fetch(i)]);
    assert DoOpen(s, i) == t;
  }

  // ---------- recorded hashes ----------

  /** The stored object that the record of i names. */
  ghost function StoredObj(s: State, i: Ino): Obj
    requires i in s.cat && s.cat[i].path in s.storage
  {
    s.storage[s.cat[i].path]
  }

  /** The record has the hash of something else than o. */
  ghost predicate HashOutdated(rec: Rec, o: Obj) {
    rec.base.Some? && rec.base.value != o.content
  }

  /** A record with the current signature has the hash of the stored object, or none; a superseded file
      has the recorded hash (unless its upload is about to be recorded). */
  ghost predicate HashExact(s: State, i: Ino) {
    i in s.cat && i in s.local && s.cat[i].path in s.storage && !(s.worker.UpSent? && s.worker.i == i) ==>
      && (Current(s, i) ==> !HashOutdated(s.cat[i], StoredObj(s, i)))
      && (Superseded(s, i) ==> s.cat[i].base == Some(s.local[i]))
  }

  ghost predicate HashesExact(s: State) {
    forall i :: HashExact(s, i)
  }

  lemma ExactHashesTell(s: State)
    requires Inv(s) && HashesExact(s)
    ensures HashesTell(s)
  {
    forall i ensures HashTells(s, i) { assert NodeOk(s, i) && HashExact(s, i); }
  }

  /** Truncating this node fetches it first: its file is not open, and there is no local file with
      the current signature. */
  ghost predicate Fetches(s: State, i: Ino)
    requires i in s.open && Stored(s, i)
  {
    var rec := s.open[i].rec;
    !s.open[i].hasFile && !(i in s.local && rec.sig != "" && rec.sig == s.storage[rec.path].sig)
  }

  /** A recorded hash that is outdated, under a signature that is not. */
  ghost predicate HidesChanges(s: State, i: Ino, o: Obj) {
    i in s.cat && i in s.local && s.cat[i].sig == o.sig && HashOutdated(s.cat[i], o)
  }

  ghost predicate RiskyTruncate(s: State, i: Ino, size: nat)
    requires CanTruncate(s, i)
  {
    !s.open[i].hasFile && Fetches(s, i) && size < |s.storage[s.open[i].rec.path].content|
  }

  /** Looking a node up refreshes its signature and not its hash. */
  ghost predicate RiskyStat(s: State, i: Ino)
    requires Live(s, i) && Stored(s, i)
  {
    i in s.cat && i in s.local && HashOutdated(s.cat[i], s.storage[s.open[i].rec.path])
  }

  /** The worker has sent the file and the record has not followed. */
  ghost predicate RiskySent(s: State) {
    CanCommit(s) && HidesChanges(s, s.worker.i, s.storage[s.worker.p])
  }

  ghost predicate RiskyRename(s: State, i: Ino, q: Path)
    requires CanRename(s, i, q)
  {
    i !in s.cat && exists j :: Serves(s, j, q) && HashMisleads(s, j, s.storage[s.open[i].rec.path])
  }

  /** With o in its place, the record of j has the signature of o and another hash, or another signature
      and not the hash of its file, which differs from o. */
  ghost predicate HashMisleads(s: State, j: Ino, o: Obj)
    requires j in s.cat && j in s.local
  {
    if s.cat[j].sig == o.sig then HashOutdated(s.cat[j], o)
    else s.local[j] != o.content && s.cat[j].base != Some(s.local[j])
  }

  /** The events after which a recorded hash is that of something else than the stored object. */
  ghost predicate HashRisk(s: State, op: Op)
    requires Enabled(s, op)
  {
    match op
    case Truncate(i, size) => RiskyTruncate(s, i, size)
    case Stat(i) => RiskyStat(s, i)
    case Rename(i, q) => RiskyRename(s, i, q)
    case Upload(up) => up == UpCommit(false) && RiskySent(s)
    case Restart => RiskySent(s)
    case _ => false
  }

  // ---------- each step ----------

  lemma ExactTruncate(s: State, i: Ino, size: nat)
    requires Inv(s) && HashesExact(s) && CanTruncate(s, i)
    ensures HashesExact(DoTruncate(s, i, size)) <==> !RiskyTruncate(s, i, size)
  {
    var t := DoTruncate(s, i, size);
    assert NodeOk(s, i);
    forall j | j != i ensures HashExact(t, j) { assert HashExact(s, j); }
    if s.open[i].hasFile || !Fetches(s, i) {
      assert HashExact(s, i);
      assert t.cat == s.cat && t.storage == s.storage && t.local.Keys == s.local.Keys;
    } else {
      TruncateRecord(s, i, size);
    }
    assert HashExact(t, i) <==> !RiskyTruncate(s, i, size);
  }

  /** What a truncate that fetches records: the signature of the object, the hash of what it keeps. */
  lemma TruncateRecord(s: State, i: Ino, size: nat)
    requires Inv(s) && Live(s, i) && Stored(s, i) && Fetches(s, i) && CanTruncate(s, i)
    ensures
      var t, p := DoTruncate(s, i, size), s.open[i].rec.path;
      && t.storage == s.storage && t.worker == s.worker && i in t.local && i in t.cat && t.cat[i].path == p
      && t.cat[i].sig == s.storage[p].sig
      && (HashOutdated(t.cat[i], s.storage[p]) <==> size < |s.storage[p].content|)
      && !(s.worker.UpSent? && s.worker.i == i)
  {
    assert NodeOk(s, i);
    var c := s.storage[s.open[i].rec.path].content;
    assert size >= |c| ==> Prefix(c, size) == c;
  }

  lemma ExactFetch(s: State, i: Ino)
    requires Inv(s) && HashesExact(s) && Live(s, i) && !s.open[i].hasFile && Stored(s, i)
    ensures HashesExact(DoFetch(s, i))
  {
    var t := DoFetch(s, i);
    assert NodeOk(s, i);
    forall j ensures HashExact(t, j) { assert HashExact(s, j); }
  }

  lemma ExactStat(s: State, i: Ino)
    requires Inv(s) && HashesExact(s) && Live(s, i) && Stored(s, i)
    ensures HashesExact(PutStat(s, i, s.storage[s.open[i].rec.path].sig)) <==> !RiskyStat(s, i)
  {
    var t := PutStat(s, i, s.storage[s.open[i].rec.path].sig);
    assert NodeOk(s, i);
    forall j | j != i ensures HashExact(t, j) { assert HashExact(s, j); }
    assert HashExact(t, i) <==> !RiskyStat(s, i);
  }

  lemma ExactCommit(s: State, ok: bool)
    requires Inv(s) && HashesExact(s) && CanCommit(s)
    ensures HashesExact(DoCommit(s, ok)) <==> ok || !RiskySent(s)
  {
    var t, i := DoCommit(s, ok), s.worker.i;
    assert NodeOk(s, i);
    forall j | j != i ensures HashExact(t, j) { assert HashExact(s, j); }
    assert HashExact(t, i) <==> ok || !RiskySent(s);
  }

  lemma ExactRestart(s: State)
    requires Inv(s) && HashesExact(s)
    ensures HashesExact(Restarted(s)) <==> !RiskySent(s)
  {
    var t := Restarted(s);
    forall j | !(s.worker.UpSent? && s.worker.i == j) ensures HashExact(t, j) { assert HashExact(s, j); }
    if s.worker.UpSent? {
      assert NodeOk(s, s.worker.i);
      assert HashExact(t, s.worker.i) <==> !RiskySent(s);
    }
  }

  lemma ExactRename(s: State, i: Ino, q: Path)
    requires Inv(s) && HashesExact(s) && CanRename(s, i, q)
    ensures HashesExact(DoRename(s, i, q)) <==> !RiskyRename(s, i, q)
  {
    var t, p := DoRename(s, i, q), s.open[i].rec.path;
    assert NodeOk(s, i) && Owns(s, i, p);
    if i in s.cat {
      forall j ensures HashExact(t, j) {
        assert HashExact(s, j);
        if j != i && j in s.cat { assert !Owns(s, j, p); }
      }
    } else {
      forall j ensures HashExact(t, j) <==> !(Serves(s, j, q) && HashMisleads(s, j, s.storage[p])) {
        RenamedHash(s, i, q, j);
      }
    }
  }

  lemma RenamedHash(s: State, i: Ino, q: Path, j: Ino)
    requires Inv(s) && HashesExact(s) && CanRename(s, i, q) && i !in s.cat
    ensures HashExact(DoRename(s, i, q), j) <==>
              !(Serves(s, j, q) && HashMisleads(s, j, s.storage[s.open[i].rec.path]))
  {
    assert NodeOk(s, j) && HashExact(s, j);
    assert Owns(s, i, s.open[i].rec.path);
    if j in s.cat && j != i { assert !Owns(s, j, s.open[i].rec.path); }
  }

  lemma ExactNames(s: State, op: Op)
    requires Inv(s) && HashesExact(s) && Enabled(s, op) && (op.Make? || op.Remove?)
    ensures HashesExact(Apply(s, op))
  {
    forall j ensures HashExact(Apply(s, op), j) {
      assert HashExact(s, j) && NodeOk(s, j) && NodeOk(s, op.i);
      assert Owns(s, op.i, s.open[op.i].rec.path);
      if j != op.i && j in s.cat { assert !Owns(s, j, s.open[op.i].rec.path); }
    }
  }

  lemma ExactUpload(s: State, up: UploadStep)
    requires Inv(s) && HashesExact(s) && UploadEnabled(s, up) && !up.UpCommit?
    ensures HashesExact(ApplyUpload(s, up))
  {
    forall i ensures HashExact(ApplyUpload(s, up), i) {
      if up.UpSend? { SentHash(s, up.ok, up.sig, i); } else { UploadLeaves(s, up, i); }
    }
  }

  lemma UploadLeaves(s: State, up: UploadStep, i: Ino)
    requires HashesExact(s) && UploadEnabled(s, up) && !up.UpCommit? && !up.UpSend?
    ensures HashExact(ApplyUpload(s, up), i)
  {
    assert HashExact(s, i);
  }

  lemma SentHash(s: State, ok: bool, sig: Sig, i: Ino)
    requires Inv(s) && HashesExact(s) && UploadEnabled(s, UpSend(ok, sig))
    ensures HashExact(ApplyUpload(s, UpSend(ok, sig)), i)
  {
    assert HashExact(s, i);
    assert Owns(s, s.worker.i, s.worker.p);
    if i in s.cat && i != s.worker.i { assert !Owns(s, i, s.worker.p); }
  }

  lemma ExactEvict(s: State, ev: EvictStep)
    requires HashesExact(s) && EvictEnabled(s, ev)
    ensures HashesExact(ApplyEvict(s, ev))
  {
    forall i ensures HashExact(ApplyEvict(s, ev), i) {
      assert HashExact(s, i);
      EvictLeaves(s, ev, i);
    }
  }

  /** An eviction step forgets records and files, and changes none. */
  lemma EvictLeaves(s: State, ev: EvictStep, i: Ino)
    requires EvictEnabled(s, ev)
    ensures var t := ApplyEvict(s, ev);
            && t.storage == s.storage && (i in t.cat ==> i in s.cat && t.cat[i] == s.cat[i])
            && (i in t.local ==> i in s.local) && !t.worker.UpSent? && !s.worker.UpSent?
  {
    match ev
    case EvTouch => assert Touch(s, s.worker.i, false).cat == s.cat;
    case _ =>
  }

  lemma ExactClose(s: State, i: Ino)
    requires Inv(s) && HashesExact(s) && CanClose(s, i)
    ensures HashesExact(DoClose(s, i))
  {
    forall j ensures HashExact(DoClose(s, i), j) { assert HashExact(s, j) && NodeOk(s, i); }
  }

  lemma ExactOther(s: State, op: Op)
    requires Inv(s) && HashesExact(s) && Enabled(s, op)
    requires op.Open? || op.OpenFresh? || op.Write? || op.ListKnown? || op.ListNew? || op.Tick?
    ensures HashesExact(Apply(s, op))
  {
    forall i ensures HashExact(Apply(s, op), i) {
      assert HashExact(s, i) && NodeOk(s, i);
      match op
      case Write(j, off, buf) => WrittenHash(s, j, Splice(s.local[j], off, buf), i);
      case ListNew(p) => ListedHash(s, p, i);
      case _ =>
    }
  }

  lemma WrittenHash(s: State, j: Ino, c: Bytes, i: Ino)
    requires Inv(s) && HashExact(s, i) && CanWrite(s, j)
    ensures HashExact(SetFile(s, j, c), i)
  {
    assert NodeOk(s, j);
  }

  lemma ListedHash(s: State, p: Path, i: Ino)
    requires Inv(s) && HashExact(s, i) && p in s.storage
    ensures HashExact(DoListNew(s, p), i)
  {
    assert NodeOk(s, s.nextIno);
  }

  /** Exactly the steps without risk keep recorded hashes exact. */
  lemma ExactStep(s: State, op: Op)
    requires Inv(s) && HashesExact(s) && Enabled(s, op)
    ensures HashesExact(Apply(s, op)) <==> !HashRisk(s, op)
  {
    match op
    case Truncate(i, size) => ExactTruncate(s, i, size);
    case Fetch(i) => ExactFetch(s, i);
    case Stat(i) => ExactStat(s, i);
    case Make(_, _) => ExactNames(s, op);
    case Remove(_) => ExactNames(s, op);
    case Rename(i, q) => ExactRename(s, i, q);
    case Close(i) => ExactClose(s, i);
    case Upload(up) => if up.UpCommit? { ExactCommit(s, up.ok); } else { ExactUpload(s, up); }
    case Evict(ev) => ExactEvict(s, ev);
    case Restart => ExactRestart(s);
    case _ => ExactOther(s, op);
  }

  // ---------- without risk ----------

  /** A step that needs no knowledge of hashes to be careful, and that leaves them exact. */
  ghost predicate Plain(s: State, op: Op)
    requires Enabled(s, op)
  {
    !HashRisk(s, op) && (!op.Restart? ==> Careful(s, op))
  }

  ghost predicate IsPlainRun(ss: seq<State>, ops: seq<Op>) {
    && |ss| == |ops| + 1
    && forall k :: 0 <= k < |ops| ==>
         Enabled(ss[k], ops[k]) && Plain(ss[k], ops[k]) && ss[k + 1] == Apply(ss[k], ops[k])
  }

  lemma PlainIsCareful(s: State, op: Op)
    requires Inv(s) && HashesExact(s) && Enabled(s, op) && Plain(s, op)
    ensures Careful(s, op)
  {
    ExactHashesTell(s);
  }

  lemma PlainStep(s: State, op: Op)
    requires Inv(s) && HashesExact(s) && Enabled(s, op) && Plain(s, op)
    ensures Inv(Apply(s, op)) && HashesExact(Apply(s, op))
  {
    PlainIsCareful(s, op);
    Keep(s, op);
    ExactStep(s, op);
  }

  lemma {:induction false} PlainRunKeeps(ss: seq<State>, ops: seq<Op>, n: nat)
    requires IsPlainRun(ss, ops) && Initial(ss[0]) && n <= |ops|
    ensures Inv(ss[n]) && HashesExact(ss[n]) && HashesTell(ss[n])
  {
    if n == 0 {
      InitialOk(ss[0]);
    } else {
      PlainRunKeeps(ss, ops, n - 1);
      PlainStep(ss[n - 1], ops[n - 1]);
    }
    ExactHashesTell(ss[n]);
  }

  /** Such a run needs no further care: restarts and failed uploads may happen anywhere, and the
      cache is still a single copy of every file. */
  lemma PlainRunRefines(ss: seq<State>, ops: seq<Op>)
    requires IsPlainRun(ss, ops) && Initial(ss[0])
    ensures IsRun(ss, ops)
    ensures View(ss[|ops|]) == FsRun(View(ss[0]), Meanings(ss, ops))
  {
    forall k: nat | k < |ops| ensures Careful(ss[k], ops[k]) {
      PlainRunKeeps(ss, ops, k);
      PlainIsCareful(ss[k], ops[k]);
    }
    InitialOk(ss[0]);
    RunRefines(ss, ops);
  }

  // ---------- with risk, data can be lost ----------

  /** Truncating hides unsent data from the next restart exactly if it fetches less than the stored
      object: with no local file, and with an outdated one. */
  lemma ShortTruncateHidesData(s: State, i: Ino, size: nat)
    requires Inv(s) && HashesExact(s) && CanTruncate(s, i)
    ensures HashesTell(DoTruncate(s, i, size)) <==> !RiskyTruncate(s, i, size)
    ensures RiskyTruncate(s, i, size) ==>
              var t := DoTruncate(s, i, size); Dirty(t, i) && i in Restarted(t).ro && Dirty(Restarted(t), i)
  {
    var t := DoTruncate(s, i, size);
    if RiskyTruncate(s, i, size) {
      assert NodeOk(s, i);
      var c := s.storage[s.open[i].rec.path].content;
      assert |Prefix(c, size)| == size;
      TruncateRecord(s, i, size);
      assert t.local[i] == Prefix(c, size) != c;
      assert t.cat[i].base == Some(Prefix(c, size));
      assert !HashTells(t, i);
    } else {
      ExactTruncate(s, i, size);
      KeepTruncate(s, i, size);
      ExactHashesTell(t);
    }
  }

  /** A file whose recorded hash matches although the storage has something else is evicted after a
      restart without ever being uploaded. */
  lemma ShortTruncateIsLost(s: State, i: Ino)
    requires i in s.cat && Dirty(s, i) && s.cat[i].base == Some(s.local[i])
    ensures
      var r := RunOps(s, RestartAndEvict(i));
      && r.Some? && i !in r.value.cat && i !in r.value.local && r.value.storage == s.storage
      && s.local[i] != r.value.storage[s.cat[i].path].content
  {
    var s1 := Restarted(s);
    EvictRuns(s1, i);
    RunFirst(s, Restart, EvictAlone(i));
  }

  /** A forced eviction that nothing interrupts. */
  function EvictAlone(i: Ino): seq<Op> {
    [Evict(EvPick(i, true)), Evict(EvLock(false)), Evict(EvRecheck), Evict(EvCheckOpen), Evict(EvDelete(true)),
     Evict(EvUnlink)]
  }

  function RestartAndEvict(i: Ino): seq<Op> {
    [Restart] + EvictAlone(i)
  }

  lemma EvictRuns(s: State, i: Ino)
    requires s.worker.Idle? && i in s.cat && i in s.ro && i !in s.rw && i !in s.open
    ensures RunOps(s, EvictAlone(i)) == Some(s.(cat := s.cat - {i}, local := s.local - {i}, ro := s.ro - {i}))
  {
    var s2 := s.(ro := s.ro - {i}, worker := EvPicked(i));
    var s3 := s2.(worker := EvLocked(i, s.cat[i].path));
    var rest := [Evict(EvRecheck), Evict(EvCheckOpen), Evict(EvDelete(true)), Evict(EvUnlink)];
    assert EvictAlone(i) == [Evict(EvPick(i, true))] + ([Evict(EvLock(false))] + rest);
    RunFirst(s, Evict(EvPick(i, true)), [Evict(EvLock(false))] + rest);
    RunFirst(s2, Evict(EvLock(false)), rest);
    LockedEvictRuns(s3, i, s.cat[i].path);
  }

  lemma LockedEvictRuns(s: State, i: Ino, p: Path)
    requires s.worker == EvLocked(i, p) && i !in s.ro && i !in s.rw && i !in s.open
    ensures RunOps(s, [Evict(EvRecheck), Evict(EvCheckOpen), Evict(EvDelete(true)), Evict(EvUnlink)]) ==
            Some(s.(cat := s.cat - {i}, local := s.local - {i}, worker := Idle))
  {
    var s4, s5 := s.(worker := EvNotQueued(i, p)), s.(worker := EvNotOpen(i, p));
    RunFirst(s, Evict(EvRecheck), [Evict(EvCheckOpen), Evict(EvDelete(true)), Evict(EvUnlink)]);
    RunFirst(s4, Evict(EvCheckOpen), [Evict(EvDelete(true)), Evict(EvUnlink)]);
    CheckedEvictRuns(s5, i, p);
  }

  lemma CheckedEvictRuns(s: State, i: Ino, p: Path)
    requires s.worker == EvNotOpen(i, p)
    ensures RunOps(s, [Evict(EvDelete(true)), Evict(EvUnlink)]) ==
            Some(s.(cat := s.cat - {i}, local := s.local - {i}, worker := Idle))
  {
    var s6 := ApplyEvict(s, EvDelete(true));
    RunFirst(s, Evict(EvDelete(true)), [Evict(EvUnlink)]);
    RunFirst(s6, Evict(EvUnlink), []);
  }

  /** The risk is real: once the hash under a current signature is not exact, a client that opens the
      file and gives it the content of the recorded hash has written something that the next restart
      takes for sent, and that is then lost. */
  lemma InexactHashLosesData(s: State, i: Ino)
    requires Inv(s) && !HashExact(s, i) && Current(s, i) && Free(s, s.cat[i].path)
    ensures
      var b := s.cat[i].base.value;
      var r := RunOps(s, [Open(i), Truncate(i, |b|), Write(i, 0, b)]);
      && r.Some? && r.value.storage == s.storage && i in r.value.cat && r.value.cat[i] == s.cat[i]
      && i in r.value.local && r.value.local[i] == b && Dirty(r.value, i) && !HashesTell(r.value)
    ensures
      var r := RunOps(s, [Open(i), Truncate(i, |s.cat[i].base.value|), Write(i, 0, s.cat[i].base.value)]);
      var l := RunOps(r.value, RestartAndEvict(i));
      l.Some? && i !in l.value.cat && i !in l.value.local && l.value.storage == s.storage
  {
    assert NodeOk(s, i) && s.storage[s.cat[i].path].sig != "";
    var r := OverwriteRuns(s, i, s.cat[i].base.value);
    assert !HashTells(r, i);
    ShortTruncateIsLost(r, i);
  }

  /** And once the hash of a superseded file is not that of the file, the next restart queues the file
      for upload, and it is sent over the object that superseded it. So exact hashes are just what
      recovery needs. */
  lemma InexactHashLosesObject(s: State, i: Ino, sig: Sig)
    requires Inv(s) && !HashExact(s, i) && !Current(s, i) && sig != ""
    ensures
      var r, p := RunOps(s, [Restart] + UploadAlone(i, sig)), s.cat[i].path;
      && r.Some? && p in r.value.storage && r.value.storage[p] == Obj(s.local[i], sig)
      && s.local[i] != s.storage[p].content
  {
    assert NodeOk(s, i);
    RunFirst(s, Restart, UploadAlone(i, sig));
    UploadRuns(Restarted(s), i, sig);
  }

  /** A forced upload that nothing interrupts, up to its acceptance. */
  function UploadAlone(i: Ino, sig: Sig): seq<Op> {
    [Upload(UpPick(i, true)), Upload(UpLock(false)), Upload(UpRecheck), Upload(UpSend(true, sig))]
  }

  lemma UploadRuns(s: State, i: Ino, sig: Sig)
    requires s.worker.Idle? && i in s.cat && i in s.rw && i in s.local && sig != ""
    ensures
      var r, p := RunOps(s, UploadAlone(i, sig)), s.cat[i].path;
      r.Some? && r.value.storage == s.storage[p := Obj(s.local[i], sig)]
  {
    var p := s.cat[i].path;
    var s2 := s.(rw := s.rw - {i}, worker := UpPicked(i));
    var s3, s4 := s2.(worker := UpLocked(i, p)), s2.(worker := UpChecked(i, p));
    RunFirst(s, Upload(UpPick(i, true)), [Upload(UpLock(false)), Upload(UpRecheck), Upload(UpSend(true, sig))]);
    RunFirst(s2, Upload(UpLock(false)), [Upload(UpRecheck), Upload(UpSend(true, sig))]);
    RunFirst(s3, Upload(UpRecheck), [Upload(UpSend(true, sig))]);
    RunFirst(s4, Upload(UpSend(true, sig)), []);
  }

  // ---------- renaming a node without a record ----------

  /** If the file at the target waits for upload, the next upload sends it over the renamed object, and
      what was renamed is gone from the storage. */
  lemma RenamedObjectIsLost(s: State, i: Ino, q: Path, j: Ino, sig: Sig)
    requires Inv(s) && CanRename(s, i, q) && i !in s.cat && s.worker.Idle? && sig != ""
    requires Serves(s, j, q) && j in s.rw && s.local[j] != s.storage[s.open[i].rec.path].content
    ensures
      var p, r := s.open[i].rec.path, RunOps(s, [Rename(i, q)] + UploadAlone(j, sig));
      && r.Some? && p !in r.value.storage && q in r.value.storage && r.value.storage[q].content == s.local[j]
      && (forall x :: x in r.value.storage && x != q ==> x in s.storage && r.value.storage[x] == s.storage[x])
  {
    RunFirst(s, Rename(i, q), UploadAlone(j, sig));
    UploadRuns(DoRename(s, i, q), j, sig);
  }

  /** If it does not, and it is no longer than the object under another signature, then a client that
      opens the target reads the renamed object: such a rename is harmless. */
  lemma RenamedObjectIsRead(s: State, i: Ino, q: Path, j: Ino)
    requires Inv(s) && CanRename(s, i, q) && i !in s.cat && s.worker.Idle? && Serves(s, j, q)
    requires CanArrive(s, q, s.storage[s.open[i].rec.path])
    ensures
      var r := RunOps(s, [Rename(i, q), Open(j), Fetch(j)]);
      && r.Some? && FileOpen(r.value, j) && r.value.open[j].rec.path == q && j in r.value.local
      && r.value.local[j] == s.storage[s.open[i].rec.path].content
  {
    var t := DoRename(s, i, q);
    assert NodeOk(s, j) && NodeOk(s, i);
    RunFirst(s, Rename(i, q), [Open(j), Fetch(j)]);
    FetchRun(t, j);
  }

  /** Opening a file whose signature is current and giving it the content b. */
  lemma OverwriteRuns(s: State, i: Ino, b: Bytes) returns (r: State)
    requires i in s.cat && i in s.local && Free(s, s.cat[i].path) && s.cat[i].path in s.storage
    requires s.cat[i].sig == StoredObj(s, i).sig && s.cat[i].sig != ""
    requires i in s.open ==> !s.open[i].deleted && s.open[i].rec == s.cat[i]
    ensures RunOps(s, [Open(i), Truncate(i, |b|), Write(i, 0, b)]) == Some(r)
    ensures r.storage == s.storage && r.cat == s.cat && i in r.local && r.local[i] == b
  {
    var s1 := DoOpen(s, i);
    RunFirst(s, Open(i), [Truncate(i, |b|), Write(i, 0, b)]);
    var s2 := TruncateRuns(s1, i, |b|);
    r := DoWrite(s2, i, 0, b);
    assert Splice(s2.local[i], 0, b) == b;
    RunFirst(s2, Write(i, 0, b), []);
    RunFirst(s1, Truncate(i, |b|), [Write(i, 0, b)]);
  }

  /** Truncating an open file whose signature is current fetches nothing. */
  lemma TruncateRuns(s: State, i: Ino, size: nat) returns (t: State)
    requires i in s.open && i in s.cat && i in s.local && Live(s, i) && Stored(s, i) && s.open[i].rec == s.cat[i]
    requires s.cat[i].sig == s.storage[s.cat[i].path].sig && s.cat[i].sig != ""
    ensures CanTruncate(s, i) && t == DoTruncate(s, i, size)
    ensures t.storage == s.storage && t.cat == s.cat && CanWrite(t, i) && |t.local[i]| == size
  {
    t := DoTruncate(s, i, size);
  }
}
