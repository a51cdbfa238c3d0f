/** What single operations of the write-back protocol leave behind: bytes of files, references to open
    nodes, signatures and hashes of records, and what is due after a restart.
 */
module WriteBackEffects {
  import opened Options
  import opened Paths
  import opened WriteBack
  import opened WriteBackSafety
  import opened WriteBackTheorems

  // ---------- bytes ----------

  /** The byte at k of a file that reads as zeros behind its end. */
  function ByteAt(c: Bytes, k: nat): nat {
    if k < |c| then c[k] else 0
  }

  /** A write replaces the bytes that it covers and no others, and only lengthens the file. */
  lemma SpliceBytes(c: Bytes, off: nat, buf: Bytes, k: nat)
    ensures |Splice(c, off, buf)| == if buf == [] || off + |buf| <= |c| then |c| else off + |buf|
    ensures ByteAt(Splice(c, off, buf), k) == if off <= k < off + |buf| then buf[k - off] else ByteAt(c, k)
  {
    if buf != [] {
      var head, tail := Resize(c, off), if off + |buf| < |c| then c[off + |buf|..] else [];
      ResizeBytes(c, off, k);
      assert Splice(c, off, buf) == head + buf + tail;
    }
  }

  /** A truncate keeps the bytes that fit and fills up with zeros. */
  lemma ResizeBytes(c: Bytes, n: nat, k: nat)
    ensures |Resize(c, n)| == n
    ensures ByteAt(Resize(c, n), k) == if k < n then ByteAt(c, k) else 0
  {
  }

  /** Copying over a file replaces its beginning and keeps what is behind. */
  lemma OverlayBytes(c: Bytes, file: Bytes, k: nat)
    ensures |Overlay(c, file)| == if |c| <= |file| then |file| else |c|
    ensures ByteAt(Overlay(c, file), k) == if k < |c| then c[k] else ByteAt(file, k)
  {
  }

  /** A limited fetch gets the first bytes, as many as there are. */
  lemma PrefixBytes(c: Bytes, n: nat)
    ensures Prefix(c, n) <= c && |Prefix(c, n)| == if n <= |c| then n else |c|
  {
  }

  // ---------- references ----------

  ghost function Refs(s: State, i: Ino): nat {
    if i in s.open then s.open[i].refs else 0
  }

  ghost predicate OpensIt(s: State, op: Op, i: Ino) {
    op == Open(i) || (op.OpenFresh? && s.nextIno == i)
  }

  /** Opening counts a reference, closing gives one back, a restart forgets all, nothing else counts. */
  lemma StepRefs(s: State, op: Op, i: Ino)
    requires Inv(s) && Enabled(s, op)
    ensures Refs(Apply(s, op), i) ==
            if op.Restart? then 0
            else Refs(s, i) + (if OpensIt(s, op, i) then 1 else 0) - (if op == Close(i) then 1 else 0)
  {
    assert NodeOk(s, i);
    match op
    case Truncate(j, size) => TruncateRefs(s, j, size, i);
    case Rename(j, q) => RenameRefs(s, j, q, i);
    case Upload(up) => UploadRefs(s, up, i);
    case Evict(ev) => EvictRefs(s, ev, i);
    case Close(j) => CloseRefs(s, j, i);
    case Stat(j) =>
    case Make(j, _) =>
    case Remove(j) =>
    case Fetch(j) => FetchRefs(s, j, s.storage[s.open[j].rec.path].content, i);
    case Write(j, off, buf) => assert DoWrite(s, j, off, buf).open == s.open;
    case ListKnown(j) => assert Touch(s, j, false).open == s.open;
    case ListNew(p) => assert DoListNew(s, p).open == s.open;
    case Open(j) =>
    case OpenFresh(p) =>
    case Tick(_) =>
    case Restart =>
  }

  lemma FetchRefs(s: State, j: Ino, c: Bytes, i: Ino)
    requires j in s.open && s.open[j].rec.path in s.storage
    ensures Refs(FetchContent(s, j, c), i) == Refs(s, i)
  {
  }

  lemma TruncateRefs(s: State, j: Ino, size: nat, i: Ino)
    requires CanTruncate(s, j)
    ensures Refs(DoTruncate(s, j, size), i) == Refs(s, i)
  {
    if !s.open[j].hasFile { FetchRefs(s, j, Prefix(s.storage[s.open[j].rec.path].content, size), i); }
  }

  lemma RenameRefs(s: State, j: Ino, q: Path, i: Ino)
    requires CanRename(s, j, q)
    ensures Refs(DoRename(s, j, q), i) == Refs(s, i)
  {
  }

  lemma UploadRefs(s: State, up: UploadStep, i: Ino)
    requires UploadEnabled(s, up)
    ensures Refs(ApplyUpload(s, up), i) == Refs(s, i)
  {
    match up
    case UpTouch => TouchMovesNothing(s, s.worker.i, s.worker.failed);
    case _ =>
  }

  lemma EvictRefs(s: State, ev: EvictStep, i: Ino)
    requires EvictEnabled(s, ev)
    ensures Refs(ApplyEvict(s, ev), i) == Refs(s, i)
  {
    match ev
    case EvTouch => TouchMovesNothing(s, s.worker.i, false);
    case _ =>
  }

  lemma CloseRefs(s: State, j: Ino, i: Ino)
    requires CanClose(s, j)
    ensures Refs(DoClose(s, j), i) == Refs(s, i) - if i == j then 1 else 0
  {
    if s.open[j].refs == 1 { assert LastClose(s, j).open == s.open - {j}; }
  }

  /** Opens less closes since the last restart, over the first n steps of a run. */
  ghost function Balance(ss: seq<State>, ops: seq<Op>, n: nat, i: Ino): int
    requires |ss| == |ops| + 1 && n <= |ops|
  {
    if n == 0 then Refs(ss[0], i)
    else if ops[n - 1].Restart? then 0
    else
      Balance(ss, ops, n - 1, i) + (if OpensIt(ss[n - 1], ops[n - 1], i) then 1 else 0) -
      (if ops[n - 1] == Close(i) then 1 else 0)
  }

  /** In every run an ino is open exactly while it has been opened more often than closed. */
  lemma {:induction false} RunRefs(ss: seq<State>, ops: seq<Op>, n: nat, i: Ino)
    requires IsRun(ss, ops) && Inv(ss[0]) && n <= |ops|
    ensures Refs(ss[n], i) == Balance(ss, ops, n, i)
    ensures i in ss[n].open <==> Balance(ss, ops, n, i) > 0
  {
    RunKeeps(ss, ops, n);
    assert NodeOk(ss[n], i);
    if n > 0 {
      RunRefs(ss, ops, n - 1, i);
      RunKeeps(ss, ops, n - 1);
      StepRefs(ss[n - 1], ops[n - 1], i);
    }
  }

  /** Closing after opening gives the state back; of a node that was not open it leaves a touch. */
  lemma CloseUndoesOpen(s: State, i: Ino)
    requires Inv(s) && i in s.cat && Free(s, s.cat[i].path)
    ensures CanClose(DoOpen(s, i), i)
    ensures DoClose(DoOpen(s, i), i) == if i in s.open then s else Touch(s, i, false)
  {
    assert NodeOk(s, i);
    var t := DoOpen(s, i);
    if i in s.open {
      assert s.open[i := s.open[i]] == s.open;
    } else {
      assert t.open - {i} == s.open;
    }
  }

  /** A node that was opened is the one that was open, or the record of the path; a fresh one has the
      path, no file and no record. */
  lemma OpenGives(s: State, i: Ino, p: Path)
    requires Inv(s)
    ensures i in s.cat ==>
              var h := DoOpen(s, i).open[i];
              !h.deleted && h.valid && h.rec == s.cat[i] && (h.hasFile <==> FileOpen(s, i))
    ensures var t, j := DoOpenFresh(s, p), s.nextIno;
            && j !in s.open && j in t.open && j !in t.cat && t.open[j].rec.path == p && !t.open[j].deleted
            && !t.open[j].valid && !t.open[j].hasFile && t.nextIno > j
  {
    assert NodeOk(s, i) && NodeOk(s, s.nextIno);
  }

  /** An open file stays open until its last reference is closed or the process restarts. */
  lemma FileStaysOpen(s: State, op: Op, i: Ino)
    requires Inv(s) && Enabled(s, op) && FileOpen(s, i) && !op.Restart? && !(op == Close(i) && Refs(s, i) == 1)
    ensures FileOpen(Apply(s, op), i)
  {
    assert NodeOk(s, i);
    match op
    case Truncate(j, size) => TruncateKeepsFile(s, j, size, i);
    case Upload(up) => UploadKeepsFile(s, up, i);
    case Evict(ev) => EvictKeepsFile(s, ev, i);
    case OpenFresh(p) => assert NodeOk(s, s.nextIno);
    case Close(j) => CloseKeepsFile(s, j, i);
    case Rename(j, q) => RenameKeepsFile(s, j, q, i);
    case Fetch(j) => FetchKeepsFile(s, j, s.storage[s.open[j].rec.path].content, i);
    case _ => OtherKeepsFile(s, op, i);
  }

  lemma OtherKeepsFile(s: State, op: Op, i: Ino)
    requires Enabled(s, op) && FileOpen(s, i)
    requires op.Open? || op.Stat? || op.Make? || op.Remove? || op.Write? || op.ListKnown? || op.ListNew? || op.Tick?
    ensures FileOpen(Apply(s, op), i)
  {
  }

  lemma CloseKeepsFile(s: State, j: Ino, i: Ino)
    requires CanClose(s, j) && FileOpen(s, i) && !(j == i && s.open[i].refs == 1)
    ensures FileOpen(DoClose(s, j), i)
  {
    if s.open[j].refs == 1 { assert LastClose(s, j).open == s.open - {j}; }
  }

  lemma RenameKeepsFile(s: State, j: Ino, q: Path, i: Ino)
    requires CanRename(s, j, q) && FileOpen(s, i)
    ensures FileOpen(DoRename(s, j, q), i)
  {
  }

  lemma FetchKeepsFile(s: State, j: Ino, c: Bytes, i: Ino)
    requires j in s.open && s.open[j].rec.path in s.storage && FileOpen(s, i)
    ensures FileOpen(FetchContent(s, j, c), i)
  {
  }

  lemma TruncateKeepsFile(s: State, j: Ino, size: nat, i: Ino)
    requires CanTruncate(s, j) && FileOpen(s, i)
    ensures FileOpen(DoTruncate(s, j, size), i)
  {
  }

  lemma UploadKeepsFile(s: State, up: UploadStep, i: Ino)
    requires UploadEnabled(s, up) && FileOpen(s, i)
    ensures FileOpen(ApplyUpload(s, up), i)
  {
    match up
    case UpTouch => TouchMovesNothing(s, s.worker.i, s.worker.failed);
    case _ =>
  }

  lemma EvictKeepsFile(s: State, ev: EvictStep, i: Ino)
    requires EvictEnabled(s, ev) && FileOpen(s, i)
    ensures FileOpen(ApplyEvict(s, ev), i)
  {
    match ev
    case EvTouch => TouchMovesNothing(s, s.worker.i, false);
    case _ =>
  }

  // ---------- signatures and hashes ----------

  /** Looking up, making, fetching, listing and recording an upload leave a record with the signature of
      the stored object. */
  lemma RecordsAreCurrent(s: State, op: Op)
    requires Inv(s) && Enabled(s, op)
    requires op.Stat? || op.Make? || op.Fetch? || op.ListNew? || op == Upload(UpCommit(true))
    ensures
      var i := if op.ListNew? then s.nextIno else if op.Upload? then s.worker.i else op.i;
      Current(Apply(s, op), i)
  {
    if !op.ListNew? {
      var i := if op.Upload? then s.worker.i else op.i;
      assert NodeOk(s, i);
    }
  }

  /** A file that was fetched whole or whose upload was recorded has its hash recorded, so that a restart
      before it is written again finds it clean. */
  lemma RecordedIsClean(s: State, op: Op)
    requires Inv(s) && Enabled(s, op) && (op.Fetch? || op == Upload(UpCommit(true)))
    requires op.Fetch? ==> op.i !in s.local
    ensures
      var i, t := if op.Fetch? then op.i else s.worker.i, Apply(s, op);
      i in t.cat && i in t.local && t.cat[i].base == Some(t.local[i]) && i in Restarted(t).ro && i !in Restarted(t).rw
  {
    var i := if op.Fetch? then op.i else s.worker.i;
    assert NodeOk(s, i);
  }

  // ---------- after a restart ----------

  /** With delays that are not zero, everything that a restart queues is due at once. */
  lemma RestartedIsDue(s: State, i: Ino)
    requires i in s.cat && s.cfg.uploadDelay > 0 && s.cfg.evictDelay > 0
    ensures
      var t := Restarted(s);
      if HashDiffers(s, i) then UploadEnabled(t, UpPick(i, false)) && i !in t.ro
      else EvictEnabled(t, EvPick(i, false)) && i !in t.rw
  {
  }

  /** Time passes by waiting, and waiting does nothing else. */
  lemma TickPasses(s: State, d: nat)
    ensures Enabled(s, Tick(d)) && Apply(s, Tick(d)).now == s.now + d && Apply(s, Tick(d)) == s.(now := s.now + d)
  {
  }

  /** A write or truncate queues the file for upload at the current time, and takes it off ro. */
  lemma ChangesAreQueued(s: State, op: Op)
    requires Enabled(s, op) && (op.Write? || op.Truncate?)
    ensures var t := Apply(s, op); op.i in t.rw && t.rw[op.i] == s.now && op.i !in t.ro
  {
  }

  // ---------- the file system without a cache ----------

  /** Each operation changes the files that it names, as its name says, and no other. */
  lemma FsEffect(v: map<Path, Bytes>, op: FsOp, x: Path)
    ensures op.FsNone? ==> FsApply(v, op) == v
    ensures op.FsMake? ==>
              var t := FsApply(v, op);
              t.Keys == v.Keys + {op.p} && t[op.p] == [] && (x in v && x != op.p ==> t[x] == v[x])
    ensures op.FsRemove? ==>
              var t := FsApply(v, op);
              t.Keys == v.Keys - {op.p} && (x in v && x != op.p ==> t[x] == v[x])
    ensures op.FsRename? && op.p in v && op.p != op.q ==>
              var t := FsApply(v, op);
              && t.Keys == v.Keys - {op.p} + {op.q} && t[op.q] == v[op.p]
              && (x in v && x != op.p && x != op.q ==> t[x] == v[x])
    ensures (op.FsWrite? || op.FsTruncate?) && op.p in v ==>
              var t := FsApply(v, op);
              t.Keys == v.Keys && (x in v && x != op.p ==> t[x] == v[x])
  {
  }

  /** The bytes of a file after a write or a truncate. */
  lemma FsBytes(v: map<Path, Bytes>, p: Path, off: nat, buf: Bytes, size: nat, k: nat)
    requires p in v
    ensures ByteAt(FsApply(v, FsWrite(p, off, buf))[p], k) ==
            if off <= k < off + |buf| then buf[k - off] else ByteAt(v[p], k)
    ensures |FsApply(v, FsTruncate(p, size))[p]| == size
    ensures ByteAt(FsApply(v, FsTruncate(p, size))[p], k) == if k < size then ByteAt(v[p], k) else 0
  {
    SpliceBytes(v[p], off, buf, k);
    ResizeBytes(v[p], size, k);
  }

  // ---------- what can happen ----------

  /** The worker is never stuck: whatever it is at, it has a next step, and if it is idle it can take
      whatever is queued and due. */
  lemma WorkerGoesOn(s: State)
    requires Inv(s)
    ensures !s.worker.Idle? ==>
              || UploadEnabled(s, UpLock(false)) || UploadEnabled(s, UpRecheck) || UploadEnabled(s, UpSend(true, "s"))
              || UploadEnabled(s, UpCommit(true)) || UploadEnabled(s, UpTouch)
              || EvictEnabled(s, EvLock(false)) || EvictEnabled(s, EvRecheck) || EvictEnabled(s, EvCheckOpen)
              || EvictEnabled(s, EvDelete(true)) || EvictEnabled(s, EvUnlink) || EvictEnabled(s, EvTouch)
    ensures s.worker.Idle? ==> forall i :: i in s.rw ==> UploadEnabled(s, UpPick(i, true))
    ensures s.worker.Idle? ==>
              forall i :: i in s.rw && s.rw[i] + s.cfg.uploadDelay < s.now ==> UploadEnabled(s, UpPick(i, false))
    ensures s.worker.Idle? ==> forall i :: i in s.ro ==> EvictEnabled(s, EvPick(i, true))
    ensures s.worker.Idle? ==>
              forall i :: i in s.ro && s.ro[i] + s.cfg.evictDelay < s.now ==> EvictEnabled(s, EvPick(i, false))
  {
    if !s.worker.Idle? { assert NodeOk(s, s.worker.i); }
  }

  /** Where the worker has no path locked, clients can open any record and any path without an owner, list
      them, look up, make, remove, fetch and truncate any node that was not removed, rename it to any
      path that nobody has open, write any file that is open, and close. */
  lemma ClientsGoOn(s: State, i: Ino, p: Path)
    requires Inv(s) && s.worker.Idle?
    ensures i in s.cat ==> Enabled(s, Open(i)) && Enabled(s, ListKnown(i))
    ensures Unowned(s, p) ==> Enabled(s, OpenFresh(p)) && (p in s.storage ==> Enabled(s, ListNew(p)))
    ensures i in s.open ==> Enabled(s, Close(i))
    ensures i in s.open && !s.open[i].deleted ==>
              && Enabled(s, Remove(i)) && (Stored(s, i) ==> Enabled(s, Stat(i)))
              && (!Stored(s, i) ==> Enabled(s, Make(i, "s")))
              && (Stored(s, i) && !s.open[i].hasFile ==> Enabled(s, Fetch(i)))
              && (Stored(s, i) ==> Enabled(s, Truncate(i, 0)))
    ensures FileOpen(s, i) && !s.open[i].deleted ==> Enabled(s, Write(i, 0, []))
    ensures i in s.open && !s.open[i].deleted && Stored(s, i) && p != s.open[i].rec.path && !OpenAt(s, p) ==>
              Enabled(s, Rename(i, p))
  {
    if i in s.open { assert NodeOk(s, i); }
    if !OpenAt(s, p) {
      forall j | j in s.open && !s.open[j].deleted ensures s.open[j].rec.path != p {}
    }
  }

  ghost predicate OpenAt(s: State, p: Path) {
    exists j :: j in s.open && !s.open[j].deleted && s.open[j].rec.path == p
  }

  /** A node that was removed stays open and removed, and no operation on its path is possible through it. */
  lemma RemovedStaysRemoved(s: State, i: Ino)
    requires Inv(s) && Live(s, i)
    ensures
      var t := DoRemove(s, i);
      i in t.open && t.open[i].deleted && i !in t.cat && !Live(t, i) && Refs(t, i) == Refs(s, i) && t.local == s.local
  {
  }
}
