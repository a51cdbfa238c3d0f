/** The write-back protocol: clients open, write, rename and close files while one background
    worker uploads and evicts them. Every operation of a client runs under its path lock and is
    one step; the worker advances one critical section at a time, so clients run between its
    picking an ino, locking its path, re-checking the queues, and its deferred touch.
 */
module WriteBack {
  import opened Options
  import opened Paths

  type Ino = nat
  type Bytes = seq<nat>
  type Sig = string
  type Time = int

  /** An object in the storage. */
  datatype Obj = Obj(content: Bytes, sig: Sig)

  /** The persistent record of a node; base is the content whose hash it carries, if any.
      Hashes are taken to be injective, so comparing hashes is comparing contents. */
  datatype Rec = Rec(path: Path, sig: Sig, base: Option<Bytes>)

  /** A node in the open map. */
  datatype Handle = Handle(rec: Rec, refs: nat, valid: bool, deleted: bool, hasFile: bool)

  /** Where the worker is, with the ino in its hand and the path it has locked; after it dropped a
      record, also whether that record had the signature of the stored object. */
  datatype Worker =
    | Idle
    | UpPicked(i: Ino)
    | UpLocked(i: Ino, p: Path)
    | UpChecked(i: Ino, p: Path)
    | UpSent(i: Ino, p: Path)
    | UpUnlocked(i: Ino, failed: bool)
    | EvPicked(i: Ino)
    | EvAbsent(i: Ino)
    | EvLocked(i: Ino, p: Path)
    | EvNotQueued(i: Ino, p: Path)
    | EvNotOpen(i: Ino, p: Path)
    | EvDeleted(i: Ino, p: Path, current: bool)
    | EvUnlocked(i: Ino)
  {
    ghost predicate Holds(j: Ino) { !Idle? && i == j }
    ghost predicate Locks(q: Path) {
      (UpLocked? || UpChecked? || UpSent? || EvLocked? || EvNotQueued? || EvNotOpen? || EvDeleted?) && p == q
    }
    /** The ino was taken off the rw queue and its upload has not succeeded. */
    ghost predicate Uploading(j: Ino) {
      (UpPicked? || UpLocked? || UpChecked? || (UpUnlocked? && failed)) && i == j
    }
  }

  datatype Config = Config(uploadDelay: nat, evictDelay: nat)

  datatype State = State(
    storage: map<Path, Obj>,
    cat: map<Ino, Rec>,
    local: map<Ino, Bytes>,
    open: map<Ino, Handle>,
    rw: map<Ino, Time>,
    ro: map<Ino, Time>,
    nextIno: Ino,
    now: Time,
    cfg: Config,
    worker: Worker)

  // ---------- file contents ----------

  function Zeros(n: nat): (z: Bytes)
    ensures |z| == n && forall k :: 0 <= k < n ==> z[k] == 0
  {
    seq(n, _ => 0)
  }

  /** Ftruncate: cut off or pad with zeros. */
  function Resize(c: Bytes, n: nat): (r: Bytes)
    ensures |r| == n
  {
    if n <= |c| then c[..n] else c + Zeros(n - |c|)
  }

  /** Pwrite: nothing for an empty buffer, else a gap is padded with zeros. */
  function Splice(c: Bytes, off: nat, buf: Bytes): Bytes
  {
    if buf == [] then c
    else Resize(c, off) + buf + (if off + |buf| < |c| then c[off + |buf|..] else [])
  }

  /** The first n bytes, or all of them. */
  function Prefix(c: Bytes, n: nat): Bytes {
    if n <= |c| then c[..n] else c
  }

  /** Copying c into a file from its start, without truncating the file. */
  function Overlay(c: Bytes, file: Bytes): Bytes {
    if |file| <= |c| then c else c + file[|c|..]
  }

  // ---------- operations ----------

  datatype Op =
    | Open(i: Ino)
    | OpenFresh(p: Path)
    | Stat(i: Ino)
    | Make(i: Ino, sig: Sig)
    | Remove(i: Ino)
    | Rename(i: Ino, q: Path)
    | Fetch(i: Ino)
    | Write(i: Ino, off: nat, buf: Bytes)
    | Truncate(i: Ino, size: nat)
    | Close(i: Ino)
    | ListKnown(i: Ino)
    | ListNew(p: Path)
    | Tick(d: nat)
    | Upload(up: UploadStep)
    | Evict(ev: EvictStep)
    | Restart

  datatype UploadStep =
    | UpPick(i: Ino, force: bool)
    | UpLock(failed: bool)
    | UpRecheck
    | UpSend(ok: bool, sig: Sig)
    | UpCommit(ok: bool)
    | UpTouch

  datatype EvictStep =
    | EvPick(i: Ino, force: bool)
    | EvLock(failed: bool)
    | EvRecheck
    | EvCheckOpen
    | EvDelete(ok: bool)
    | EvUnlink
    | EvTouch

  ghost predicate Free(s: State, p: Path) {
    !s.worker.Locks(p)
  }

  /** The ino is catalogued at p, or open there and not deleted. */
  ghost predicate Owns(s: State, i: Ino, p: Path) {
    || (i in s.cat && s.cat[i].path == p)
    || (i in s.open && !s.open[i].deleted && s.open[i].rec.path == p)
  }

  /** Nobody owns p. A second node for an owned path would leave two inos at one key of the index. */
  ghost predicate Unowned(s: State, p: Path) {
    forall i :: !Owns(s, i, p)
  }

  /** A live node that a client may operate on: its path lock is free. */
  ghost predicate Live(s: State, i: Ino) {
    i in s.open && !s.open[i].deleted && Free(s, s.open[i].rec.path)
  }

  ghost predicate Stored(s: State, i: Ino)
    requires i in s.open
  {
    s.open[i].rec.path in s.storage
  }

  ghost predicate CanRename(s: State, i: Ino, q: Path) {
    && Live(s, i) && Stored(s, i) && q != s.open[i].rec.path && Free(s, q)
    && forall j :: j in s.open && !s.open[j].deleted ==> s.open[j].rec.path != q
  }

  ghost predicate CanWrite(s: State, i: Ino) {
    i in s.open && s.open[i].hasFile && i in s.local && Free(s, s.open[i].rec.path)
  }

  ghost predicate CanTruncate(s: State, i: Ino) {
    CanWrite(s, i) || (Live(s, i) && !s.open[i].hasFile && Stored(s, i))
  }

  ghost predicate CanClose(s: State, i: Ino) {
    && i in s.open && s.open[i].refs > 0
    && (s.open[i].hasFile && !s.open[i].deleted ==> Free(s, s.open[i].rec.path))
  }

  ghost predicate Enabled(s: State, op: Op)
  {
    match op
    case Open(i) => i in s.cat && Free(s, s.cat[i].path)
    case OpenFresh(p) => Unowned(s, p) && Free(s, p)
    case Stat(i) => Live(s, i) && Stored(s, i)
    case Make(i, sig) => Live(s, i) && !Stored(s, i) && sig != ""
    case Remove(i) => Live(s, i)
    case Rename(i, q) => CanRename(s, i, q)
    case Fetch(i) => Live(s, i) && !s.open[i].hasFile && Stored(s, i)
    case Write(i, _, _) => CanWrite(s, i)
    case Truncate(i, _) => CanTruncate(s, i)
    case Close(i) => CanClose(s, i)
    case ListKnown(i) => i in s.cat && Free(s, s.cat[i].path)
    case ListNew(p) => p in s.storage && Unowned(s, p) && Free(s, p)
    case Tick(d) => true
    case Upload(up) => UploadEnabled(s, up)
    case Evict(ev) => EvictEnabled(s, ev)
    case Restart => true
  }

  ghost predicate UploadEnabled(s: State, up: UploadStep)
  {
    match up
    case UpPick(i, force) =>
      s.worker.Idle? && i in s.rw && (force || s.rw[i] + s.cfg.uploadDelay < s.now)
    case UpLock(_) => s.worker.UpPicked?
    case UpRecheck => s.worker.UpLocked?
    case UpSend(_, sig) => s.worker.UpChecked? && sig != ""
    case UpCommit(_) => CanCommit(s)
    case UpTouch => s.worker.UpUnlocked?
  }

  ghost predicate CanCommit(s: State) {
    s.worker.UpSent? && s.worker.i in s.cat && s.worker.p in s.storage && s.worker.i in s.local
  }

  ghost predicate EvictEnabled(s: State, ev: EvictStep)
  {
    match ev
    case EvPick(i, force) =>
      s.worker.Idle? && i in s.ro && (force || s.ro[i] + s.cfg.evictDelay < s.now)
    case EvLock(_) => s.worker.EvPicked?
    case EvRecheck => s.worker.EvLocked?
    case EvCheckOpen => s.worker.EvNotQueued?
    case EvDelete(_) => s.worker.EvNotOpen?
    case EvUnlink => s.worker.EvDeleted? || s.worker.EvAbsent?
    case EvTouch => s.worker.EvUnlocked?
  }

  ghost function Apply(s: State, op: Op): State
    requires Enabled(s, op)
  {
    match op
    case Open(i) => DoOpen(s, i)
    case OpenFresh(p) => DoOpenFresh(s, p)
    case Stat(i) => PutStat(s, i, s.storage[s.open[i].rec.path].sig)
    case Make(i, sig) => DoMake(s, i, sig)
    case Remove(i) => DoRemove(s, i)
    case Rename(i, q) => DoRename(s, i, q)
    case Fetch(i) => DoFetch(s, i)
    case Write(i, off, buf) => DoWrite(s, i, off, buf)
    case Truncate(i, size) => DoTruncate(s, i, size)
    case Close(i) => DoClose(s, i)
    case ListKnown(i) => Touch(s, i, false)
    case ListNew(p) => DoListNew(s, p)
    case Tick(d) => s.(now := s.now + d)
    case Upload(up) => ApplyUpload(s, up)
    case Evict(ev) => ApplyEvict(s, ev)
    case Restart => Restarted(s)
  }

  /** touchIno: to the tail of its queue at the current time; an ino waiting for upload stays there. */
  function Touch(s: State, i: Ino, dirty: bool): State {
    if dirty then s.(rw := s.rw[i := s.now], ro := s.ro - {i})
    else if i in s.rw then s
    else s.(ro := s.ro[i := s.now])
  }

  function DoOpen(s: State, i: Ino): State
    requires i in s.cat
  {
    s.(open := s.open[i := if i in s.open then s.open[i].(refs := s.open[i].refs + 1)
                           else Handle(s.cat[i], 1, true, false, false)])
  }

  function DoOpenFresh(s: State, p: Path): State {
    s.(open := s.open[s.nextIno := Handle(Rec(p, "", None), 1, false, false, false)], nextIno := s.nextIno + 1)
  }

  /** CopyStat on the open node and Put of its record; the hash stays. */
  function PutStat(s: State, i: Ino, sig: Sig): State
    requires i in s.open
  {
    PutRec(s, i, s.open[i].rec.(sig := sig))
  }

  function PutRec(s: State, i: Ino, rec: Rec): State
    requires i in s.open
  {
    s.(cat := s.cat[i := rec], open := s.open[i := s.open[i].(rec := rec, valid := true)])
  }

  function DoMake(s: State, i: Ino, sig: Sig): State
    requires i in s.open
  {
    PutStat(s.(storage := s.storage[s.open[i].rec.path := Obj([], sig)]), i, sig)
  }

  function DoRemove(s: State, i: Ino): State
    requires i in s.open
  {
    s.(storage := s.storage - {s.open[i].rec.path}, cat := s.cat - {i},
       open := s.open[i := s.open[i].(deleted := true)])
  }

  function Moved(storage: map<Path, Obj>, p: Path, q: Path): map<Path, Obj>
    requires p in storage
  {
    (storage - {p})[q := storage[p]]
  }

  /** Rename of one object; the record of whatever was catalogued at q is dropped. For a node without
      a record the scan finds no key, so that neither the index nor the open node learns of it. */
  ghost function DoRename(s: State, i: Ino, q: Path): State
    requires CanRename(s, i, q)
  {
    var p := s.open[i].rec.path;
    if i !in s.cat then s.(storage := Moved(s.storage, p, q))
    else
      var kept := map j | j in s.cat && s.cat[j].path != q :: s.cat[j];
      s.(storage := Moved(s.storage, p, q),
         cat := kept[i := s.cat[i].(path := q)],
         open := s.open[i := s.open[i].(rec := s.open[i].rec.(path := q))])
  }

  /** readNodeFromStorage keeps a local file whose recorded signature is current; otherwise it
      copies c into the local file, which it creates if there is none. */
  function FetchContent(s: State, i: Ino, c: Bytes): (t: State)
    requires i in s.open && s.open[i].rec.path in s.storage
    ensures i in t.local
  {
    var h := s.open[i];
    var sig := s.storage[h.rec.path].sig;
    if i in s.local && h.rec.sig != "" && h.rec.sig == sig then s.(open := s.open[i := h.(hasFile := true)])
    else
      var file := if i in s.local then Overlay(c, s.local[i]) else c;
      PutRec(s.(local := s.local[i := file], open := s.open[i := h.(hasFile := true)]),
             i, h.rec.(sig := sig, base := Some(c)))
  }

  function DoFetch(s: State, i: Ino): State
    requires i in s.open && s.open[i].rec.path in s.storage
  {
    FetchContent(s, i, s.storage[s.open[i].rec.path].content)
  }

  /** Give the local file a new content and queue the ino for upload. */
  function SetFile(s: State, i: Ino, c: Bytes): State {
    Touch(s.(local := s.local[i := c]), i, true)
  }

  function DoWrite(s: State, i: Ino, off: nat, buf: Bytes): State
    requires i in s.local
  {
    SetFile(s, i, Splice(s.local[i], off, buf))
  }

  /** The fetch of a truncate copies no more than size bytes. */
  ghost function DoTruncate(s: State, i: Ino, size: nat): State
    requires CanTruncate(s, i)
  {
    var t := if s.open[i].hasFile then s
             else FetchContent(s, i, Prefix(s.storage[s.open[i].rec.path].content, size));
    SetFile(t, i, Resize(t.local[i], size))
  }

  ghost function DoClose(s: State, i: Ino): State
    requires CanClose(s, i)
  {
    var h := s.open[i];
    if h.refs > 1 then s.(open := s.open[i := h.(refs := h.refs - 1)]) else LastClose(s, i)
  }

  /** Close of the last reference: the record is put again, then the ino is touched. */
  function LastClose(s: State, i: Ino): State
    requires i in s.open
  {
    var h := s.open[i];
    var t := if h.hasFile && h.valid && !h.deleted then s.(cat := s.cat[i := h.rec]) else s;
    var u := t.(open := t.open - {i});
    if h.valid then Touch(u, i, false) else u
  }

  function DoListNew(s: State, p: Path): State
    requires p in s.storage
  {
    var i := s.nextIno;
    Touch(s.(cat := s.cat[i := Rec(p, s.storage[p].sig, None)], nextIno := i + 1), i, false)
  }

  ghost function ApplyUpload(s: State, up: UploadStep): State
    requires UploadEnabled(s, up)
  {
    match up
    case UpPick(i, _) => s.(rw := s.rw - {i}, worker := UpPicked(i))
    case UpLock(failed) =>
      var i := s.worker.i;
      s.(worker := if failed then UpUnlocked(i, true)
                   else if i in s.cat then UpLocked(i, s.cat[i].path)
                   else UpUnlocked(i, false))
    case UpRecheck =>
      s.(worker := if s.worker.i in s.rw then Idle else UpChecked(s.worker.i, s.worker.p))
    case UpSend(ok, sig) =>
      var i, p := s.worker.i, s.worker.p;
      if i !in s.local then s.(worker := UpUnlocked(i, false))
      else if !ok then s.(worker := UpUnlocked(i, true))
      else s.(storage := s.storage[p := Obj(s.local[i], sig)], worker := UpSent(i, p))
    case UpCommit(ok) => DoCommit(s, ok)
    case UpTouch => Touch(s, s.worker.i, s.worker.failed).(worker := Idle)
  }

  /** Record the new signature and hash, in the catalogue and in the open node if there is one. */
  ghost function DoCommit(s: State, ok: bool): State
    requires CanCommit(s)
  {
    var i := s.worker.i;
    if !ok then s.(worker := UpUnlocked(i, true))
    else
      var sig, base := s.storage[s.worker.p].sig, Some(s.local[i]);
      s.(cat := s.cat[i := s.cat[i].(sig := sig, base := base)],
         open := if i in s.open
                 then s.open[i := s.open[i].(rec := s.open[i].rec.(sig := sig, base := base), valid := true)]
                 else s.open,
         worker := UpUnlocked(i, false))
  }

  ghost function ApplyEvict(s: State, ev: EvictStep): State
    requires EvictEnabled(s, ev)
  {
    match ev
    case EvPick(i, _) => s.(ro := s.ro - {i}, worker := EvPicked(i))
    case EvLock(failed) =>
      var i := s.worker.i;
      s.(worker := if failed then EvUnlocked(i)
                   else if i in s.cat then EvLocked(i, s.cat[i].path)
                   else EvAbsent(i))
    case EvRecheck =>
      var i := s.worker.i;
      s.(worker := if i in s.rw || i in s.ro then Idle else EvNotQueued(i, s.worker.p))
    case EvCheckOpen =>
      var i := s.worker.i;
      s.(worker := if i in s.open then Idle else EvNotOpen(i, s.worker.p))
    case EvDelete(ok) =>
      var i := s.worker.i;
      if !ok then s.(worker := EvUnlocked(i))
      else
        var current := i in s.cat && s.worker.p in s.storage && s.cat[i].sig == s.storage[s.worker.p].sig;
        s.(cat := s.cat - {i}, worker := EvDeleted(i, s.worker.p, current))
    case EvUnlink => s.(local := s.local - {s.worker.i}, worker := Idle)
    case EvTouch => Touch(s, s.worker.i, false).(worker := Idle)
  }

  /** The recorded hash does not match the local file. */
  ghost predicate HashDiffers(s: State, i: Ino)
    requires i in s.cat
  {
    i in s.local && s.cat[i].base != Some(s.local[i])
  }

  /** A process restart at any moment: files without a record are removed, the queues are rebuilt
      from the recorded hashes. */
  ghost function Restarted(s: State): State
  {
    var past := s.now - s.cfg.uploadDelay - s.cfg.evictDelay;
    s.(local := map i | i in s.local && i in s.cat :: s.local[i],
       open := map[],
       rw := map i | i in s.cat && HashDiffers(s, i) :: past,
       ro := map i | i in s.cat && !HashDiffers(s, i) :: past,
       worker := Idle)
  }
}
