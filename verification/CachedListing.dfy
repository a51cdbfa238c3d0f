/** How long a cached directory listing can be trusted: the background eviction leaves the entries
    of a listing alone for as long as the listing itself is served from the cache.
 */
module CachedListing {
  import opened Paths
  import opened WriteBack
  import opened WriteBackSafety
  import opened TimedList
  import opened Presence
  import opened PresenceLog
  import Runs

  /** The worker has ino i in its hand for upload. */
  ghost predicate InUpload(s: State, i: Ino) {
    (s.worker.UpPicked? || s.worker.UpLocked? || s.worker.UpChecked? || s.worker.UpSent? || s.worker.UpUnlocked?) &&
    s.worker.i == i
  }

  /** The worker has found ino i in no queue and is about to evict it. */
  ghost predicate InEviction(s: State, i: Ino) {
    (s.worker.EvNotQueued? || s.worker.EvNotOpen? || s.worker.EvDeleted?) && s.worker.i == i
  }

  /** Ino i was touched at time t or later, or waits for its upload. */
  ghost predicate Listed(s: State, i: Ino, t: Time) {
    && t <= s.now
    && (i in s.rw || (i in s.ro && t <= s.ro[i]) || InUpload(s, i))
    && !InEviction(s, i)
  }

  /** Listing a directory leaves each of its entries, known or new, listed at the current time,
      even one that the worker has already picked for eviction. */
  lemma ListingLists(s: State, op: Op)
    requires Inv(s) && Enabled(s, op) && (op.ListKnown? || op.ListNew?)
    ensures Listed(Apply(s, op), if op.ListKnown? then op.i else s.nextIno, s.now)
  {
    assert NodeOk(s, if op.ListKnown? then op.i else s.nextIno);
  }

  /** What the background loop does: it forces no eviction, and the process does not restart. */
  ghost predicate Unforced(op: Op) {
    !op.Restart? && !(op.Evict? && op.ev.EvPick? && op.ev.force)
  }

  /** A client step takes no ino out of the queues and makes none older. */
  ghost predicate QueuesKept(s: State, u: State) {
    && u.worker == s.worker && u.cfg == s.cfg && s.now <= u.now
    && (forall i :: i in s.rw ==> i in u.rw)
    && (forall i :: i in s.ro ==> i in u.rw || (i in u.ro && (u.ro[i] == s.ro[i] || u.ro[i] == s.now)))
  }

  lemma TruncateKeepsQueues(s: State, i: Ino, size: nat)
    requires CanTruncate(s, i)
    ensures QueuesKept(s, DoTruncate(s, i, size))
  {
  }

  lemma CloseKeepsQueues(s: State, i: Ino)
    requires CanClose(s, i)
    ensures QueuesKept(s, DoClose(s, i))
  {
  }

  lemma ListNewKeepsQueues(s: State, p: Path)
    requires p in s.storage
    ensures QueuesKept(s, DoListNew(s, p))
  {
  }

  lemma NamesKeepQueues(s: State, op: Op)
    requires Enabled(s, op) && (op.Stat? || op.Make? || op.Remove? || op.Rename?)
    ensures QueuesKept(s, Apply(s, op))
  {
  }

  lemma ClientKeepsQueues(s: State, op: Op)
    requires Enabled(s, op) && !op.Upload? && !op.Evict? && !op.Restart?
    ensures QueuesKept(s, Apply(s, op))
  {
    match op
    case Truncate(i, size) => TruncateKeepsQueues(s, i, size);
    case Close(i) => CloseKeepsQueues(s, i);
    case ListNew(p) => ListNewKeepsQueues(s, p);
    case Stat(_) => NamesKeepQueues(s, op);
    case Make(_, _) => NamesKeepQueues(s, op);
    case Remove(_) => NamesKeepQueues(s, op);
    case Rename(_, _) => NamesKeepQueues(s, op);
    case Fetch(i) => assert QueuesKept(s, DoFetch(s, i));
    case Write(i, off, buf) => assert QueuesKept(s, DoWrite(s, i, off, buf));
    case ListKnown(i) => assert QueuesKept(s, Touch(s, i, false));
    case Open(i) => assert QueuesKept(s, DoOpen(s, i));
    case OpenFresh(p) => assert QueuesKept(s, DoOpenFresh(s, p));
    case Tick(_) =>
  }

  lemma ClientKeepsListed(s: State, op: Op, i: Ino, t: Time)
    requires Enabled(s, op) && Listed(s, i, t) && !op.Upload? && !op.Evict? && !op.Restart?
    ensures Listed(Apply(s, op), i, t)
  {
    ClientKeepsQueues(s, op);
  }

  lemma UploadKeepsListed(s: State, up: UploadStep, i: Ino, t: Time)
    requires UploadEnabled(s, up) && Listed(s, i, t)
    ensures Listed(ApplyUpload(s, up), i, t)
  {
    match up
    case UpCommit(ok) => CommitKeepsListed(s, ok, i, t);
    case UpTouch => UpTouchKeepsListed(s, s.worker.failed, i, t);
    case _ =>
  }

  lemma CommitKeepsListed(s: State, ok: bool, i: Ino, t: Time)
    requires CanCommit(s) && Listed(s, i, t)
    ensures Listed(DoCommit(s, ok), i, t)
  {
  }

  lemma UpTouchKeepsListed(s: State, dirty: bool, i: Ino, t: Time)
    requires Listed(s, i, t) && s.worker.UpUnlocked?
    ensures Listed(Touch(s, s.worker.i, dirty).(worker := Idle), i, t)
  {
  }

  lemma EvictKeepsListed(s: State, ev: EvictStep, i: Ino, t: Time)
    requires EvictEnabled(s, ev) && Listed(s, i, t)
    requires !(ev.EvPick? && ev.force) && s.now <= t + s.cfg.evictDelay
    ensures Listed(ApplyEvict(s, ev), i, t)
  {
  }

  ghost predicate IsUnforcedStep(s: State, op: Op, u: State) {
    Enabled(s, op) && Unforced(op) && u == Apply(s, op)
  }

  ghost predicate IsUnforcedRun(ss: seq<State>, ops: seq<Op>) {
    && |ss| == |ops| + 1
    && forall k :: 0 <= k < |ops| ==> IsUnforcedStep(ss[k], ops[k], ss[k + 1])
  }

  ghost predicate Later(s: State, u: State) {
    s.now <= u.now && s.cfg == u.cfg
  }

  lemma UploadClock(s: State, up: UploadStep)
    requires UploadEnabled(s, up)
    ensures Later(s, ApplyUpload(s, up))
  {
  }

  lemma EvictClock(s: State, ev: EvictStep)
    requires EvictEnabled(s, ev)
    ensures Later(s, ApplyEvict(s, ev))
  {
  }

  lemma ClockStep(s: State, op: Op)
    requires Enabled(s, op)
    ensures Later(s, Apply(s, op))
  {
    match op
    case Upload(up) => UploadClock(s, up);
    case Evict(ev) => EvictClock(s, ev);
    case Restart =>
    case _ => ClientKeepsQueues(s, op);
  }

  lemma ListedStep(s: State, op: Op, u: State, i: Ino, t: Time)
    requires Enabled(s, op) && u == Apply(s, op) && Unforced(op) && Listed(s, i, t)
    requires s.now <= t + s.cfg.evictDelay
    ensures Listed(u, i, t)
  {
    match op
    case Upload(up) => UploadKeepsListed(s, up, i, t);
    case Evict(ev) => EvictKeepsListed(s, ev, i, t);
    case _ => ClientKeepsListed(s, op, i, t);
  }

  /** Either the clock has passed the eviction delay, or the ino is still listed. */
  ghost predicate ListedSoFar(s: State, i: Ino, t: Time, cfg: WriteBack.Config) {
    s.cfg == cfg && (s.now <= t + cfg.evictDelay ==> Listed(s, i, t))
  }

  lemma SoFarStep(s: State, op: Op, u: State, i: Ino, t: Time, cfg: WriteBack.Config)
    requires IsUnforcedStep(s, op, u) && ListedSoFar(s, i, t, cfg)
    ensures ListedSoFar(u, i, t, cfg)
  {
    ClockStep(s, op);
    if u.now <= t + cfg.evictDelay { ListedStep(s, op, u, i, t); }
  }

  /** While the clock has not passed the eviction delay, a listed ino stays listed. */
  lemma StaysListed(ss: seq<State>, ops: seq<Op>, k: nat, i: Ino, t: Time)
    requires IsUnforcedRun(ss, ops) && Listed(ss[0], i, t)
    requires k <= |ops| && ss[k].now <= t + ss[0].cfg.evictDelay
    ensures Listed(ss[k], i, t)
  {
    var cfg := ss[0].cfg;
    var inv := (s: State) => ListedSoFar(s, i, t, cfg);
    var step := (s: State, op: Op, u: State) => IsUnforcedStep(s, op, u);
    forall s, op, u | inv(s) && step(s, op, u) ensures inv(u) { SoFarStep(s, op, u, i, t, cfg); }
    Runs.Holds(ss, ops, k, step, inv);
  }

  lemma SameConfig(ss: seq<State>, ops: seq<Op>, k: nat)
    requires IsUnforcedRun(ss, ops) && k <= |ops|
    ensures ss[k].cfg == ss[0].cfg
  {
    var cfg := ss[0].cfg;
    var inv := (s: State) => s.cfg == cfg;
    var step := (s: State, op: Op, u: State) => IsUnforcedStep(s, op, u);
    forall s, op, u | inv(s) && step(s, op, u) ensures inv(u) { ClockStep(s, op); }
    Runs.Holds(ss, ops, k, step, inv);
  }

  /** The same from a later state of the run. */
  lemma StaysListedFrom(ss: seq<State>, ops: seq<Op>, n: nat, k: nat, i: Ino)
    requires IsUnforcedRun(ss, ops) && n <= k <= |ops| && Listed(ss[n], i, ss[n].now)
    requires ss[k].now <= ss[n].now + ss[0].cfg.evictDelay
    ensures Listed(ss[k], i, ss[n].now)
  {
    SameConfig(ss, ops, n);
    var ts, ps := ss[n..], ops[n..];
    forall m | 0 <= m < |ps| ensures IsUnforcedStep(ts[m], ps[m], ts[m + 1]) {
      assert IsUnforcedStep(ss[n + m], ops[n + m], ss[n + m + 1]);
    }
    StaysListed(ts, ps, k - n, i, ss[n].now);
  }

  /** A listed entry is neither about to lose its record nor its file. */
  ghost predicate Spared(s: State, op: Op, i: Ino) {
    && !(op.Evict? && op.ev.EvDelete? && s.worker.Holds(i))
    && !(op.Evict? && op.ev.EvUnlink? && s.worker.EvDeleted? && s.worker.i == i)
  }

  lemma ListedIsSpared(s: State, op: Op, u: State, i: Ino, t: Time)
    requires IsUnforcedStep(s, op, u) && Listed(s, i, t)
    ensures Spared(s, op, i)
  {
  }

  lemma SparedSince(ss: seq<State>, ops: seq<Op>, n: nat, k: nat, i: Ino)
    requires IsUnforcedRun(ss, ops) && n <= k < |ops| && Listed(ss[n], i, ss[n].now)
    requires ss[k].now <= ss[n].now + ss[0].cfg.evictDelay
    ensures Spared(ss[k], ops[k], i)
  {
    StaysListedFrom(ss, ops, n, k, i);
    ListedIsSpared(ss[k], ops[k], ss[k + 1], i, ss[n].now);
  }

  // ---------- the listing and dirpres ----------

  /** A listing of a directory: the state of the run at which it happened, and the entries it touched. */
  datatype Listing = Listing(at: nat, kids: set<Ino>)

  /** Every time dir was added to dirpres, a listing up to state k had just touched its entries, at the
      same reading of the clock. */
  ghost predicate Recorded(ss: seq<State>, k: nat, log: seq<Event>, dir: Path, listings: map<nat, Listing>) {
    forall m: nat :: m < |log| && log[m].Add? && log[m].key == dir ==> HasListing(ss, k, log[m].at, listings, m)
  }

  ghost predicate HasListing(ss: seq<State>, k: nat, t: Time, listings: map<nat, Listing>, m: nat) {
    && m in listings && listings[m].at <= k < |ss| && ss[listings[m].at].now == t
    && forall i :: i in listings[m].kids ==> Listed(ss[listings[m].at], i, t)
  }

  /** Cached listings outlive no entry. If dirpres keeps a directory no longer than the eviction delay,
      then whenever dirpres has the directory the hit comes from a listing none of whose entries the
      background loop is about to discard, including one that it had picked when the listing ran. */
  lemma ListingOutlivesNoEntry(ss: seq<State>, ops: seq<Op>, k: nat, c: PresenceLog.Config, log: seq<Event>, dir: Path,
                               listings: map<nat, Listing>)
    requires IsUnforcedRun(ss, ops) && k < |ops| && c.timeout <= ss[0].cfg.evictDelay
    requires Recorded(ss, k, log, dir, listings)
    requires Hit(Replay(c, log, |log|), dir, c.timeout, ss[k].now)
    ensures exists t, m :: Justified(log, |log|, dir, t, m) && m in listings &&
              forall i :: i in listings[m].kids ==> Spared(ss[k], ops[k], i)
  {
    HitIsJustified(c, log, dir, ss[k].now);
    var t, m :| Justified(log, |log|, dir, t, m) && ss[k].now <= t + c.timeout;
    assert HasListing(ss, k, t, listings, m);
    forall i | i in listings[m].kids ensures Spared(ss[k], ops[k], i) {
      SparedSince(ss, ops, listings[m].at, k, i);
    }
  }

  /** At the time now dirpres has the directory and the worker may pick the entry for eviction. */
  ghost predicate ServedWhileDue(s: State, i: Ino, es: Entries, dir: Path, timeout: nat, now: Time) {
    Hit(es, dir, timeout, now) && EvictEnabled(s.(now := now), EvPick(i, false))
  }

  /** The condition is exact: for a directory and an entry of the same time, there is a moment at which
      the listing is served although the entry may be evicted exactly if the eviction delay is
      shorter than the timeout; and then the eviction goes through. */
  lemma LateListingIsStale(s: State, i: Ino, es: Entries, dir: Path, timeout: nat)
    requires s.worker.Idle? && i in s.cat && i in s.ro && i !in s.rw && i !in s.open
    requires NoRepeats(es) && Entry(dir, s.ro[i]) in es
    ensures (exists now :: ServedWhileDue(s, i, es, dir, timeout, now)) <==> s.cfg.evictDelay < timeout
    ensures forall now :: ServedWhileDue(s, i, es, dir, timeout, now) ==> i !in EvictedAt(s, i, now).cat
  {
    var n :| 0 <= n < |es| && es[n] == Entry(dir, s.ro[i]);
    forall now ensures Hit(es, dir, timeout, now) <==> now <= s.ro[i] + timeout { OneEntry(es, n, timeout, now); }
    if s.cfg.evictDelay < timeout {
      assert ServedWhileDue(s, i, es, dir, timeout, s.ro[i] + s.cfg.evictDelay + 1);
    }
  }

  lemma OneEntry(es: Entries, n: nat, timeout: nat, now: Time)
    requires NoRepeats(es) && n < |es|
    ensures Hit(es, es[n].key, timeout, now) <==> now <= es[n].atime + timeout
  {
  }

  /** The state after an unforced eviction that nothing interrupts, before its file is unlinked. */
  ghost function EvictedAt(s: State, i: Ino, now: Time): State
    requires s.worker.Idle? && i in s.cat && i !in s.rw && i !in s.open
  {
    var s0 := s.(now := now);
    if !EvictEnabled(s0, EvPick(i, false)) then s0
    else
      var s1 := ApplyEvict(s0, EvPick(i, false));
      var s2 := ApplyEvict(s1, EvLock(false));
      var s3 := ApplyEvict(s2, EvRecheck);
      var s4 := ApplyEvict(s3, EvCheckOpen);
      ApplyEvict(s4, EvDelete(true))
  }
}
