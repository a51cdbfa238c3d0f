/** What the cache remembers of any sequence of operations. */
module PresenceLog {
  import opened Paths
  import opened Ring
  import opened TimedList
  import opened Presence

  datatype Event =
    | Add(key: Path, at: Time)
    | Ask(key: Path, at: Time)
    | Remove(key: Path, at: Time)
    | RemoveAll(at: Time)

  datatype Config = Config(timeout: nat, max: int)

  ghost function Step(c: Config, es: Entries, ev: Event): Entries {
    match ev
    case Add(key, at) => Added(es, key, c.max, at)
    case Ask(key, at) => Asked(es, key, c.timeout, at)
    case Remove(key, _) => Drop(es, key)
    case RemoveAll(_) => []
  }

  /** The entries after the first n events. */
  ghost function Replay(c: Config, log: seq<Event>, n: nat): Entries
    requires n <= |log|
  {
    if n == 0 then [] else Step(c, Replay(c, log, n - 1), log[n - 1])
  }

  /** The clock does not go backwards and ends at now. */
  ghost predicate InTime(log: seq<Event>, now: Time) {
    && (forall m, n :: 0 <= m < n < |log| ==> log[m].at <= log[n].at)
    && (forall n :: 0 <= n < |log| ==> log[n].at <= now)
  }

  predicate Removes(ev: Event, key: Path) {
    ev.RemoveAll? || (ev.Remove? && ev.key == key)
  }

  // ---------- bounded and in order ----------

  lemma TailKeeps(es: Entries, now: Time)
    requires Ok(es, now) && es != []
    ensures Ok(es[1..], now)
  {
  }

  lemma StepBounded(c: Config, es: Entries, ev: Event, before: Time)
    requires Ok(es, before) && before <= ev.at && c.max >= 1 && |es| <= c.max
    ensures Ok(Step(c, es, ev), ev.at) && |Step(c, es, ev)| <= c.max
  {
    match ev
    case Add(key, at) =>
      if !Has(es, key) && c.max <= |es| {
        TailKeeps(es, at);
        NotInTail(es, key);
        TouchKeeps(es[1..], key, at);
      } else {
        TouchKeeps(es, key, at);
      }
    case Ask(key, at) => DropKeeps(es, key, at);
    case Remove(key, at) => DropKeeps(es, key, at);
    case RemoveAll(_) =>
  }

  lemma NotInTail(es: Entries, key: Path)
    requires !Has(es, key) && es != []
    ensures !Has(es[1..], key)
  {
  }

  /** The cache never holds more than its maximum, no key twice, and is in order of time. */
  lemma {:induction false} Bounded(c: Config, log: seq<Event>, n: nat, now: Time)
    requires InTime(log, now) && c.max >= 1 && n <= |log|
    ensures |Replay(c, log, n)| <= c.max
    ensures Ok(Replay(c, log, n), now) && (n > 0 ==> Ok(Replay(c, log, n), log[n - 1].at))
  {
    if n > 0 {
      Bounded(c, log, n - 1, now);
      var es := Replay(c, log, n - 1);
      if n == 1 { assert es == []; }
      StepBounded(c, es, log[n - 1], if n > 1 then log[n - 2].at else log[n - 1].at);
    }
  }

  // ---------- a hit is justified by the log ----------

  /** Among the first n events, m adds the key at a time, and nothing after it removes the key. */
  ghost predicate Justified(log: seq<Event>, n: nat, key: Path, t: Time, m: nat)
    requires n <= |log|
  {
    m < n && log[m] == Add(key, t) && forall j :: m < j < n ==> !Removes(log[j], key)
  }

  ghost predicate AllJustified(log: seq<Event>, n: nat, es: Entries)
    requires n <= |log|
  {
    forall e :: e in es ==> exists m: nat :: Justified(log, n, e.key, e.atime, m)
  }

  /** Each step adds an entry that it logs, and keeps no entry that it removes. */
  lemma StepEntry(c: Config, es: Entries, ev: Event, e: Entry<Path>)
    requires e in Step(c, es, ev)
    ensures (ev.Add? && e == Entry(ev.key, ev.at)) || (e in es && !Removes(ev, e.key))
  {
    match ev
    case Add(key, at) =>
      if e != Entry(key, at) {
        var kept := if !Has(es, key) && c.max <= |es| && es != [] then es[1..] else es;
        DropEntry(kept, key, e);
      }
    case Ask(key, at) => if Expired(es, key, c.timeout, at) { DropEntry(es, key, e); }
    case Remove(key, _) => DropEntry(es, key, e);
    case RemoveAll(_) =>
  }

  lemma {:induction false} EntriesJustified(c: Config, log: seq<Event>, n: nat)
    requires n <= |log|
    ensures AllJustified(log, n, Replay(c, log, n))
  {
    if n > 0 {
      EntriesJustified(c, log, n - 1);
      var es := Replay(c, log, n - 1);
      forall e | e in Replay(c, log, n) ensures exists m: nat :: Justified(log, n, e.key, e.atime, m) {
        StepEntry(c, es, log[n - 1], e);
        if log[n - 1] == Add(e.key, e.atime) {
          assert Justified(log, n, e.key, e.atime, n - 1);
        } else {
          var m: nat :| Justified(log, n - 1, e.key, e.atime, m);
          assert Justified(log, n, e.key, e.atime, m);
        }
      }
    }
  }

  /** A hit means that the key was added within the timeout and not removed since. */
  lemma HitIsJustified(c: Config, log: seq<Event>, key: Path, now: Time)
    requires Hit(Replay(c, log, |log|), key, c.timeout, now)
    ensures exists t, m :: Justified(log, |log|, key, t, m) && now <= t + c.timeout
  {
    var es := Replay(c, log, |log|);
    EntriesJustified(c, log, |log|);
    var n :| 0 <= n < |es| && es[n].key == key;
    assert es[n] in es;
    var m: nat :| Justified(log, |log|, key, es[n].atime, m);
  }

  // ---------- survival ----------

  /** The other keys that the events from m to n add. */
  ghost function Others(log: seq<Event>, m: nat, n: nat, key: Path): set<Path>
    requires n <= |log|
  {
    if n <= m then {}
    else Others(log, m, n - 1, key) + (if log[n - 1].Add? && log[n - 1].key != key then {log[n - 1].key} else {})
  }

  /** The key is at p, touched no earlier than t, and everything behind it was added since. */
  ghost predicate Standing(es: Entries, p: nat, key: Path, t: Time, others: set<Path>) {
    && p < |es| && es[p].key == key && t <= es[p].atime
    && forall q :: p < q < |es| ==> es[q].key in others
  }

  lemma OthersGrow(log: seq<Event>, m: nat, n: nat, key: Path)
    requires m < n <= |log|
    ensures Others(log, m, n - 1, key) <= Others(log, m, n, key)
    ensures key !in Others(log, m, n - 1, key)
  {
    OthersExclude(log, m, n - 1, key);
  }

  lemma {:induction false} OthersExclude(log: seq<Event>, m: nat, n: nat, key: Path)
    requires n <= |log|
    ensures key !in Others(log, m, n, key)
  {
    if n > m { OthersExclude(log, m, n - 1, key); }
  }

  /** Dropping another key leaves the key standing. */
  lemma DropStanding(es: Entries, p: nat, key: Path, t: Time, others: set<Path>, other: Path) returns (p': nat)
    requires NoRepeats(es) && Standing(es, p, key, t, others) && other != key
    ensures Standing(Drop(es, other), p', key, t, others)
  {
    if Has(es, other) {
      var n :| 0 <= n < |es| && es[n].key == other;
      DropAt(es, n);
      p' := if n < p then p - 1 else p;
    } else {
      DropAbsent(es, other);
      p' := p;
    }
  }

  /** Were the key the head of a full cache, a new key would be one other too many. */
  lemma NotPushedOut(es: Entries, key: Path, t: Time, others: set<Path>, other: Path, max: int)
    requires NoRepeats(es) && Standing(es, 0, key, t, others) && max <= |es| && !Has(es, other)
    ensures max <= |others + {other}|
  {
    var behind := set q | 0 < q < |es| :: es[q].key;
    BehindSize(es, |es|);
    assert behind == BehindSet(es, |es|);
    assert other !in behind;
    assert behind + {other} <= others + {other};
    SubsetSize(behind + {other}, others + {other});
  }

  ghost function BehindSet(es: Entries, n: nat): set<Path>
    requires 0 < n <= |es|
  {
    set q | 0 < q < n :: es[q].key
  }

  lemma {:induction false} BehindSize(es: Entries, n: nat)
    requires NoRepeats(es) && 0 < n <= |es|
    ensures |BehindSet(es, n)| == n - 1
  {
    if n > 1 {
      BehindSize(es, n - 1);
      assert BehindSet(es, n) == BehindSet(es, n - 1) + {es[n - 1].key};
      assert es[n - 1].key !in BehindSet(es, n - 1);
    } else {
      assert BehindSet(es, n) == {};
    }
  }

  lemma {:induction false} SubsetSize(a: set<Path>, b: set<Path>)
    requires a <= b
    ensures |a| <= |b|
  {
    if a != {} {
      var x :| x in a;
      SubsetSize(a - {x}, b - {x});
    }
  }

  lemma AddStanding(es: Entries, p: nat, key: Path, t: Time, others: set<Path>, ev: Event, max: int) returns (p': nat)
    requires NoRepeats(es) && Standing(es, p, key, t, others) && ev.Add? && t <= ev.at
    requires ev.key != key ==> |others + {ev.key}| < max
    ensures Standing(Added(es, ev.key, max, ev.at), p', key, t, if ev.key == key then others else others + {ev.key})
  {
    if ev.key == key {
      assert Has(es, key);
      p' := |Drop(es, key)|;
    } else {
      var push := !Has(es, ev.key) && max <= |es|;
      if push && p == 0 { NotPushedOut(es, key, t, others, ev.key, max); }
      var kept := if push then es[1..] else es;
      p' := DropStanding(kept, if push then p - 1 else p, key, t, others, ev.key);
    }
  }

  lemma {:induction false} StaysStanding(c: Config, log: seq<Event>, m: nat, n: nat, key: Path, t: Time,
                                         now: Time) returns (p: nat)
    requires InTime(log, now) && c.max >= 1 && m < n <= |log|
    requires log[m] == Add(key, t) && now <= t + c.timeout
    requires forall j :: m < j < n ==> !Removes(log[j], key)
    requires |Others(log, m + 1, n, key)| < c.max
    ensures Standing(Replay(c, log, n), p, key, t, Others(log, m + 1, n, key))
  {
    var es, ev := Replay(c, log, n - 1), log[n - 1];
    if n == m + 1 {
      p := JustAdded(es, key, c.max, t);
    } else {
      var others := Others(log, m + 1, n - 1, key);
      OthersGrow(log, m + 1, n, key);
      SubsetSize(others, Others(log, m + 1, n, key));
      var q := StaysStanding(c, log, m, n - 1, key, t, now);
      assert NoRepeats(es) by { Bounded(c, log, n - 1, now); }
      p := StepStanding(c, es, q, key, t, others, ev);
    }
  }

  lemma JustAdded(es: Entries, key: Path, max: int, t: Time) returns (p: nat)
    ensures Standing(Added(es, key, max, t), p, key, t, {})
  {
    p := |Added(es, key, max, t)| - 1;
  }

  lemma StepStanding(c: Config, es: Entries, q: nat, key: Path, t: Time, others: set<Path>, ev: Event) returns (p: nat)
    requires NoRepeats(es) && Standing(es, q, key, t, others)
    requires t <= ev.at <= t + c.timeout && !Removes(ev, key)
    requires ev.Add? && ev.key != key ==> |others + {ev.key}| < c.max
    ensures Standing(Step(c, es, ev), p, key, t, others + (if ev.Add? && ev.key != key then {ev.key} else {}))
  {
    if ev.Add? {
      p := AddStanding(es, q, key, t, others, ev, c.max);
    } else {
      p := QuietStanding(c, es, q, key, t, others, ev);
    }
  }

  lemma QuietStanding(c: Config, es: Entries, q: nat, key: Path, t: Time, others: set<Path>, ev: Event) returns (p: nat)
    requires NoRepeats(es) && Standing(es, q, key, t, others) && !ev.Add? && !Removes(ev, key) && ev.at <= t + c.timeout
    ensures Standing(Step(c, es, ev), p, key, t, others)
  {
    if ev.key == key {
      NotExpired(es, q, key, t, others, c.timeout, ev.at);
      p := q;
    } else if ev.Remove? || Expired(es, ev.key, c.timeout, ev.at) {
      p := DropStanding(es, q, key, t, others, ev.key);
    } else {
      p := q;
    }
  }

  lemma NotExpired(es: Entries, p: nat, key: Path, t: Time, others: set<Path>, timeout: nat, now: Time)
    requires NoRepeats(es) && Standing(es, p, key, t, others) && now <= t + timeout
    ensures Hit(es, key, timeout, now)
  {
  }

  /** A key that was added within the timeout and not removed since is a hit, provided that fewer
      than the maximum of other keys were added since. */
  lemma Survives(c: Config, log: seq<Event>, m: nat, key: Path, t: Time, now: Time)
    requires InTime(log, now) && c.max >= 1
    requires Justified(log, |log|, key, t, m) && now <= t + c.timeout
    requires |Others(log, m + 1, |log|, key)| < c.max
    ensures Hit(Replay(c, log, |log|), key, c.timeout, now)
  {
    Bounded(c, log, |log|, now);
    var p := StaysStanding(c, log, m, |log|, key, t, now);
    NotExpired(Replay(c, log, |log|), p, key, t, Others(log, m + 1, |log|, key), c.timeout, now);
  }

  // ---------- the bound is exact ----------

  /** All the others are behind position p. */
  ghost predicate AllBehind(es: Entries, p: nat, others: set<Path>) {
    forall k :: k in others ==> IsBehind(es, p, k)
  }

  ghost predicate IsBehind(es: Entries, p: nat, k: Path) {
    exists q :: p < q < |es| && es[q].key == k
  }

  /** Wherever the key is, all the others are behind it. */
  ghost predicate KeyBefore(es: Entries, key: Path, others: set<Path>) {
    forall p: nat :: p < |es| && es[p].key == key ==> AllBehind(es, p, others)
  }

  /** Taking out one position keeps the order of the others. */
  lemma StillBehind(es: Entries, n: nat, p: nat, k: Path)
    requires n < |es| && p < |es| && p != n && es[n].key != k && IsBehind(es, p, k)
    ensures IsBehind(Without(es, n), if p < n then p else p - 1, k)
  {
    var q :| p < q < |es| && es[q].key == k;
    assert Without(es, n)[if q < n then q else q - 1] == es[q];
  }

  lemma DropBehind(es: Entries, key: Path, others: set<Path>, other: Path)
    requires NoRepeats(es) && KeyBefore(es, key, others) && other != key
    ensures KeyBefore(Drop(es, other), key, others - {other})
  {
    if Has(es, other) {
      var n :| 0 <= n < |es| && es[n].key == other;
      DropAt(es, n);
      var r := Drop(es, other);
      forall p: nat, k | p < |r| && r[p].key == key && k in others - {other} ensures IsBehind(r, p, k) {
        var p0 := if p < n then p else p + 1;
        assert es[p0] == r[p];
        assert AllBehind(es, p0, others);
        StillBehind(es, n, p0, k);
      }
    } else {
      DropAbsent(es, other);
    }
  }

  lemma TailBehind(es: Entries, key: Path, others: set<Path>)
    requires es != [] && KeyBefore(es, key, others)
    ensures KeyBefore(es[1..], key, others)
  {
    var r := es[1..];
    forall p: nat, k | p < |r| && r[p].key == key && k in others ensures IsBehind(r, p, k) {
      assert es[p + 1] == r[p];
      assert AllBehind(es, p + 1, others) && IsBehind(es, p + 1, k);
      var q :| p + 1 < q < |es| && es[q].key == k;
      assert r[q - 1] == es[q];
    }
  }

  lemma AddBehind(es: Entries, key: Path, others: set<Path>, other: Path, max: int, now: Time)
    requires NoRepeats(es) && KeyBefore(es, key, others) && other != key
    ensures KeyBefore(Added(es, other, max, now), key, others + {other})
  {
    var push := !Has(es, other) && max <= |es| && es != [];
    if push { TailBehind(es, key, others); }
    var kept := if push then es[1..] else es;
    DropBehind(kept, key, others, other);
    var d, r := Drop(kept, other), Added(es, other, max, now);
    assert r == d + [Entry(other, now)];
    forall p: nat, k | p < |r| && r[p].key == key && k in others + {other} ensures IsBehind(r, p, k) {
      assert p < |d| && d[p] == r[p];
      if k == other {
        assert r[|d|].key == k;
      } else {
        assert AllBehind(d, p, others - {other}) && IsBehind(d, p, k);
        var q :| p < q < |d| && d[q].key == k;
        assert r[q] == d[q];
      }
    }
  }

  lemma {:induction false} StaysBefore(c: Config, log: seq<Event>, m: nat, n: nat, key: Path, now: Time)
    requires InTime(log, now) && c.max >= 1 && m < n <= |log| && log[m].Add? && log[m].key == key
    requires forall j :: m < j < n ==> log[j].Add? && log[j].key != key
    ensures KeyBefore(Replay(c, log, n), key, Others(log, m + 1, n, key))
  {
    if n > m + 1 {
      StaysBefore(c, log, m, n - 1, key, now);
      Bounded(c, log, n - 1, now);
      AddBehind(Replay(c, log, n - 1), key, Others(log, m + 1, n - 1, key), log[n - 1].key, c.max, log[n - 1].at);
    }
  }

  lemma BehindFits(es: Entries, p: nat, others: set<Path>)
    requires NoRepeats(es) && p < |es| && AllBehind(es, p, others)
    ensures |others| < |es|
  {
    BehindSize(es, |es|);
    forall k | k in others ensures k in BehindSet(es, |es|) { assert IsBehind(es, p, k); }
    SubsetSize(others, BehindSet(es, |es|));
  }

  /** Where only other keys have been added since, a key that has not expired is a hit exactly if
      fewer than the maximum of other keys were added: the cache discards the oldest first. */
  lemma SurvivesExactly(c: Config, log: seq<Event>, m: nat, key: Path, t: Time, now: Time)
    requires InTime(log, now) && c.max >= 1 && m < |log| && log[m] == Add(key, t) && now <= t + c.timeout
    requires forall j :: m < j < |log| ==> log[j].Add? && log[j].key != key
    ensures Hit(Replay(c, log, |log|), key, c.timeout, now) <==> |Others(log, m + 1, |log|, key)| < c.max
  {
    var es := Replay(c, log, |log|);
    if |Others(log, m + 1, |log|, key)| < c.max {
      Survives(c, log, m, key, t, now);
    } else if Has(es, key) {
      StaysBefore(c, log, m, |log|, key, now);
      Bounded(c, log, |log|, now);
      var p: nat :| p < |es| && es[p].key == key;
      BehindFits(es, p, Others(log, m + 1, |log|, key));
    }
  }
}
