/** The cursor scans of the catalogue: seek to a key, go on while keys are at or below it. */
module PrefixScan {
  import opened Paths

  /** Keys in the order of the index cursor. */
  ghost predicate Sorted(keys: seq<Path>) {
    forall i, j :: 0 <= i < j < |keys| ==> Less(keys[i], keys[j])
  }

  /** Cursor seek: the first index whose key is not before k. */
  function Seek(keys: seq<Path>, k: Path): (i: nat)
    ensures i <= |keys|
    ensures forall j :: 0 <= j < i ==> Less(keys[j], k)
    ensures i < |keys| ==> !Less(keys[i], k)
  {
    if keys == [] || !Less(keys[0], k) then 0 else 1 + Seek(keys[1..], k)
  }

  /** The loop of rename, of the emptiness test of remove and of the cached readdir. */
  method Scan(keys: seq<Path>, k: Path) returns (found: seq<Path>)
    requires Sorted(keys)
    ensures forall x :: x in found ==> x in keys && HasPrefix(x, k)
    ensures Sorted(found)
    ensures k != ROOT && !Interposed(keys, k) ==> forall x :: x in keys && HasPrefix(x, k) ==> x in found
    ensures k != ROOT && Interposed(keys, k) ==> found == if k in keys then [k] else []
    ensures k == ROOT && (forall x :: x in keys ==> HasPrefix(x, ROOT)) ==> found == keys
  {
    var start := Seek(keys, k);
    var i := start;
    found := [];
    while i < |keys| && HasPrefix(keys[i], k)
      invariant start <= i <= |keys|
      invariant found == keys[start..i]
      invariant forall j :: start <= j < i ==> HasPrefix(keys[j], k)
    {
      found := found + [keys[i]];
      i := i + 1;
    }
    ScanSound(keys, k, start, i);
    if k == ROOT {
      if forall x :: x in keys ==> HasPrefix(x, ROOT) { RootScan(keys, start, i); }
    } else if Interposed(keys, k) {
      InterposedScan(keys, k, start, i);
    } else {
      CompleteScan(keys, k, start, i);
    }
  }

  ghost predicate Interposed(keys: seq<Path>, k: Path) {
    exists x :: x in keys && Interposes(x, k)
  }

  /** The slice that the loop collects: it starts at the seek and ends where the test first fails. */
  ghost predicate IsScan(keys: seq<Path>, k: Path, start: nat, end: nat) {
    && Sorted(keys) && start == Seek(keys, k) && start <= end <= |keys|
    && (forall j :: start <= j < end ==> HasPrefix(keys[j], k))
    && (end < |keys| ==> !HasPrefix(keys[end], k))
  }

  lemma ScanSound(keys: seq<Path>, k: Path, start: nat, end: nat)
    requires IsScan(keys, k, start, end)
    ensures forall x :: x in keys[start..end] ==> x in keys && HasPrefix(x, k)
    ensures Sorted(keys[start..end])
  {
  }

  /** Nothing at or below k comes before k. */
  lemma BelowIsNotBefore(x: Path, k: Path)
    requires HasPrefix(x, k)
    ensures !Less(x, k) && (x != k ==> Less(k, x))
  {
    if x == k {
      LessIrreflexive(k);
    } else {
      PrefixLess(k, x);
      if Less(x, k) {
        LessTransitive(x, k, x);
        LessIrreflexive(x);
      }
    }
  }

  /** What is below k and comes before x, although x does not, makes x interposed. */
  lemma SplitsRange(k: Path, x: Path, y: Path)
    requires HasPrefix(y, k) && k != ROOT && !HasPrefix(x, k) && !Less(x, k) && Less(x, y)
    ensures Interposes(x, k)
  {
    Between(k, x, y);
    var n := |k|;
    if y == k {
      BelowIsNotBefore(y, k);
    } else {
      assert x == k + x[n..] && y == k + y[n..];
      LessBehindPrefix(k, x[n..], y[n..]);
    }
  }

  lemma InterposedIsBefore(k: Path, x: Path, y: Path)
    requires Interposes(x, k) && HasPrefix(y, k) && y != k && k != ROOT
    ensures Less(k, x) && Less(x, y) && !HasPrefix(x, k)
  {
    PrefixLess(k, x);
    var n := |k|;
    assert x == k + x[n..] && y == k + y[n..];
    LessBehindPrefix(k, x[n..], y[n..]);
  }

  /** Without an interposed key the scan collects everything at or below k. */
  lemma CompleteScan(keys: seq<Path>, k: Path, start: nat, end: nat)
    requires IsScan(keys, k, start, end) && k != ROOT && !Interposed(keys, k)
    ensures forall x :: x in keys && HasPrefix(x, k) ==> x in keys[start..end]
  {
    forall y | y in keys && HasPrefix(y, k) ensures y in keys[start..end] {
      var j :| 0 <= j < |keys| && keys[j] == y;
      BelowIsNotBefore(y, k);
      if j >= end {
        var x := keys[end];
        NotBeforeSeek(keys, k, end);
        SplitsRange(k, x, y);
      }
      assert keys[start..end][j - start] == y;
    }
  }

  lemma NotBeforeSeek(keys: seq<Path>, k: Path, i: nat)
    requires Sorted(keys) && Seek(keys, k) <= i < |keys|
    ensures !Less(keys[i], k)
  {
    var s := Seek(keys, k);
    if s < i && Less(keys[i], k) {
      LessTransitive(keys[s], keys[i], k);
    }
  }

  /** With an interposed key the scan stops before anything strictly below k. */
  lemma InterposedScan(keys: seq<Path>, k: Path, start: nat, end: nat)
    requires IsScan(keys, k, start, end) && k != ROOT && Interposed(keys, k)
    ensures keys[start..end] == if k in keys then [k] else []
  {
    var x :| x in keys && Interposes(x, k);
    var m :| 0 <= m < |keys| && keys[m] == x;
    PrefixLess(k, x);
    LessAsymmetric(k, x);
    forall j | start <= j < end ensures keys[j] == k {
      if keys[j] != k {
        InterposedIsBefore(k, x, keys[j]);
        OrderedIndex(keys, m, j);
      }
    }
    OnlyOnce(keys, k, start, end);
    if k in keys {
      FoundAtSeek(keys, k);
    }
  }

  lemma OnlyOnce(keys: seq<Path>, k: Path, start: nat, end: nat)
    requires Sorted(keys) && start <= end <= |keys| && forall j :: start <= j < end ==> keys[j] == k
    ensures end <= start + 1
  {
    LessIrreflexive(k);
    if start + 1 < end { NextIsLater(keys, start); }
  }

  lemma NextIsLater(keys: seq<Path>, i: nat)
    requires Sorted(keys) && i + 1 < |keys|
    ensures Less(keys[i], keys[i + 1])
  {
  }

  lemma FoundAtSeek(keys: seq<Path>, k: Path)
    requires Sorted(keys) && k in keys
    ensures Seek(keys, k) < |keys| && keys[Seek(keys, k)] == k && HasPrefix(k, k)
  {
    var n :| 0 <= n < |keys| && keys[n] == k;
    LessIrreflexive(k);
    var s := Seek(keys, k);
    assert s <= n;
    LessTotal(keys[s], k);
  }

  lemma LessAsymmetric(a: Path, b: Path)
    requires Less(a, b)
    ensures !Less(b, a)
  {
    if Less(b, a) {
      LessTransitive(a, b, a);
      LessIrreflexive(a);
    }
  }

  lemma OrderedIndex(keys: seq<Path>, i: nat, j: nat)
    requires Sorted(keys) && i < |keys| && j < |keys| && Less(keys[i], keys[j])
    ensures i < j
  {
    if j < i { LessAsymmetric(keys[i], keys[j]); }
    if i == j { LessIrreflexive(keys[i]); }
  }

  lemma RootScan(keys: seq<Path>, start: nat, end: nat)
    requires IsScan(keys, ROOT, start, end) && forall x :: x in keys ==> HasPrefix(x, ROOT)
    ensures keys[start..end] == keys
  {
    if start > 0 { BelowIsNotBefore(keys[0], ROOT); }
    assert end == |keys|;
    assert start == 0;
  }

  // ---------- the cached listing ----------

  /** The byte test of readdir for a direct child of k among the keys below it. */
  predicate IsChild(x: Path, k: Path)
    requires HasPrefix(x, k)
  {
    x != k && SLASH !in x[|k| + 1..]
  }

  function Children(xs: seq<Path>, k: Path): (r: seq<Path>)
    requires forall i :: 0 <= i < |xs| ==> HasPrefix(xs[i], k)
  {
    if xs == [] then []
    else
      var n := |xs| - 1;
      Children(xs[..n], k) + if IsChild(xs[n], k) then [xs[n]] else []
  }

  function Limited(xs: seq<Path>, maxcount: int): seq<Path> {
    if 0 < maxcount < |xs| then xs[..maxcount] else xs
  }

  lemma {:induction false} ChildrenOfPrefix(xs: seq<Path>, k: Path, n: nat)
    requires n <= |xs| && forall i :: 0 <= i < |xs| ==> HasPrefix(xs[i], k)
    ensures Children(xs[..n], k) <= Children(xs, k)
  {
    if n < |xs| {
      var m := |xs| - 1;
      assert xs[..m][..n] == xs[..n];
      ChildrenOfPrefix(xs[..m], k, n);
    } else {
      assert xs[..n] == xs;
    }
  }

  /** readdirNode on a directory whose listing is cached: the direct children among the keys that
      the scan yields, at most maxcount of them if that is positive. */
  method ListCached(keys: seq<Path>, k: Path, maxcount: int) returns (names: seq<Path>)
    requires Sorted(keys)
    ensures exists end: nat :: IsScan(keys, k, Seek(keys, k), end) &&
                          names == Limited(Children(keys[Seek(keys, k)..end], k), maxcount)
    ensures Sorted(names) && forall x :: x in names ==> x in keys && HasPrefix(x, k) && IsChild(x, k)
    ensures 0 < maxcount ==> |names| <= maxcount
    ensures (maxcount <= 0 || |names| < maxcount) && k != ROOT && !Interposed(keys, k) ==>
              forall x :: x in keys && HasPrefix(x, k) && IsChild(x, k) ==> x in names
    ensures (maxcount <= 0 || |names| < maxcount) && k == ROOT && (forall x :: x in keys ==> HasPrefix(x, ROOT)) ==>
              forall x :: x in keys && IsChild(x, ROOT) ==> x in names
  {
    var start := Seek(keys, k);
    ghost var end := ScanEnd(keys, k);
    ghost var all := keys[start..end];
    names := [];
    var count := maxcount;
    var i := start;
    while i < |keys| && HasPrefix(keys[i], k)
      invariant start <= i <= end
      invariant names == ChildrenUpTo(all, k, i - start)
      invariant 0 < maxcount ==> count == maxcount - |names| && 0 < count
    {
      var x := keys[i];
      assert i < end && all[i - start] == x;
      ChildrenStep(all, k, i - start);
      i := i + 1;
      if IsChild(x, k) {
        names := names + [x];
        if 0 < maxcount {
          count := count - 1;
          if count <= 0 {
            LimitReached(all, k, i - start, maxcount);
            ListingExact(keys, k, maxcount, start, end);
            return;
          }
        }
      }
    }
    assert i == end;
    LimitNotReached(all, k, maxcount, names);
    ListingExact(keys, k, maxcount, start, end);
  }

  /** Children are exactly the direct children among the keys, in their order. */
  lemma {:induction false} ChildrenExact(xs: seq<Path>, k: Path)
    requires Sorted(xs) && forall i :: 0 <= i < |xs| ==> HasPrefix(xs[i], k)
    ensures Sorted(Children(xs, k))
    ensures forall x :: x in Children(xs, k) <==> x in xs && HasPrefix(x, k) && IsChild(x, k)
  {
    if xs != [] {
      var n := |xs| - 1;
      var front := xs[..n];
      ChildrenExact(front, k);
      assert xs == front + [xs[n]];
      var c := Children(front, k);
      forall i | 0 <= i < |c| ensures Less(c[i], xs[n]) {
        assert c[i] in front;
        var j :| 0 <= j < |front| && front[j] == c[i];
        assert xs[j] == c[i];
      }
    }
  }

  lemma ListingExact(keys: seq<Path>, k: Path, maxcount: int, start: nat, end: nat)
    requires IsScan(keys, k, start, end)
    requires forall i :: 0 <= i < |keys[start..end]| ==> HasPrefix(keys[start..end][i], k)
    ensures
      var names := Limited(Children(keys[start..end], k), maxcount);
      && Sorted(names) && (forall x :: x in names ==> x in keys && HasPrefix(x, k) && IsChild(x, k))
      && (0 < maxcount ==> |names| <= maxcount)
      && ((maxcount <= 0 || |names| < maxcount) && k != ROOT && !Interposed(keys, k) ==>
            forall x :: x in keys && HasPrefix(x, k) && IsChild(x, k) ==> x in names)
      && ((maxcount <= 0 || |names| < maxcount) && k == ROOT && (forall x :: x in keys ==> HasPrefix(x, ROOT)) ==>
            forall x :: x in keys && IsChild(x, ROOT) ==> x in names)
  {
    var xs := keys[start..end];
    ScanSound(keys, k, start, end);
    ChildrenExact(xs, k);
    var names := Limited(Children(xs, k), maxcount);
    assert names <= Children(xs, k);
    forall x | x in names ensures x in Children(xs, k) {}
    if k != ROOT && !Interposed(keys, k) { CompleteScan(keys, k, start, end); }
    if k == ROOT && (forall x :: x in keys ==> HasPrefix(x, ROOT)) { RootScan(keys, start, end); }
  }

  lemma LimitReached(xs: seq<Path>, k: Path, n: nat, maxcount: int)
    requires n <= |xs| && forall i :: 0 <= i < |xs| ==> HasPrefix(xs[i], k)
    requires 0 < maxcount == |ChildrenUpTo(xs, k, n)|
    ensures ChildrenUpTo(xs, k, n) == Limited(Children(xs, k), maxcount)
  {
    ChildrenOfPrefix(xs, k, n);
  }

  lemma LimitNotReached(xs: seq<Path>, k: Path, maxcount: int, names: seq<Path>)
    requires (forall i :: 0 <= i < |xs| ==> HasPrefix(xs[i], k)) && names == ChildrenUpTo(xs, k, |xs|)
    requires 0 < maxcount ==> |names| < maxcount
    ensures names == Limited(Children(xs, k), maxcount)
  {
    assert xs[..|xs|] == xs;
  }

  /** The children among the first n keys. */
  ghost function ChildrenUpTo(xs: seq<Path>, k: Path, n: nat): seq<Path>
    requires n <= |xs| && forall i :: 0 <= i < |xs| ==> HasPrefix(xs[i], k)
  {
    Children(xs[..n], k)
  }

  lemma ChildrenStep(xs: seq<Path>, k: Path, n: nat)
    requires n < |xs| && forall i :: 0 <= i < |xs| ==> HasPrefix(xs[i], k)
    ensures ChildrenUpTo(xs, k, n + 1) == ChildrenUpTo(xs, k, n) + if IsChild(xs[n], k) then [xs[n]] else []
  {
    assert xs[..n + 1][..n] == xs[..n];
  }

  /** Where the scan from the seek stops. */
  ghost function ScanEnd(keys: seq<Path>, k: Path): (end: nat)
    requires Sorted(keys)
    ensures IsScan(keys, k, Seek(keys, k), end)
  {
    StopAfter(keys, k, Seek(keys, k))
  }

  ghost function StopAfter(keys: seq<Path>, k: Path, i: nat): (end: nat)
    requires i <= |keys|
    ensures i <= end <= |keys|
    ensures forall j :: i <= j < end ==> HasPrefix(keys[j], k)
    ensures end < |keys| ==> !HasPrefix(keys[end], k)
    decreases |keys| - i
  {
    if i < |keys| && HasPrefix(keys[i], k) then StopAfter(keys, k, i + 1) else i
  }

  /** On canonical keys the byte test finds exactly the keys with one component more than k. */
  lemma ChildExact(x: Path, k: Path)
    requires Canonical(x) && Canonical(k) && HasPrefix(x, k)
    ensures IsChild(x, k) <==> |Components(x)| == |Components(k)| + 1
  {
    HasPrefixIsComponentPrefix(x, k);
    var rest := RestOf(x, k);
    if x != k { ChildByRest(x, k, rest); }
  }

  /** The components that x has behind those of k. */
  lemma RestOf(x: Path, k: Path) returns (rest: seq<Path>)
    requires Canonical(x) && Canonical(k) && Components(k) <= Components(x)
    ensures Components(x) == Components(k) + rest && AreComponents(rest) && (x == k <==> rest == [])
    ensures x == (if k == ROOT then [] else k) + Join(rest) || rest == []
  {
    var cs, ds := Components(x), Components(k);
    rest := cs[|ds|..];
    assert cs == ds + rest;
    JoinConcat(ds, rest);
    RootHasNone();
  }

  lemma ChildByRest(x: Path, k: Path, rest: seq<Path>)
    requires HasPrefix(x, k) && x != k && AreComponents(rest) && rest != []
    requires x == (if k == ROOT then [] else k) + Join(rest)
    ensures IsChild(x, k) <==> |rest| == 1
  {
    TailOfJoin(rest);
    if k == ROOT {
      assert x[2..] == Join(rest)[2..];
    } else {
      assert x[|k| + 1..] == Join(rest)[1..];
    }
  }

  /** A joined path has a slash behind its first component exactly if there is a second one. */
  lemma TailOfJoin(cs: seq<Path>)
    requires AreComponents(cs) && cs != []
    ensures |Join(cs)| > 1
    ensures SLASH in Join(cs)[1..] <==> |cs| > 1
    ensures SLASH in Join(cs)[2..] <==> |cs| > 1
  {
    var c, tail := cs[0], Join(cs[1..]);
    assert Join(cs) == ROOT + c + tail;
    assert Join(cs)[1..] == c + tail && Join(cs)[2..] == c[1..] + tail;
    if |cs| > 1 {
      assert tail[0] == SLASH;
      assert (c + tail)[|c|] == SLASH && (c[1..] + tail)[|c| - 1] == SLASH;
    } else {
      assert tail == [];
    }
  }

  /** removeNode reports a directory as not empty exactly if something is catalogued below it and no
      key is interposed; an interposed key makes a directory with entries look empty. */
  lemma NotEmptyExact(keys: seq<Path>, k: Path)
    requires Sorted(keys) && k in keys && k != ROOT
    ensures ScanEnd(keys, k) - Seek(keys, k) > 1 <==>
              !Interposed(keys, k) && exists x :: x in keys && HasPrefix(x, k) && x != k
  {
    var start, end := Seek(keys, k), ScanEnd(keys, k);
    FoundAtSeek(keys, k);
    if Interposed(keys, k) {
      InterposedScan(keys, k, start, end);
      assert |keys[start..end]| == 1;
    } else {
      CompleteScan(keys, k, start, end);
      if exists x :: x in keys && HasPrefix(x, k) && x != k {
        var x :| x in keys && HasPrefix(x, k) && x != k;
        assert x in keys[start..end];
      }
      if end > start + 1 {
        NextIsLater(keys, start);
        LessIrreflexive(k);
        assert keys[start + 1] in keys && HasPrefix(keys[start + 1], k) && keys[start + 1] != k;
      }
    }
  }
}
