/** Slash-separated paths: how a path splits into the partial paths that get locked,
    what "at or below" means for keys, and the byte order that keys are sorted by.

    A symbol is a byte of a key or, for case folding, a rune of a path; only its code matters.
 */
module Paths {

  type Path = seq<nat>

  const SLASH: nat := 47
  const ROOT: Path := [SLASH]

  // ---------- components ----------

  /** A component: not empty and without a slash. */
  ghost predicate IsComponent(c: Path) {
    c != [] && SLASH !in c
  }

  ghost predicate AreComponents(cs: seq<Path>) {
    forall i :: 0 <= i < |cs| ==> IsComponent(cs[i])
  }

  /** Length of the leading run without a slash. */
  function RunLength(p: Path): (n: nat)
    ensures n <= |p|
    ensures SLASH !in p[..n]
    ensures n < |p| ==> p[n] == SLASH
  {
    if p == [] || p[0] == SLASH then 0 else 1 + RunLength(p[1..])
  }

  /** The non-empty components of a path, however many slashes separate them. */
  function Components(p: Path): (cs: seq<Path>)
    ensures AreComponents(cs)
    decreases |p|
  {
    if p == [] then []
    else if p[0] == SLASH then Components(p[1..])
    else
      var n := RunLength(p);
      assert p[0] in p[..n];
      [p[..n]] + Components(p[n..])
  }

  /** "/c1/c2/.../cn"; empty for no components. */
  function Join(cs: seq<Path>): (p: Path)
  {
    if cs == [] then [] else ROOT + cs[0] + Join(cs[1..])
  }

  /** The path made of the given components. */
  function FromComponents(cs: seq<Path>): (p: Path)
  {
    if cs == [] then ROOT else Join(cs)
  }

  /** A path with one leading slash, no doubled slash and no trailing slash (or the root). */
  ghost predicate Canonical(p: Path) {
    p == FromComponents(Components(p))
  }

  lemma {:induction false} JoinConcat(xs: seq<Path>, ys: seq<Path>)
    ensures Join(xs + ys) == Join(xs) + Join(ys)
  {
    if xs == [] {
      assert xs + ys == ys;
    } else {
      assert (xs + ys)[1..] == xs[1..] + ys;
      JoinConcat(xs[1..], ys);
    }
  }

  lemma RunLengthUnique(p: Path, n: nat)
    requires n <= |p| && SLASH !in p[..n]
    requires n < |p| ==> p[n] == SLASH
    ensures RunLength(p) == n
  {
  }

  /** A slash after b ends the last component of b. */
  lemma {:induction false} ComponentsConcat(b: Path, rest: Path)
    ensures Components(b + ROOT + rest) == Components(b) + Components(rest)
    decreases |b|
  {
    var p := b + ROOT + rest;
    if b == [] {
      assert p[1..] == rest;
    } else if b[0] == SLASH {
      assert p[1..] == b[1..] + ROOT + rest;
      ComponentsConcat(b[1..], rest);
    } else {
      var n := RunLength(b);
      assert b[0] in b[..n];
      assert p[..n] == b[..n];
      RunLengthUnique(p, n);
      assert p[n..] == b[n..] + ROOT + rest;
      ComponentsConcat(b[n..], rest);
    }
  }

  /** Splitting undoes joining. */
  lemma ComponentsOfJoin(cs: seq<Path>)
    requires AreComponents(cs)
    ensures Components(Join(cs)) == cs
    ensures Components(FromComponents(cs)) == cs
  {
    SplitJoined(cs);
    RootHasNone();
  }

  lemma {:induction false} SplitJoined(cs: seq<Path>)
    requires AreComponents(cs)
    ensures Components(Join(cs)) == cs
  {
    if cs != [] {
      SplitJoined(cs[1..]);
      ComponentsOfJoinStep(cs[0], cs[1..]);
      JoinFirst(cs);
      ComponentsAfterSlash(cs[0] + Join(cs[1..]));
    }
  }

  lemma JoinFirst(cs: seq<Path>)
    requires cs != []
    ensures Join(cs) == ROOT + (cs[0] + Join(cs[1..])) && cs == [cs[0]] + cs[1..]
  {
  }

  lemma ComponentsAfterSlash(q: Path)
    ensures Components(ROOT + q) == Components(q)
  {
    assert (ROOT + q)[1..] == q;
  }

  lemma RootHasNone()
    ensures Components(ROOT) == []
  {
    assert ROOT[1..] == [];
  }

  lemma ComponentsOfJoinStep(c: Path, rest: seq<Path>)
    requires IsComponent(c) && AreComponents(rest)
    requires Components(Join(rest)) == rest
    ensures Components(c + Join(rest)) == [c] + rest
  {
    var p := c + Join(rest);
    assert p[..|c|] == c;
    assert p[|c|..] == Join(rest);
    RunLengthUnique(p, |c|);
    assert p[0] in c;
  }

  // ---------- partial paths ----------

  /** The paths that lockPath locks, outermost first: the root, every ancestor, the path itself. */
  function PartialPaths(p: Path): (ps: seq<Path>)
  {
    PartialsOf(Components(p))
  }

  function PartialsOf(cs: seq<Path>): (ps: seq<Path>)
  {
    seq(|cs| + 1, i requires 0 <= i <= |cs| => FromComponents(cs[..i]))
  }

  /** The scan of cache.go: skip slashes, take a component, append it to the partial path. */
  method SplitPartials(path: Path) returns (paths: seq<Path>)
    ensures paths == PartialPaths(path)
  {
    paths := [ROOT];
    var partial: Path := [];
    var i := SkipSlashes(path, 0);
    ghost var done: seq<Path> := [];
    assert path[0..] == path;
    while i < |path|
      invariant i <= |path| && (i < |path| ==> path[i] != SLASH)
      invariant Scanned(path, i, done, partial, paths)
    {
      var e := SkipComponent(path, i);
      var comp := path[i..e];
      var k := SkipSlashes(path, e);
      partial := partial + ROOT + comp;
      paths := paths + [partial];
      ScanStep(path, i, e, k, done, partial, paths);
      done := done + [comp];
      i := k;
    }
    assert done + [] == done;
  }

  /** After i symbols the components in done are taken, the rest is still to come. */
  ghost predicate Scanned(path: Path, i: nat, done: seq<Path>, partial: Path, paths: seq<Path>)
    requires i <= |path|
  {
    && done + Components(path[i..]) == Components(path)
    && partial == Join(done)
    && paths == PartialsOf(done)
  }

  lemma ScanStep(path: Path, i: nat, e: nat, k: nat, done: seq<Path>, partial: Path, paths: seq<Path>)
    requires i < e <= k <= |path| && SLASH !in path[i..e]
    requires e < |path| ==> path[e] == SLASH
    requires Components(path[e..]) == Components(path[k..])
    requires |paths| > 0 && partial == Join(done) + ROOT + path[i..e] && paths[|paths| - 1] == partial
    requires Scanned(path, i, done, Join(done), paths[..|paths| - 1])
    ensures Scanned(path, k, done + [path[i..e]], partial, paths)
  {
    TakeComponent(path, i, e);
    AppendComponent(done, path[i..e]);
    Moved(done, path[i..e], Components(path[i..]), Components(path[k..]), Components(path));
    LastAppended(paths, partial);
  }

  lemma Moved(done: seq<Path>, comp: Path, todo: seq<Path>, rest: seq<Path>, all: seq<Path>)
    requires todo == [comp] + rest && done + todo == all
    ensures done + [comp] + rest == all
  {
  }

  lemma LastAppended(ps: seq<Path>, p: Path)
    requires ps != [] && ps[|ps| - 1] == p
    ensures ps == ps[..|ps| - 1] + [p]
  {
  }

  lemma TakeComponent(path: Path, j: nat, e: nat)
    requires j < e <= |path| && SLASH !in path[j..e]
    requires e < |path| ==> path[e] == SLASH
    ensures Components(path[j..]) == [path[j..e]] + Components(path[e..])
  {
    var p := path[j..];
    assert p[..e - j] == path[j..e] && p[e - j..] == path[e..];
    RunLengthUnique(p, e - j);
    assert p[0] in path[j..e];
  }

  lemma AppendComponent(done: seq<Path>, c: Path)
    ensures PartialsOf(done + [c]) == PartialsOf(done) + [Join(done + [c])]
    ensures Join(done + [c]) == Join(done) + ROOT + c
  {
    JoinConcat(done, [c]);
    assert Join([c]) == ROOT + c;
    assert forall i :: 0 <= i <= |done| ==> (done + [c])[..i] == done[..i];
    assert (done + [c])[..|done| + 1] == done + [c];
  }

  /** Index of the first slash at or after i, or the end. */
  method SkipComponent(path: Path, i: nat) returns (k: nat)
    requires i <= |path|
    ensures i <= k <= |path| && SLASH !in path[i..k]
    ensures k < |path| ==> path[k] == SLASH
  {
    k := i;
    while k < |path| && path[k] != SLASH
      invariant i <= k <= |path|
      invariant SLASH !in path[i..k]
    {
      k := k + 1;
    }
  }

  /** Index of the first non-slash at or after i. */
  method SkipSlashes(path: Path, i: nat) returns (k: nat)
    requires i <= |path|
    ensures i <= k <= |path|
    ensures k < |path| ==> path[k] != SLASH
    ensures Components(path[i..]) == Components(path[k..])
  {
    k := i;
    while k < |path| && path[k] == SLASH
      invariant i <= k <= |path|
      invariant Components(path[i..]) == Components(path[k..])
    {
      assert path[k..][1..] == path[k + 1..];
      k := k + 1;
    }
  }

  // ---------- at or below ----------

  /** Key a names b itself or something below it, as the cache tests it on bytes. */
  predicate HasPrefix(a: Path, b: Path) {
    |a| >= |b| && a[..|b|] == b &&
    (|a| == |b| || (|b| == 1 && b[0] == SLASH) || a[|b|] == SLASH)
  }

  /** On canonical paths the byte test is exactly "the components of b begin those of a". */
  lemma HasPrefixIsComponentPrefix(a: Path, b: Path)
    requires Canonical(a) && Canonical(b)
    ensures HasPrefix(a, b) <==> Components(b) <= Components(a)
  {
    if HasPrefix(a, b) { PrefixThenComponents(a, b); }
    if Components(b) <= Components(a) { ComponentsThenPrefix(a, b); }
  }

  lemma PrefixThenComponents(a: Path, b: Path)
    requires HasPrefix(a, b)
    ensures Components(b) <= Components(a)
  {
    RootHasNone();
    if a != b && b != ROOT {
      var rest := a[|b| + 1..];
      assert a == b + ROOT + rest;
      ComponentsConcat(b, rest);
    }
  }

  lemma ComponentsThenPrefix(a: Path, b: Path)
    requires Canonical(a) && Canonical(b) && Components(b) <= Components(a)
    ensures HasPrefix(a, b)
  {
    var cs, ds := Components(a), Components(b);
    var tail := cs[|ds|..];
    assert cs == ds + tail;
    JoinConcat(ds, tail);
    if ds == [] || tail == [] {
      assert a[..1] == ROOT;
    } else {
      assert a == b + Join(tail);
      assert Join(tail)[0] == SLASH;
    }
  }

  /** The byte test holds exactly for the partial paths, so what rename refuses with EINVAL
      is exactly a pair of paths of which one is locked as an ancestor of the other. */
  lemma HasPrefixIsPartialPath(a: Path, b: Path)
    requires Canonical(a) && Canonical(b)
    ensures HasPrefix(a, b) <==> b in PartialPaths(a)
  {
    HasPrefixIsComponentPrefix(a, b);
    var cs, ds := Components(a), Components(b);
    if ds <= cs {
      assert cs[..|ds|] == ds;
      assert PartialPaths(a)[|ds|] == b;
    }
    if b in PartialPaths(a) {
      var i :| 0 <= i <= |cs| && b == FromComponents(cs[..i]);
      ComponentsOfJoin(cs[..i]);
    }
  }

  // ---------- byte order ----------

  /** The order of Go's strings and of the index cursor. */
  predicate Less(a: Path, b: Path) {
    b != [] && (a == [] || a[0] < b[0] || (a[0] == b[0] && Less(a[1..], b[1..])))
  }

  lemma {:induction false} LessIrreflexive(a: Path)
    ensures !Less(a, a)
  {
    if a != [] { LessIrreflexive(a[1..]); }
  }

  lemma {:induction false} LessTransitive(a: Path, b: Path, c: Path)
    requires Less(a, b) && Less(b, c)
    ensures Less(a, c)
  {
    if a != [] && a[0] == b[0] == c[0] {
      LessTransitive(a[1..], b[1..], c[1..]);
    }
  }

  lemma {:induction false} LessTotal(a: Path, b: Path)
    ensures Less(a, b) || a == b || Less(b, a)
  {
    if a != [] && b != [] && a[0] == b[0] {
      LessTotal(a[1..], b[1..]);
      assert a == [a[0]] + a[1..] && b == [b[0]] + b[1..];
    }
  }

  lemma {:induction false} PrefixLess(a: Path, b: Path)
    requires a < b
    ensures Less(a, b)
  {
    if a != [] { PrefixLess(a[1..], b[1..]); }
  }

  /** Comparison is decided behind a common prefix. */
  lemma {:induction false} LessBehindPrefix(p: Path, x: Path, y: Path)
    ensures Less(p + x, p + y) <==> Less(x, y)
  {
    if p == [] {
      assert p + x == x && p + y == y;
    } else {
      assert (p + x)[1..] == p[1..] + x && (p + y)[1..] == p[1..] + y;
      LessBehindPrefix(p[1..], x, y);
    }
  }

  /** Partial paths are locked in strictly ascending byte order. */
  lemma PartialPathsAscend(p: Path, i: nat, j: nat)
    requires i < j < |PartialPaths(p)|
    ensures Less(PartialPaths(p)[i], PartialPaths(p)[j])
  {
    var cs := Components(p);
    var x, y := cs[..i], cs[i..j];
    assert cs[..j] == x + y;
    JoinConcat(x, y);
    assert Join(y) == ROOT + y[0] + Join(y[1..]);
    if i == 0 {
      assert Join(cs[..j]) == ROOT + cs[0] + Join(cs[..j][1..]);
      assert IsComponent(cs[0]);
    }
    PrefixLess(PartialPaths(p)[i], PartialPaths(p)[j]);
  }

  /** A key that extends k by a byte below the slash; such keys sort between k and what is below it. */
  ghost predicate Interposes(x: Path, k: Path) {
    k < x && x[|k|] < SLASH
  }

  /** Between k and something behind it, everything begins with k. */
  lemma {:induction false} Between(k: Path, x: Path, y: Path)
    requires k <= y && !Less(x, k) && x != k && Less(x, y)
    ensures k < x
  {
    LessTotal(x, k);
    if k != [] {
      assert x[0] == k[0] == y[0];
      assert k == [k[0]] + k[1..] && x == [x[0]] + x[1..];
      Between(k[1..], x[1..], y[1..]);
    }
  }
}
