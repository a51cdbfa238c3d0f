/** Case-insensitive keys: every rune of a path is replaced by the least rune that it is equivalent
    to under simple case folding (section 3.13 of the Unicode Standard).
 */
module CaseFold {
  import opened Paths

  type Rune = nat

  // ---------- what simple folding is ----------

  ghost predicate Equivalence(eq: (Rune, Rune) -> bool) {
    && (forall r :: eq(r, r))
    && (forall r, s :: eq(r, s) ==> eq(s, r))
    && (forall r, s, t :: eq(r, s) && eq(s, t) ==> eq(r, t))
  }

  /** next is the least equivalent rune above r or, if there is none, the least of all. */
  ghost predicate IsNext(eq: (Rune, Rune) -> bool, r: Rune, next: Rune) {
    && eq(r, next)
    && (forall s :: eq(r, s) && r < s ==> r < next <= s)
    && (next <= r ==> forall s :: eq(r, s) ==> next <= s)
  }

  /** fold walks the classes of eq in ascending order and around; only runes up to max have company. */
  ghost predicate IsFold(fold: Rune -> Rune, eq: (Rune, Rune) -> bool, max: Rune) {
    && Equivalence(eq)
    && (forall r: Rune :: IsNext(eq, r, fold(r)))
    && (forall r: Rune, s: Rune :: eq(r, s) && r < s ==> s <= max)
  }

  /** Among the ASCII characters only letters have company: a capital is the least of its class, the
      small letter belongs to it, and every other character is the least of its class. */
  ghost predicate AsciiCases(eq: (Rune, Rune) -> bool) {
    forall r, s: Rune :: r < 128 && eq(r, s) ==> AsciiLeast(r) <= s && eq(r, AsciiLeast(r))
  }

  function AsciiLeast(r: Rune): Rune {
    if 97 <= r <= 122 then r - 32 else r
  }

  /** Nothing else folds to the slash. */
  ghost predicate SlashAlone(eq: (Rune, Rune) -> bool) {
    forall r :: eq(r, SLASH) ==> r == SLASH
  }

  // ---------- the least of a class ----------

  ghost predicate IsLeast(eq: (Rune, Rune) -> bool, r: Rune, m: Rune) {
    eq(r, m) && forall s :: eq(r, s) ==> m <= s
  }

  ghost function LeastFrom(eq: (Rune, Rune) -> bool, r: Rune, n: Rune): (m: Rune)
    requires eq(r, r) && n <= r
    requires forall s: Rune :: s < n ==> !eq(r, s)
    ensures IsLeast(eq, r, m)
    decreases r - n
  {
    if eq(r, n) then n else LeastFrom(eq, r, n + 1)
  }

  ghost function Least(eq: (Rune, Rune) -> bool, r: Rune): (m: Rune)
    requires Equivalence(eq)
    ensures IsLeast(eq, r, m)
  {
    LeastFrom(eq, r, 0)
  }

  /** Two runes have the same representative exactly if they are equivalent. */
  lemma LeastEqual(eq: (Rune, Rune) -> bool, r: Rune, s: Rune)
    requires Equivalence(eq)
    ensures Least(eq, r) == Least(eq, s) <==> eq(r, s)
  {
    var a, b := Least(eq, r), Least(eq, s);
    assert eq(r, a) && eq(s, b) && eq(a, r) && eq(b, s);
    if eq(r, s) {
      assert eq(s, r);
      assert eq(r, b) && eq(s, a);
    }
  }

  // ---------- the loop ----------

  /** normalizeCase for one rune: climb to the top of the class, then one step around. */
  method NormalizeRune(fold: Rune -> Rune, r0: Rune, ghost eq: (Rune, Rune) -> bool, ghost max: Rune) returns (r: Rune)
    requires IsFold(fold, eq, max) && AsciiCases(eq)
    ensures r == Least(eq, r0)
  {
    r := r0;
    if 97 <= r <= 122 {
      r := r - 32;
    } else if r < 128 {
    } else {
      var f := fold(r);
      assert IsNext(eq, r, f);
      while f > r
        invariant f == fold(r) && eq(r0, r)
        decreases if r <= max then max - r + 1 else 0
      {
        assert IsNext(eq, r, f) && eq(r, f);
        r := f;
        f := fold(r);
      }
      assert IsNext(eq, r, f) && eq(r, f);
      r := f;
      forall s | eq(r0, s) ensures r <= s { assert eq(s, r0); }
      return;
    }
    assert eq(r0, r0);
    assert r == AsciiLeast(r0);
  }

  ghost function Normal(eq: (Rune, Rune) -> bool, s: Path): (t: Path)
    requires Equivalence(eq)
  {
    Mapped(Representative(eq), s)
  }

  ghost function Representative(eq: (Rune, Rune) -> bool): Rune -> Rune
    requires Equivalence(eq)
  {
    r => Least(eq, r)
  }

  /** normalizeCase */
  method NormalizeCase(fold: Rune -> Rune, s: Path, ghost eq: (Rune, Rune) -> bool, ghost max: Rune) returns (t: Path)
    requires IsFold(fold, eq, max) && AsciiCases(eq)
    ensures t == Normal(eq, s)
  {
    t := [];
    var i := 0;
    while i < |s|
      invariant i <= |s| && t == Normal(eq, s[..i])
    {
      var r := NormalizeRune(fold, s[i], eq, max);
      t := t + [r];
      assert s[..i + 1] == s[..i] + [s[i]];
      i := i + 1;
    }
    assert s[..i] == s;
  }

  // ---------- canonical ----------

  /** Normalizing twice is normalizing once. */
  lemma NormalIdempotent(eq: (Rune, Rune) -> bool, s: Path)
    requires Equivalence(eq)
    ensures Normal(eq, Normal(eq, s)) == Normal(eq, s)
  {
    forall i | 0 <= i < |s| ensures Least(eq, Least(eq, s[i])) == Least(eq, s[i]) {
      LeastEqual(eq, s[i], Least(eq, s[i]));
    }
  }

  ghost predicate SameRunes(eq: (Rune, Rune) -> bool, s: Path, t: Path) {
    |s| == |t| && forall i :: 0 <= i < |s| ==> eq(s[i], t[i])
  }

  /** Two paths have the same key exactly if they are equivalent rune by rune. */
  lemma NormalEqualIff(eq: (Rune, Rune) -> bool, s: Path, t: Path)
    requires Equivalence(eq)
    ensures Normal(eq, s) == Normal(eq, t) <==> SameRunes(eq, s, t)
  {
    var a, b := Normal(eq, s), Normal(eq, t);
    assert |a| == |s| && |b| == |t|;
    if |s| == |t| {
      forall i | 0 <= i < |s| ensures a[i] == b[i] <==> eq(s[i], t[i]) {
        LeastEqual(eq, s[i], t[i]);
      }
    }
  }

  // ---------- keys and partial paths ----------

  function Mapped(g: Rune -> Rune, s: Path): (t: Path)
    ensures |t| == |s|
  {
    seq(|s|, i requires 0 <= i < |s| => g(s[i]))
  }

  function MappedAll(g: Rune -> Rune, ss: seq<Path>): (ts: seq<Path>)
    ensures |ts| == |ss|
  {
    seq(|ss|, i requires 0 <= i < |ss| => Mapped(g, ss[i]))
  }

  /** g keeps slashes and makes no new ones. */
  ghost predicate KeepsSlash(g: Rune -> Rune) {
    forall r :: g(r) == SLASH <==> r == SLASH
  }

  lemma MappedRun(g: Rune -> Rune, p: Path, n: nat)
    requires KeepsSlash(g) && n == RunLength(p)
    ensures RunLength(Mapped(g, p)) == n
  {
    var q := Mapped(g, p);
    forall x | x in q[..n] ensures x != SLASH {
      var i :| 0 <= i < n && q[i] == x;
      assert p[i] in p[..n];
    }
    RunLengthUnique(q, n);
  }

  lemma {:induction false} MappedComponents(g: Rune -> Rune, p: Path)
    requires KeepsSlash(g)
    ensures Components(Mapped(g, p)) == MappedAll(g, Components(p))
    decreases |p|
  {
    var q := Mapped(g, p);
    if p != [] {
      if p[0] == SLASH {
        assert q[1..] == Mapped(g, p[1..]);
        MappedComponents(g, p[1..]);
      } else {
        var n := RunLength(p);
        assert p[0] in p[..n];
        MappedRun(g, p, n);
        assert q[..n] == Mapped(g, p[..n]) && q[n..] == Mapped(g, p[n..]);
        MappedComponents(g, p[n..]);
        assert MappedAll(g, [p[..n]] + Components(p[n..])) == [Mapped(g, p[..n])] + MappedAll(g, Components(p[n..]));
      }
    }
  }

  lemma {:induction false} MappedJoin(g: Rune -> Rune, cs: seq<Path>)
    requires KeepsSlash(g)
    ensures Join(MappedAll(g, cs)) == Mapped(g, Join(cs))
  {
    if cs != [] {
      MappedJoin(g, cs[1..]);
      assert MappedAll(g, cs)[1..] == MappedAll(g, cs[1..]);
      assert Mapped(g, ROOT) == ROOT;
      assert Mapped(g, ROOT + cs[0] + Join(cs[1..])) == Mapped(g, ROOT) + Mapped(g, cs[0]) + Mapped(g, Join(cs[1..]));
    }
  }

  lemma MappedPartials(g: Rune -> Rune, p: Path)
    requires KeepsSlash(g)
    ensures PartialPaths(Mapped(g, p)) == MappedAll(g, PartialPaths(p))
  {
    MappedComponents(g, p);
    var cs := Components(p);
    var a, b := PartialPaths(Mapped(g, p)), MappedAll(g, PartialPaths(p));
    forall i | 0 <= i <= |cs| ensures a[i] == b[i] {
      assert MappedAll(g, cs)[..i] == MappedAll(g, cs[..i]);
      MappedJoin(g, cs[..i]);
      assert Mapped(g, ROOT) == ROOT;
    }
  }

  /** Normalizing commutes with splitting: the locks of a key are the keys of the locks. */
  lemma NormalPartialPaths(eq: (Rune, Rune) -> bool, p: Path)
    requires Equivalence(eq) && SlashAlone(eq)
    ensures PartialPaths(Normal(eq, p)) == MappedAll(Representative(eq), PartialPaths(p))
  {
    var g := Representative(eq);
    forall r ensures g(r) == SLASH <==> r == SLASH {
      assert eq(r, Least(eq, r));
      assert eq(SLASH, SLASH) && eq(SLASH, Least(eq, SLASH)) && eq(Least(eq, SLASH), SLASH);
    }
    MappedPartials(g, p);
  }

  // ---------- an instance ----------

  /** The classes of ASCII: a small letter and its capital, everything else alone. */
  function AsciiEq(r: Rune, s: Rune): bool {
    AsciiLeast(r) == AsciiLeast(s)
  }

  function AsciiFold(r: Rune): Rune {
    if 65 <= r <= 90 then r + 32 else AsciiLeast(r)
  }

  lemma AsciiIsFold()
    ensures IsFold(AsciiFold, AsciiEq, 122) && AsciiCases(AsciiEq) && SlashAlone(AsciiEq)
  {
    forall r: Rune ensures IsNext(AsciiEq, r, AsciiFold(r)) {
    }
  }
}
