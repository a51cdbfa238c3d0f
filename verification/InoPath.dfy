/** The names of the local files: an ino is printed as a directory and a file name in hexadecimal,
    and read back at start-up, when files of unknown inos are removed.
 */
module InoPath {
  import opened Options

  const SEP: char := '/'

  // ---------- hexadecimal numerals ----------

  function Digit(d: nat): char
    requires d < 16
  {
    if d < 10 then '0' + d as char else 'a' + (d - 10) as char
  }

  function DigitValue(c: char): Option<nat> {
    if '0' <= c <= '9' then Some((c - '0') as nat)
    else if 'a' <= c <= 'f' then Some((c - 'a') as nat + 10)
    else if 'A' <= c <= 'F' then Some((c - 'A') as nat + 10)
    else None
  }

  /** The format %0nx: at least n digits. */
  function Hex(v: nat, n: nat): (s: string)
    ensures |s| >= 1 && |s| >= n
    decreases v, n
  {
    if v < 16 && n <= 1 then [Digit(v)] else Hex(v / 16, if n > 0 then n - 1 else 0) + [Digit(v % 16)]
  }

  /** The value of a numeral without a limit on its size; the empty one counts as zero. */
  function HexValue(s: string): Option<nat> {
    if s == "" then Some(0)
    else
      var front, last := HexValue(s[..|s| - 1]), DigitValue(s[|s| - 1]);
      if front.Some? && last.Some? then Some(front.value * 16 + last.value) else None
  }

  /** strconv.ParseUint(s, 16, 64) */
  function ParseUint(s: string): Option<nat> {
    if s != "" && HexValue(s).Some? && HexValue(s).value < 0x1_0000_0000_0000_0000 then HexValue(s) else None
  }

  function Pow16(n: nat): (p: nat)
    ensures p > 0
  {
    if n == 0 then 1 else Pow16(n - 1) * 16
  }

  lemma DigitRoundTrip(d: nat)
    requires d < 16
    ensures DigitValue(Digit(d)) == Some(d) && Digit(d) != SEP
  {
  }

  /** A number below 16 to the n takes exactly n digits, none of them a separator, and reads back. */
  lemma {:induction false} HexRoundTrip(v: nat, n: nat)
    requires 1 <= n && v < Pow16(n)
    ensures |Hex(v, n)| == n && SEP !in Hex(v, n) && HexValue(Hex(v, n)) == Some(v)
    decreases n
  {
    if n == 1 {
      DigitRoundTrip(v);
      var s := Hex(v, n);
      assert s[..0] == "";
    } else {
      assert v / 16 < Pow16(n - 1);
      HexRoundTrip(v / 16, n - 1);
      DigitRoundTrip(v % 16);
      var s := Hex(v, n);
      assert s[..|s| - 1] == Hex(v / 16, n - 1);
    }
  }

  /** The value of two numerals written one after the other. */
  lemma {:induction false} HexConcat(a: string, b: string)
    requires HexValue(a).Some? && HexValue(b).Some?
    ensures HexValue(a + b) == Some(HexValue(a).value * Pow16(|b|) + HexValue(b).value)
  {
    if b == "" {
      assert a + b == a;
    } else {
      var n := |b| - 1;
      HexConcat(a, b[..n]);
      assert (a + b)[..|a| + n] == a + b[..n];
      assert (a + b)[|a| + n] == b[n];
      Shift(HexValue(a).value, Pow16(n), HexValue(b[..n]).value, DigitValue(b[n]).value);
    }
  }

  lemma Shift(x: nat, p: nat, y: nat, d: nat)
    ensures (x * p + y) * 16 + d == x * (p * 16) + (y * 16 + d)
  {
  }

  // ---------- paths ----------

  /** filepath.Join of a clean directory and a clean relative name. */
  function Join(dir: string, name: string): string {
    if dir != "" && dir[|dir| - 1] == SEP then dir + name else dir + [SEP] + name
  }

  function FilePath(root: string, ino: nat): string {
    Join(root, Hex(ino % 256, 2) + [SEP] + Hex(ino / 256, 14))
  }

  /** The number of characters up to and including the last separator. */
  function LastSep(s: string): (n: nat)
    ensures n <= |s| && (n > 0 ==> s[n - 1] == SEP) && SEP !in s[n..]
  {
    if s == "" then 0
    else if s[|s| - 1] == SEP then |s|
    else
      var n := LastSep(s[..|s| - 1]);
      assert s[n..] == s[..|s| - 1][n..] + [s[|s| - 1]];
      n
  }

  function ParseIno(root: string, path: string): Option<nat> {
    var rest := if root <= path then
                  var tail := path[|root|..];
                  if tail != "" && tail[0] == SEP then tail[1..] else tail
                else "INV";
    var n := LastSep(rest);
    var dir, base := rest[..n], rest[n..];
    ParseUint(base + (if dir != "" then dir[..|dir| - 1] else dir))
  }

  lemma {:induction false} LastSepOf(a: string, b: string)
    requires SEP !in b
    ensures LastSep(a + [SEP] + b) == |a| + 1
  {
    var s := a + [SEP] + b;
    if b == "" {
      assert s[|s| - 1] == SEP;
    } else {
      assert s[|s| - 1] == b[|b| - 1];
      assert s[..|s| - 1] == a + [SEP] + b[..|b| - 1];
      LastSepOf(a, b[..|b| - 1]);
    }
  }

  /** Every 64-bit ino is read back from the name of its file. */
  lemma ParseFilePath(root: string, ino: nat)
    requires ino < 0x1_0000_0000_0000_0000
    ensures ParseIno(root, FilePath(root, ino)) == Some(ino)
  {
    TwoParts(ino);
    ParsePath(root, Hex(ino % 256, 2), Hex(ino / 256, 14), ino);
  }

  lemma ParsePath(root: string, lo: string, hi: string, ino: nat)
    requires |lo| == 2 && |hi| == 14 && SEP !in lo && SEP !in hi && ino < 0x1_0000_0000_0000_0000
    requires HexValue(lo) == Some(ino % 256) && HexValue(hi) == Some(ino / 256)
    ensures ParseIno(root, Join(root, lo + [SEP] + hi)) == Some(ino)
  {
    var name := lo + [SEP] + hi;
    NameBehindRoot(root, name);
    ParsesBehind(root, Join(root, name));
    LastSepOf(lo, hi);
    assert name[..2] == lo && name[3..] == hi;
    ConcatValue(hi, lo, ino);
  }

  lemma TwoParts(ino: nat)
    requires ino < 0x1_0000_0000_0000_0000
    ensures
      var lo, hi := Hex(ino % 256, 2), Hex(ino / 256, 14);
      && |lo| == 2 && |hi| == 14 && SEP !in lo && SEP !in hi
      && HexValue(lo) == Some(ino % 256) && HexValue(hi) == Some(ino / 256)
  {
    assert Pow16(2) == 256;
    PowersOf16();
    HexRoundTrip(ino % 256, 2);
    HexRoundTrip(ino / 256, 14);
  }

  lemma ConcatValue(hi: string, lo: string, ino: nat)
    requires |lo| == 2 && ino < 0x1_0000_0000_0000_0000
    requires HexValue(lo) == Some(ino % 256) && HexValue(hi) == Some(ino / 256)
    ensures ParseUint(hi + lo) == Some(ino)
  {
    HexConcat(hi, lo);
    TwoDigits(|lo|);
    Recompose(ino, Pow16(|lo|));
  }

  lemma Recompose(x: nat, p: nat)
    requires p == 256
    ensures x / 256 * p + x % 256 == x
  {
  }

  lemma TwoDigits(n: nat)
    requires n == 2
    ensures Pow16(n) == 256
  {
    assert Pow16(n - 1) == 16;
  }

  lemma PowersOf16()
    ensures Pow16(14) == 0x100_0000_0000_0000
  {
    assert Pow16(7) == 0x1000_0000;
    assert Pow16(14) == Pow16(7) * 0x1000_0000;
  }

  /** Taking the directory and a separator off a joined path leaves the name. */
  lemma NameBehindRoot(root: string, name: string)
    requires name != "" && name[0] != SEP
    ensures root <= Join(root, name)
    ensures var tail := Join(root, name)[|root|..];
            name == if tail != "" && tail[0] == SEP then tail[1..] else tail
  {
  }

  /** The file of an ino: under the root, a directory of two digits for its low byte, and in it a name of
      fourteen digits for the rest, all in small letters. */
  lemma FilePathShape(root: string, ino: nat)
    requires ino < 0x1_0000_0000_0000_0000
    ensures
      var lo, hi := Hex(ino % 256, 2), Hex(ino / 256, 14);
      && FilePath(root, ino) ==
           root + (if root != "" && root[|root| - 1] == SEP then "" else [SEP]) + (lo + [SEP] + hi)
      && |lo| == 2 && |hi| == 14
      && HexValue(lo) == Some(ino % 256) && HexValue(hi) == Some(ino / 256)
      && (forall i :: 0 <= i < 2 ==> SmallDigit(lo[i])) && (forall i :: 0 <= i < 14 ==> SmallDigit(hi[i]))
  {
    TwoParts(ino);
    HexIsSmall(ino % 256, 2);
    HexIsSmall(ino / 256, 14);
  }

  predicate SmallDigit(c: char) {
    '0' <= c <= '9' || 'a' <= c <= 'f'
  }

  lemma {:induction false} HexIsSmall(v: nat, n: nat)
    ensures forall i :: 0 <= i < |Hex(v, n)| ==> SmallDigit(Hex(v, n)[i])
    decreases v, n
  {
    if v >= 16 || n > 1 { HexIsSmall(v / 16, if n > 0 then n - 1 else 0); }
  }

  /** Different inos have different files. */
  lemma FilePathsDiffer(root: string, i: nat, j: nat)
    requires i < 0x1_0000_0000_0000_0000 && j < 0x1_0000_0000_0000_0000
    ensures FilePath(root, i) == FilePath(root, j) <==> i == j
  {
    ParseFilePath(root, i);
    ParseFilePath(root, j);
  }

  // ---------- names that are no inos ----------

  /** A hexadecimal digit, small or capital. */
  predicate IsDigit(c: char) {
    '0' <= c <= '9' || 'a' <= c <= 'f' || 'A' <= c <= 'F'
  }

  predicate NameChar(c: char) {
    IsDigit(c) || c == SEP
  }

  /** The sixteen digits in both cases have their values, and nothing else has one. */
  lemma DigitValueExact(c: char, d: nat)
    ensures DigitValue(c).Some? <==> IsDigit(c)
    ensures DigitValue(c) == Some(d) <==>
              (d < 10 && c as nat == 48 + d) || (10 <= d < 16 && (c as nat == 87 + d || c as nat == 55 + d))
  {
  }

  /** A numeral consists of digits. */
  lemma {:induction false} NumeralsAreDigits(s: string)
    requires HexValue(s).Some?
    ensures AllDigits(s)
  {
    if s != "" {
      var front := s[..|s| - 1];
      NumeralsAreDigits(front);
      DigitValueExact(s[|s| - 1], 0);
      forall i | 0 <= i < |s| ensures IsDigit(s[i]) { assert i < |front| ==> s[i] == front[i]; }
    }
  }

  /** What parseIno looks at: the path behind the root and one separator, or "INV". */
  function Behind(root: string, path: string): string {
    if root <= path then
      var tail := path[|root|..];
      if tail != "" && tail[0] == SEP then tail[1..] else tail
    else "INV"
  }

  ghost predicate AllDigits(s: string) {
    forall i :: 0 <= i < |s| ==> IsDigit(s[i])
  }

  /** If the two parts around the last separator are digits, the whole is digits and separators. */
  lemma NameCharsOf(rest: string, n: nat)
    requires n <= |rest| && (n > 0 ==> rest[n - 1] == SEP)
    requires AllDigits(rest[n..]) && (n > 0 ==> AllDigits(rest[..n - 1]))
    ensures forall i :: 0 <= i < |rest| ==> NameChar(rest[i])
  {
    forall i | 0 <= i < |rest| ensures NameChar(rest[i]) {
      if i >= n {
        assert rest[n..][i - n] == rest[i];
      } else if i < n - 1 {
        assert rest[..n - 1][i] == rest[i];
      }
    }
  }

  lemma DigitParts(a: string, b: string)
    requires AllDigits(a + b)
    ensures AllDigits(a) && AllDigits(b)
  {
    forall i | 0 <= i < |a| ensures IsDigit(a[i]) { assert (a + b)[i] == a[i]; }
    forall i | 0 <= i < |b| ensures IsDigit(b[i]) { assert (a + b)[|a| + i] == b[i]; }
  }

  lemma ParsesBehind(root: string, path: string)
    ensures var rest := Behind(root, path);
            var n := LastSep(rest);
            ParseIno(root, path) == ParseUint(rest[n..] + (if n > 0 then rest[..n - 1] else ""))
  {
    var rest := Behind(root, path);
    var n := LastSep(rest);
    if n > 0 { assert rest[..n][..n - 1] == rest[..n - 1]; }
  }

  /** Only a path under the root, with nothing behind the root but hexadecimal digits and separators,
      reads as an ino, and as one of 64 bits. */
  lemma OnlyNumeralsParse(root: string, path: string)
    requires ParseIno(root, path).Some?
    ensures root <= path && forall i :: |root| <= i < |path| ==> NameChar(path[i])
    ensures ParseIno(root, path).value < 0x1_0000_0000_0000_0000
  {
    var rest := Behind(root, path);
    ParsesBehind(root, path);
    BehindIsName(rest);
    if !(root <= path) {
      NotAName();
    } else {
      var skip := if path[|root|..] != "" && path[|root|..][0] == SEP then |root| + 1 else |root|;
      forall i | |root| <= i < |path| ensures NameChar(path[i]) {
        assert i >= skip ==> rest[i - skip] == path[i];
      }
    }
  }

  lemma BehindIsName(rest: string)
    requires var n := LastSep(rest); ParseUint(rest[n..] + (if n > 0 then rest[..n - 1] else "")).Some?
    ensures forall i :: 0 <= i < |rest| ==> NameChar(rest[i])
  {
    var n := LastSep(rest);
    var dir := if n > 0 then rest[..n - 1] else "";
    NumeralsAreDigits(rest[n..] + dir);
    DigitParts(rest[n..], dir);
    NameCharsOf(rest, n);
  }

  lemma NotAName()
    ensures !NameChar("INV"[0])
  {
  }

  // ---------- start-up ----------

  /** A file that the walk removes: its name reads as an ino that has no record. */
  predicate Stray(root: string, catalogued: set<nat>, file: string) {
    ParseIno(root, file).Some? && ParseIno(root, file).value !in catalogued
  }

  /** A file outside the root, or whose name has any other character than a digit or a separator, is
      none; such as the database. */
  lemma OthersAreNoStrays(root: string, catalogued: set<nat>)
    ensures forall f: string, i :: |root| <= i < |f| && !NameChar(f[i]) ==> !Stray(root, catalogued, f)
    ensures forall f :: !(root <= f) ==> !Stray(root, catalogued, f)
    ensures !Stray(root, catalogued, root + "/index")
  {
    forall f: string, i | |root| <= i < |f| && !NameChar(f[i]) ensures !Stray(root, catalogued, f) {
      OtherIsNoStray(root, catalogued, f, i);
    }
    forall f | !(root <= f) ensures !Stray(root, catalogued, f) {
      if ParseIno(root, f).Some? { OnlyNumeralsParse(root, f); }
    }
    var f := root + "/index";
    assert f[|root| + 1] == 'i' && !NameChar('i');
    OtherIsNoStray(root, catalogued, f, |root| + 1);
  }

  lemma OtherIsNoStray(root: string, catalogued: set<nat>, f: string, i: nat)
    requires |root| <= i < |f| && !NameChar(f[i])
    ensures !Stray(root, catalogued, f)
  {
    if ParseIno(root, f).Some? { OnlyNumeralsParse(root, f); }
  }

  /** The walk over the cache directory; it returns the files that are left, in their order. */
  method RemoveStrays(root: string, files: seq<string>, catalogued: set<nat>) returns (left: seq<string>)
    requires forall i :: i in catalogued ==> i < 0x1_0000_0000_0000_0000
    ensures forall f :: f in left <==> f in files && !Stray(root, catalogued, f)
    ensures forall f, i :: f in files && |root| <= i < |f| && !NameChar(f[i]) ==> f in left
    ensures forall f :: f in files && !(root <= f) ==> f in left
    ensures root + "/index" in files ==> root + "/index" in left
    ensures forall i :: i in catalogued ==> (FilePath(root, i) in left <==> FilePath(root, i) in files)
    ensures forall i: nat :: i < 0x1_0000_0000_0000_0000 && i !in catalogued ==> FilePath(root, i) !in left
  {
    left := [];
    var n := 0;
    while n < |files|
      invariant n <= |files|
      invariant forall f :: f in left <==> f in files[..n] && !Stray(root, catalogued, f)
    {
      var file := files[n];
      var ino := ParseIno(root, file);
      if !(ino.Some? && ino.value !in catalogued) {
        left := left + [file];
      }
      assert files[..n + 1] == files[..n] + [file];
      n := n + 1;
    }
    assert files[..n] == files;
    OthersAreNoStrays(root, catalogued);
    forall i: nat | i < 0x1_0000_0000_0000_0000
      ensures Stray(root, catalogued, FilePath(root, i)) <==> i !in catalogued
    {
      ParseFilePath(root, i);
    }
  }
}
