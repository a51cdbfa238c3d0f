/** The persistent index: a bucket from inos to keys and a bucket from keys to records, updated in
    place by Put, by deletion and by the rename transaction, which moves a whole subtree.
 */
module NodeIndex {
  import opened Options
  import opened Paths
  import opened PrefixScan

  type Ino = nat

  /** A record; attrs stands for size, times, signature and hash. */
  datatype Rec<A> = Rec(ino: Ino, path: Path, attrs: A)

  // ---------- keys ----------

  /** The key of a path. The fold works byte by byte: the identity on case-sensitive storage, or
      one that maps letters to capitals. */
  function KeyOf(fold: nat -> nat, p: Path): (k: Path)
    ensures |k| == |p|
  {
    seq(|p|, i requires 0 <= i < |p| => fold(p[i]))
  }

  /** The key that rename gives to what was at i. */
  function Image(k: Path, newk: Path, i: Path): Path
    requires |k| <= |i|
  {
    newk + i[|k|..]
  }

  function MovedPath(oldpath: Path, newpath: Path, p: Path): Path {
    if |oldpath| <= |p| then newpath + p[|oldpath|..] else p
  }

  function MovedRec<A>(oldpath: Path, newpath: Path, r: Rec<A>): Rec<A> {
    r.(path := MovedPath(oldpath, newpath, r.path))
  }

  /** Moving a path moves its key. */
  lemma KeyOfMoved(fold: nat -> nat, oldpath: Path, newpath: Path, p: Path)
    requires |oldpath| <= |p|
    ensures KeyOf(fold, MovedPath(oldpath, newpath, p)) ==
            Image(KeyOf(fold, oldpath), KeyOf(fold, newpath), KeyOf(fold, p))
  {
  }

  // ---------- one-to-one ----------

  ghost predicate OneToOne<A>(idx: map<Ino, Path>, cat: map<Path, Rec<A>>) {
    && (forall i :: i in idx ==> idx[i] in cat && cat[idx[i]].ino == i)
    && (forall k :: k in cat ==> cat[k].ino in idx && idx[cat[k].ino] == k)
  }

  ghost predicate KeysOfPaths<A>(fold: nat -> nat, cat: map<Path, Rec<A>>) {
    forall k :: k in cat ==> KeyOf(fold, cat[k].path) == k
  }

  /** Put keeps the index one-to-one exactly if the key is free or already owned by the ino, and the
      ino is not at another key: it does not clear the entry of an ino that it displaces. */
  lemma PutExact<A>(idx: map<Ino, Path>, cat: map<Path, Rec<A>>, r: Rec<A>, k: Path)
    requires OneToOne(idx, cat)
    ensures OneToOne(idx[r.ino := k], cat[k := r]) <==>
              (k in cat ==> cat[k].ino == r.ino) && (r.ino in idx ==> idx[r.ino] == k)
  {
    var idx', cat' := idx[r.ino := k], cat[k := r];
    if k in cat && cat[k].ino != r.ino {
      assert cat[k].ino in idx' && idx'[cat[k].ino] == k;
    }
    if r.ino in idx && idx[r.ino] != k {
      assert idx[r.ino] in cat';
    }
  }

  lemma DeleteKeeps<A>(idx: map<Ino, Path>, cat: map<Path, Rec<A>>, k: Path)
    requires OneToOne(idx, cat) && k in cat
    ensures OneToOne(idx - {cat[k].ino}, cat - {k})
  {
  }

  // ---------- the rename of a subtree, as a whole ----------

  ghost predicate AllBelow(ks: seq<Path>, k: Path) {
    forall n :: 0 <= n < |ks| ==> HasPrefix(ks[n], k)
  }

  ghost predicate Distinct(ks: seq<Path>) {
    forall m, n :: 0 <= m < n < |ks| ==> ks[m] != ks[n]
  }

  /** y is the new key of one of the scanned keys. */
  ghost predicate IsImage(ks: seq<Path>, k: Path, newk: Path, y: Path)
    requires AllBelow(ks, k)
  {
    exists n :: 0 <= n < |ks| && y == Image(k, newk, ks[n])
  }

  /** The record scanned n-th is under the new prefix, with its path rewritten. */
  ghost predicate MovedAt<A>(cat: map<Path, Rec<A>>, cat': map<Path, Rec<A>>, ks: seq<Path>, n: nat,
                             k: Path, newk: Path, oldpath: Path, newpath: Path)
    requires AllBelow(ks, k) && n < |ks|
  {
    var y := Image(k, newk, ks[n]);
    ks[n] in cat && y in cat' && cat'[y] == MovedRec(oldpath, newpath, cat[ks[n]])
  }

  /** A key that is not a new key is gone if it was scanned and as before if not. */
  ghost predicate KeptAt<A>(cat: map<Path, Rec<A>>, cat': map<Path, Rec<A>>, ks: seq<Path>, k: Path, newk: Path,
                            x: Path)
    requires AllBelow(ks, k)
  {
    !IsImage(ks, k, newk, x) ==>
      && (x in cat' <==> x in cat && x !in ks)
      && (x in cat' ==> cat'[x] == cat[x])
  }

  /** The catalogue after the scanned keys ks have been moved: their records are under the new
      prefix with rewritten paths, whatever was there is gone, everything else is as before. */
  ghost predicate Renamed<A>(cat: map<Path, Rec<A>>, cat': map<Path, Rec<A>>, ks: seq<Path>,
                             k: Path, newk: Path, oldpath: Path, newpath: Path)
    requires AllBelow(ks, k)
  {
    && (forall n: nat | n < |ks| :: MovedAt(cat, cat', ks, n, k, newk, oldpath, newpath))
    && (forall x :: KeptAt(cat, cat', ks, k, newk, x))
  }

  /** What renameNode lets through: the same key, or two keys of which neither is at or below the
      other. Keys are absolute. */
  ghost predicate Separate(k: Path, newk: Path) {
    && ROOT <= k && ROOT <= newk
    && (k == newk || (!HasPrefix(k, newk) && !HasPrefix(newk, k)))
  }

  /** Two keys with something at or below both of them are at or below one another. */
  lemma CommonBelow(x: Path, a: Path, b: Path)
    requires HasPrefix(x, a) && HasPrefix(x, b)
    ensures HasPrefix(a, b) || HasPrefix(b, a)
  {
    if |a| <= |b| {
      assert b[..|a|] == a;
    } else {
      assert a[..|b|] == b;
    }
  }

  lemma ImageIsBelow(k: Path, newk: Path, i: Path)
    requires HasPrefix(i, k) && Separate(k, newk)
    ensures HasPrefix(Image(k, newk, i), newk)
  {
    assert i == k + i[|k|..];
  }

  /** Distinct keys have distinct images, and no image is a key still to be moved. */
  lemma ImagesApart(ks: seq<Path>, k: Path, newk: Path, m: nat, n: nat)
    requires AllBelow(ks, k) && Distinct(ks) && Separate(k, newk) && m < |ks| && n < |ks| && m != n
    ensures Image(k, newk, ks[m]) != Image(k, newk, ks[n])
    ensures Image(k, newk, ks[m]) != ks[n]
  {
    var x, y := ks[m], ks[n];
    assert x == k + x[|k|..] && y == k + y[|k|..];
    assert x != y by { if m < n { assert ks[m] != ks[n]; } else { assert ks[n] != ks[m]; } }
    assert Image(k, newk, x)[|newk|..] == x[|k|..] && Image(k, newk, y)[|newk|..] == y[|k|..];
    if k != newk {
      ImageIsBelow(k, newk, x);
      if Image(k, newk, x) == y { CommonBelow(y, k, newk); }
    } else {
      assert Image(k, newk, x) == x;
    }
  }

  // ---------- one scanned key ----------

  function IdxWithout<A>(idx: map<Ino, Path>, cat: map<Path, Rec<A>>, k: Path): map<Ino, Path> {
    if k in cat then idx - {cat[k].ino} else idx
  }

  lemma WithoutKeeps<A>(idx: map<Ino, Path>, cat: map<Path, Rec<A>>, k: Path)
    requires OneToOne(idx, cat)
    ensures OneToOne(IdxWithout(idx, cat, k), cat - {k})
  {
    if k in cat { DeleteKeeps(idx, cat, k); } else { assert cat - {k} == cat; }
  }

  /** The catalogue after one iteration: the old key and the new key deleted, the record placed. */
  function CatMoved<A>(cat: map<Path, Rec<A>>, i: Path, y: Path, r: Rec<A>): map<Path, Rec<A>> {
    (cat - {i} - {y})[y := r]
  }

  lemma {:induction false} MoveKeepsOneToOne<A>(idx: map<Ino, Path>, cat: map<Path, Rec<A>>, i: Path, y: Path,
                                                r: Rec<A>)
    requires OneToOne(idx, cat) && i in cat && r.ino == cat[i].ino
    ensures
      var idx1 := IdxWithout(idx, cat, i);
      var idx2 := IdxWithout(idx1, cat - {i}, y);
      OneToOne(idx2[r.ino := y], CatMoved(cat, i, y, r))
  {
    var idx1 := IdxWithout(idx, cat, i);
    WithoutKeeps(idx, cat, i);
    var idx2 := IdxWithout(idx1, cat - {i}, y);
    WithoutKeeps(idx1, cat - {i}, y);
    assert r.ino !in idx1;
    PutExact(idx2, cat - {i} - {y}, r, y);
  }

  ghost predicate Unmoved<A>(cat0: map<Path, Rec<A>>, cat: map<Path, Rec<A>>, ks: seq<Path>, n: nat) {
    forall m :: n <= m < |ks| ==> ks[m] in cat && ks[m] in cat0 && cat[ks[m]] == cat0[ks[m]]
  }

  /** What the loop has done after n keys. */
  ghost predicate MovedSoFar<A>(cat0: map<Path, Rec<A>>, cat: map<Path, Rec<A>>, ks: seq<Path>, n: nat,
                                k: Path, newk: Path, oldpath: Path, newpath: Path)
    requires n <= |ks| && AllBelow(ks, k)
  {
    && Renamed(cat0, cat, ks[..n], k, newk, oldpath, newpath)
    && Unmoved(cat0, cat, ks, n)
  }

  lemma IsImageStep(ks: seq<Path>, k: Path, newk: Path, n: nat, y: Path)
    requires n < |ks| && AllBelow(ks, k)
    ensures IsImage(ks[..n + 1], k, newk, y) <==> IsImage(ks[..n], k, newk, y) || y == Image(k, newk, ks[n])
  {
    var a, b := ks[..n], ks[..n + 1];
    if IsImage(a, k, newk, y) {
      var m :| 0 <= m < |a| && y == Image(k, newk, a[m]);
      assert b[m] == a[m];
    }
    if IsImage(b, k, newk, y) {
      var m :| 0 <= m < |b| && y == Image(k, newk, b[m]);
      if m < n { assert a[m] == b[m]; }
    }
    assert b[n] == ks[n];
  }

  lemma MoveStepImages<A>(cat0: map<Path, Rec<A>>, cat: map<Path, Rec<A>>, cat': map<Path, Rec<A>>, ks: seq<Path>,
                          n: nat, m: nat,
                          k: Path, newk: Path, oldpath: Path, newpath: Path)
    requires m <= n < |ks| && AllBelow(ks, k) && Distinct(ks) && Separate(k, newk)
    requires MovedSoFar(cat0, cat, ks, n, k, newk, oldpath, newpath)
    requires cat' == CatMoved(cat, ks[n], Image(k, newk, ks[n]), MovedRec(oldpath, newpath, cat[ks[n]]))
    ensures MovedAt(cat0, cat', ks[..n + 1], m, k, newk, oldpath, newpath)
  {
    assert ks[..n + 1][m] == ks[m];
    if m < n {
      assert MovedAt(cat0, cat, ks[..n], m, k, newk, oldpath, newpath);
      assert ks[..n][m] == ks[m];
      ImagesApart(ks, k, newk, m, n);
    }
  }

  lemma MoveStepRest<A>(cat0: map<Path, Rec<A>>, cat: map<Path, Rec<A>>, cat': map<Path, Rec<A>>, ks: seq<Path>,
                        n: nat, x: Path,
                        k: Path, newk: Path, oldpath: Path, newpath: Path)
    requires n < |ks| && AllBelow(ks, k) && Distinct(ks) && Separate(k, newk)
    requires MovedSoFar(cat0, cat, ks, n, k, newk, oldpath, newpath)
    requires cat' == CatMoved(cat, ks[n], Image(k, newk, ks[n]), MovedRec(oldpath, newpath, cat[ks[n]]))
    ensures KeptAt(cat0, cat', ks[..n + 1], k, newk, x)
  {
    assert KeptAt(cat0, cat, ks[..n], k, newk, x);
    IsImageStep(ks, k, newk, n, x);
    assert ks[..n + 1] == ks[..n] + [ks[n]];
  }

  lemma MoveStepUnmoved<A>(cat0: map<Path, Rec<A>>, cat: map<Path, Rec<A>>, ks: seq<Path>, n: nat, k: Path,
                           newk: Path, r: Rec<A>)
    requires n < |ks| && AllBelow(ks, k) && Distinct(ks) && Separate(k, newk) && Unmoved(cat0, cat, ks, n)
    ensures Unmoved(cat0, CatMoved(cat, ks[n], Image(k, newk, ks[n]), r), ks, n + 1)
  {
    forall m | n + 1 <= m < |ks| ensures ks[m] != ks[n] && ks[m] != Image(k, newk, ks[n]) {
      ImagesApart(ks, k, newk, n, m);
    }
  }

  lemma MoveStep<A>(cat0: map<Path, Rec<A>>, cat: map<Path, Rec<A>>, cat': map<Path, Rec<A>>, ks: seq<Path>, n: nat,
                    k: Path, newk: Path, oldpath: Path, newpath: Path)
    requires n < |ks| && AllBelow(ks, k) && Distinct(ks) && Separate(k, newk)
    requires MovedSoFar(cat0, cat, ks, n, k, newk, oldpath, newpath)
    requires cat' == CatMoved(cat, ks[n], Image(k, newk, ks[n]), MovedRec(oldpath, newpath, cat[ks[n]]))
    ensures MovedSoFar(cat0, cat', ks, n + 1, k, newk, oldpath, newpath)
  {
    var b := ks[..n + 1];
    forall m: nat | m < |b| ensures MovedAt(cat0, cat', b, m, k, newk, oldpath, newpath) {
      MoveStepImages(cat0, cat, cat', ks, n, m, k, newk, oldpath, newpath);
    }
    forall x ensures KeptAt(cat0, cat', b, k, newk, x) {
      MoveStepRest(cat0, cat, cat', ks, n, x, k, newk, oldpath, newpath);
    }
    MoveStepUnmoved(cat0, cat, ks, n, k, newk, MovedRec(oldpath, newpath, cat[ks[n]]));
  }

  // ---------- the transaction as a whole ----------

  datatype Buckets<A> = Buckets(idx: map<Ino, Path>, cat: map<Path, Rec<A>>)

  /** One iteration on key i: delete the old key, delete the new key, place the record there. */
  function MoveOne<A>(b: Buckets<A>, i: Path, k: Path, newk: Path, oldpath: Path, newpath: Path): Buckets<A>
    requires |k| <= |i|
  {
    if i !in b.cat then b
    else
      var y, r := Image(k, newk, i), MovedRec(oldpath, newpath, b.cat[i]);
      var idx := IdxWithout(IdxWithout(b.idx, b.cat, i), b.cat - {i}, y);
      Buckets(idx[r.ino := y], CatMoved(b.cat, i, y, r))
  }

  /** The buckets after the first n scanned keys. */
  ghost function MoveAll<A>(b: Buckets<A>, ks: seq<Path>, n: nat, k: Path, newk: Path, oldpath: Path,
                            newpath: Path): Buckets<A>
    requires n <= |ks| && AllBelow(ks, k)
  {
    if n == 0 then b
    else MoveOne(MoveAll(b, ks, n - 1, k, newk, oldpath, newpath), ks[n - 1], k, newk, oldpath, newpath)
  }

  /** What the transaction may be given. */
  ghost predicate Movable<A>(b: Buckets<A>, ks: seq<Path>, k: Path, newk: Path) {
    && OneToOne(b.idx, b.cat) && AllBelow(ks, k) && Distinct(ks) && Separate(k, newk)
    && forall n :: 0 <= n < |ks| ==> ks[n] in b.cat
  }

  lemma {:induction false} MoveAllMoves<A>(b: Buckets<A>, ks: seq<Path>, n: nat, k: Path, newk: Path, oldpath: Path,
                                           newpath: Path)
    requires n <= |ks| && Movable(b, ks, k, newk)
    ensures var m := MoveAll(b, ks, n, k, newk, oldpath, newpath);
            OneToOne(m.idx, m.cat) && MovedSoFar(b.cat, m.cat, ks, n, k, newk, oldpath, newpath)
  {
    if n == 0 {
      assert ks[..0] == [];
    } else {
      MoveAllMoves(b, ks, n - 1, k, newk, oldpath, newpath);
      var m, i := MoveAll(b, ks, n - 1, k, newk, oldpath, newpath), ks[n - 1];
      var r, y := MovedRec(oldpath, newpath, m.cat[i]), Image(k, newk, i);
      MoveStep(b.cat, m.cat, CatMoved(m.cat, i, y, r), ks, n - 1, k, newk, oldpath, newpath);
      MoveKeepsOneToOne(m.idx, m.cat, i, y, r);
    }
  }

  lemma AllMoved<A>(b: Buckets<A>, ks: seq<Path>, k: Path, newk: Path, oldpath: Path, newpath: Path)
    requires Movable(b, ks, k, newk)
    ensures var m := MoveAll(b, ks, |ks|, k, newk, oldpath, newpath);
            OneToOne(m.idx, m.cat) && Renamed(b.cat, m.cat, ks, k, newk, oldpath, newpath)
  {
    MoveAllMoves(b, ks, |ks|, k, newk, oldpath, newpath);
    assert ks[..|ks|] == ks;
  }

  // ---------- the index object ----------

  class Index<A> {
    const fold: nat -> nat
    var idx: map<Ino, Path>
    var cat: map<Path, Rec<A>>
    var lastIno: Ino
    var open: map<Ino, Path>

    constructor (fold: nat -> nat)
      ensures this.fold == fold && idx == map[] && cat == map[] && lastIno == 0 && open == map[]
      ensures Valid()
    {
      this.fold := fold;
      idx := map[];
      cat := map[];
      lastIno := 0;
      open := map[];
    }

    /** One-to-one, keyed by path, no ino beyond the sequence, open nodes at their recorded paths. */
    ghost predicate Valid()
      reads this
    {
      && OneToOne(idx, cat) && KeysOfPaths(fold, cat)
      && (forall i :: i in idx ==> 0 < i <= lastIno)
      && (forall i :: i in open && i in idx ==> open[i] == cat[idx[i]].path)
    }

    method Get(k: Path) returns (r: Option<Rec<A>>)
      ensures r == if k in cat then Some(cat[k]) else None
    {
      r := if k in cat then Some(cat[k]) else None;
    }

    /** Under a one-to-one index the record found for an ino is its own. */
    method GetWithIno(ino: Ino) returns (r: Option<Rec<A>>)
      requires Valid()
      ensures r.Some? <==> exists k :: k in cat && cat[k].ino == ino
      ensures r.Some? ==> r.value.ino == ino
      ensures r.Some? ==> KeyOf(fold, r.value.path) in cat && cat[KeyOf(fold, r.value.path)] == r.value
    {
      if ino in idx && idx[ino] in cat {
        r := Some(cat[idx[ino]]);
      } else {
        r := None;
      }
    }

    /** A new ino is one that the index has never had. */
    method NextIno() returns (ino: Ino)
      requires Valid()
      modifies this`lastIno
      ensures Valid() && ino == lastIno == old(lastIno) + 1 && ino !in idx
    {
      lastIno := lastIno + 1;
      ino := lastIno;
    }

    method PutRec(r: Rec<A>, k: Path)
      modifies this`idx, this`cat
      ensures idx == old(idx)[r.ino := k] && cat == old(cat)[k := r]
    {
      if r.ino !in idx || idx[r.ino] != k {
        idx := idx[r.ino := k];
      }
      cat := cat[k := r];
      assert idx == old(idx)[r.ino := k];
    }

    method Delete(k: Path)
      modifies this`idx, this`cat
      ensures idx == IdxWithout(old(idx), old(cat), k) && cat == old(cat) - {k}
    {
      if k in cat {
        idx := idx - {cat[k].ino};
        cat := cat - {k};
      } else {
        assert cat - {k} == cat;
      }
    }

    ghost function Value(): Buckets<A>
      reads this
    {
      Buckets(idx, cat)
    }

    /** The transaction of renameNode on the scanned keys; the inos it has moved. */
    method MoveKeys(ks: seq<Path>, k: Path, newk: Path, oldpath: Path, newpath: Path) returns (inos: seq<Ino>)
      requires Movable(Value(), ks, k, newk)
      modifies this`idx, this`cat
      ensures Value() == MoveAll(old(Value()), ks, |ks|, k, newk, oldpath, newpath)
      ensures OneToOne(idx, cat)
      ensures Renamed(old(cat), cat, ks, k, newk, oldpath, newpath)
      ensures |inos| == |ks| && forall n :: 0 <= n < |ks| ==> inos[n] == old(cat)[ks[n]].ino
    {
      ghost var b := Value();
      inos := [];
      var n := 0;
      while n < |ks|
        invariant n <= |ks| && |inos| == n
        invariant Value() == MoveAll(b, ks, n, k, newk, oldpath, newpath)
        invariant forall m :: 0 <= m < n ==> inos[m] == b.cat[ks[m]].ino
      {
        MoveAllMoves(b, ks, n, k, newk, oldpath, newpath);
        var i, y := ks[n], Image(k, newk, ks[n]);
        var r := cat[i];
        Delete(i);
        Delete(y);
        PutRec(MovedRec(oldpath, newpath, r), y);
        inos := inos + [r.ino];
        n := n + 1;
      }
      AllMoved(b, ks, k, newk, oldpath, newpath);
    }

    /** renameNode's loop over the open map. */
    method MoveOpen(inos: seq<Ino>, oldpath: Path, newpath: Path)
      requires forall m, n :: 0 <= m < n < |inos| ==> inos[m] != inos[n]
      modifies this`open
      ensures open.Keys == old(open).Keys
      ensures forall i :: i in open ==>
                open[i] == if i in inos then MovedPath(oldpath, newpath, old(open)[i]) else old(open)[i]
    {
      ghost var open0 := open;
      var n := 0;
      while n < |inos|
        invariant n <= |inos| && OpenUpTo(open0, open, inos, n, oldpath, newpath)
      {
        OpenStep(open0, open, inos, n, oldpath, newpath);
        if inos[n] in open {
          open := open[inos[n] := MovedPath(oldpath, newpath, open[inos[n]])];
        }
        n := n + 1;
      }
      assert inos[..|inos|] == inos;
    }

    /** renameNode: the guard against loops, the storage call, the transaction that moves the
        scanned keys, and the new paths of the open nodes. keys is the catalogue in cursor order. */
    method Rename(keys: seq<Path>, oldpath: Path, newpath: Path, deleted: bool, reply: StorageReply)
      returns (result: RenameResult, ghost ks: seq<Path>)
      requires Valid() && Sorted(keys) && (forall x :: x in keys <==> x in cat)
      requires ROOT <= KeyOf(fold, oldpath) && ROOT <= KeyOf(fold, newpath)
      modifies this`idx, this`cat, this`open
      ensures Valid() && open.Keys == old(open).Keys
      ensures result == RenameOutcome(KeyOf(fold, oldpath), KeyOf(fold, newpath), deleted, reply)
      ensures result == EInval <==> Related(KeyOf(fold, oldpath), KeyOf(fold, newpath))
      ensures result == Done <==> !Related(KeyOf(fold, oldpath), KeyOf(fold, newpath)) && !deleted && reply == Success
      ensures result == Failed <==> !Related(KeyOf(fold, oldpath), KeyOf(fold, newpath)) && !deleted && reply == Refused
      ensures result != Done ==> idx == old(idx) && cat == old(cat) && open == old(open)
      ensures AllBelow(ks, KeyOf(fold, oldpath)) && IsScanOf(keys, KeyOf(fold, oldpath), ks)
      ensures forall n :: 0 <= n < |ks| ==> ks[n] in old(cat)
      ensures result == Done ==>
                && Movable(old(Value()), ks, KeyOf(fold, oldpath), KeyOf(fold, newpath))
                && Value() == MoveAll(old(Value()), ks, |ks|, KeyOf(fold, oldpath), KeyOf(fold, newpath),
                                      oldpath, newpath)
                && Renamed(old(cat), cat, ks, KeyOf(fold, oldpath), KeyOf(fold, newpath), oldpath, newpath)
                && open == OpenMoved(old(cat), old(open), ks, oldpath, newpath)
    {
      var k, newk := KeyOf(fold, oldpath), KeyOf(fold, newpath);
      var found := Scan(keys, k);
      ks := found;
      assert AllBelow(ks, k) by { forall n | 0 <= n < |ks| ensures HasPrefix(ks[n], k) { assert ks[n] in found; } }
      assert forall n :: 0 <= n < |ks| ==> ks[n] in cat by {
        forall n | 0 <= n < |ks| ensures ks[n] in cat { assert ks[n] in found; }
      }
      if k != newk && (HasPrefix(k, newk) || HasPrefix(newk, k)) {
        return EInval, ks;
      }
      if deleted {
        return EPerm, ks;
      }
      match reply {
        case Missing => return EPerm, ks;
        case Refused => return Failed, ks;
        case Success =>
      }
      SortedIsDistinct(ks);
      MoveSubtree(found, k, newk, oldpath, newpath);
      result := Done;
    }

    /** The transaction on the scanned keys, and the open nodes after it. */
    method MoveSubtree(ks: seq<Path>, k: Path, newk: Path, oldpath: Path, newpath: Path)
      requires Valid() && k == KeyOf(fold, oldpath) && newk == KeyOf(fold, newpath) && Movable(Value(), ks, k, newk)
      modifies this`idx, this`cat, this`open
      ensures Valid() && open == OpenMoved(old(cat), old(open), ks, oldpath, newpath)
      ensures Value() == MoveAll(old(Value()), ks, |ks|, k, newk, oldpath, newpath)
      ensures Renamed(old(cat), cat, ks, k, newk, oldpath, newpath)
    {
      ghost var cat0, idx0, open0 := cat, idx, open;
      var inos := MoveKeys(ks, k, newk, oldpath, newpath);
      DistinctInos(idx0, cat0, ks);
      MoveOpen(inos, oldpath, newpath);
      OpenIsMoved(cat0, open0, open, ks, inos, oldpath, newpath);
      RenameKeepsKeys(fold, cat0, cat, ks, oldpath, newpath);
      OpenAgrees(idx0, cat0, idx, cat, open0, open, inos, ks, k, newk, oldpath, newpath);
      forall i | i in idx ensures 0 < i <= lastIno {
        RenamedIno(idx0, cat0, idx, cat, ks, k, newk, oldpath, newpath, i);
      }
    }
  }

  /** The nodes of the first n inos have their new paths. */
  ghost predicate OpenUpTo(open0: map<Ino, Path>, open: map<Ino, Path>, inos: seq<Ino>, n: nat, oldpath: Path,
                           newpath: Path)
    requires n <= |inos|
  {
    && open.Keys == open0.Keys
    && forall i :: i in open ==>
         open[i] == if i in inos[..n] then MovedPath(oldpath, newpath, open0[i]) else open0[i]
  }

  lemma OpenStep(open0: map<Ino, Path>, open: map<Ino, Path>, inos: seq<Ino>, n: nat, oldpath: Path, newpath: Path)
    requires n < |inos| && (forall m, n :: 0 <= m < n < |inos| ==> inos[m] != inos[n])
    requires OpenUpTo(open0, open, inos, n, oldpath, newpath)
    ensures
      var i := inos[n];
      var open' := if i in open then open[i := MovedPath(oldpath, newpath, open[i])] else open;
      OpenUpTo(open0, open', inos, n + 1, oldpath, newpath)
  {
    assert inos[..n + 1] == inos[..n] + [inos[n]];
    assert inos[n] !in inos[..n];
  }

  /** What the storage answers to a rename. */
  datatype StorageReply = Success | Missing | Refused

  datatype RenameResult = Done | EInval | EPerm | Failed

  /** One of the keys is strictly below the other. */
  predicate Related(k: Path, newk: Path) {
    k != newk && (HasPrefix(k, newk) || HasPrefix(newk, k))
  }

  /** A loop is refused first, then a deleted node; otherwise the storage decides. */
  function RenameOutcome(k: Path, newk: Path, deleted: bool, reply: StorageReply): (r: RenameResult)
    ensures r == EInval <==> Related(k, newk)
    ensures !Related(k, newk) && deleted ==> r == EPerm
    ensures !Related(k, newk) && !deleted ==> (r == Done <==> reply == Success)
    ensures !Related(k, newk) && !deleted ==> (r == EPerm <==> reply == Missing)
    ensures !Related(k, newk) && !deleted ==> (r == Failed <==> reply == Refused)
  {
    if k != newk && (HasPrefix(k, newk) || HasPrefix(newk, k)) then EInval
    else if deleted then EPerm
    else
      match reply
      case Success => Done
      case Missing => EPerm
      case Refused => Failed
  }

  /** found is what the cursor scan collects: everything at or below k, unless a key is interposed. */
  ghost predicate IsScanOf(keys: seq<Path>, k: Path, found: seq<Path>) {
    && (k != ROOT && !Interposed(keys, k) ==> forall x :: x in found <==> x in keys && HasPrefix(x, k))
    && (k != ROOT && Interposed(keys, k) ==> found == if k in keys then [k] else [])
    && (k == ROOT && (forall x :: x in keys ==> HasPrefix(x, ROOT)) ==> found == keys)
  }

  lemma SortedIsDistinct(ks: seq<Path>)
    requires Sorted(ks)
    ensures Distinct(ks)
  {
    forall m, n | 0 <= m < n < |ks| ensures ks[m] != ks[n] {
      LessIrreflexive(ks[m]);
    }
  }

  lemma DistinctInos<A>(idx: map<Ino, Path>, cat: map<Path, Rec<A>>, ks: seq<Path>)
    requires OneToOne(idx, cat) && Distinct(ks) && forall n :: 0 <= n < |ks| ==> ks[n] in cat
    ensures forall m, n :: 0 <= m < n < |ks| ==> cat[ks[m]].ino != cat[ks[n]].ino
  {
    forall m, n | 0 <= m < n < |ks| ensures cat[ks[m]].ino != cat[ks[n]].ino {
      assert idx[cat[ks[m]].ino] == ks[m] && idx[cat[ks[n]].ino] == ks[n];
    }
  }

  ghost predicate InoScanned<A>(cat: map<Path, Rec<A>>, ks: seq<Path>, i: Ino)
    requires forall n :: 0 <= n < |ks| ==> ks[n] in cat
  {
    exists n :: 0 <= n < |ks| && cat[ks[n]].ino == i
  }

  /** The paths of the open nodes after the scanned records have been moved. */
  ghost function OpenMoved<A>(cat: map<Path, Rec<A>>, open: map<Ino, Path>, ks: seq<Path>, oldpath: Path,
                              newpath: Path): map<Ino, Path>
    requires forall n :: 0 <= n < |ks| ==> ks[n] in cat
  {
    map j | j in open :: if InoScanned(cat, ks, j) then MovedPath(oldpath, newpath, open[j]) else open[j]
  }

  lemma ScannedInos<A>(cat: map<Path, Rec<A>>, ks: seq<Path>, inos: seq<Ino>)
    requires |inos| == |ks| && forall n :: 0 <= n < |ks| ==> ks[n] in cat && inos[n] == cat[ks[n]].ino
    ensures forall i :: i in inos <==> InoScanned(cat, ks, i)
  {
    forall i | InoScanned(cat, ks, i) ensures i in inos {
      var n :| 0 <= n < |ks| && cat[ks[n]].ino == i;
      assert inos[n] == i;
    }
  }

  lemma OpenIsMoved<A>(cat: map<Path, Rec<A>>, open: map<Ino, Path>, open': map<Ino, Path>, ks: seq<Path>,
                       inos: seq<Ino>, oldpath: Path, newpath: Path)
    requires |inos| == |ks| && forall n :: 0 <= n < |ks| ==> ks[n] in cat && inos[n] == cat[ks[n]].ino
    requires open'.Keys == open.Keys
    requires forall i :: i in open' ==>
               open'[i] == if i in inos then MovedPath(oldpath, newpath, open[i]) else open[i]
    ensures open' == OpenMoved(cat, open, ks, oldpath, newpath)
  {
    ScannedInos(cat, ks, inos);
  }

  /** An ino that is still catalogued was so before, and its path moved exactly if its key was scanned. */
  lemma RenamedIno<A>(idx: map<Ino, Path>, cat: map<Path, Rec<A>>, idx': map<Ino, Path>, cat': map<Path, Rec<A>>,
                      ks: seq<Path>, k: Path, newk: Path, oldpath: Path, newpath: Path, i: Ino)
    requires OneToOne(idx, cat) && OneToOne(idx', cat') && AllBelow(ks, k) && i in idx'
    requires Renamed(cat, cat', ks, k, newk, oldpath, newpath)
    requires forall n :: 0 <= n < |ks| ==> ks[n] in cat
    ensures i in idx
    ensures cat'[idx'[i]] ==
            if InoScanned(cat, ks, i) then MovedRec(oldpath, newpath, cat[idx[i]]) else cat[idx[i]]
  {
    var x := idx'[i];
    if IsImage(ks, k, newk, x) {
      var n :| 0 <= n < |ks| && x == Image(k, newk, ks[n]);
      assert MovedAt(cat, cat', ks, n, k, newk, oldpath, newpath);
      assert cat[ks[n]].ino == i;
    } else {
      assert KeptAt(cat, cat', ks, k, newk, x);
      assert !InoScanned(cat, ks, i);
    }
  }

  lemma RenameKeepsKeys<A>(fold: nat -> nat, cat: map<Path, Rec<A>>, cat': map<Path, Rec<A>>, ks: seq<Path>,
                           oldpath: Path, newpath: Path)
    requires KeysOfPaths(fold, cat) && AllBelow(ks, KeyOf(fold, oldpath))
    requires Renamed(cat, cat', ks, KeyOf(fold, oldpath), KeyOf(fold, newpath), oldpath, newpath)
    ensures KeysOfPaths(fold, cat')
  {
    var k, newk := KeyOf(fold, oldpath), KeyOf(fold, newpath);
    forall x | x in cat' ensures KeyOf(fold, cat'[x].path) == x {
      assert KeptAt(cat, cat', ks, k, newk, x);
      if IsImage(ks, k, newk, x) {
        var n :| 0 <= n < |ks| && x == Image(k, newk, ks[n]);
        assert MovedAt(cat, cat', ks, n, k, newk, oldpath, newpath);
        KeyOfMoved(fold, oldpath, newpath, cat[ks[n]].path);
      }
    }
  }

  /** Open nodes stay at the paths that the catalogue records for them. */
  lemma OpenAgrees<A>(idx: map<Ino, Path>, cat: map<Path, Rec<A>>, idx': map<Ino, Path>, cat': map<Path, Rec<A>>,
                      open: map<Ino, Path>, open': map<Ino, Path>, inos: seq<Ino>,
                      ks: seq<Path>, k: Path, newk: Path, oldpath: Path, newpath: Path)
    requires OneToOne(idx, cat) && OneToOne(idx', cat') && AllBelow(ks, k)
    requires Renamed(cat, cat', ks, k, newk, oldpath, newpath)
    requires |inos| == |ks| && forall n :: 0 <= n < |ks| ==> ks[n] in cat && inos[n] == cat[ks[n]].ino
    requires forall i :: i in open && i in idx ==> open[i] == cat[idx[i]].path
    requires open'.Keys == open.Keys
    requires forall i :: i in open' ==>
               open'[i] == if i in inos then MovedPath(oldpath, newpath, open[i]) else open[i]
    ensures forall i :: i in open' && i in idx' ==> open'[i] == cat'[idx'[i]].path
  {
    forall i | i in open' && i in idx' ensures open'[i] == cat'[idx'[i]].path {
      RenamedIno(idx, cat, idx', cat', ks, k, newk, oldpath, newpath, i);
      if InoScanned(cat, ks, i) {
        var n :| 0 <= n < |ks| && cat[ks[n]].ino == i;
        assert inos[n] == i;
      }
    }
  }

  // ---------- what a rename means for the caller ----------

  /** With nothing interposed the whole subtree moves: every record at or below the old key is found
      at its image with the same ino and attributes, and nothing is left at or below the old key. */
  lemma SubtreeMoves<A>(cat: map<Path, Rec<A>>, cat': map<Path, Rec<A>>, keys: seq<Path>, ks: seq<Path>,
                        k: Path, newk: Path, oldpath: Path, newpath: Path)
    requires (forall x :: x in keys <==> x in cat) && AllBelow(ks, k) && IsScanOf(keys, k, ks)
    requires Separate(k, newk) && k != newk && !Interposed(keys, k)
    requires Renamed(cat, cat', ks, k, newk, oldpath, newpath)
    ensures forall x :: x in cat && HasPrefix(x, k) ==>
              Image(k, newk, x) in cat' && cat'[Image(k, newk, x)] == MovedRec(oldpath, newpath, cat[x])
    ensures forall x :: x in cat && HasPrefix(x, k) && oldpath <= cat[x].path ==>
              cat'[Image(k, newk, x)] == Rec(cat[x].ino, newpath + cat[x].path[|oldpath|..], cat[x].attrs)
    ensures forall x :: x in cat' ==> !HasPrefix(x, k)
    ensures forall x :: x in cat && !HasPrefix(x, k) && !HasPrefix(x, newk) ==> x in cat' && cat'[x] == cat[x]
  {
    forall x | x in cat && HasPrefix(x, k)
      ensures Image(k, newk, x) in cat' && cat'[Image(k, newk, x)] == MovedRec(oldpath, newpath, cat[x])
    {
      assert x in ks;
      var n :| 0 <= n < |ks| && ks[n] == x;
      assert MovedAt(cat, cat', ks, n, k, newk, oldpath, newpath);
    }
    forall x | IsImage(ks, k, newk, x) ensures HasPrefix(x, newk) && !HasPrefix(x, k) {
      var n :| 0 <= n < |ks| && x == Image(k, newk, ks[n]);
      ImageIsBelow(k, newk, ks[n]);
      if HasPrefix(x, k) { CommonBelow(x, k, newk); }
    }
    forall x | x in cat' ensures !HasPrefix(x, k) { assert KeptAt(cat, cat', ks, k, newk, x); }
    forall x | x in cat && !HasPrefix(x, k) && !HasPrefix(x, newk) ensures x in cat' && cat'[x] == cat[x] {
      assert KeptAt(cat, cat', ks, k, newk, x);
    }
  }

  /** ks2 are the new keys of ks. */
  ghost predicate AreImages(ks: seq<Path>, ks2: seq<Path>, k: Path, newk: Path)
    requires AllBelow(ks, k)
  {
    forall y :: y in ks2 <==> IsImage(ks, k, newk, y)
  }

  lemma ImageBack(k: Path, newk: Path, i: Path)
    requires HasPrefix(i, k)
    ensures Image(newk, k, Image(k, newk, i)) == i
  {
    assert i == k + i[|k|..];
  }

  /** The images of the images are the keys that were moved. */
  lemma ImagesBack(ks: seq<Path>, ks2: seq<Path>, k: Path, newk: Path, x: Path)
    requires AllBelow(ks, k) && AllBelow(ks2, newk) && AreImages(ks, ks2, k, newk)
    ensures IsImage(ks2, newk, k, x) <==> x in ks
  {
    if x in ks {
      var n :| 0 <= n < |ks| && ks[n] == x;
      var y := Image(k, newk, x);
      assert IsImage(ks, k, newk, y);
      var m :| 0 <= m < |ks2| && ks2[m] == y;
      ImageBack(k, newk, x);
    }
    if IsImage(ks2, newk, k, x) {
      var m :| 0 <= m < |ks2| && x == Image(newk, k, ks2[m]);
      assert ks2[m] in ks2;
      var n :| 0 <= n < |ks| && ks2[m] == Image(k, newk, ks[n]);
      ImageBack(k, newk, ks[n]);
    }
  }

  /** A record that comes back is the one that left, with the spelling of the old path put in. */
  lemma RecordBack<A>(oldpath: Path, newpath: Path, r: Rec<A>)
    requires |oldpath| <= |r.path|
    ensures MovedRec(newpath, oldpath, MovedRec(oldpath, newpath, r)) == r <==> oldpath <= r.path
  {
    var q := newpath + r.path[|oldpath|..];
    assert q[|newpath|..] == r.path[|oldpath|..];
    if oldpath <= r.path { assert r.path == oldpath + r.path[|oldpath|..]; }
  }

  /** There and back: if no scanned key had its image taken, then renaming a subtree and renaming
      it back restores the catalogue exactly if every moved path is spelled as the old path. */
  lemma RenameBack<A>(fold: nat -> nat, cat: map<Path, Rec<A>>, cat1: map<Path, Rec<A>>, cat2: map<Path, Rec<A>>,
                      ks: seq<Path>, ks2: seq<Path>, oldpath: Path, newpath: Path)
    requires KeysOfPaths(fold, cat)
    requires AllBelow(ks, KeyOf(fold, oldpath)) && AllBelow(ks2, KeyOf(fold, newpath))
    requires AreImages(ks, ks2, KeyOf(fold, oldpath), KeyOf(fold, newpath))
    requires forall y :: y in cat && y !in ks ==> !IsImage(ks, KeyOf(fold, oldpath), KeyOf(fold, newpath), y)
    requires Renamed(cat, cat1, ks, KeyOf(fold, oldpath), KeyOf(fold, newpath), oldpath, newpath)
    requires Renamed(cat1, cat2, ks2, KeyOf(fold, newpath), KeyOf(fold, oldpath), newpath, oldpath)
    ensures cat2.Keys == cat.Keys
    ensures forall x :: x in cat && x !in ks ==> cat2[x] == cat[x]
    ensures forall x :: x in ks ==> x in cat && (cat2[x] == cat[x] <==> oldpath <= cat[x].path)
  {
    var k, newk := KeyOf(fold, oldpath), KeyOf(fold, newpath);
    forall x ensures x in cat2 <==> x in cat
      ensures x in cat && x !in ks ==> cat2[x] == cat[x]
      ensures x in ks ==> x in cat && (cat2[x] == cat[x] <==> oldpath <= cat[x].path)
    {
      ImagesBack(ks, ks2, k, newk, x);
      if x in ks {
        MovedBack(fold, cat, cat1, cat2, ks, ks2, oldpath, newpath, x);
      } else {
        assert KeptAt(cat1, cat2, ks2, newk, k, x);
        assert KeptAt(cat, cat1, ks, k, newk, x);
      }
    }
  }

  lemma MovedBack<A>(fold: nat -> nat, cat: map<Path, Rec<A>>, cat1: map<Path, Rec<A>>, cat2: map<Path, Rec<A>>,
                     ks: seq<Path>, ks2: seq<Path>, oldpath: Path, newpath: Path, x: Path)
    requires KeysOfPaths(fold, cat) && x in ks
    requires AllBelow(ks, KeyOf(fold, oldpath)) && AllBelow(ks2, KeyOf(fold, newpath))
    requires AreImages(ks, ks2, KeyOf(fold, oldpath), KeyOf(fold, newpath))
    requires Renamed(cat, cat1, ks, KeyOf(fold, oldpath), KeyOf(fold, newpath), oldpath, newpath)
    requires Renamed(cat1, cat2, ks2, KeyOf(fold, newpath), KeyOf(fold, oldpath), newpath, oldpath)
    ensures x in cat && x in cat2 && (cat2[x] == cat[x] <==> oldpath <= cat[x].path)
  {
    var k, newk := KeyOf(fold, oldpath), KeyOf(fold, newpath);
    var n :| 0 <= n < |ks| && ks[n] == x;
    var y := Image(k, newk, x);
    assert IsImage(ks, k, newk, y);
    var m :| 0 <= m < |ks2| && ks2[m] == y;
    assert MovedAt(cat, cat1, ks, n, k, newk, oldpath, newpath);
    assert MovedAt(cat1, cat2, ks2, m, newk, k, newpath, oldpath);
    ImageBack(k, newk, x);
    assert KeyOf(fold, cat[x].path) == x;
    RecordBack(oldpath, newpath, cat[x]);
  }
}
