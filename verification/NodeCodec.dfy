/** The persistent form of a node: fixed-width big-endian fields, then path, signature and hash. */
module NodeCodec {
  import opened Options

  type Byte = x: int | 0 <= x < 256
  type Bytes = seq<Byte>
  type Int64 = x: int | -0x8000_0000_0000_0000 <= x < 0x8000_0000_0000_0000
  type Uint64 = x: int | 0 <= x < 0x1_0000_0000_0000_0000

  /** The persistent fields; times are nanoseconds since the epoch and have no width of their own. */
  datatype Record = Record(ino: Uint64, size: Int64, btime: int, mtime: int, isDir: bool, path: Bytes, sig: Bytes,
                           hash: Bytes)

  // ---------- integers ----------

  /** The n low bytes of v, the most significant first. */
  function BigEndian(v: nat, n: nat): (s: Bytes)
    ensures |s| == n
  {
    if n == 0 then [] else BigEndian(v / 256, n - 1) + [v % 256]
  }

  function Number(s: Bytes): (v: nat) {
    if s == [] then 0 else Number(s[..|s| - 1]) * 256 + s[|s| - 1]
  }

  function Pow256(n: nat): (p: nat)
    ensures p > 0
  {
    if n == 0 then 1 else Pow256(n - 1) * 256
  }

  /** Reading back what was written keeps the value modulo its width. */
  lemma {:induction false} NumberOfBigEndian(v: nat, n: nat)
    ensures Number(BigEndian(v, n)) == v % Pow256(n)
  {
    if n > 0 {
      NumberOfBigEndian(v / 256, n - 1);
      var s := BigEndian(v, n);
      assert s[..|s| - 1] == BigEndian(v / 256, n - 1);
      DivMod(v, Pow256(n - 1));
    }
  }

  lemma DivMod(v: nat, p: nat)
    requires p > 0
    ensures v / 256 % p * 256 + v % 256 == v % (p * 256)
  {
    var a, b := v / 256 / p, v / 256 % p;
    assert v == (a * p + b) * 256 + v % 256;
    assert v == a * (p * 256) + (b * 256 + v % 256);
    assert b * 256 + v % 256 < p * 256;
    ModUnique(v, p * 256, a, b * 256 + v % 256);
  }

  lemma ModUnique(v: nat, m: nat, a: nat, r: nat)
    requires m > 0 && v == a * m + r && r < m
    ensures v % m == r
  {
    var k := v / m - a;
    assert v == (v / m) * m + v % m;
    assert k * m == r - v % m;
    SmallMultiple(k, m);
  }

  lemma SmallMultiple(k: int, m: int)
    requires m > 0 && -m < k * m < m
    ensures k == 0
  {
    assert k >= 1 ==> k * m >= m;
    assert k <= -1 ==> (-k) * m >= m;
  }

  /** Two's complement in 64 bits. */
  function ToUnsigned(x: int): Uint64 {
    x % 0x1_0000_0000_0000_0000
  }

  function ToSigned(u: Uint64): Int64 {
    if u < 0x8000_0000_0000_0000 then u else u - 0x1_0000_0000_0000_0000
  }

  predicate FitsInt64(x: int) {
    -0x8000_0000_0000_0000 <= x < 0x8000_0000_0000_0000
  }

  lemma SignedExact(x: int)
    ensures ToSigned(ToUnsigned(x)) == x <==> FitsInt64(x)
  {
  }

  /** Two's complement: numbers that are not negative stand for themselves, negative ones for 2^64 more. */
  lemma TwosComplement(x: int)
    requires FitsInt64(x)
    ensures ToUnsigned(x) == if x >= 0 then x else x + 0x1_0000_0000_0000_0000
    ensures ToSigned(ToUnsigned(x)) == x
  {
  }

  lemma Pow256Values()
    ensures Pow256(1) == 256 && Pow256(2) == 65536 && Pow256(8) == 0x1_0000_0000_0000_0000
  {
    assert Pow256(4) == Pow256(2) * 65536;
    assert Pow256(6) == Pow256(4) * 65536;
  }

  // ---------- the record as bytes ----------

  function Clip(s: Bytes, max: nat): (r: Bytes)
    ensures |r| <= max && (|s| <= max ==> r == s)
  {
    if |s| <= max then s else s[..max]
  }

  /** The fixed part; lengths are cut to the width of their fields. */
  function Header(r: Record): (h: Bytes)
    ensures |h| == 38
  {
    BigEndian(r.ino, 8) + BigEndian(ToUnsigned(r.size), 8) +
    BigEndian(ToUnsigned(r.btime), 8) + BigEndian(ToUnsigned(r.mtime), 8) +
    BigEndian(|r.path| % 65536, 2) + BigEndian(|r.sig| % 65536, 2) +
    [if r.isDir then 1 else 0] + [|r.hash| % 256]
  }

  function Encoded(r: Record): Bytes {
    Header(r) + Clip(r.path, 65535) + Clip(r.sig, 65535) + Clip(r.hash, 255)
  }

  function EncodeLen(r: Record): nat {
    38 + |r.path| + |r.sig| + |r.hash|
  }

  /** What can be written without loss. */
  predicate Fits(r: Record) {
    |r.path| <= 65535 && |r.sig| <= 65535 && |r.hash| <= 255 && FitsInt64(r.btime) && FitsInt64(r.mtime)
  }

  function Uint64At(b: Bytes, i: nat): Uint64
    requires i + 8 <= |b|
  {
    Pow256Values();
    NumberBound(b[i..i + 8]);
    Number(b[i..i + 8])
  }

  lemma {:induction false} NumberBound(s: Bytes)
    ensures Number(s) < Pow256(|s|)
  {
    if s != [] { NumberBound(s[..|s| - 1]); }
  }

  /** The record at the start of b, if b is long enough. */
  function Parsed(b: Bytes): Option<Record> {
    if |b| < 38 then None
    else
      var lp, ls, lh := Number(b[32..34]), Number(b[34..36]), b[37];
      if |b| < 38 + lp + ls + lh then None
      else Some(Record(Uint64At(b, 0), ToSigned(Uint64At(b, 8)), ToSigned(Uint64At(b, 16)), ToSigned(Uint64At(b, 24)),
                       b[36] != 0, b[38..38 + lp], b[38 + lp..38 + lp + ls], b[38 + lp + ls..38 + lp + ls + lh]))
  }

  // ---------- round trip ----------

  /** The record made of the decoded header fields and of what follows the header. */
  function Assembled(ino: Uint64, size: Uint64, btime: Uint64, mtime: Uint64, lp: nat, ls: nat, isdir: Byte,
                     lh: Byte, rest: Bytes): Option<Record> {
    if |rest| < lp + ls + lh then None
    else Some(Record(ino, ToSigned(size), ToSigned(btime), ToSigned(mtime), isdir != 0,
                     rest[..lp], rest[lp..lp + ls], rest[lp + ls..lp + ls + lh]))
  }

  lemma HeaderSlices(a: Bytes, b: Bytes, c: Bytes, d: Bytes, e: Bytes, f: Bytes, x: Byte, y: Byte, rest: Bytes)
    requires |a| == |b| == |c| == |d| == 8 && |e| == |f| == 2
    ensures var z := a + b + c + d + e + f + [x] + [y] + rest;
            && z[0..8] == a && z[8..16] == b && z[16..24] == c && z[24..32] == d && z[32..34] == e && z[34..36] == f
            && z[36] == x && z[37] == y && z[38..] == rest
  {
  }

  lemma SliceOfSuffix(z: Bytes, n: nat, i: nat, j: nat)
    requires i <= j && n + j <= |z|
    ensures z[n..][i..j] == z[n + i..n + j]
  {
  }

  lemma ParsedParts(z: Bytes, rest: Bytes)
    requires |z| >= 38 && z[38..] == rest
    ensures Parsed(z) == Assembled(Uint64At(z, 0), Uint64At(z, 8), Uint64At(z, 16), Uint64At(z, 24),
                                   Number(z[32..34]), Number(z[34..36]), z[36], z[37], rest)
  {
    var lp, ls, lh := Number(z[32..34]), Number(z[34..36]), z[37];
    if |rest| >= lp + ls + lh {
      SliceOfSuffix(z, 38, 0, lp);
      SliceOfSuffix(z, 38, lp, lp + ls);
      SliceOfSuffix(z, 38, lp + ls, lp + ls + lh);
    }
  }

  lemma ParsedFields(a: Bytes, b: Bytes, c: Bytes, d: Bytes, e: Bytes, f: Bytes, x: Byte, y: Byte, rest: Bytes)
    requires |a| == |b| == |c| == |d| == 8 && |e| == |f| == 2
    requires Number(a) < 0x1_0000_0000_0000_0000 && Number(b) < 0x1_0000_0000_0000_0000
    requires Number(c) < 0x1_0000_0000_0000_0000 && Number(d) < 0x1_0000_0000_0000_0000
    ensures Parsed(a + b + c + d + e + f + [x] + [y] + rest) ==
            Assembled(Number(a), Number(b), Number(c), Number(d), Number(e), Number(f), x, y, rest)
  {
    HeaderSlices(a, b, c, d, e, f, x, y, rest);
    ParsedParts(a + b + c + d + e + f + [x] + [y] + rest, rest);
  }

  lemma NumberFits(v: nat, n: nat)
    requires v < Pow256(n)
    ensures Number(BigEndian(v, n)) == v
  {
    NumberOfBigEndian(v, n);
    ModUnique(v, Pow256(n), 0, v);
  }

  lemma WordNumber(v: Uint64)
    ensures Number(BigEndian(v, 8)) == v
  {
    Pow256Values();
    NumberFits(v, 8);
  }

  lemma HalfNumber(v: nat)
    ensures Number(BigEndian(v % 65536, 2)) == v % 65536
  {
    Pow256Values();
    NumberFits(v % 65536, 2);
  }

  /** What decoding sees of an encoded header and whatever follows it. */
  lemma ParsedHeader(r: Record, rest: Bytes)
    ensures Parsed(Header(r) + rest) ==
            Assembled(r.ino, ToUnsigned(r.size), ToUnsigned(r.btime), ToUnsigned(r.mtime),
                      |r.path| % 65536, |r.sig| % 65536, if r.isDir then 1 else 0, |r.hash| % 256, rest)
  {
    WordNumber(r.ino);
    WordNumber(ToUnsigned(r.size));
    WordNumber(ToUnsigned(r.btime));
    WordNumber(ToUnsigned(r.mtime));
    HalfNumber(|r.path|);
    HalfNumber(|r.sig|);
    ParsedFields(BigEndian(r.ino, 8), BigEndian(ToUnsigned(r.size), 8), BigEndian(ToUnsigned(r.btime), 8),
                 BigEndian(ToUnsigned(r.mtime), 8), BigEndian(|r.path| % 65536, 2), BigEndian(|r.sig| % 65536, 2),
                 if r.isDir then 1 else 0, |r.hash| % 256, rest);
  }

  lemma ThreeParts(p: Bytes, s: Bytes, h: Bytes, tail: Bytes)
    ensures var rest := p + s + h + tail;
            && rest[..|p|] == p && rest[|p|..|p| + |s|] == s && rest[|p| + |s|..|p| + |s| + |h|] == h
  {
  }

  lemma AssembledExact(r: Record, tail: Bytes)
    ensures
      var rest := Clip(r.path, 65535) + Clip(r.sig, 65535) + Clip(r.hash, 255) + tail;
      var a := Assembled(r.ino, ToUnsigned(r.size), ToUnsigned(r.btime), ToUnsigned(r.mtime), |r.path| % 65536,
                         |r.sig| % 65536, if r.isDir then 1 else 0, |r.hash| % 256, rest);
      a == Some(r) <==> Fits(r)
  {
    SignedExact(r.size);
    SignedExact(r.btime);
    SignedExact(r.mtime);
    ThreeParts(Clip(r.path, 65535), Clip(r.sig, 65535), Clip(r.hash, 255), tail);
  }

  lemma Regroup(h: Bytes, p: Bytes, s: Bytes, x: Bytes, tail: Bytes)
    ensures h + p + s + x + tail == h + (p + s + x + tail)
  {
  }

  /** Decoding an encoded record gives the record back exactly if it fits, whatever follows it. */
  lemma RoundTripExact(r: Record, tail: Bytes)
    ensures Parsed(Encoded(r) + tail) == Some(r) <==> Fits(r)
  {
    var p, s, h := Clip(r.path, 65535), Clip(r.sig, 65535), Clip(r.hash, 255);
    Regroup(Header(r), p, s, h, tail);
    ParsedHeader(r, p + s + h + tail);
    AssembledExact(r, tail);
  }

  lemma HeadOfConcat(h: Bytes, rest: Bytes, n: nat)
    requires |h| <= n <= |h| + |rest|
    ensures (h + rest)[..n] == h + rest[..n - |h|]
  {
  }

  lemma EncodedShape(r: Record) returns (rest: Bytes)
    requires Fits(r)
    ensures Encoded(r) == Header(r) + rest && |rest| == |r.path| + |r.sig| + |r.hash|
  {
    rest := r.path + r.sig + r.hash;
    Regroup(Header(r), r.path, r.sig, r.hash, []);
  }

  lemma TooShort(r: Record, rest: Bytes)
    requires Fits(r) && |rest| < |r.path| + |r.sig| + |r.hash|
    ensures Parsed(Header(r) + rest) == None
  {
    ParsedHeader(r, rest);
    SmallMod(|r.path|, 65536);
    SmallMod(|r.sig|, 65536);
    SmallMod(|r.hash|, 256);
  }

  /** A record that fits is written in exactly EncodeLen bytes, and no strict prefix of it decodes. */
  lemma PrefixRejected(r: Record, n: nat)
    requires Fits(r)
    ensures |Encoded(r)| == EncodeLen(r)
    ensures n < EncodeLen(r) ==> Parsed(Encoded(r)[..n]) == None
  {
    var rest := EncodedShape(r);
    if 38 <= n < EncodeLen(r) {
      HeadOfConcat(Header(r), rest, n);
      TooShort(r, rest[..n - 38]);
    }
  }

  // ---------- layout ----------

  /** The order of the fields: ino, size, birth time, modification time, lengths of path and signature,
      directory flag, length of hash, then path, signature and hash. */
  lemma EncodedLayout(r: Record)
    requires Fits(r)
    ensures
      var b, n, m := Encoded(r), |r.path|, |r.path| + |r.sig|;
      && |b| == EncodeLen(r)
      && b[0..8] == BigEndian(r.ino, 8) && b[8..16] == BigEndian(ToUnsigned(r.size), 8)
      && b[16..24] == BigEndian(ToUnsigned(r.btime), 8) && b[24..32] == BigEndian(ToUnsigned(r.mtime), 8)
      && b[32..34] == BigEndian(|r.path|, 2) && b[34..36] == BigEndian(|r.sig|, 2)
      && b[36] == (if r.isDir then 1 else 0) && b[37] == |r.hash|
      && b[38..38 + n] == r.path && b[38 + n..38 + m] == r.sig && b[38 + m..] == r.hash
  {
    EncodedHead(r, Encoded(r));
    EncodedTail(r, Encoded(r));
  }

  /** The encoded record in one row. */
  lemma EncodedIs(r: Record) returns (rest: Bytes)
    requires Fits(r)
    ensures |rest| == |r.path| + |r.sig| + |r.hash|
    ensures Encoded(r) ==
            BigEndian(r.ino, 8) + BigEndian(ToUnsigned(r.size), 8) + BigEndian(ToUnsigned(r.btime), 8) +
            BigEndian(ToUnsigned(r.mtime), 8) + BigEndian(|r.path|, 2) + BigEndian(|r.sig|, 2) +
            [if r.isDir then 1 else 0] + [|r.hash|] + rest
  {
    rest := EncodedShape(r);
    HeaderIs(r);
  }

  lemma HeaderIs(r: Record)
    requires Fits(r)
    ensures Header(r) ==
            BigEndian(r.ino, 8) + BigEndian(ToUnsigned(r.size), 8) + BigEndian(ToUnsigned(r.btime), 8) +
            BigEndian(ToUnsigned(r.mtime), 8) + BigEndian(|r.path|, 2) + BigEndian(|r.sig|, 2) +
            [if r.isDir then 1 else 0] + [|r.hash|]
  {
    SmallMod(|r.path|, 65536);
    SmallMod(|r.sig|, 65536);
    SmallMod(|r.hash|, 256);
  }

  lemma SmallMod(v: nat, m: nat)
    requires v < m
    ensures v % m == v
  {
    ModUnique(v, m, 0, v);
  }

  lemma EncodedHead(r: Record, b: Bytes)
    requires Fits(r) && b == Encoded(r)
    ensures |b| == EncodeLen(r)
    ensures b[0..8] == BigEndian(r.ino, 8) && b[8..16] == BigEndian(ToUnsigned(r.size), 8)
    ensures b[16..24] == BigEndian(ToUnsigned(r.btime), 8) && b[24..32] == BigEndian(ToUnsigned(r.mtime), 8)
    ensures b[32..34] == BigEndian(|r.path|, 2) && b[34..36] == BigEndian(|r.sig|, 2)
    ensures b[36] == (if r.isDir then 1 else 0) && b[37] == |r.hash|
  {
    var rest := EncodedIs(r);
    RowSlices(b, BigEndian(r.ino, 8), BigEndian(ToUnsigned(r.size), 8), BigEndian(ToUnsigned(r.btime), 8),
              BigEndian(ToUnsigned(r.mtime), 8), BigEndian(|r.path|, 2), BigEndian(|r.sig|, 2),
              if r.isDir then 1 else 0, |r.hash|, rest);
  }

  lemma RowSlices(z: Bytes, a: Bytes, b: Bytes, c: Bytes, d: Bytes, e: Bytes, f: Bytes, x: Byte, y: Byte, rest: Bytes)
    requires |a| == |b| == |c| == |d| == 8 && |e| == |f| == 2 && z == a + b + c + d + e + f + [x] + [y] + rest
    ensures |z| == 38 + |rest| && z[0..8] == a && z[8..16] == b && z[16..24] == c && z[24..32] == d
    ensures z[32..34] == e && z[34..36] == f && z[36] == x && z[37] == y
  {
    HeaderSlices(a, b, c, d, e, f, x, y, rest);
  }

  lemma EncodedTail(r: Record, b: Bytes)
    requires Fits(r) && b == Encoded(r)
    ensures
      var n, m := |r.path|, |r.path| + |r.sig|;
      |b| == EncodeLen(r) && b[38..38 + n] == r.path && b[38 + n..38 + m] == r.sig && b[38 + m..] == r.hash
  {
    BehindHead(Header(r), r.path, r.sig, r.hash, b);
    TailSlices(b, r.path, r.sig, r.hash);
  }

  lemma BehindHead(h: Bytes, p: Bytes, s: Bytes, x: Bytes, b: Bytes)
    requires |h| == 38 && b == h + p + s + x
    ensures b[38..] == p + s + x
  {
  }

  lemma TailSlices(b: Bytes, p: Bytes, s: Bytes, h: Bytes)
    requires |b| >= 38 && b[38..] == p + s + h
    ensures
      var n, m := |p|, |p| + |s|;
      |b| == 38 + m + |h| && b[38..38 + n] == p && b[38 + n..38 + m] == s && b[38 + m..] == h
  {
    var rest, n, m := b[38..], |p|, |p| + |s|;
    assert rest[..n] == p && rest[n..m] == s && rest[m..] == h;
    assert b[38..38 + n] == rest[..n] && b[38 + n..38 + m] == rest[n..m] && b[38 + m..] == rest[m..];
  }

  /** Writing a number as it was read gives the bytes back. */
  lemma {:induction false} BigEndianOfNumber(s: Bytes)
    ensures BigEndian(Number(s), |s|) == s
  {
    if s != [] {
      var front := s[..|s| - 1];
      BigEndianOfNumber(front);
      assert Number(s) / 256 == Number(front) && Number(s) % 256 == s[|s| - 1];
      assert s == front + [s[|s| - 1]];
    }
  }

  lemma WordOfBytes(b: Bytes, i: nat)
    requires i + 8 <= |b|
    ensures BigEndian(Uint64At(b, i), 8) == b[i..i + 8]
  {
    BigEndianOfNumber(b[i..i + 8]);
  }

  lemma UnsignedOfSigned(u: Uint64)
    ensures ToUnsigned(ToSigned(u)) == u
  {
  }

  /** A record that was read fits. */
  lemma ParsedFits(b: Bytes)
    requires Parsed(b).Some?
    ensures var r := Parsed(b).value; Fits(r) && EncodeLen(r) <= |b|
  {
    HalfBound(b, 32);
    HalfBound(b, 34);
  }

  lemma SliceOfPrefix(b: Bytes, n: nat, i: nat, j: nat)
    requires i <= j <= n <= |b|
    ensures b[..n][i..j] == b[i..j]
  {
  }

  lemma ReencodeWords(b: Bytes, r: Record, e: Bytes)
    requires Parsed(b) == Some(r) && e == Encoded(r) && Fits(r)
    ensures |e| == EncodeLen(r)
    ensures e[0..8] == b[0..8] && e[8..16] == b[8..16] && e[16..24] == b[16..24] && e[24..32] == b[24..32]
  {
    EncodedHead(r, e);
    WordOfBytes(b, 0);
    WordOfBytes(b, 8);
    WordOfBytes(b, 16);
    WordOfBytes(b, 24);
    UnsignedOfSigned(Uint64At(b, 8));
    UnsignedOfSigned(Uint64At(b, 16));
    UnsignedOfSigned(Uint64At(b, 24));
  }

  lemma ReencodeLengths(b: Bytes, r: Record, e: Bytes)
    requires Parsed(b) == Some(r) && e == Encoded(r) && Fits(r)
    ensures |e| == EncodeLen(r) && e[32..34] == b[32..34] && e[34..36] == b[34..36] && e[37] == b[37]
    ensures e[36] == if b[36] != 0 then 1 else 0
  {
    EncodedHead(r, e);
    ParsedLengths(b, r);
    BigEndianOfNumber(b[32..34]);
    BigEndianOfNumber(b[34..36]);
  }

  lemma ParsedLengths(b: Bytes, r: Record)
    requires Parsed(b) == Some(r)
    ensures |b| >= 38 && |r.path| == Number(b[32..34]) && |r.sig| == Number(b[34..36]) && |r.hash| == b[37]
    ensures r.isDir <==> b[36] != 0
  {
  }

  lemma ReencodeTail(b: Bytes, r: Record, e: Bytes)
    requires Parsed(b) == Some(r) && e == Encoded(r) && Fits(r)
    ensures
      var n, m, l := |r.path|, |r.path| + |r.sig|, EncodeLen(r);
      && |e| == l <= |b| && e[38..38 + n] == b[38..38 + n] && e[38 + n..38 + m] == b[38 + n..38 + m]
      && e[38 + m..] == b[38 + m..l]
  {
    EncodedTail(r, e);
  }

  /** Decoding and encoding again gives the bytes back exactly if the directory flag is zero or one. */
  lemma ReencodeExact(b: Bytes)
    requires Parsed(b).Some?
    ensures var r := Parsed(b).value; EncodeLen(r) <= |b| && (Encoded(r) == b[..EncodeLen(r)] <==> b[36] <= 1)
  {
    var r := Parsed(b).value;
    ParsedFits(b);
    ReencodeParts(b, r, Encoded(r));
  }

  lemma ReencodeParts(b: Bytes, r: Record, e: Bytes)
    requires Parsed(b) == Some(r) && e == Encoded(r) && Fits(r) && EncodeLen(r) <= |b|
    ensures e == b[..EncodeLen(r)] <==> b[36] <= 1
  {
    ReencodeWords(b, r, e);
    ReencodeLengths(b, r, e);
    ReencodeTail(b, r, e);
    FlagDecides(e, b, EncodeLen(r), |r.path|, |r.path| + |r.sig|);
  }

  lemma FlagDecides(e: Bytes, b: Bytes, l: nat, n: nat, m: nat)
    requires |e| == l <= |b| && n <= m && 38 + m <= l
    requires e[0..8] == b[0..8] && e[8..16] == b[8..16] && e[16..24] == b[16..24] && e[24..32] == b[24..32]
    requires e[32..34] == b[32..34] && e[34..36] == b[34..36] && e[37] == b[37]
    requires e[38..38 + n] == b[38..38 + n] && e[38 + n..38 + m] == b[38 + n..38 + m] && e[38 + m..] == b[38 + m..l]
    ensures e == b[..l] <==> e[36] == b[36]
  {
    SliceOfPrefix(b, l, 0, 8);
    SliceOfPrefix(b, l, 8, 16);
    SliceOfPrefix(b, l, 16, 24);
    SliceOfPrefix(b, l, 24, 32);
    SliceOfPrefix(b, l, 32, 34);
    SliceOfPrefix(b, l, 34, 36);
    SliceOfPrefix(b, l, 38, 38 + n);
    SliceOfPrefix(b, l, 38 + n, 38 + m);
    assert b[..l][38 + m..] == b[38 + m..l];
    SameByParts(e, b[..l], n, m);
  }

  lemma HalfBound(b: Bytes, i: nat)
    requires i + 2 <= |b|
    ensures Number(b[i..i + 2]) < 65536
  {
    NumberBound(b[i..i + 2]);
    Pow256Values();
  }

  /** Two buffers that agree in all parts but the flag are equal exactly if the flags are. */
  lemma SameByParts(x: Bytes, y: Bytes, n: nat, m: nat)
    requires |x| == |y| && n <= m && 38 + m <= |x|
    requires x[0..8] == y[0..8] && x[8..16] == y[8..16] && x[16..24] == y[16..24] && x[24..32] == y[24..32]
    requires x[32..34] == y[32..34] && x[34..36] == y[34..36] && x[37] == y[37]
    requires x[38..38 + n] == y[38..38 + n] && x[38 + n..38 + m] == y[38 + n..38 + m] && x[38 + m..] == y[38 + m..]
    ensures x == y <==> x[36] == y[36]
  {
    SameSlice(x, y, 0, 8);
    SameSlice(x, y, 8, 16);
    SameSlice(x, y, 16, 24);
    SameSlice(x, y, 24, 32);
    SameSlice(x, y, 32, 34);
    SameSlice(x, y, 34, 36);
    SameSlice(x, y, 38, 38 + n);
    SameSlice(x, y, 38 + n, 38 + m);
    assert x[38 + m..|x|] == x[38 + m..] && y[38 + m..|y|] == y[38 + m..];
    SameSlice(x, y, 38 + m, |x|);
    if x[36] == y[36] {
      forall i | 0 <= i < |x| ensures x[i] == y[i] {
      }
    }
  }

  lemma SameSlice(x: Bytes, y: Bytes, i: nat, j: nat)
    requires i <= j <= |x| == |y| && x[i..j] == y[i..j]
    ensures forall k :: i <= k < j ==> x[k] == y[k]
  {
    forall k | i <= k < j ensures x[k] == y[k] { assert x[i..j][k - i] == x[k] && y[i..j][k - i] == y[k]; }
  }

  // ---------- writing into a buffer ----------

  /** w with s at i. */
  function Put(w: Bytes, i: nat, s: Bytes): (r: Bytes)
    requires i + |s| <= |w|
    ensures |r| == |w|
  {
    w[..i] + s + w[i + |s|..]
  }

  lemma PutPut(w: Bytes, s: Bytes, t: Bytes)
    requires |s| + |t| <= |w|
    ensures Put(Put(w, 0, s), |s|, t) == Put(w, 0, s + t)
  {
  }

  /** b has s at i and is otherwise as it was. */
  twostate predicate Wrote(b: array<Byte>, i: nat, s: Bytes)
    reads b
  {
    i + |s| <= b.Length && b[..] == Put(old(b[..]), i, s)
  }

  method PutUint8(b: array<Byte>, i: nat, v: Byte) returns (k: nat)
    requires i + 1 <= b.Length
    modifies b
    ensures k == i + 1 && Wrote(b, i, [v])
  {
    b[i] := v;
    return i + 1;
  }

  method PutUint16(b: array<Byte>, i: nat, v: nat) returns (k: nat)
    requires i + 2 <= b.Length && v < 65536
    modifies b
    ensures k == i + 2 && Wrote(b, i, BigEndian(v, 2))
  {
    b[i + 0] := v / 256;
    b[i + 1] := v % 256;
    assert BigEndian(v, 2) == [v / 256 % 256, v % 256];
    return i + 2;
  }

  /** The eight bytes that the shifts of v select. */
  function Shifted(v: nat): (s: Bytes)
    ensures |s| == 8
  {
    [v / 0x100_0000_0000_0000 % 256, v / 0x1_0000_0000_0000 % 256, v / 0x100_0000_0000 % 256, v / 0x1_0000_0000 % 256,
     v / 0x100_0000 % 256, v / 0x1_0000 % 256, v / 0x100 % 256, v % 256]
  }

  lemma DivTwice(v: nat, a: nat, b: nat)
    requires a > 0 && b > 0
    ensures v / a / b == v / (a * b)
  {
    var q, r := v / a / b, v / a % b;
    assert v == (q * b + r) * a + v % a;
    assert v == q * (a * b) + (r * a + v % a);
    assert r * a <= (b - 1) * a;
    assert r * a + v % a < a * b;
    DivUnique(v, a * b, q, r * a + v % a);
  }

  lemma DivUnique(v: nat, m: nat, a: nat, r: nat)
    requires m > 0 && v == a * m + r && r < m
    ensures v / m == a
  {
    ModUnique(v, m, a, r);
    assert (v / m) * m == a * m;
    SmallMultiple(v / m - a, m);
  }

  lemma {:induction false} BigEndianAt(v: nat, n: nat, k: nat)
    requires k < n
    ensures BigEndian(v, n)[k] == v / Pow256(n - 1 - k) % 256
  {
    if k < n - 1 {
      BigEndianAt(v / 256, n - 1, k);
      DivTwice(v, 256, Pow256(n - 2 - k));
    }
  }

  lemma ShiftedIsBigEndian(v: nat)
    ensures BigEndian(v, 8) == Shifted(v)
  {
    assert Pow256(3) == 0x100_0000 && Pow256(4) == 0x1_0000_0000 && Pow256(5) == 0x100_0000_0000;
    assert Pow256(6) == 0x1_0000_0000_0000 && Pow256(7) == 0x100_0000_0000_0000;
    var n := 8;
    BigEndianAt(v, n, 0);
    BigEndianAt(v, n, 1);
    BigEndianAt(v, n, 2);
    BigEndianAt(v, n, 3);
    BigEndianAt(v, n, 4);
    BigEndianAt(v, n, 5);
    BigEndianAt(v, n, 6);
    BigEndianAt(v, n, 7);
  }

  method PutUint64(b: array<Byte>, i: nat, v: Uint64) returns (k: nat)
    requires i + 8 <= b.Length
    modifies b
    ensures k == i + 8 && Wrote(b, i, BigEndian(v, 8))
  {
    b[i + 0] := v / 0x100_0000_0000_0000 % 256;
    b[i + 1] := v / 0x1_0000_0000_0000 % 256;
    b[i + 2] := v / 0x100_0000_0000 % 256;
    b[i + 3] := v / 0x1_0000_0000 % 256;
    b[i + 4] := v / 0x100_0000 % 256;
    b[i + 5] := v / 0x1_0000 % 256;
    b[i + 6] := v / 0x100 % 256;
    b[i + 7] := v % 256;
    ghost var s := Shifted(v);
    assert b[..] == old(b[..])[..i] + s + old(b[..])[i + 8..];
    ShiftedIsBigEndian(v);
    return i + 8;
  }

  method PutTime(b: array<Byte>, i: nat, v: int) returns (k: nat)
    requires i + 8 <= b.Length
    modifies b
    ensures k == i + 8 && Wrote(b, i, BigEndian(ToUnsigned(v), 8))
  {
    k := PutUint64(b, i, ToUnsigned(v));
  }

  /** putString and putBytes: no more than max bytes are copied. */
  method PutBytes(b: array<Byte>, i: nat, v: Bytes, max: nat) returns (k: nat)
    requires i + |Clip(v, max)| <= b.Length
    modifies b
    ensures k == i + |Clip(v, max)| && Wrote(b, i, Clip(v, max))
  {
    var m := if max > |v| then |v| else max;
    forall j | 0 <= j < m {
      b[i + j] := v[j];
    }
    assert Clip(v, max) == v[..m];
    assert b[..] == old(b[..])[..i] + v[..m] + old(b[..])[i + m..];
    return i + m;
  }

  // ---------- reading from a buffer ----------

  /** The get helpers fail, by a run-time panic, where the buffer is too short. */
  function GetUint8(b: Bytes, i: nat): Option<Byte> {
    if i < |b| then Some(b[i]) else None
  }

  function GetUint16(b: Bytes, i: nat): Option<nat> {
    if i + 2 <= |b| then Some(b[i] as int * 256 + b[i + 1] as int) else None
  }

  function GetUint64(b: Bytes, i: nat): Option<Uint64> {
    if i + 8 <= |b| then Some(Uint64At(b, i)) else None
  }

  function GetBytes(b: Bytes, i: nat, l: nat): Option<Bytes> {
    if i + l <= |b| then Some(b[i..i + l]) else None
  }

  lemma Uint16At(b: Bytes, i: nat)
    requires i + 2 <= |b|
    ensures Number(b[i..i + 2]) == b[i] as int * 256 + b[i + 1] as int
  {
    var s := b[i..i + 2];
    assert s[..1] == [b[i]] && s[..1][..0] == [];
    assert Number(s[..1]) == b[i];
  }

  datatype Fixed = Fixed(ino: Uint64, size: Uint64, btime: Uint64, mtime: Uint64, lp: nat, ls: nat, isdir: Byte,
                         lh: Byte)

  /** The fields of the header; the first read past the end fails. */
  method GetFixed(b: Bytes) returns (f: Option<Fixed>)
    ensures f.Some? <==> |b| >= 38
    ensures f.Some? ==> f.value == Fixed(Uint64At(b, 0), Uint64At(b, 8), Uint64At(b, 16), Uint64At(b, 24),
                                         Number(b[32..34]), Number(b[34..36]), b[36], b[37])
  {
    var ino, size := GetUint64(b, 0), GetUint64(b, 8);
    var btime, mtime := GetUint64(b, 16), GetUint64(b, 24);
    var lp, ls := GetUint16(b, 32), GetUint16(b, 34);
    var isdir, lh := GetUint8(b, 36), GetUint8(b, 37);
    if ino.None? || size.None? || btime.None? || mtime.None? || lp.None? || ls.None? || isdir.None? || lh.None? {
      return None;
    }
    Uint16At(b, 32);
    Uint16At(b, 34);
    return Some(Fixed(ino.value, size.value, btime.value, mtime.value, lp.value, ls.value, isdir.value, lh.value));
  }

  /** Reads all fields before anything is assigned; any read past the end fails. */
  method GetRecord(b: Bytes) returns (r: Option<Record>)
    ensures r == Parsed(b)
  {
    var f := GetFixed(b);
    if f.None? {
      return None;
    }
    var h, i := f.value, 38;
    var path := GetBytes(b, i, h.lp);
    i := i + h.lp;
    var sig := GetBytes(b, i, h.ls);
    i := i + h.ls;
    var hash := GetBytes(b, i, h.lh);
    if path.None? || sig.None? || hash.None? {
      return None;
    }
    return Some(Record(h.ino, ToSigned(h.size), ToSigned(h.btime), ToSigned(h.mtime), h.isdir != 0,
                       path.value, sig.value, hash.value));
  }

  // ---------- the node ----------

  class Node {
    var ino: Uint64
    var path: Bytes
    var size: Int64
    var btime: int
    var mtime: int
    var isDir: bool
    var sig: Bytes
    var hash: Bytes
    var valid: bool
    var deleted: bool

    constructor ()
      ensures Value() == Record(0, 0, 0, 0, false, [], [], []) && !valid && !deleted
    {
      ino, size, btime, mtime, isDir, path, sig, hash, valid, deleted := 0, 0, 0, 0, false, [], [], [], false, false;
    }

    ghost function Value(): Record
      reads this
    {
      Record(ino, size, btime, mtime, isDir, path, sig, hash)
    }

    /** Encode panics for a node without ino or path, an invalid one and a deleted one. */
    predicate Encodable()
      reads this
    {
      ino != 0 && path != [] && valid && !deleted
    }

    /** Writes the record at the start of a buffer of at least EncodeLen bytes. */
    method Encode(b: array<Byte>) returns (k: nat)
      requires Encodable() && b.Length >= EncodeLen(Value())
      modifies b
      ensures k <= EncodeLen(Value()) && b[..k] == Encoded(Value())
      ensures b[k..] == old(b[k..])
      ensures Fits(Value()) ==> k == EncodeLen(Value())
    {
      ghost var w, g := b[..], Header(Value());
      k := EncodeHeader(b);
      PutPut(w, g, Clip(path, 65535));
      k := PutBytes(b, k, path, 65535);
      g := g + Clip(path, 65535);
      PutPut(w, g, Clip(sig, 65535));
      k := PutBytes(b, k, sig, 65535);
      g := g + Clip(sig, 65535);
      PutPut(w, g, Clip(hash, 255));
      k := PutBytes(b, k, hash, 255);
      assert b[..] == Put(w, 0, g + Clip(hash, 255));
    }

    method EncodeHeader(b: array<Byte>) returns (k: nat)
      requires b.Length >= 38
      modifies b
      ensures k == 38 && Wrote(b, 0, Header(Value()))
    {
      ghost var w := b[..];
      k := PutUint64(b, 0, ino);
      PutPut(w, BigEndian(ino, 8), BigEndian(ToUnsigned(size), 8));
      k := PutUint64(b, k, ToUnsigned(size));
      ghost var h := BigEndian(ino, 8) + BigEndian(ToUnsigned(size), 8);
      PutPut(w, h, BigEndian(ToUnsigned(btime), 8));
      k := PutTime(b, k, btime);
      h := h + BigEndian(ToUnsigned(btime), 8);
      PutPut(w, h, BigEndian(ToUnsigned(mtime), 8));
      k := PutTime(b, k, mtime);
      h := h + BigEndian(ToUnsigned(mtime), 8);
      EncodeLengths(b, w, h);
      k := 38;
    }

    /** The second half of the header, behind the four words in h. */
    method EncodeLengths(b: array<Byte>, ghost w: Bytes, ghost h: Bytes)
      requires b.Length >= 38 && |h| == 32 && |w| == b.Length && b[..] == Put(w, 0, h)
      modifies b
      ensures b[..] == Put(w, 0, h + BigEndian(|path| % 65536, 2) + BigEndian(|sig| % 65536, 2) +
                                 [if isDir then 1 else 0] + [|hash| % 256])
    {
      ghost var g := h;
      PutPut(w, g, BigEndian(|path| % 65536, 2));
      var k := PutUint16(b, 32, |path| % 65536);
      g := g + BigEndian(|path| % 65536, 2);
      PutPut(w, g, BigEndian(|sig| % 65536, 2));
      k := PutUint16(b, k, |sig| % 65536);
      g := g + BigEndian(|sig| % 65536, 2);
      PutPut(w, g, [if isDir then 1 else 0]);
      k := PutUint8(b, k, if isDir then 1 else 0);
      g := g + [if isDir then 1 else 0];
      PutPut(w, g, [|hash| % 256]);
      k := PutUint8(b, k, |hash| % 256);
    }

    /** Decode reports EIO for a buffer that is too short, and then leaves the node alone. */
    method Decode(b: Bytes) returns (ok: bool)
      modifies this
      ensures ok <==> Parsed(b).Some?
      ensures ok ==> Value() == Parsed(b).value && valid && deleted == old(deleted)
      ensures !ok ==> Value() == old(Value()) && valid == old(valid) && deleted == old(deleted)
    {
      var r := GetRecord(b);
      if r.None? {
        return false;
      }
      ino, size, btime, mtime := r.value.ino, r.value.size, r.value.btime, r.value.mtime;
      isDir, path, sig, hash, valid := r.value.isDir, r.value.path, r.value.sig, r.value.hash, true;
      return true;
    }
  }
}
