/**
 BITOP (bitops.c): a bitwise operation over strings of different lengths, four
 64-bit words at a time where all the strings have data, byte by byte behind.
 */
module Bitop {
  import opened Bitmap
  import opened Bitpos

  datatype Op = And | Or | Xor | Not

  /** What a source key holds. */
  datatype Key = Missing | OtherType | String(bytes: seq<bv8>)

  datatype Reply = NotTakesOneKey | WrongType | Stored(value: seq<bv8>) | Deleted

  // ---------- byte by byte ----------

  function ByteOp(op: Op, a: bv8, b: bv8): bv8 {
    match op
    case And => a & b
    case Or => a | b
    case Xor => a ^ b
    case Not => a
  }

  /** Byte b of the result over the first n sources, each padded with zeros. */
  function Combined(op: Op, srcs: seq<seq<bv8>>, b: nat, n: nat): bv8
    requires 0 < n <= |srcs|
  {
    if n == 1 then (if op == Not then !Padded(srcs[0], b) else Padded(srcs[0], b))
    else ByteOp(op, Combined(op, srcs, b, n - 1), Padded(srcs[n - 1], b))
  }

  function MaxLength(srcs: seq<seq<bv8>>): (m: nat)
    ensures forall i :: 0 <= i < |srcs| ==> |srcs[i]| <= m
    ensures srcs != [] ==> exists i :: 0 <= i < |srcs| && |srcs[i]| == m
  {
    if srcs == [] then 0
    else
      var m := MaxLength(srcs[1..]);
      assert srcs[0] in srcs && forall i :: 0 <= i < |srcs[1..]| ==> srcs[1..][i] == srcs[i + 1];
      if |srcs[0]| > m then |srcs[0]| else m
  }

  // ---------- what it means bit by bit ----------

  /** The operation on single bits: all of them, any of them, an odd number of them, or not the one. */
  ghost predicate BitsCombined(op: Op, srcs: seq<seq<bv8>>, q: nat)
    requires srcs != []
  {
    match op
    case And => forall i :: 0 <= i < |srcs| ==> PaddedBit(srcs[i], q)
    case Or => exists i :: 0 <= i < |srcs| && PaddedBit(srcs[i], q)
    case Xor => Odd(srcs, q, |srcs|)
    case Not => !PaddedBit(srcs[0], q)
  }

  /** An odd number of the first n sources have the bit. */
  predicate Odd(srcs: seq<seq<bv8>>, q: nat, n: nat)
    requires n <= |srcs|
  {
    n > 0 && Odd(srcs, q, n - 1) != PaddedBit(srcs[n - 1], q)
  }

  lemma AndBit(a: bv8, b: bv8, c: bv8, m: bv8)
    requires SingleBit(m) && c == a & b
    ensures Overlaps(c, m) == (Overlaps(a, m) && Overlaps(b, m))
  {}

  lemma OrBit(a: bv8, b: bv8, c: bv8, m: bv8)
    requires c == a | b
    ensures Overlaps(c, m) == (Overlaps(a, m) || Overlaps(b, m))
  {}

  lemma XorBit(a: bv8, b: bv8, c: bv8, m: bv8)
    requires SingleBit(m) && c == a ^ b
    ensures Overlaps(c, m) == (Overlaps(a, m) != Overlaps(b, m))
  {}

  lemma NotBit(a: bv8, c: bv8, m: bv8)
    requires SingleBit(m) && c == !a
    ensures Overlaps(c, m) == !Overlaps(a, m)
  {}

  function BoolOp(op: Op, a: bool, b: bool): bool {
    match op case And => a && b case Or => a || b case Xor => a != b case Not => a
  }

  lemma HasAnd(a: bv8, b: bv8, c: bv8, k: nat)
    requires k < 8 && c == a & b
    ensures HasBit(c, k) == (HasBit(a, k) && HasBit(b, k))
  {
    MaskIsSingle(k);
    AndBit(a, b, c, Mask(k));
  }

  lemma HasOr(a: bv8, b: bv8, c: bv8, k: nat)
    requires k < 8 && c == a | b
    ensures HasBit(c, k) == (HasBit(a, k) || HasBit(b, k))
  {
    OrBit(a, b, c, Mask(k));
  }

  lemma HasXor(a: bv8, b: bv8, c: bv8, k: nat)
    requires k < 8 && c == a ^ b
    ensures HasBit(c, k) == (HasBit(a, k) != HasBit(b, k))
  {
    MaskIsSingle(k);
    XorBit(a, b, c, Mask(k));
  }

  lemma ByteOpBit(op: Op, a: bv8, b: bv8, c: bv8, k: nat)
    requires k < 8 && c == ByteOp(op, a, b)
    ensures HasBit(c, k) == BoolOp(op, HasBit(a, k), HasBit(b, k))
  {
    match op
    case And => HasAnd(a, b, c, k);
    case Or => HasOr(a, b, c, k);
    case Xor => HasXor(a, b, c, k);
    case Not =>
  }

  /** Bit q over the first n sources. */
  predicate CombinedBit(op: Op, srcs: seq<seq<bv8>>, q: nat, n: nat)
    requires 0 < n <= |srcs|
  {
    if n == 1 then (if op == Not then !PaddedBit(srcs[0], q) else PaddedBit(srcs[0], q))
    else BoolOp(op, CombinedBit(op, srcs, q, n - 1), PaddedBit(srcs[n - 1], q))
  }

  lemma FirstByteBit(op: Op, srcs: seq<seq<bv8>>, q: nat, k: nat)
    requires srcs != [] && k == 7 - q % 8
    ensures HasBit(Combined(op, srcs, q / 8, 1), k) == CombinedBit(op, srcs, q, 1)
  {
    MaskIsSingle(k);
    if op == Not {
      NotBit(Padded(srcs[0], q / 8), !Padded(srcs[0], q / 8), Mask(k));
    }
  }

  lemma NextByteBit(op: Op, srcs: seq<seq<bv8>>, q: nat, n: nat, k: nat, x: bv8, y: bv8)
    requires 1 < n <= |srcs| && k == 7 - q % 8
    requires x == Combined(op, srcs, q / 8, n - 1) && y == Padded(srcs[n - 1], q / 8)
    requires HasBit(x, k) == CombinedBit(op, srcs, q, n - 1)
    ensures HasBit(Combined(op, srcs, q / 8, n), k) == CombinedBit(op, srcs, q, n)
  {
    ByteOpBit(op, x, y, ByteOp(op, x, y), k);
  }

  lemma {:induction false} CombinedBits(op: Op, srcs: seq<seq<bv8>>, q: nat, n: nat, k: nat)
    requires 0 < n <= |srcs| && k == 7 - q % 8
    ensures HasBit(Combined(op, srcs, q / 8, n), k) == CombinedBit(op, srcs, q, n)
  {
    if n == 1 {
      FirstByteBit(op, srcs, q, k);
    } else {
      CombinedBits(op, srcs, q, n - 1, k);
      NextByteBit(op, srcs, q, n, k, Combined(op, srcs, q / 8, n - 1), Padded(srcs[n - 1], q / 8));
    }
  }

  lemma {:induction false} CombinedBitMeans(op: Op, srcs: seq<seq<bv8>>, q: nat, n: nat)
    requires 0 < n <= |srcs| && (op == Not ==> n == 1)
    ensures CombinedBit(op, srcs, q, n) == match op
      case And => forall i :: 0 <= i < n ==> PaddedBit(srcs[i], q)
      case Or => exists i :: 0 <= i < n && PaddedBit(srcs[i], q)
      case Xor => Odd(srcs, q, n)
      case Not => !PaddedBit(srcs[0], q)
  {
    if n == 1 {
      assert Odd(srcs, q, n) == (Odd(srcs, q, n - 1) != PaddedBit(srcs[0], q));
    } else {
      CombinedBitMeans(op, srcs, q, n - 1);
    }
  }

  /** Bit q of a result that holds the combined bytes is the operation on bit q of every source. */
  lemma ResultBits(op: Op, srcs: seq<seq<bv8>>, r: seq<bv8>, q: nat)
    requires srcs != [] && (op == Not ==> |srcs| == 1)
    requires |r| == MaxLength(srcs) && forall b :: 0 <= b < |r| ==> r[b] == Combined(op, srcs, b, |srcs|)
    requires q < 8 * |r|
    ensures GetBit(r, q) == BitsCombined(op, srcs, q)
  {
    CombinedBits(op, srcs, q, |srcs|, 7 - q % 8);
    CombinedBitMeans(op, srcs, q, |srcs|);
  }

  // ---------- a word at a time ----------

  predicate LowIs(w: bv64, b: bv8) {
    b as bv64 == w & 0xff
  }

  function Shifted(w: bv64): bv64 {
    w >> 8
  }

  /** The word holds these bytes, from the low end. */
  ghost predicate LowBytes(w: bv64, bs: seq<bv8>)
    decreases |bs|
  {
    bs == [] || (LowIs(w, bs[0]) && LowBytes(Shifted(w), bs[1..]))
  }

  lemma LowBytesFrom(w: bv64, v: bv64, bs: seq<bv8>, i: nat)
    requires i < |bs| && v == Shifted(w) && LowIs(w, bs[i]) && LowBytes(v, bs[i + 1..])
    ensures LowBytes(w, bs[i..])
  {
    assert bs[i..][1..] == bs[i + 1..];
  }

  lemma Bottoms(b0: bv8, b1: bv8, b2: bv8, b3: bv8, b4: bv8, b5: bv8, b6: bv8, b7: bv8, w: bv64,
                v1: bv64, v2: bv64, v3: bv64, v4: bv64, v5: bv64, v6: bv64, v7: bv64)
    requires w == Word(b7, b6, b5, b4, b3, b2, b1, b0)
    requires v1 == Shifted(w) && v2 == Shifted(v1) && v3 == Shifted(v2) && v4 == Shifted(v3)
    requires v5 == Shifted(v4) && v6 == Shifted(v5) && v7 == Shifted(v6)
    ensures LowIs(w, b0) && LowIs(v1, b1) && LowIs(v2, b2) && LowIs(v3, b3)
    ensures LowIs(v4, b4) && LowIs(v5, b5) && LowIs(v6, b6) && LowIs(v7, b7)
  {}

  lemma LowBytesOf(bs: seq<bv8>, w: bv64, v1: bv64, v2: bv64, v3: bv64, v4: bv64, v5: bv64, v6: bv64, v7: bv64)
    requires |bs| == 8
    requires v1 == Shifted(w) && v2 == Shifted(v1) && v3 == Shifted(v2) && v4 == Shifted(v3)
    requires v5 == Shifted(v4) && v6 == Shifted(v5) && v7 == Shifted(v6)
    requires LowIs(w, bs[0]) && LowIs(v1, bs[1]) && LowIs(v2, bs[2]) && LowIs(v3, bs[3])
    requires LowIs(v4, bs[4]) && LowIs(v5, bs[5]) && LowIs(v6, bs[6]) && LowIs(v7, bs[7])
    ensures LowBytes(w, bs)
  {
    var v8 := Shifted(v7);
    assert bs[8..] == [] && LowBytes(v8, bs[8..]);
    LowBytesFrom(v7, v8, bs, 7);
    LowBytesFrom(v6, v7, bs, 6);
    LowBytesFrom(v5, v6, bs, 5);
    LowBytesFrom(v4, v5, bs, 4);
    LowBytesFrom(v3, v4, bs, 3);
    LowBytesFrom(v2, v3, bs, 2);
    LowBytesFrom(v1, v2, bs, 1);
    LowBytesFrom(w, v1, bs, 0);
    assert bs[0..] == bs;
  }

  /** A little-endian load. */
  method Load(bs: seq<bv8>) returns (w: bv64)
    requires |bs| == 8
    ensures LowBytes(w, bs)
  {
    w := Word(bs[7], bs[6], bs[5], bs[4], bs[3], bs[2], bs[1], bs[0]);
    ghost var v1 := Shifted(w);
    ghost var v2 := Shifted(v1);
    ghost var v3 := Shifted(v2);
    ghost var v4 := Shifted(v3);
    ghost var v5 := Shifted(v4);
    ghost var v6 := Shifted(v5);
    ghost var v7 := Shifted(v6);
    Bottoms(bs[0], bs[1], bs[2], bs[3], bs[4], bs[5], bs[6], bs[7], w, v1, v2, v3, v4, v5, v6, v7);
    LowBytesOf(bs, w, v1, v2, v3, v4, v5, v6, v7);
  }

  /** A little-endian store. */
  method Store(w: bv64, ghost bs: seq<bv8>) returns (out: seq<bv8>)
    requires |bs| == 8 && LowBytes(w, bs)
    ensures out == bs
  {
    out := [];
    var v := w;
    for i := 0 to 8
      invariant |out| == i && out == bs[..i] && LowBytes(v, bs[i..])
    {
      NextByte(v, bs, i);
      out := out + [(v & 0xff) as bv8];
      v := Shifted(v);
    }
  }

  lemma NextByte(v: bv64, bs: seq<bv8>, i: nat)
    requires i < |bs| && LowBytes(v, bs[i..])
    ensures (v & 0xff) as bv8 == bs[i] && LowBytes(Shifted(v), bs[i + 1..])
  {
    assert bs[i..][1..] == bs[i + 1..];
    LowByte(v, bs[i]);
  }

  lemma LowByte(v: bv64, b: bv8)
    requires LowIs(v, b)
    ensures (v & 0xff) as bv8 == b
  {}

  lemma AndStep(x: bv64, y: bv64, z: bv64, a: bv8, b: bv8, c: bv8, u: bv64, v: bv64, w: bv64)
    requires z == x & y && LowIs(x, a) && LowIs(y, b) && c == a & b
    requires u == Shifted(x) && v == Shifted(y) && w == Shifted(z)
    ensures LowIs(z, c) && w == u & v
  {}

  lemma OrStep(x: bv64, y: bv64, z: bv64, a: bv8, b: bv8, c: bv8, u: bv64, v: bv64, w: bv64)
    requires z == x | y && LowIs(x, a) && LowIs(y, b) && c == a | b
    requires u == Shifted(x) && v == Shifted(y) && w == Shifted(z)
    ensures LowIs(z, c) && w == u | v
  {}

  lemma XorStep(x: bv64, y: bv64, z: bv64, a: bv8, b: bv8, c: bv8, u: bv64, v: bv64, w: bv64)
    requires z == x ^ y && LowIs(x, a) && LowIs(y, b) && c == a ^ b
    requires u == Shifted(x) && v == Shifted(y) && w == Shifted(z)
    ensures LowIs(z, c) && w == u ^ v
  {}

  /** A word operation works on each byte alone. */
  lemma {:induction false} AndBytes(x: bv64, y: bv64, z: bv64, a: seq<bv8>, b: seq<bv8>, c: seq<bv8>)
    requires z == x & y && LowBytes(x, a) && LowBytes(y, b) && |a| == |b| == |c|
    requires forall i :: 0 <= i < |c| ==> c[i] == a[i] & b[i]
    ensures LowBytes(z, c)
    decreases |c|
  {
    if c != [] {
      var u, v, w := Shifted(x), Shifted(y), Shifted(z);
      AndStep(x, y, z, a[0], b[0], c[0], u, v, w);
      AndBytes(u, v, w, a[1..], b[1..], c[1..]);
    }
  }

  method FoldAnd(r: seq<bv8>, s: seq<bv8>) returns (out: seq<bv8>)
    requires |r| == |s| == 8
    ensures |out| == 8 && forall i :: 0 <= i < 8 ==> out[i] == r[i] & s[i]
  {
    ghost var c := seq(8, i requires 0 <= i < 8 => r[i] & s[i]);
    var x := Load(r);
    var y := Load(s);
    AndBytes(x, y, x & y, r, s, c);
    out := Store(x & y, c);
  }

  /** Likewise. */
  lemma {:induction false} OrBytes(x: bv64, y: bv64, z: bv64, a: seq<bv8>, b: seq<bv8>, c: seq<bv8>)
    requires z == x | y && LowBytes(x, a) && LowBytes(y, b) && |a| == |b| == |c|
    requires forall i :: 0 <= i < |c| ==> c[i] == a[i] | b[i]
    ensures LowBytes(z, c)
    decreases |c|
  {
    if c != [] {
      var u, v, w := Shifted(x), Shifted(y), Shifted(z);
      OrStep(x, y, z, a[0], b[0], c[0], u, v, w);
      OrBytes(u, v, w, a[1..], b[1..], c[1..]);
    }
  }

  method FoldOr(r: seq<bv8>, s: seq<bv8>) returns (out: seq<bv8>)
    requires |r| == |s| == 8
    ensures |out| == 8 && forall i :: 0 <= i < 8 ==> out[i] == r[i] | s[i]
  {
    ghost var c := seq(8, i requires 0 <= i < 8 => r[i] | s[i]);
    var x := Load(r);
    var y := Load(s);
    OrBytes(x, y, x | y, r, s, c);
    out := Store(x | y, c);
  }

  /** Likewise. */
  lemma {:induction false} XorBytes(x: bv64, y: bv64, z: bv64, a: seq<bv8>, b: seq<bv8>, c: seq<bv8>)
    requires z == x ^ y && LowBytes(x, a) && LowBytes(y, b) && |a| == |b| == |c|
    requires forall i :: 0 <= i < |c| ==> c[i] == a[i] ^ b[i]
    ensures LowBytes(z, c)
    decreases |c|
  {
    if c != [] {
      var u, v, w := Shifted(x), Shifted(y), Shifted(z);
      XorStep(x, y, z, a[0], b[0], c[0], u, v, w);
      XorBytes(u, v, w, a[1..], b[1..], c[1..]);
    }
  }

  method FoldXor(r: seq<bv8>, s: seq<bv8>) returns (out: seq<bv8>)
    requires |r| == |s| == 8
    ensures |out| == 8 && forall i :: 0 <= i < 8 ==> out[i] == r[i] ^ s[i]
  {
    ghost var c := seq(8, i requires 0 <= i < 8 => r[i] ^ s[i]);
    var x := Load(r);
    var y := Load(s);
    XorBytes(x, y, x ^ y, r, s, c);
    out := Store(x ^ y, c);
  }

  lemma Complement(x: bv64)
    ensures !x == x ^ 0xffff_ffff_ffff_ffff
  {}

  lemma ComplementByte(b: bv8)
    ensures !b == b ^ 0xff
  {}

  method FoldNot(r: seq<bv8>) returns (out: seq<bv8>)
    requires |r| == 8
    ensures |out| == 8 && forall i :: 0 <= i < 8 ==> out[i] == !r[i]
  {
    ghost var c := seq(8, i requires 0 <= i < 8 => !r[i]);
    ghost var ones := seq(8, _ => 0xff);
    var x := Load(r);
    var z := !x;
    AllOnes(ones);
    Complement(x);
    forall i | 0 <= i < 8 ensures c[i] == r[i] ^ ones[i] {
      ComplementByte(r[i]);
    }
    XorBytes(x, 0xffff_ffff_ffff_ffff, z, r, ones, c);
    out := Store(z, c);
  }

  lemma AllOnes(ones: seq<bv8>)
    requires |ones| == 8 && forall i :: 0 <= i < 8 ==> ones[i] == 0xff
    ensures LowBytes(0xffff_ffff_ffff_ffff, ones)
  {
    LowBytesOf(ones, 0xffff_ffff_ffff_ffff, 0xff_ffff_ffff_ffff, 0xffff_ffff_ffff, 0xff_ffff_ffff, 0xffff_ffff,
               0xff_ffff, 0xffff, 0xff);
  }

  /** What one word operation does to each of its bytes. */
  function OpByte(op: Op, a: bv8, b: bv8): bv8 {
    if op == Not then !a else ByteOp(op, a, b)
  }

  method FoldBytes(op: Op, r: seq<bv8>, s: seq<bv8>) returns (out: seq<bv8>)
    requires |r| == |s| == 8
    ensures |out| == 8 && forall i :: 0 <= i < 8 ==> out[i] == OpByte(op, r[i], s[i])
  {
    match op
    case And => out := FoldAnd(r, s);
    case Or => out := FoldOr(r, s);
    case Xor => out := FoldXor(r, s);
    case Not => out := FoldNot(r);
  }

  // ---------- the fast path ----------

  /** Bytes from lo up to hi updated with those of a source, the others left. */
  ghost predicate Folded(op: Op, before: seq<bv8>, after: seq<bv8>, src: seq<bv8>, lo: nat, hi: nat) {
    && |after| == |before| && hi <= |src|
    && forall b :: 0 <= b < |after| ==> after[b] == if lo <= b < hi then OpByte(op, before[b], src[b]) else before[b]
  }

  method FoldWord(op: Op, res: array<bv8>, at: nat, src: seq<bv8>)
    requires at + 8 <= res.Length && at + 8 <= |src|
    modifies res
    ensures Folded(op, old(res[..]), res[..], src, at, at + 8)
  {
    var out := FoldBytes(op, res[at..at + 8], src[at..at + 8]);
    forall i | 0 <= i < 8 {
      res[at + i] := out[i];
    }
  }

  /** Four words of the result updated with four words of a source. */
  method FoldFourWords(op: Op, res: array<bv8>, at: nat, src: seq<bv8>)
    requires at + 32 <= res.Length && at + 32 <= |src|
    modifies res
    ensures Folded(op, old(res[..]), res[..], src, at, at + 32)
  {
    FoldWord(op, res, at, src);
    FoldWord(op, res, at + 8, src);
    FoldWord(op, res, at + 16, src);
    FoldWord(op, res, at + 24, src);
  }

  /** The state of a block when n sources have been taken in. */
  ghost predicate BlockDone(op: Op, srcs: seq<seq<bv8>>, r: seq<bv8>, lo: nat, hi: nat, n: nat)
    requires 0 < n <= |srcs|
  {
    hi <= |r| && forall b :: lo <= b < hi ==> r[b] == Combined(op, srcs, b, n)
  }

  lemma BlockStep(op: Op, srcs: seq<seq<bv8>>, before: seq<bv8>, after: seq<bv8>, lo: nat, n: nat)
    requires 0 < n < |srcs| && op != Not
    requires BlockDone(op, srcs, before, lo, lo + 32, n) && Folded(op, before, after, srcs[n], lo, lo + 32)
    ensures BlockDone(op, srcs, after, lo, lo + 32, n + 1)
  {
    forall b | lo <= b < lo + 32 ensures after[b] == Combined(op, srcs, b, n + 1) {
      assert Padded(srcs[n], b) == srcs[n][b];
    }
  }

  lemma BlockStarts(op: Op, srcs: seq<seq<bv8>>, before: seq<bv8>, after: seq<bv8>, lo: nat)
    requires srcs != [] && lo + 32 <= |before| && lo + 32 <= |srcs[0]|
    requires forall b :: lo <= b < lo + 32 ==> before[b] == srcs[0][b]
    requires if op == Not then Folded(op, before, after, srcs[0], lo, lo + 32) else after == before
    ensures BlockDone(op, srcs, after, lo, lo + 32, 1)
  {
    forall b | lo <= b < lo + 32 ensures after[b] == Combined(op, srcs, b, 1) {
      assert Padded(srcs[0], b) == srcs[0][b];
    }
  }

  /** One turn of the outer loop: 32 bytes of the result, source after source. */
  method CombineBlock(op: Op, srcs: seq<seq<bv8>>, res: array<bv8>, lo: nat)
    requires srcs != [] && (op == Not ==> |srcs| == 1) && lo + 32 <= res.Length
    requires forall i :: 0 <= i < |srcs| ==> lo + 32 <= |srcs[i]|
    requires forall b :: lo <= b < lo + 32 ==> res[b] == srcs[0][b]
    modifies res
    ensures BlockDone(op, srcs, res[..], lo, lo + 32, |srcs|)
    ensures forall b :: 0 <= b < res.Length && !(lo <= b < lo + 32) ==> res[b] == old(res[b])
  {
    ghost var before := res[..];
    if op == Not { FoldFourWords(op, res, lo, srcs[0]); }
    BlockStarts(op, srcs, before, res[..], lo);
    for i := 1 to |srcs|
      invariant BlockDone(op, srcs, res[..], lo, lo + 32, i)
      invariant forall b :: 0 <= b < res.Length && !(lo <= b < lo + 32) ==> res[b] == old(res[b])
    {
      ghost var now := res[..];
      FoldFourWords(op, res, lo, srcs[i]);
      BlockStep(op, srcs, now, res[..], lo, i);
    }
  }

  method FastPath(op: Op, srcs: seq<seq<bv8>>, res: array<bv8>, minlen: nat) returns (j: nat)
    requires srcs != [] && (op == Not ==> |srcs| == 1) && minlen <= res.Length
    requires forall i :: 0 <= i < |srcs| ==> minlen <= |srcs[i]|
    requires forall b :: 0 <= b < minlen ==> res[b] == srcs[0][b]
    modifies res
    ensures j <= minlen && BlockDone(op, srcs, res[..], 0, j, |srcs|)
  {
    var left := minlen;
    j := 0;
    while left >= 32
      invariant j + left == minlen && BlockDone(op, srcs, res[..], 0, j, |srcs|)
      invariant forall b :: j <= b < minlen ==> res[b] == srcs[0][b]
    {
      ghost var before := res[..];
      CombineBlock(op, srcs, res, j);
      forall b | 0 <= b < j + 32 ensures res[..][b] == Combined(op, srcs, b, |srcs|) {
        assert b < j ==> res[..][b] == before[b];
      }
      j, left := j + 32, left - 32;
    }
  }

  // ---------- the command ----------

  function Strings(keys: seq<Key>): (srcs: seq<seq<bv8>>)
    ensures |srcs| == |keys|
    ensures forall i :: 0 <= i < |keys| ==> srcs[i] == if keys[i].String? then keys[i].bytes else []
  {
    seq(|keys|, i requires 0 <= i < |keys| => if keys[i].String? then keys[i].bytes else [])
  }

  lemma MaxLengthIs(srcs: seq<seq<bv8>>, m: nat)
    requires srcs != [] && (forall i :: 0 <= i < |srcs| ==> |srcs[i]| <= m)
    requires m == 0 || exists i :: 0 <= i < |srcs| && |srcs[i]| == m
    ensures m == MaxLength(srcs)
  {}

  /** The lookup of the sources: absent keys are empty strings, and make the shortest length 0. */
  method LookUp(keys: seq<Key>) returns (ok: bool, srcs: seq<seq<bv8>>, minlen: nat, maxlen: nat)
    requires keys != []
    ensures ok == (OtherType !in keys)
    ensures ok ==> srcs == Strings(keys) && maxlen == MaxLength(srcs)
    ensures ok ==> forall i :: 0 <= i < |srcs| ==> minlen <= |srcs[i]|
  {
    srcs, minlen, maxlen := [], 0, 0;
    for j := 0 to |keys|
      invariant |srcs| == j && srcs == Strings(keys)[..j] && OtherType !in keys[..j]
      invariant forall i :: 0 <= i < j ==> minlen <= |srcs[i]| <= maxlen
      invariant maxlen == 0 || exists i :: 0 <= i < j && |srcs[i]| == maxlen
    {
      if keys[j] == OtherType { return false, srcs, minlen, maxlen; }
      if keys[j] == Missing {
        srcs := srcs + [[]];
        minlen := 0;
      } else {
        var s := keys[j].bytes;
        srcs := srcs + [s];
        assert srcs[j] == s;
        if |s| > maxlen { maxlen := |s|; }
        if j == 0 || |s| < minlen { minlen := |s|; }
      }
    }
    assert Strings(keys)[..|keys|] == Strings(keys) && keys[..|keys|] == keys;
    MaxLengthIs(srcs, maxlen);
    ok := true;
  }

  /** bitopCommand, for an operation already parsed and at least one source key. */
  method Bitop(op: Op, keys: seq<Key>) returns (reply: Reply)
    requires keys != []
    ensures reply == NotTakesOneKey <==> op == Not && |keys| != 1
    ensures reply == WrongType <==> !(op == Not && |keys| != 1) && OtherType in keys
    ensures reply == Deleted ==> MaxLength(Strings(keys)) == 0
    ensures reply.Stored? ==> |reply.value| == MaxLength(Strings(keys)) > 0
    ensures reply.Stored? ==>
      forall b :: 0 <= b < |reply.value| ==> reply.value[b] == Combined(op, Strings(keys), b, |keys|)
  {
    if op == Not && |keys| != 1 { return NotTakesOneKey; }
    var ok, srcs, minlen, maxlen := LookUp(keys);
    if !ok { return WrongType; }
    if maxlen == 0 { return Deleted; }
    var res := new bv8[maxlen];
    var j := 0;
    if minlen >= 32 && |keys| <= 16 {
      forall b | 0 <= b < minlen { res[b] := srcs[0][b]; }
      j := FastPath(op, srcs, res, minlen);
    }
    ByteLoop(op, srcs, res, j);
    reply := Stored(res[..]);
  }

  /** The loop over the bytes that the fast path has left. */
  method ByteLoop(op: Op, srcs: seq<seq<bv8>>, res: array<bv8>, from: nat)
    requires srcs != [] && (op == Not ==> |srcs| == 1) && from <= res.Length
    requires BlockDone(op, srcs, res[..], 0, from, |srcs|)
    modifies res
    ensures BlockDone(op, srcs, res[..], 0, res.Length, |srcs|)
  {
    var j := from;
    while j < res.Length
      invariant j <= res.Length && BlockDone(op, srcs, res[..], 0, j, |srcs|)
    {
      var output := CombineByte(op, srcs, j);
      ghost var before := res[..];
      res[j] := output;
      assert forall b :: 0 <= b < j ==> res[..][b] == before[b];
      j := j + 1;
    }
  }

  /** One turn of the byte loop. */
  method CombineByte(op: Op, srcs: seq<seq<bv8>>, j: nat) returns (output: bv8)
    requires srcs != [] && (op == Not ==> |srcs| == 1)
    ensures output == Combined(op, srcs, j, |srcs|)
  {
    output := if |srcs[0]| <= j then 0 else srcs[0][j];
    if op == Not { output := !output; }
    for i := 1 to |srcs|
      invariant output == Combined(op, srcs, j, i)
    {
      var byte := if |srcs[i]| <= j then 0 else srcs[i][j];
      output := ByteOp(op, output, byte);
    }
  }
}
