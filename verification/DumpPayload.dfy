/**
 The footer of DUMP payloads (cluster.c): two version bytes and a CRC-64 over
 everything before it, both in little-endian order.
 */
module DumpPayload {
  import opened BinaryPolynomial
  import opened BitOrder
  import Crc64

  const RDB_VERSION: bv16 := 6

  function VersionBytes(): (r: seq<bv8>) {
    [(RDB_VERSION & 0xff) as bv8, (RDB_VERSION >> 8) as bv8]
  }

  /** The register a division leaves for a message, started at zero. */
  function Residue(s: seq<bv8>): (r: seq<bool>)
    ensures |r| == 64
  {
    Serial(Zeros(64), LowFirst(s), Crc64.Generator())
  }

  /** What the receiver checks: the version, and that the last eight bytes are the checksum of the rest. */
  predicate Intact(p: seq<bv8>) {
    && |p| >= 10
    && p[|p| - 10..|p| - 8] == VersionBytes()
    && LowFirst(p[|p| - 8..]) == Residue(p[..|p| - 8])
  }

  method CreateDumpPayload(serialized: seq<bv8>) returns (p: seq<bv8>)
    ensures Intact(p)
    ensures |p| == |serialized| + 10 && p[..|serialized|] == serialized
  {
    var covered := serialized + [(RDB_VERSION & 0xff) as bv8, ((RDB_VERSION >> 8) & 0xff) as bv8];
    var crc := Crc64.Compute(0, covered);
    p := covered + Crc64.LittleEndian(crc);
    ZeroWord();
    assert p[..|p| - 8] == covered && p[|p| - 8..] == Crc64.LittleEndian(crc);
    assert p[|p| - 10..|p| - 8] == covered[|covered| - 2..] == VersionBytes();
  }

  method VerifyDumpPayload(p: seq<bv8>) returns (ok: bool)
    ensures ok <==> Intact(p)
  {
    if |p| < 10 {
      return false;
    }
    var footer := p[|p| - 10..];
    var rdbver := ((footer[1] as bv16) << 8) | (footer[0] as bv16);
    VersionWord(footer[0], footer[1], rdbver);
    assert p[|p| - 10..|p| - 8] == [footer[0], footer[1]];
    if rdbver != RDB_VERSION {
      return false;
    }
    var crc := Crc64.Compute(0, p[..|p| - 8]);
    ZeroWord();
    ok := Crc64.LittleEndian(crc) == footer[2..];
    assert footer[2..] == p[|p| - 8..];
    if LowFirst(p[|p| - 8..]) == Residue(p[..|p| - 8]) {
      LowFirstInjective(Crc64.LittleEndian(crc), p[|p| - 8..]);
    }
  }

  /** A payload too short for a footer, or of another version, is never intact. */
  lemma OtherVersionRejected(p: seq<bv8>)
    requires |p| < 10 || p[|p| - 10] != 6 || p[|p| - 9] != 0
    ensures !Intact(p)
  {
    if |p| >= 10 {
      assert p[|p| - 10..|p| - 8] == [p[|p| - 10], p[|p| - 9]];
      assert VersionBytes() == [6, 0];
    }
  }

  lemma VersionWord(low: bv8, high: bv8, version: bv16)
    requires version == ((high as bv16) << 8) | (low as bv16)
    ensures version == RDB_VERSION <==> [low, high] == VersionBytes()
  {
    assert version == RDB_VERSION <==> low == 6 && high == 0;
    assert [low, high][0] == low && [low, high][1] == high;
  }

  lemma ZeroWord()
    ensures Crc64.WordBits(0) == Zeros(64)
  {
    BitsOfNulls(8);
    assert Crc64.LittleEndian(0) == Nulls(8);
  }

  lemma GeneratorOdd()
    ensures Crc64.Generator()[63]
  {
    var blocks := LowBlocks(Crc64.LittleEndian(Crc64.POLY));
    FlattenLast(blocks, 8);
    assert Crc64.LittleEndian(Crc64.POLY)[7] == 0x95;
    assert blocks[7][7] == ByteBit(0x95, 7);
  }

  lemma {:induction false} FlattenLast(xs: seq<seq<bool>>, w: nat)
    requires Blocks(xs, w) && xs != [] && w > 0
    ensures Flatten(xs, w)[w * |xs| - 1] == xs[|xs| - 1][w - 1]
  {
    if |xs| > 1 {
      FlattenLast(xs[1..], w);
    } else {
      assert xs[1..] == [];
    }
  }

  /** Dividing an intact payload, checksum included, leaves nothing. */
  lemma IntactLeavesZero(p: seq<bv8>)
    requires Intact(p)
    ensures Residue(p) == Zeros(64)
  {
    var covered, crc, g := p[..|p| - 8], p[|p| - 8..], Crc64.Generator();
    assert p == covered + crc;
    LowFirstConcat(covered, crc);
    SerialConcat(Zeros(64), LowFirst(covered), LowFirst(crc), g);
    GeneratorOdd();
    ClearedByItself(Residue(covered), LowFirst(crc), g);
  }

  /** Damage confined to 64 consecutive bits, wherever they lie, is always noticed. */
  lemma BitBurstRejected(p: seq<bv8>, damaged: seq<bv8>, from: nat)
    requires Intact(p) && |damaged| == |p| && damaged != p && from <= 8 * |p| - 64
    requires var a, b := LowFirst(p), LowFirst(damaged);
             a[..from] == b[..from] && a[from + 64..] == b[from + 64..]
    ensures !Intact(damaged)
  {
    if Intact(damaged) {
      IntactLeavesZero(p);
      IntactLeavesZero(damaged);
      GeneratorOdd();
      BurstInPlace(Zeros(64), LowFirst(p), LowFirst(damaged), from, 64, Crc64.Generator());
      LowFirstInjective(p, damaged);
    }
  }

  /** Damage confined to eight consecutive bytes, in the object, the version or the checksum itself. */
  lemma ByteBurstRejected(p: seq<bv8>, damaged: seq<bv8>, from: nat)
    requires Intact(p) && |damaged| == |p| && damaged != p && from <= |p| - 8
    requires damaged[..from] == p[..from] && damaged[from + 8..] == p[from + 8..]
    ensures !Intact(damaged)
  {
    BitsOutside(p, from);
    BitsOutside(damaged, from);
    BitBurstRejected(p, damaged, 8 * from);
  }

  /** The bits before and behind an eight-byte window are those of the bytes before and behind it. */
  lemma BitsOutside(p: seq<bv8>, from: nat)
    requires from + 8 <= |p|
    ensures LowFirst(p)[..8 * from] == LowFirst(p[..from])
    ensures LowFirst(p)[8 * from + 64..] == LowFirst(p[from + 8..])
  {
    var window := p[from..from + 8];
    assert p == p[..from] + window + p[from + 8..];
    BitsOfThree(p[..from], window, p[from + 8..]);
  }

  lemma BitsOfThree(a: seq<bv8>, b: seq<bv8>, c: seq<bv8>)
    ensures LowFirst(a + b + c) == LowFirst(a) + LowFirst(b) + LowFirst(c)
  {
    LowFirstConcat(a + b, c);
    LowFirstConcat(a, b);
  }
}
