/**
 Byte strings as coefficient sequences, with the bits of each byte taken low bit
 first (as a reflected checksum does) or high bit first.
 */
module BitOrder {
  import opened BinaryPolynomial

  function ByteBit(b: bv8, i: nat): bool
    requires i < 8
  {
    match i
    case 0 => b & 1 != 0
    case 1 => b & 2 != 0
    case 2 => b & 4 != 0
    case 3 => b & 8 != 0
    case 4 => b & 16 != 0
    case 5 => b & 32 != 0
    case 6 => b & 64 != 0
    case _ => b & 128 != 0
  }

  function LowFirstByte(b: bv8): (r: seq<bool>)
    ensures |r| == 8
  {
    seq(8, i requires 0 <= i < 8 => ByteBit(b, i))
  }

  function HighFirstByte(b: bv8): (r: seq<bool>)
    ensures |r| == 8
  {
    seq(8, i requires 0 <= i < 8 => ByteBit(b, 7 - i))
  }

  function LowBlocks(s: seq<bv8>): (r: seq<seq<bool>>)
    ensures |r| == |s| && Blocks(r, 8)
  {
    seq(|s|, i requires 0 <= i < |s| => LowFirstByte(s[i]))
  }

  function HighBlocks(s: seq<bv8>): (r: seq<seq<bool>>)
    ensures |r| == |s| && Blocks(r, 8)
  {
    seq(|s|, i requires 0 <= i < |s| => HighFirstByte(s[i]))
  }

  function LowFirst(s: seq<bv8>): (r: seq<bool>)
    ensures |r| == 8 * |s|
  {
    Flatten(LowBlocks(s), 8)
  }

  function HighFirst(s: seq<bv8>): (r: seq<bool>)
    ensures |r| == 8 * |s|
  {
    Flatten(HighBlocks(s), 8)
  }

  lemma LowFirstConcat(a: seq<bv8>, b: seq<bv8>)
    ensures LowFirst(a + b) == LowFirst(a) + LowFirst(b)
  {
    FlattenConcat(LowBlocks(a), LowBlocks(b), 8);
    assert LowBlocks(a + b) == LowBlocks(a) + LowBlocks(b);
  }

  lemma HighFirstConcat(a: seq<bv8>, b: seq<bv8>)
    ensures HighFirst(a + b) == HighFirst(a) + HighFirst(b)
  {
    FlattenConcat(HighBlocks(a), HighBlocks(b), 8);
    assert HighBlocks(a + b) == HighBlocks(a) + HighBlocks(b);
  }

  lemma LowFirstSingleton(b: bv8)
    ensures LowFirst([b]) == LowFirstByte(b)
  {
    assert LowBlocks([b]) == [LowFirstByte(b)];
    assert Flatten([LowFirstByte(b)], 8) == LowFirstByte(b) + Flatten([], 8);
  }

  lemma HighFirstSingleton(b: bv8)
    ensures HighFirst([b]) == HighFirstByte(b)
  {
    assert HighBlocks([b]) == [HighFirstByte(b)];
    assert Flatten([HighFirstByte(b)], 8) == HighFirstByte(b) + Flatten([], 8);
  }

  lemma LowFirstByteInjective(a: bv8, b: bv8)
    requires LowFirstByte(a) == LowFirstByte(b)
    ensures a == b
  {
    assert forall i: nat :: i < 8 ==> LowFirstByte(a)[i] == ByteBit(a, i) && LowFirstByte(b)[i] == ByteBit(b, i);
    assert ByteBit(a, 0) == ByteBit(b, 0) && ByteBit(a, 1) == ByteBit(b, 1);
    assert ByteBit(a, 2) == ByteBit(b, 2) && ByteBit(a, 3) == ByteBit(b, 3);
    assert ByteBit(a, 4) == ByteBit(b, 4) && ByteBit(a, 5) == ByteBit(b, 5);
    assert ByteBit(a, 6) == ByteBit(b, 6) && ByteBit(a, 7) == ByteBit(b, 7);
  }

  lemma LowFirstInjective(a: seq<bv8>, b: seq<bv8>)
    requires |a| == |b| && LowFirst(a) == LowFirst(b)
    ensures a == b
  {
    FlattenInjective(LowBlocks(a), LowBlocks(b), 8);
    forall i | 0 <= i < |a| ensures a[i] == b[i] {
      assert LowBlocks(a)[i] == LowFirstByte(a[i]) && LowBlocks(b)[i] == LowFirstByte(b[i]);
      LowFirstByteInjective(a[i], b[i]);
    }
  }

  lemma ByteBitSum(a: bv8, b: bv8, sum: bv8, i: nat)
    requires sum == a ^ b && i < 8
    ensures ByteBit(sum, i) == (ByteBit(a, i) != ByteBit(b, i))
  {
    match i
    case 0 =>
    case 1 =>
    case 2 =>
    case 3 =>
    case 4 =>
    case 5 =>
    case 6 =>
    case _ =>
  }

  lemma ByteSum(a: bv8, b: bv8, sum: bv8)
    requires sum == a ^ b
    ensures LowFirstByte(sum) == Add(LowFirstByte(a), LowFirstByte(b))
    ensures HighFirstByte(sum) == Add(HighFirstByte(a), HighFirstByte(b))
  {
    forall i: nat | i < 8 ensures ByteBit(sum, i) == (ByteBit(a, i) != ByteBit(b, i)) {
      ByteBitSum(a, b, sum, i);
    }
  }

  function Nulls(n: nat): (r: seq<bv8>)
    ensures |r| == n
  {
    seq(n, _ => 0)
  }

  lemma {:induction false} BitsOfNulls(n: nat)
    ensures LowFirst(Nulls(n)) == HighFirst(Nulls(n)) == Zeros(8 * n)
  {
    if n > 0 {
      assert Nulls(n) == Nulls(1) + Nulls(n - 1);
      assert Nulls(1) == [0];
      LowFirstConcat(Nulls(1), Nulls(n - 1));
      HighFirstConcat(Nulls(1), Nulls(n - 1));
      BitsOfNulls(n - 1);
      LowFirstSingleton(0);
      HighFirstSingleton(0);
      assert LowFirstByte(0) == HighFirstByte(0) == Zeros(8);
    }
  }
}
