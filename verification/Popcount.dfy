/**
 redisPopcount (bitops.c): bits of a byte string counted byte by byte up to a
 word boundary, then seven 32-bit words at a time, then byte by byte again.
 */
module Popcount {
  import opened BitOrder
  import opened WordCounters

  function Trues(bits: seq<bool>): nat {
    if bits == [] then 0 else (if bits[0] then 1 else 0) + Trues(bits[1..])
  }

  function ByteCount(b: bv8): nat {
    Trues(LowFirstByte(b))
  }

  /** The count of every byte. */
  function Counts(s: seq<bv8>): (c: seq<nat>)
    ensures |c| == |s|
  {
    if s == [] then [] else [ByteCount(s[0])] + Counts(s[1..])
  }

  /** The number of bits set in a byte string. */
  function BitCount(s: seq<bv8>): nat {
    Sum(Counts(s))
  }

  lemma {:induction false} CountsAt(s: seq<bv8>, i: nat)
    requires i < |s|
    ensures Counts(s)[i] == ByteCount(s[i])
  {
    if i > 0 {
      CountsAt(s[1..], i - 1);
    }
  }

  lemma {:induction false} CountsSmall(s: seq<bv8>)
    ensures Small(Counts(s))
  {
    if s != [] {
      ByteCountIsSum(s[0]);
      CountsSmall(s[1..]);
    }
  }

  function BitSum(b: bv8): nat {
    (if b & 1 != 0 then 1 else 0) + (if b & 2 != 0 then 1 else 0)
    + (if b & 4 != 0 then 1 else 0) + (if b & 8 != 0 then 1 else 0)
    + (if b & 16 != 0 then 1 else 0) + (if b & 32 != 0 then 1 else 0)
    + (if b & 64 != 0 then 1 else 0) + (if b & 128 != 0 then 1 else 0)
  }

  lemma TruesFrom(bits: seq<bool>, i: nat)
    requires i < |bits|
    ensures Trues(bits[i..]) == (if bits[i] then 1 else 0) + Trues(bits[i + 1..])
  {
    assert bits[i..][1..] == bits[i + 1..];
  }

  lemma FourTrues(bits: seq<bool>, i: nat)
    requires i + 4 <= |bits|
    ensures Trues(bits[i..]) == (if bits[i] then 1 else 0) + (if bits[i + 1] then 1 else 0)
                                + (if bits[i + 2] then 1 else 0) + (if bits[i + 3] then 1 else 0)
                                + Trues(bits[i + 4..])
  {
    TruesFrom(bits, i);
    TruesFrom(bits, i + 1);
    TruesFrom(bits, i + 2);
    TruesFrom(bits, i + 3);
  }

  lemma TruesOfEight(bits: seq<bool>)
    requires |bits| == 8
    ensures Trues(bits) == (if bits[0] then 1 else 0) + (if bits[1] then 1 else 0)
                           + (if bits[2] then 1 else 0) + (if bits[3] then 1 else 0)
                           + (if bits[4] then 1 else 0) + (if bits[5] then 1 else 0)
                           + (if bits[6] then 1 else 0) + (if bits[7] then 1 else 0)
  {
    var i: nat := |bits| - 8;
    FourTrues(bits, i);
    FourTrues(bits, i + 4);
    assert bits[i..] == bits && bits[i + 8..] == [];
  }

  lemma ByteCountIsSum(b: bv8)
    ensures ByteCount(b) == BitSum(b) <= 8
  {
    TruesOfEight(LowFirstByte(b));
  }

  lemma {:induction false} TruesConcat(a: seq<bool>, b: seq<bool>)
    ensures Trues(a + b) == Trues(a) + Trues(b)
  {
    if a == [] {
      assert a + b == b;
    } else {
      assert (a + b)[1..] == a[1..] + b;
      TruesConcat(a[1..], b);
    }
  }

  /** The count is that of the true bits in the whole string of bits. */
  lemma {:induction false} BitCountIsTrues(s: seq<bv8>)
    ensures BitCount(s) == Trues(LowFirst(s))
  {
    if s != [] {
      var front, rest := [s[0]], s[1..];
      assert s == front + rest;
      LowFirstConcat(front, rest);
      LowFirstSingleton(s[0]);
      TruesConcat(LowFirstByte(s[0]), LowFirst(rest));
      BitCountIsTrues(rest);
      assert Counts(s)[1..] == Counts(rest);
    } else {
      assert LowFirst(s) == [];
    }
  }

  // ---------- the table of bits in a byte ----------

  function Row0(l: bv8): nat
    requires l < 16
  {
    match l
    case 0 => 0 case 1 => 1 case 2 => 1 case 3 => 2 case 4 => 1 case 5 => 2 case 6 => 2 case 7 => 3
    case 8 => 1 case 9 => 2 case 10 => 2 case 11 => 3 case 12 => 2 case 13 => 3 case 14 => 3 case _ => 4
  }

  function Row1(l: bv8): nat
    requires l < 16
  {
    match l
    case 0 => 1 case 1 => 2 case 2 => 2 case 3 => 3 case 4 => 2 case 5 => 3 case 6 => 3 case 7 => 4
    case 8 => 2 case 9 => 3 case 10 => 3 case 11 => 4 case 12 => 3 case 13 => 4 case 14 => 4 case _ => 5
  }

  function Row2(l: bv8): nat
    requires l < 16
  {
    match l
    case 0 => 1 case 1 => 2 case 2 => 2 case 3 => 3 case 4 => 2 case 5 => 3 case 6 => 3 case 7 => 4
    case 8 => 2 case 9 => 3 case 10 => 3 case 11 => 4 case 12 => 3 case 13 => 4 case 14 => 4 case _ => 5
  }

  function Row3(l: bv8): nat
    requires l < 16
  {
    match l
    case 0 => 2 case 1 => 3 case 2 => 3 case 3 => 4 case 4 => 3 case 5 => 4 case 6 => 4 case 7 => 5
    case 8 => 3 case 9 => 4 case 10 => 4 case 11 => 5 case 12 => 4 case 13 => 5 case 14 => 5 case _ => 6
  }

  function Row4(l: bv8): nat
    requires l < 16
  {
    match l
    case 0 => 1 case 1 => 2 case 2 => 2 case 3 => 3 case 4 => 2 case 5 => 3 case 6 => 3 case 7 => 4
    case 8 => 2 case 9 => 3 case 10 => 3 case 11 => 4 case 12 => 3 case 13 => 4 case 14 => 4 case _ => 5
  }

  function Row5(l: bv8): nat
    requires l < 16
  {
    match l
    case 0 => 2 case 1 => 3 case 2 => 3 case 3 => 4 case 4 => 3 case 5 => 4 case 6 => 4 case 7 => 5
    case 8 => 3 case 9 => 4 case 10 => 4 case 11 => 5 case 12 => 4 case 13 => 5 case 14 => 5 case _ => 6
  }

  function Row6(l: bv8): nat
    requires l < 16
  {
    match l
    case 0 => 2 case 1 => 3 case 2 => 3 case 3 => 4 case 4 => 3 case 5 => 4 case 6 => 4 case 7 => 5
    case 8 => 3 case 9 => 4 case 10 => 4 case 11 => 5 case 12 => 4 case 13 => 5 case 14 => 5 case _ => 6
  }

  function Row7(l: bv8): nat
    requires l < 16
  {
    match l
    case 0 => 3 case 1 => 4 case 2 => 4 case 3 => 5 case 4 => 4 case 5 => 5 case 6 => 5 case 7 => 6
    case 8 => 4 case 9 => 5 case 10 => 5 case 11 => 6 case 12 => 5 case 13 => 6 case 14 => 6 case _ => 7
  }

  function Row8(l: bv8): nat
    requires l < 16
  {
    match l
    case 0 => 1 case 1 => 2 case 2 => 2 case 3 => 3 case 4 => 2 case 5 => 3 case 6 => 3 case 7 => 4
    case 8 => 2 case 9 => 3 case 10 => 3 case 11 => 4 case 12 => 3 case 13 => 4 case 14 => 4 case _ => 5
  }

  function Row9(l: bv8): nat
    requires l < 16
  {
    match l
    case 0 => 2 case 1 => 3 case 2 => 3 case 3 => 4 case 4 => 3 case 5 => 4 case 6 => 4 case 7 => 5
    case 8 => 3 case 9 => 4 case 10 => 4 case 11 => 5 case 12 => 4 case 13 => 5 case 14 => 5 case _ => 6
  }

  function Row10(l: bv8): nat
    requires l < 16
  {
    match l
    case 0 => 2 case 1 => 3 case 2 => 3 case 3 => 4 case 4 => 3 case 5 => 4 case 6 => 4 case 7 => 5
    case 8 => 3 case 9 => 4 case 10 => 4 case 11 => 5 case 12 => 4 case 13 => 5 case 14 => 5 case _ => 6
  }

  function Row11(l: bv8): nat
    requires l < 16
  {
    match l
    case 0 => 3 case 1 => 4 case 2 => 4 case 3 => 5 case 4 => 4 case 5 => 5 case 6 => 5 case 7 => 6
    case 8 => 4 case 9 => 5 case 10 => 5 case 11 => 6 case 12 => 5 case 13 => 6 case 14 => 6 case _ => 7
  }

  function Row12(l: bv8): nat
    requires l < 16
  {
    match l
    case 0 => 2 case 1 => 3 case 2 => 3 case 3 => 4 case 4 => 3 case 5 => 4 case 6 => 4 case 7 => 5
    case 8 => 3 case 9 => 4 case 10 => 4 case 11 => 5 case 12 => 4 case 13 => 5 case 14 => 5 case _ => 6
  }

  function Row13(l: bv8): nat
    requires l < 16
  {
    match l
    case 0 => 3 case 1 => 4 case 2 => 4 case 3 => 5 case 4 => 4 case 5 => 5 case 6 => 5 case 7 => 6
    case 8 => 4 case 9 => 5 case 10 => 5 case 11 => 6 case 12 => 5 case 13 => 6 case 14 => 6 case _ => 7
  }

  function Row14(l: bv8): nat
    requires l < 16
  {
    match l
    case 0 => 3 case 1 => 4 case 2 => 4 case 3 => 5 case 4 => 4 case 5 => 5 case 6 => 5 case 7 => 6
    case 8 => 4 case 9 => 5 case 10 => 5 case 11 => 6 case 12 => 5 case 13 => 6 case 14 => 6 case _ => 7
  }

  function Row15(l: bv8): nat
    requires l < 16
  {
    match l
    case 0 => 4 case 1 => 5 case 2 => 5 case 3 => 6 case 4 => 5 case 5 => 6 case 6 => 6 case 7 => 7
    case 8 => 5 case 9 => 6 case 10 => 6 case 11 => 7 case 12 => 6 case 13 => 7 case 14 => 7 case _ => 8
  }

  function BitsInByte(b: bv8): nat {
    var l := b & 15;
    match b >> 4
    case 0 => Row0(l)
    case 1 => Row1(l)
    case 2 => Row2(l)
    case 3 => Row3(l)
    case 4 => Row4(l)
    case 5 => Row5(l)
    case 6 => Row6(l)
    case 7 => Row7(l)
    case 8 => Row8(l)
    case 9 => Row9(l)
    case 10 => Row10(l)
    case 11 => Row11(l)
    case 12 => Row12(l)
    case 13 => Row13(l)
    case 14 => Row14(l)
    case _ => Row15(l)
  }

  lemma Row0Correct(b: bv8)
    requires b >> 4 == 0
    ensures BitsInByte(b) == BitSum(b)
  {}

  lemma Row1Correct(b: bv8)
    requires b >> 4 == 1
    ensures BitsInByte(b) == BitSum(b)
  {}

  lemma Row2Correct(b: bv8)
    requires b >> 4 == 2
    ensures BitsInByte(b) == BitSum(b)
  {}

  lemma Row3Correct(b: bv8)
    requires b >> 4 == 3
    ensures BitsInByte(b) == BitSum(b)
  {}

  lemma Row4Correct(b: bv8)
    requires b >> 4 == 4
    ensures BitsInByte(b) == BitSum(b)
  {}

  lemma Row5Correct(b: bv8)
    requires b >> 4 == 5
    ensures BitsInByte(b) == BitSum(b)
  {}

  lemma Row6Correct(b: bv8)
    requires b >> 4 == 6
    ensures BitsInByte(b) == BitSum(b)
  {}

  lemma Row7Correct(b: bv8)
    requires b >> 4 == 7
    ensures BitsInByte(b) == BitSum(b)
  {}

  lemma Row8Correct(b: bv8)
    requires b >> 4 == 8
    ensures BitsInByte(b) == BitSum(b)
  {}

  lemma Row9Correct(b: bv8)
    requires b >> 4 == 9
    ensures BitsInByte(b) == BitSum(b)
  {}

  lemma Row10Correct(b: bv8)
    requires b >> 4 == 10
    ensures BitsInByte(b) == BitSum(b)
  {}

  lemma Row11Correct(b: bv8)
    requires b >> 4 == 11
    ensures BitsInByte(b) == BitSum(b)
  {}

  lemma Row12Correct(b: bv8)
    requires b >> 4 == 12
    ensures BitsInByte(b) == BitSum(b)
  {}

  lemma Row13Correct(b: bv8)
    requires b >> 4 == 13
    ensures BitsInByte(b) == BitSum(b)
  {}

  lemma Row14Correct(b: bv8)
    requires b >> 4 == 14
    ensures BitsInByte(b) == BitSum(b)
  {}

  lemma Row15Correct(b: bv8)
    requires b >> 4 == 15
    ensures BitsInByte(b) == BitSum(b)
  {}

  lemma TableCorrect(b: bv8)
    ensures BitsInByte(b) == ByteCount(b)
  {
    ByteCountIsSum(b);
    match b >> 4
    case 0 => Row0Correct(b);
    case 1 => Row1Correct(b);
    case 2 => Row2Correct(b);
    case 3 => Row3Correct(b);
    case 4 => Row4Correct(b);
    case 5 => Row5Correct(b);
    case 6 => Row6Correct(b);
    case 7 => Row7Correct(b);
    case 8 => Row8Correct(b);
    case 9 => Row9Correct(b);
    case 10 => Row10Correct(b);
    case 11 => Row11Correct(b);
    case 12 => Row12Correct(b);
    case 13 => Row13Correct(b);
    case 14 => Row14Correct(b);
    case _ => Row15Correct(b);
  }

  // ---------- folding a word ----------

  /** A 32-bit little-endian load. */
  function Load(b0: bv8, b1: bv8, b2: bv8, b3: bv8): bv32 {
    (b0 as bv32) | ((b1 as bv32) << 8) | ((b2 as bv32) << 16) | ((b3 as bv32) << 24)
  }

  function Fold2(x: bv32): bv32 {
    var pairs := x - ((x >> 1) & 0x55555555);
    (pairs & 0x33333333) + ((pairs >> 2) & 0x33333333)
  }

  function Fold(x: bv32): bv32 {
    (Fold2(x) + (Fold2(x) >> 4)) & 0x0F0F0F0F
  }

  /** The bits of a byte, counted in byte arithmetic. */
  function Tally(b: bv8): bv8 {
    (b & 1) + ((b >> 1) & 1) + ((b >> 2) & 1) + ((b >> 3) & 1)
    + ((b >> 4) & 1) + ((b >> 5) & 1) + ((b >> 6) & 1) + ((b >> 7) & 1)
  }

  lemma FoldByte0(x: bv32)
    ensures Fold(x) & 0xff == Tally((x & 0xff) as bv8) as bv32
  {}

  lemma FoldByte1(x: bv32)
    ensures (Fold(x) >> 8) & 0xff == Tally(((x >> 8) & 0xff) as bv8) as bv32
  {}

  lemma FoldByte2(x: bv32)
    ensures (Fold(x) >> 16) & 0xff == Tally(((x >> 16) & 0xff) as bv8) as bv32
  {}

  lemma FoldByte3(x: bv32)
    ensures (Fold(x) >> 24) & 0xff == Tally(((x >> 24) & 0xff) as bv8) as bv32
  {}

  lemma LoadBytes(b0: bv8, b1: bv8, b2: bv8, b3: bv8, x: bv32)
    requires x == Load(b0, b1, b2, b3)
    ensures (x & 0xff) as bv8 == b0 && ((x >> 8) & 0xff) as bv8 == b1
    ensures ((x >> 16) & 0xff) as bv8 == b2 && ((x >> 24) & 0xff) as bv8 == b3
  {}

  lemma FoldBytes(b0: bv8, b1: bv8, b2: bv8, b3: bv8, x: bv32, y: bv32)
    requires x == Load(b0, b1, b2, b3) && y == Fold(x)
    ensures y & 0xff == Tally(b0) as bv32 && (y >> 8) & 0xff == Tally(b1) as bv32
    ensures (y >> 16) & 0xff == Tally(b2) as bv32 && (y >> 24) & 0xff == Tally(b3) as bv32
  {
    LoadBytes(b0, b1, b2, b3, x);
    FoldByte0(x);
    FoldByte1(x);
    FoldByte2(x);
    FoldByte3(x);
  }

  lemma LoadedValue(a: bv8, b: bv8, c: bv8, d: bv8)
    ensures ((a as bv32) | ((b as bv32) << 8) | ((c as bv32) << 16) | ((d as bv32) << 24)) as int
            == (a as int) + 0x100 * (b as int) + 0x10000 * (c as int) + 0x1000000 * (d as int)
  {}

  lemma IsLoaded(y: bv32, a: bv8, b: bv8, c: bv8, d: bv8)
    requires y & 0xff == a as bv32 && (y >> 8) & 0xff == b as bv32
    requires (y >> 16) & 0xff == c as bv32 && (y >> 24) & 0xff == d as bv32
    ensures y == ((a as bv32) | ((b as bv32) << 8) | ((c as bv32) << 16) | ((d as bv32) << 24))
  {}

  lemma FieldValues(y: bv32, a: bv8, b: bv8, c: bv8, d: bv8)
    requires y & 0xff == a as bv32 && (y >> 8) & 0xff == b as bv32
    requires (y >> 16) & 0xff == c as bv32 && (y >> 24) & 0xff == d as bv32
    ensures y as int == (a as int) + 0x100 * (b as int) + 0x10000 * (c as int) + 0x1000000 * (d as int)
  {
    IsLoaded(y, a, b, c, d);
    LoadedValue(a, b, c, d);
  }

  lemma TallyIsSum(b: bv8)
    ensures Tally(b) <= 8 && Tally(b) as int == BitSum(b)
  {}

  lemma TallyValue(b: bv8)
    ensures Tally(b) <= 8 && Tally(b) as int == ByteCount(b)
  {
    TallyIsSum(b);
    ByteCountIsSum(b);
  }

  /** Folding leaves the bit count of each byte in that byte's place. */
  lemma FoldValue(b0: bv8, b1: bv8, b2: bv8, b3: bv8, x: bv32, y: bv32)
    requires x == Load(b0, b1, b2, b3) && y == Fold(x)
    ensures y as int == Fields(ByteCount(b0), ByteCount(b1), ByteCount(b2), ByteCount(b3))
  {
    FoldBytes(b0, b1, b2, b3, x, y);
    TallyValue(b0);
    TallyValue(b1);
    TallyValue(b2);
    TallyValue(b3);
    FieldValues(y, Tally(b0), Tally(b1), Tally(b2), Tally(b3));
  }

  method FoldedBytes(b0: bv8, b1: bv8, b2: bv8, b3: bv8) returns (value: nat)
    ensures value == Fields(ByteCount(b0), ByteCount(b1), ByteCount(b2), ByteCount(b3))
  {
    var aux := Load(b0, b1, b2, b3);
    var folded := Fold(aux);
    FoldValue(b0, b1, b2, b3, aux, folded);
    value := folded as int;
  }

  lemma FieldsOfCounts(s: seq<bv8>, i: nat)
    requires i + 4 <= |s|
    ensures FieldsAt(Counts(s), i)
            == Fields(ByteCount(s[i]), ByteCount(s[i + 1]), ByteCount(s[i + 2]), ByteCount(s[i + 3]))
  {
    CountsAt(s, i);
    CountsAt(s, i + 1);
    CountsAt(s, i + 2);
    CountsAt(s, i + 3);
  }

  method FoldedWord(s: seq<bv8>, i: nat) returns (value: nat)
    requires i + 4 <= |s|
    ensures value == FieldsAt(Counts(s), i)
  {
    value := FoldedBytes(s[i], s[i + 1], s[i + 2], s[i + 3]);
    FieldsOfCounts(s, i);
  }

  /** The 28-byte step of the loop counts exactly the bits it passes. */
  method CountSevenWords(s: seq<bv8>, i: nat) returns (bits: nat)
    requires i + 28 <= |s|
    ensures Sum(Counts(s)[i..]) == bits + Sum(Counts(s)[i + 28..])
  {
    var aux1 := FoldedWord(s, i);
    var aux2 := FoldedWord(s, i + 4);
    var aux3 := FoldedWord(s, i + 8);
    var aux4 := FoldedWord(s, i + 12);
    var aux5 := FoldedWord(s, i + 16);
    var aux6 := FoldedWord(s, i + 20);
    var aux7 := FoldedWord(s, i + 24);
    CountsSmall(s);
    var sum := Add32(Add32(Add32(Add32(Add32(Add32(aux1, aux2), aux3), aux4), aux5), aux6), aux7);
    SixMore(Counts(s), i, 1, aux1, [aux2, aux3, aux4, aux5, aux6, aux7]);
    SevenWords(Counts(s), i, 7, sum);
    bits := ((sum * 0x01010101) % WORD) / 0x1000000;
  }

  method CountByte(s: seq<bv8>, i: nat) returns (n: nat)
    requires i < |s|
    ensures Sum(Counts(s)[i..]) == n + Sum(Counts(s)[i + 1..])
  {
    TableCorrect(s[i]);
    CountsAt(s, i);
    SumFrom(Counts(s), i);
    n := BitsInByte(s[i]);
  }

  /** The bits of `s`, which lies at the given address. */
  method Popcount(s: seq<bv8>, address: nat) returns (bits: nat)
    ensures bits == BitCount(s)
  {
    bits := 0;
    var p: nat, count: nat := 0, |s|;
    while (address + p) % 4 != 0 && count > 0
      invariant p + count == |s|
      invariant bits + Sum(Counts(s)[p..]) == BitCount(s)
      decreases count
    {
      var more := CountByte(s, p);
      bits := bits + more;
      p, count := p + 1, count - 1;
    }
    while count >= 28
      invariant p + count == |s|
      invariant bits + Sum(Counts(s)[p..]) == BitCount(s)
    {
      var more := CountSevenWords(s, p);
      bits := bits + more;
      p, count := p + 28, count - 28;
    }
    while count > 0
      invariant p + count == |s|
      invariant bits + Sum(Counts(s)[p..]) == BitCount(s)
    {
      var more := CountByte(s, p);
      bits := bits + more;
      p, count := p + 1, count - 1;
    }
  }
}
