/**
 The CRC-16 (XMODEM) checksum of crc16.c: bytes are taken high bit first and the
 table is indexed with the high byte of the register. keyHashSlot maps keys to
 the 16384 hash slots with it.
 */
module Crc16 {
  import opened BinaryPolynomial
  import opened BitOrder

  const POLY: bv16 := 0x1021

  function BitStep(c: bv16): bv16 {
    if c & 0x8000 != 0 then (c << 1) ^ POLY else c << 1
  }

  function ByteStep(c: bv16): bv16 {
    BitStep(BitStep(BitStep(BitStep(BitStep(BitStep(BitStep(BitStep(c))))))))
  }

  // ---------- words as coefficients, high bit first ----------

  function BigEndian(c: bv16): (r: seq<bv8>)
    ensures |r| == 2
  {
    [(c >> 8) as bv8, (c & 0xff) as bv8]
  }

  function WordBits(c: bv16): (r: seq<bool>)
    ensures |r| == 16
  {
    HighFirst(BigEndian(c))
  }

  function Generator(): (g: seq<bool>)
    ensures |g| == 16
  {
    WordBits(POLY)
  }

  lemma BytesOfSum(a: bv16, b: bv16, sum: bv16)
    requires sum == a ^ b
    ensures (sum >> 8) as bv8 == ((a >> 8) as bv8) ^ ((b >> 8) as bv8)
    ensures (sum & 0xff) as bv8 == ((a & 0xff) as bv8) ^ ((b & 0xff) as bv8)
  {}

  lemma BytewiseSum(a: seq<bv8>, b: seq<bv8>, sum: seq<bv8>)
    requires |a| == |b| == |sum| == 2 && sum[0] == a[0] ^ b[0] && sum[1] == a[1] ^ b[1]
    ensures HighFirst(sum) == Add(HighFirst(a), HighFirst(b))
  {
    ByteSum(a[0], b[0], sum[0]);
    ByteSum(a[1], b[1], sum[1]);
    FlattenSum(HighBlocks(a), HighBlocks(b), HighBlocks(sum), 8);
  }

  lemma WordSum(a: bv16, b: bv16, sum: bv16)
    requires sum == a ^ b
    ensures WordBits(sum) == Add(WordBits(a), WordBits(b))
  {
    BytesOfSum(a, b, sum);
    BytewiseSum(BigEndian(a), BigEndian(b), BigEndian(sum));
  }

  // A byte shifted up by one, the high bit of the next byte entering below.
  function DoubleByte(b: bv8, next: bv8): bv8 {
    (b << 1) | (next >> 7)
  }

  lemma DoubleByteBits(b: bv8, next: bv8)
    ensures HighFirstByte(DoubleByte(b, next)) == HighFirstByte(b)[1..] + [HighFirstByte(next)[0]]
  {}

  lemma BytesOfDouble(c: bv16, double: bv16)
    requires double == c << 1
    ensures (double >> 8) as bv8 == DoubleByte((c >> 8) as bv8, (c & 0xff) as bv8)
    ensures (double & 0xff) as bv8 == DoubleByte((c & 0xff) as bv8, 0)
  {}

  lemma WordDouble(c: bv16, double: bv16)
    requires double == c << 1
    ensures WordBits(double) == WordBits(c)[1..] + [false]
  {
    BytesOfDouble(c, double);
    DoubleByteBits((c >> 8) as bv8, (c & 0xff) as bv8);
    DoubleByteBits((c & 0xff) as bv8, 0);
    assert !HighFirstByte(0)[0];
    FlattenShift(HighBlocks(BigEndian(c)), HighBlocks(BigEndian(double)), 8);
  }

  // ---------- the word step is the division register's clock ----------

  lemma HighBit(c: bv16)
    ensures WordBits(c)[0] == (c & 0x8000 != 0)
  {
    assert WordBits(c)[0] == ByteBit((c >> 8) as bv8, 7);
  }

  lemma BitStepIsClock(c: bv16)
    ensures WordBits(BitStep(c)) == Clock(WordBits(c), false, Generator())
  {
    HighBit(c);
    WordDouble(c, c << 1);
    if c & 0x8000 != 0 {
      WordSum(c << 1, POLY, BitStep(c));
    }
  }

  function Repeat(c: bv16, n: nat): bv16
    decreases n
  {
    if n == 0 then c else Repeat(BitStep(c), n - 1)
  }

  lemma {:induction false} RepeatIsSerial(c: bv16, n: nat)
    ensures WordBits(Repeat(c, n)) == Serial(WordBits(c), Zeros(n), Generator())
    decreases n
  {
    if n > 0 {
      BitStepIsClock(c);
      assert Zeros(n)[1..] == Zeros(n - 1);
      RepeatIsSerial(BitStep(c), n - 1);
    }
  }

  lemma ByteStepIsSerial(c: bv16)
    ensures WordBits(ByteStep(c)) == Serial(WordBits(c), Zeros(8), Generator())
  {
    RepeatIsSerial(c, 8);
    assert Repeat(c, 8) == Repeat(BitStep(BitStep(BitStep(BitStep(c)))), 4);
  }

  // ---------- the table ----------

  function Row0(l: bv8): bv16
    requires l < 16
  {
    match l
    case 0 => 0x0000
    case 1 => 0x1021
    case 2 => 0x2042
    case 3 => 0x3063
    case 4 => 0x4084
    case 5 => 0x50a5
    case 6 => 0x60c6
    case 7 => 0x70e7
    case 8 => 0x8108
    case 9 => 0x9129
    case 10 => 0xa14a
    case 11 => 0xb16b
    case 12 => 0xc18c
    case 13 => 0xd1ad
    case 14 => 0xe1ce
    case _ => 0xf1ef
  }

  function Row1(l: bv8): bv16
    requires l < 16
  {
    match l
    case 0 => 0x1231
    case 1 => 0x0210
    case 2 => 0x3273
    case 3 => 0x2252
    case 4 => 0x52b5
    case 5 => 0x4294
    case 6 => 0x72f7
    case 7 => 0x62d6
    case 8 => 0x9339
    case 9 => 0x8318
    case 10 => 0xb37b
    case 11 => 0xa35a
    case 12 => 0xd3bd
    case 13 => 0xc39c
    case 14 => 0xf3ff
    case _ => 0xe3de
  }

  function Row2(l: bv8): bv16
    requires l < 16
  {
    match l
    case 0 => 0x2462
    case 1 => 0x3443
    case 2 => 0x0420
    case 3 => 0x1401
    case 4 => 0x64e6
    case 5 => 0x74c7
    case 6 => 0x44a4
    case 7 => 0x5485
    case 8 => 0xa56a
    case 9 => 0xb54b
    case 10 => 0x8528
    case 11 => 0x9509
    case 12 => 0xe5ee
    case 13 => 0xf5cf
    case 14 => 0xc5ac
    case _ => 0xd58d
  }

  function Row3(l: bv8): bv16
    requires l < 16
  {
    match l
    case 0 => 0x3653
    case 1 => 0x2672
    case 2 => 0x1611
    case 3 => 0x0630
    case 4 => 0x76d7
    case 5 => 0x66f6
    case 6 => 0x5695
    case 7 => 0x46b4
    case 8 => 0xb75b
    case 9 => 0xa77a
    case 10 => 0x9719
    case 11 => 0x8738
    case 12 => 0xf7df
    case 13 => 0xe7fe
    case 14 => 0xd79d
    case _ => 0xc7bc
  }

  function Row4(l: bv8): bv16
    requires l < 16
  {
    match l
    case 0 => 0x48c4
    case 1 => 0x58e5
    case 2 => 0x6886
    case 3 => 0x78a7
    case 4 => 0x0840
    case 5 => 0x1861
    case 6 => 0x2802
    case 7 => 0x3823
    case 8 => 0xc9cc
    case 9 => 0xd9ed
    case 10 => 0xe98e
    case 11 => 0xf9af
    case 12 => 0x8948
    case 13 => 0x9969
    case 14 => 0xa90a
    case _ => 0xb92b
  }

  function Row5(l: bv8): bv16
    requires l < 16
  {
    match l
    case 0 => 0x5af5
    case 1 => 0x4ad4
    case 2 => 0x7ab7
    case 3 => 0x6a96
    case 4 => 0x1a71
    case 5 => 0x0a50
    case 6 => 0x3a33
    case 7 => 0x2a12
    case 8 => 0xdbfd
    case 9 => 0xcbdc
    case 10 => 0xfbbf
    case 11 => 0xeb9e
    case 12 => 0x9b79
    case 13 => 0x8b58
    case 14 => 0xbb3b
    case _ => 0xab1a
  }

  function Row6(l: bv8): bv16
    requires l < 16
  {
    match l
    case 0 => 0x6ca6
    case 1 => 0x7c87
    case 2 => 0x4ce4
    case 3 => 0x5cc5
    case 4 => 0x2c22
    case 5 => 0x3c03
    case 6 => 0x0c60
    case 7 => 0x1c41
    case 8 => 0xedae
    case 9 => 0xfd8f
    case 10 => 0xcdec
    case 11 => 0xddcd
    case 12 => 0xad2a
    case 13 => 0xbd0b
    case 14 => 0x8d68
    case _ => 0x9d49
  }

  function Row7(l: bv8): bv16
    requires l < 16
  {
    match l
    case 0 => 0x7e97
    case 1 => 0x6eb6
    case 2 => 0x5ed5
    case 3 => 0x4ef4
    case 4 => 0x3e13
    case 5 => 0x2e32
    case 6 => 0x1e51
    case 7 => 0x0e70
    case 8 => 0xff9f
    case 9 => 0xefbe
    case 10 => 0xdfdd
    case 11 => 0xcffc
    case 12 => 0xbf1b
    case 13 => 0xaf3a
    case 14 => 0x9f59
    case _ => 0x8f78
  }

  function Row8(l: bv8): bv16
    requires l < 16
  {
    match l
    case 0 => 0x9188
    case 1 => 0x81a9
    case 2 => 0xb1ca
    case 3 => 0xa1eb
    case 4 => 0xd10c
    case 5 => 0xc12d
    case 6 => 0xf14e
    case 7 => 0xe16f
    case 8 => 0x1080
    case 9 => 0x00a1
    case 10 => 0x30c2
    case 11 => 0x20e3
    case 12 => 0x5004
    case 13 => 0x4025
    case 14 => 0x7046
    case _ => 0x6067
  }

  function Row9(l: bv8): bv16
    requires l < 16
  {
    match l
    case 0 => 0x83b9
    case 1 => 0x9398
    case 2 => 0xa3fb
    case 3 => 0xb3da
    case 4 => 0xc33d
    case 5 => 0xd31c
    case 6 => 0xe37f
    case 7 => 0xf35e
    case 8 => 0x02b1
    case 9 => 0x1290
    case 10 => 0x22f3
    case 11 => 0x32d2
    case 12 => 0x4235
    case 13 => 0x5214
    case 14 => 0x6277
    case _ => 0x7256
  }

  function Row10(l: bv8): bv16
    requires l < 16
  {
    match l
    case 0 => 0xb5ea
    case 1 => 0xa5cb
    case 2 => 0x95a8
    case 3 => 0x8589
    case 4 => 0xf56e
    case 5 => 0xe54f
    case 6 => 0xd52c
    case 7 => 0xc50d
    case 8 => 0x34e2
    case 9 => 0x24c3
    case 10 => 0x14a0
    case 11 => 0x0481
    case 12 => 0x7466
    case 13 => 0x6447
    case 14 => 0x5424
    case _ => 0x4405
  }

  function Row11(l: bv8): bv16
    requires l < 16
  {
    match l
    case 0 => 0xa7db
    case 1 => 0xb7fa
    case 2 => 0x8799
    case 3 => 0x97b8
    case 4 => 0xe75f
    case 5 => 0xf77e
    case 6 => 0xc71d
    case 7 => 0xd73c
    case 8 => 0x26d3
    case 9 => 0x36f2
    case 10 => 0x0691
    case 11 => 0x16b0
    case 12 => 0x6657
    case 13 => 0x7676
    case 14 => 0x4615
    case _ => 0x5634
  }

  function Row12(l: bv8): bv16
    requires l < 16
  {
    match l
    case 0 => 0xd94c
    case 1 => 0xc96d
    case 2 => 0xf90e
    case 3 => 0xe92f
    case 4 => 0x99c8
    case 5 => 0x89e9
    case 6 => 0xb98a
    case 7 => 0xa9ab
    case 8 => 0x5844
    case 9 => 0x4865
    case 10 => 0x7806
    case 11 => 0x6827
    case 12 => 0x18c0
    case 13 => 0x08e1
    case 14 => 0x3882
    case _ => 0x28a3
  }

  function Row13(l: bv8): bv16
    requires l < 16
  {
    match l
    case 0 => 0xcb7d
    case 1 => 0xdb5c
    case 2 => 0xeb3f
    case 3 => 0xfb1e
    case 4 => 0x8bf9
    case 5 => 0x9bd8
    case 6 => 0xabbb
    case 7 => 0xbb9a
    case 8 => 0x4a75
    case 9 => 0x5a54
    case 10 => 0x6a37
    case 11 => 0x7a16
    case 12 => 0x0af1
    case 13 => 0x1ad0
    case 14 => 0x2ab3
    case _ => 0x3a92
  }

  function Row14(l: bv8): bv16
    requires l < 16
  {
    match l
    case 0 => 0xfd2e
    case 1 => 0xed0f
    case 2 => 0xdd6c
    case 3 => 0xcd4d
    case 4 => 0xbdaa
    case 5 => 0xad8b
    case 6 => 0x9de8
    case 7 => 0x8dc9
    case 8 => 0x7c26
    case 9 => 0x6c07
    case 10 => 0x5c64
    case 11 => 0x4c45
    case 12 => 0x3ca2
    case 13 => 0x2c83
    case 14 => 0x1ce0
    case _ => 0x0cc1
  }

  function Row15(l: bv8): bv16
    requires l < 16
  {
    match l
    case 0 => 0xef1f
    case 1 => 0xff3e
    case 2 => 0xcf5d
    case 3 => 0xdf7c
    case 4 => 0xaf9b
    case 5 => 0xbfba
    case 6 => 0x8fd9
    case 7 => 0x9ff8
    case 8 => 0x6e17
    case 9 => 0x7e36
    case 10 => 0x4e55
    case 11 => 0x5e74
    case 12 => 0x2e93
    case 13 => 0x3eb2
    case 14 => 0x0ed1
    case _ => 0x1ef0
  }

  function Quarter0(row: bv8, column: bv8): bv16
    requires row < 4 && column < 16
  {
    match row
    case 0 => Row0(column)
    case 1 => Row1(column)
    case 2 => Row2(column)
    case _ => Row3(column)
  }

  function Quarter1(row: bv8, column: bv8): bv16
    requires row < 4 && column < 16
  {
    match row
    case 0 => Row4(column)
    case 1 => Row5(column)
    case 2 => Row6(column)
    case _ => Row7(column)
  }

  function Quarter2(row: bv8, column: bv8): bv16
    requires row < 4 && column < 16
  {
    match row
    case 0 => Row8(column)
    case 1 => Row9(column)
    case 2 => Row10(column)
    case _ => Row11(column)
  }

  function Quarter3(row: bv8, column: bv8): bv16
    requires row < 4 && column < 16
  {
    match row
    case 0 => Row12(column)
    case 1 => Row13(column)
    case 2 => Row14(column)
    case _ => Row15(column)
  }

  /** The entry of the table at index b. */
  function Table(b: bv8): bv16 {
    var row, column := b >> 4, b & 0xf;
    if b < 64 then Quarter0(row, column)
    else if b < 128 then Quarter1(row - 4, column)
    else if b < 192 then Quarter2(row - 8, column)
    else Quarter3(row - 12, column)
  }

  lemma Row0Correct(b: bv8)
    requires b >> 4 == 0
    ensures Table(b) == ByteStep((b as bv16) << 8)
  {}

  lemma Row1Correct(b: bv8)
    requires b >> 4 == 1
    ensures Table(b) == ByteStep((b as bv16) << 8)
  {}

  lemma Row2Correct(b: bv8)
    requires b >> 4 == 2
    ensures Table(b) == ByteStep((b as bv16) << 8)
  {}

  lemma Row3Correct(b: bv8)
    requires b >> 4 == 3
    ensures Table(b) == ByteStep((b as bv16) << 8)
  {}

  lemma Row4Correct(b: bv8)
    requires b >> 4 == 4
    ensures Table(b) == ByteStep((b as bv16) << 8)
  {}

  lemma Row5Correct(b: bv8)
    requires b >> 4 == 5
    ensures Table(b) == ByteStep((b as bv16) << 8)
  {}

  lemma Row6Correct(b: bv8)
    requires b >> 4 == 6
    ensures Table(b) == ByteStep((b as bv16) << 8)
  {}

  lemma Row7Correct(b: bv8)
    requires b >> 4 == 7
    ensures Table(b) == ByteStep((b as bv16) << 8)
  {}

  lemma Row8Correct(b: bv8)
    requires b >> 4 == 8
    ensures Table(b) == ByteStep((b as bv16) << 8)
  {}

  lemma Row9Correct(b: bv8)
    requires b >> 4 == 9
    ensures Table(b) == ByteStep((b as bv16) << 8)
  {}

  lemma Row10Correct(b: bv8)
    requires b >> 4 == 10
    ensures Table(b) == ByteStep((b as bv16) << 8)
  {}

  lemma Row11Correct(b: bv8)
    requires b >> 4 == 11
    ensures Table(b) == ByteStep((b as bv16) << 8)
  {}

  lemma Row12Correct(b: bv8)
    requires b >> 4 == 12
    ensures Table(b) == ByteStep((b as bv16) << 8)
  {}

  lemma Row13Correct(b: bv8)
    requires b >> 4 == 13
    ensures Table(b) == ByteStep((b as bv16) << 8)
  {}

  lemma Row14Correct(b: bv8)
    requires b >> 4 == 14
    ensures Table(b) == ByteStep((b as bv16) << 8)
  {}

  lemma Row15Correct(b: bv8)
    requires b >> 4 == 15
    ensures Table(b) == ByteStep((b as bv16) << 8)
  {}

  /** Every constant of the table is what eight steps make of its index. */
  lemma TableCorrect(b: bv8)
    ensures Table(b) == ByteStep((b as bv16) << 8)
  {
    match b >> 4
    case 0 => Row0Correct(b);
    case 1 => Row1Correct(b);
    case 2 => Row2Correct(b);
    case 3 => Row3Correct(b);
    case 4 => Row4Correct(b);
    case 5 => Row5Correct(b);
    case 6 => Row6Correct(b);
    case 7 => Row7Correct(b);
    case 8 => Row8Correct(b);
    case 9 => Row9Correct(b);
    case 10 => Row10Correct(b);
    case 11 => Row11Correct(b);
    case 12 => Row12Correct(b);
    case 13 => Row13Correct(b);
    case 14 => Row14Correct(b);
    case _ => Row15Correct(b);
  }

  // ---------- one table look-up is eight clocks ----------

  lemma HighByteWord(b: bv8, word: bv16)
    requires word == (b as bv16) << 8
    ensures WordBits(word) == HighFirstByte(b) + Zeros(8)
  {
    assert BigEndian(word) == [b] + [0];
    HighFirstConcat([b], [0]);
    HighFirstSingleton(b);
    assert Nulls(1) == [0];
    BitsOfNulls(1);
  }

  lemma LowByteWord(c: bv16, low: bv16, up: bv16)
    requires low == c & 0xff && up == c << 8
    ensures WordBits(low) == Zeros(8) + WordBits(c)[8..]
    ensures WordBits(up) == WordBits(c)[8..] + Zeros(8)
  {
    var h, l := (c >> 8) as bv8, (c & 0xff) as bv8;
    assert BigEndian(c) == [h] + [l] && BigEndian(low) == [0] + [l] && BigEndian(up) == [l] + [0];
    HighFirstConcat([h], [l]);
    HighFirstConcat([0], [l]);
    HighFirstConcat([l], [0]);
    assert Nulls(1) == [0];
    BitsOfNulls(1);
  }

  lemma LowByteSerial(c: bv16, low: bv16, up: bv16)
    requires low == c & 0xff && up == c << 8
    ensures Serial(WordBits(low), Zeros(8), Generator()) == WordBits(up)
  {
    LowByteWord(c, low, up);
    ShiftOutHigh(WordBits(c), 8, WordBits(low), WordBits(up), Generator());
  }

  lemma IndexAndRest(c: bv16, b: bv8, byte: bv16, index: bv8, wide: bv16, low: bv16, loaded: bv16)
    requires index == ((c >> 8) as bv8) ^ b && byte == (b as bv16) << 8 && wide == (index as bv16) << 8
    requires low == c & 0xff && loaded == c ^ byte
    ensures loaded == wide ^ low
  {}

  lemma LoadedRegister(c: bv16, b: bv8, byte: bv16, index: bv16, low: bv16, loaded: bv16)
    requires byte == (b as bv16) << 8 && loaded == c ^ byte && loaded == index ^ low
    ensures Add(WordBits(c), HighFirstByte(b) + Zeros(8)) == Add(WordBits(index), WordBits(low))
  {
    HighByteWord(b, byte);
    WordSum(c, byte, loaded);
    WordSum(index, low, loaded);
  }

  lemma EntryIsSerial(index: bv8, entry: bv16)
    requires entry == Table(index)
    ensures WordBits(entry) == Serial(WordBits((index as bv16) << 8), Zeros(8), Generator())
  {
    TableCorrect(index);
    ByteStepIsSerial((index as bv16) << 8);
  }

  lemma RoundAdds(c: bv16, b: bv8, byte: bv16, index: bv16, entry: bv16, low: bv16, up: bv16, loaded: bv16)
    requires byte == (b as bv16) << 8 && loaded == c ^ byte && loaded == index ^ low
    requires low == c & 0xff && up == c << 8
    requires WordBits(entry) == Serial(WordBits(index), Zeros(8), Generator())
    ensures Add(WordBits(entry), WordBits(up)) == Serial(WordBits(c), HighFirstByte(b), Generator())
  {
    LoadedRegister(c, b, byte, index, low, loaded);
    LowByteSerial(c, low, up);
    TableRound(WordBits(c), HighFirstByte(b), WordBits(index), WordBits(low),
               WordBits(entry), WordBits(up), Generator());
  }

  lemma RoundCorrect(c: bv16, b: bv8, byte: bv16, wide: bv16, entry: bv16, low: bv16, up: bv16, loaded: bv16,
                     next: bv16)
    requires byte == (b as bv16) << 8 && loaded == c ^ byte && loaded == wide ^ low
    requires low == c & 0xff && up == c << 8 && next == entry ^ up
    requires WordBits(entry) == Serial(WordBits(wide), Zeros(8), Generator())
    ensures WordBits(next) == Serial(WordBits(c), HighFirstByte(b), Generator())
  {
    RoundAdds(c, b, byte, wide, entry, low, up, loaded);
    WordSum(entry, up, next);
  }

  /** One table look-up is eight clocks: index with the high byte, shift the rest up. */
  method Round(c: bv16, b: bv8) returns (next: bv16)
    ensures WordBits(next) == Serial(WordBits(c), HighFirstByte(b), Generator())
  {
    var index := ((c >> 8) as bv8) ^ b;
    var entry := Table(index);
    next := (c << 8) ^ entry;
    ghost var byte, wide := (b as bv16) << 8, (index as bv16) << 8;
    EntryIsSerial(index, entry);
    IndexAndRest(c, b, byte, index, wide, c & 0xff, c ^ byte);
    RoundCorrect(c, b, byte, wide, entry, c & 0xff, c << 8, c ^ byte, next);
  }

  /** The register after the bytes of a message, one byte at a time. */
  function Bytewise(register: seq<bool>, s: seq<bv8>): (r: seq<bool>)
    requires |register| == 16
    ensures |r| == 16
    decreases |s|
  {
    if s == [] then register else Bytewise(Serial(register, HighFirstByte(s[0]), Generator()), s[1..])
  }

  lemma {:induction false} BytewiseIsSerial(register: seq<bool>, s: seq<bv8>)
    requires |register| == 16
    ensures Bytewise(register, s) == Serial(register, HighFirst(s), Generator())
    decreases |s|
  {
    if s != [] {
      BytewiseIsSerial(Serial(register, HighFirstByte(s[0]), Generator()), s[1..]);
      assert HighBlocks(s)[1..] == HighBlocks(s[1..]);
      SerialConcat(register, HighFirstByte(s[0]), HighFirst(s[1..]), Generator());
    }
  }

  lemma ZeroWord()
    ensures WordBits(0) == Zeros(16)
  {
    BitsOfNulls(2);
    assert BigEndian(0) == Nulls(2);
  }

  /** The remainder of buffer * x^16 divided by x^16 + x^12 + x^5 + 1. */
  method Compute(buffer: seq<bv8>) returns (crc: bv16)
    ensures WordBits(crc) == Remainder(HighFirst(buffer) + Zeros(16), Generator())
  {
    crc := 0;
    for counter := 0 to |buffer|
      invariant Bytewise(WordBits(crc), buffer[counter..]) == Bytewise(WordBits(0), buffer)
    {
      crc := Round(crc, buffer[counter]);
    }
    BytewiseIsSerial(WordBits(0), buffer);
    ZeroWord();
    SerialFromZero(HighFirst(buffer), Generator());
  }
}
