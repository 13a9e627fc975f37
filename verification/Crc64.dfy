/**
 The CRC-64 (Jones) checksum of crc64.c: the table-driven loop computes the
 remainder of the message polynomial, bytes taken low bit first.
 */
module Crc64 {
  import opened BinaryPolynomial
  import opened BitOrder

  // The generator 0xad93d23594c935a9 with its 64 bits in the opposite order.
  const POLY: bv64 := 0x95ac9329ac4bc9b5

  function BitStep(c: bv64): bv64 {
    if c & 1 == 1 then (c >> 1) ^ POLY else c >> 1
  }

  function ByteStep(c: bv64): bv64 {
    BitStep(BitStep(BitStep(BitStep(BitStep(BitStep(BitStep(BitStep(c))))))))
  }

  // ---------- words as coefficients, low bit first ----------

  /** The bytes of a word in memory order, as the dump footer stores them. */
  function LittleEndian(c: bv64): (r: seq<bv8>)
    ensures |r| == 8
  {
    [(c & 0xff) as bv8, ((c >> 8) & 0xff) as bv8, ((c >> 16) & 0xff) as bv8, ((c >> 24) & 0xff) as bv8,
     ((c >> 32) & 0xff) as bv8, ((c >> 40) & 0xff) as bv8, ((c >> 48) & 0xff) as bv8, ((c >> 56) & 0xff) as bv8]
  }

  function WordBits(c: bv64): (r: seq<bool>)
    ensures |r| == 64
  {
    LowFirst(LittleEndian(c))
  }

  function Generator(): (g: seq<bool>)
    ensures |g| == 64
  {
    WordBits(POLY)
  }

  // ---------- sums and halves of words ----------

  predicate BytewiseSum(a: bv64, b: bv64, sum: bv64) {
    && LowFirstByte((sum & 0xff) as bv8) == Add(LowFirstByte((a & 0xff) as bv8), LowFirstByte((b & 0xff) as bv8))
    && LowFirstByte(((sum >> 8) & 0xff) as bv8)
       == Add(LowFirstByte(((a >> 8) & 0xff) as bv8), LowFirstByte(((b >> 8) & 0xff) as bv8))
    && LowFirstByte(((sum >> 16) & 0xff) as bv8)
       == Add(LowFirstByte(((a >> 16) & 0xff) as bv8), LowFirstByte(((b >> 16) & 0xff) as bv8))
    && LowFirstByte(((sum >> 24) & 0xff) as bv8)
       == Add(LowFirstByte(((a >> 24) & 0xff) as bv8), LowFirstByte(((b >> 24) & 0xff) as bv8))
    && LowFirstByte(((sum >> 32) & 0xff) as bv8)
       == Add(LowFirstByte(((a >> 32) & 0xff) as bv8), LowFirstByte(((b >> 32) & 0xff) as bv8))
    && LowFirstByte(((sum >> 40) & 0xff) as bv8)
       == Add(LowFirstByte(((a >> 40) & 0xff) as bv8), LowFirstByte(((b >> 40) & 0xff) as bv8))
    && LowFirstByte(((sum >> 48) & 0xff) as bv8)
       == Add(LowFirstByte(((a >> 48) & 0xff) as bv8), LowFirstByte(((b >> 48) & 0xff) as bv8))
    && LowFirstByte(((sum >> 56) & 0xff) as bv8)
       == Add(LowFirstByte(((a >> 56) & 0xff) as bv8), LowFirstByte(((b >> 56) & 0xff) as bv8))
  }

  lemma BytesOfSum(a: bv64, b: bv64, sum: bv64)
    requires sum == a ^ b
    ensures BytewiseSum(a, b, sum)
  {
    ByteSum((a & 0xff) as bv8, (b & 0xff) as bv8, (sum & 0xff) as bv8);
    ByteSum(((a >> 8) & 0xff) as bv8, ((b >> 8) & 0xff) as bv8, ((sum >> 8) & 0xff) as bv8);
    ByteSum(((a >> 16) & 0xff) as bv8, ((b >> 16) & 0xff) as bv8, ((sum >> 16) & 0xff) as bv8);
    ByteSum(((a >> 24) & 0xff) as bv8, ((b >> 24) & 0xff) as bv8, ((sum >> 24) & 0xff) as bv8);
    ByteSum(((a >> 32) & 0xff) as bv8, ((b >> 32) & 0xff) as bv8, ((sum >> 32) & 0xff) as bv8);
    ByteSum(((a >> 40) & 0xff) as bv8, ((b >> 40) & 0xff) as bv8, ((sum >> 40) & 0xff) as bv8);
    ByteSum(((a >> 48) & 0xff) as bv8, ((b >> 48) & 0xff) as bv8, ((sum >> 48) & 0xff) as bv8);
    ByteSum(((a >> 56) & 0xff) as bv8, ((b >> 56) & 0xff) as bv8, ((sum >> 56) & 0xff) as bv8);
  }

  lemma BytewiseWordSum(a: bv64, b: bv64, sum: bv64)
    requires BytewiseSum(a, b, sum)
    ensures WordBits(sum) == Add(WordBits(a), WordBits(b))
  {
    var x, y, z := LowBlocks(LittleEndian(a)), LowBlocks(LittleEndian(b)), LowBlocks(LittleEndian(sum));
    assert z[0] == Add(x[0], y[0]) && z[1] == Add(x[1], y[1]) && z[2] == Add(x[2], y[2]) && z[3] == Add(x[3], y[3]);
    assert z[4] == Add(x[4], y[4]) && z[5] == Add(x[5], y[5]) && z[6] == Add(x[6], y[6]) && z[7] == Add(x[7], y[7]);
    FlattenSum(x, y, z, 8);
  }

  lemma WordSum(a: bv64, b: bv64, sum: bv64)
    requires sum == a ^ b
    ensures WordBits(sum) == Add(WordBits(a), WordBits(b))
  {
    assert BytewiseSum(a, b, sum) by {
      BytesOfSum(a, b, sum);
    }
    BytewiseWordSum(a, b, sum);
  }

  // A byte shifted down by one, the low bit of the next byte entering on top.
  function HalfByte(b: bv8, next: bv8): bv8 {
    (b >> 1) | ((next & 1) << 7)
  }

  lemma HalfByteBits(b: bv8, next: bv8)
    ensures LowFirstByte(HalfByte(b, next)) == LowFirstByte(b)[1..] + [LowFirstByte(next)[0]]
  {}

  lemma BytesOfHalf(c: bv64, half: bv64)
    requires half == c >> 1
    ensures (half & 0xff) as bv8 == HalfByte((c & 0xff) as bv8, ((c >> 8) & 0xff) as bv8)
    ensures ((half >> 8) & 0xff) as bv8 == HalfByte(((c >> 8) & 0xff) as bv8, ((c >> 16) & 0xff) as bv8)
    ensures ((half >> 16) & 0xff) as bv8 == HalfByte(((c >> 16) & 0xff) as bv8, ((c >> 24) & 0xff) as bv8)
    ensures ((half >> 24) & 0xff) as bv8 == HalfByte(((c >> 24) & 0xff) as bv8, ((c >> 32) & 0xff) as bv8)
    ensures ((half >> 32) & 0xff) as bv8 == HalfByte(((c >> 32) & 0xff) as bv8, ((c >> 40) & 0xff) as bv8)
    ensures ((half >> 40) & 0xff) as bv8 == HalfByte(((c >> 40) & 0xff) as bv8, ((c >> 48) & 0xff) as bv8)
    ensures ((half >> 48) & 0xff) as bv8 == HalfByte(((c >> 48) & 0xff) as bv8, ((c >> 56) & 0xff) as bv8)
    ensures ((half >> 56) & 0xff) as bv8 == HalfByte(((c >> 56) & 0xff) as bv8, 0)
  {}

  lemma LittleEndianHalf(c: bv64, half: bv64, k: nat)
    requires half == c >> 1 && k < 8
    ensures LittleEndian(half)[k]
            == HalfByte(LittleEndian(c)[k], if k < 7 then LittleEndian(c)[k + 1] else 0)
  {
    BytesOfHalf(c, half);
  }

  lemma WordHalf(c: bv64, half: bv64)
    requires half == c >> 1
    ensures WordBits(half) == WordBits(c)[1..] + [false]
  {
    var x, y := LowBlocks(LittleEndian(c)), LowBlocks(LittleEndian(half));
    forall k: nat | k < 8 ensures y[k] == x[k][1..] + [if k < 7 then x[k + 1][0] else false] {
      LittleEndianHalf(c, half, k);
      HalfByteBits(LittleEndian(c)[k], if k < 7 then LittleEndian(c)[k + 1] else 0);
      assert !LowFirstByte(0)[0];
    }
    FlattenShift(x, y, 8);
  }

  // ---------- the word step is the division register's clock ----------

  lemma LowBit(c: bv64)
    ensures WordBits(c)[0] == (c & 1 == 1)
  {}

  lemma BitStepIsClock(c: bv64)
    ensures WordBits(BitStep(c)) == Clock(WordBits(c), false, Generator())
  {
    LowBit(c);
    WordHalf(c, c >> 1);
    if c & 1 == 1 {
      WordSum(c >> 1, POLY, BitStep(c));
    }
  }

  lemma ClockZero(register: seq<bool>, n: nat)
    requires |register| == 64 && n > 0
    ensures Serial(register, Zeros(n), Generator())
            == Serial(Clock(register, false, Generator()), Zeros(n - 1), Generator())
  {
    assert Zeros(n)[1..] == Zeros(n - 1);
  }

  function Repeat(c: bv64, n: nat): bv64
    decreases n
  {
    if n == 0 then c else Repeat(BitStep(c), n - 1)
  }

  lemma {:induction false} RepeatIsSerial(c: bv64, n: nat)
    ensures WordBits(Repeat(c, n)) == Serial(WordBits(c), Zeros(n), Generator())
    decreases n
  {
    if n > 0 {
      BitStepIsClock(c);
      ClockZero(WordBits(c), n);
      RepeatIsSerial(BitStep(c), n - 1);
    }
  }

  lemma ByteStepIsSerial(c: bv64)
    ensures WordBits(ByteStep(c)) == Serial(WordBits(c), Zeros(8), Generator())
  {
    RepeatIsSerial(c, 8);
    assert Repeat(c, 8) == Repeat(BitStep(BitStep(BitStep(BitStep(c)))), 4);
  }

  // ---------- the table ----------

  function Row0(l: bv8): bv64
    requires l < 16
  {
    match l
    case 0 => 0x0000000000000000
    case 1 => 0x7ad870c830358979
    case 2 => 0xf5b0e190606b12f2
    case 3 => 0x8f689158505e9b8b
    case 4 => 0xc038e5739841b68f
    case 5 => 0xbae095bba8743ff6
    case 6 => 0x358804e3f82aa47d
    case 7 => 0x4f50742bc81f2d04
    case 8 => 0xab28ecb46814fe75
    case 9 => 0xd1f09c7c5821770c
    case 10 => 0x5e980d24087fec87
    case 11 => 0x24407dec384a65fe
    case 12 => 0x6b1009c7f05548fa
    case 13 => 0x11c8790fc060c183
    case 14 => 0x9ea0e857903e5a08
    case _ => 0xe478989fa00bd371
  }

  function Row1(l: bv8): bv64
    requires l < 16
  {
    match l
    case 0 => 0x7d08ff3b88be6f81
    case 1 => 0x07d08ff3b88be6f8
    case 2 => 0x88b81eabe8d57d73
    case 3 => 0xf2606e63d8e0f40a
    case 4 => 0xbd301a4810ffd90e
    case 5 => 0xc7e86a8020ca5077
    case 6 => 0x4880fbd87094cbfc
    case 7 => 0x32588b1040a14285
    case 8 => 0xd620138fe0aa91f4
    case 9 => 0xacf86347d09f188d
    case 10 => 0x2390f21f80c18306
    case 11 => 0x594882d7b0f40a7f
    case 12 => 0x1618f6fc78eb277b
    case 13 => 0x6cc0863448deae02
    case 14 => 0xe3a8176c18803589
    case _ => 0x997067a428b5bcf0
  }

  function Row2(l: bv8): bv64
    requires l < 16
  {
    match l
    case 0 => 0xfa11fe77117cdf02
    case 1 => 0x80c98ebf2149567b
    case 2 => 0x0fa11fe77117cdf0
    case 3 => 0x75796f2f41224489
    case 4 => 0x3a291b04893d698d
    case 5 => 0x40f16bccb908e0f4
    case 6 => 0xcf99fa94e9567b7f
    case 7 => 0xb5418a5cd963f206
    case 8 => 0x513912c379682177
    case 9 => 0x2be1620b495da80e
    case 10 => 0xa489f35319033385
    case 11 => 0xde51839b2936bafc
    case 12 => 0x9101f7b0e12997f8
    case 13 => 0xebd98778d11c1e81
    case 14 => 0x64b116208142850a
    case _ => 0x1e6966e8b1770c73
  }

  function Row3(l: bv8): bv64
    requires l < 16
  {
    match l
    case 0 => 0x8719014c99c2b083
    case 1 => 0xfdc17184a9f739fa
    case 2 => 0x72a9e0dcf9a9a271
    case 3 => 0x08719014c99c2b08
    case 4 => 0x4721e43f0183060c
    case 5 => 0x3df994f731b68f75
    case 6 => 0xb29105af61e814fe
    case 7 => 0xc849756751dd9d87
    case 8 => 0x2c31edf8f1d64ef6
    case 9 => 0x56e99d30c1e3c78f
    case 10 => 0xd9810c6891bd5c04
    case 11 => 0xa3597ca0a188d57d
    case 12 => 0xec09088b6997f879
    case 13 => 0x96d1784359a27100
    case 14 => 0x19b9e91b09fcea8b
    case _ => 0x636199d339c963f2
  }

  function Row4(l: bv8): bv64
    requires l < 16
  {
    match l
    case 0 => 0xdf7adabd7a6e2d6f
    case 1 => 0xa5a2aa754a5ba416
    case 2 => 0x2aca3b2d1a053f9d
    case 3 => 0x50124be52a30b6e4
    case 4 => 0x1f423fcee22f9be0
    case 5 => 0x659a4f06d21a1299
    case 6 => 0xeaf2de5e82448912
    case 7 => 0x902aae96b271006b
    case 8 => 0x74523609127ad31a
    case 9 => 0x0e8a46c1224f5a63
    case 10 => 0x81e2d7997211c1e8
    case 11 => 0xfb3aa75142244891
    case 12 => 0xb46ad37a8a3b6595
    case 13 => 0xceb2a3b2ba0eecec
    case 14 => 0x41da32eaea507767
    case _ => 0x3b024222da65fe1e
  }

  function Row5(l: bv8): bv64
    requires l < 16
  {
    match l
    case 0 => 0xa2722586f2d042ee
    case 1 => 0xd8aa554ec2e5cb97
    case 2 => 0x57c2c41692bb501c
    case 3 => 0x2d1ab4dea28ed965
    case 4 => 0x624ac0f56a91f461
    case 5 => 0x1892b03d5aa47d18
    case 6 => 0x97fa21650afae693
    case 7 => 0xed2251ad3acf6fea
    case 8 => 0x095ac9329ac4bc9b
    case 9 => 0x7382b9faaaf135e2
    case 10 => 0xfcea28a2faafae69
    case 11 => 0x8632586aca9a2710
    case 12 => 0xc9622c4102850a14
    case 13 => 0xb3ba5c8932b0836d
    case 14 => 0x3cd2cdd162ee18e6
    case _ => 0x460abd1952db919f
  }

  function Row6(l: bv8): bv64
    requires l < 16
  {
    match l
    case 0 => 0x256b24ca6b12f26d
    case 1 => 0x5fb354025b277b14
    case 2 => 0xd0dbc55a0b79e09f
    case 3 => 0xaa03b5923b4c69e6
    case 4 => 0xe553c1b9f35344e2
    case 5 => 0x9f8bb171c366cd9b
    case 6 => 0x10e3202993385610
    case 7 => 0x6a3b50e1a30ddf69
    case 8 => 0x8e43c87e03060c18
    case 9 => 0xf49bb8b633338561
    case 10 => 0x7bf329ee636d1eea
    case 11 => 0x012b592653589793
    case 12 => 0x4e7b2d0d9b47ba97
    case 13 => 0x34a35dc5ab7233ee
    case 14 => 0xbbcbcc9dfb2ca865
    case _ => 0xc113bc55cb19211c
  }

  function Row7(l: bv8): bv64
    requires l < 16
  {
    match l
    case 0 => 0x5863dbf1e3ac9dec
    case 1 => 0x22bbab39d3991495
    case 2 => 0xadd33a6183c78f1e
    case 3 => 0xd70b4aa9b3f20667
    case 4 => 0x985b3e827bed2b63
    case 5 => 0xe2834e4a4bd8a21a
    case 6 => 0x6debdf121b863991
    case 7 => 0x1733afda2bb3b0e8
    case 8 => 0xf34b37458bb86399
    case 9 => 0x8993478dbb8deae0
    case 10 => 0x06fbd6d5ebd3716b
    case 11 => 0x7c23a61ddbe6f812
    case 12 => 0x3373d23613f9d516
    case 13 => 0x49aba2fe23cc5c6f
    case 14 => 0xc6c333a67392c7e4
    case _ => 0xbc1b436e43a74e9d
  }

  function Row8(l: bv8): bv64
    requires l < 16
  {
    match l
    case 0 => 0x95ac9329ac4bc9b5
    case 1 => 0xef74e3e19c7e40cc
    case 2 => 0x601c72b9cc20db47
    case 3 => 0x1ac40271fc15523e
    case 4 => 0x5594765a340a7f3a
    case 5 => 0x2f4c0692043ff643
    case 6 => 0xa02497ca54616dc8
    case 7 => 0xdafce7026454e4b1
    case 8 => 0x3e847f9dc45f37c0
    case 9 => 0x445c0f55f46abeb9
    case 10 => 0xcb349e0da4342532
    case 11 => 0xb1eceec59401ac4b
    case 12 => 0xfebc9aee5c1e814f
    case 13 => 0x8464ea266c2b0836
    case 14 => 0x0b0c7b7e3c7593bd
    case _ => 0x71d40bb60c401ac4
  }

  function Row9(l: bv8): bv64
    requires l < 16
  {
    match l
    case 0 => 0xe8a46c1224f5a634
    case 1 => 0x927c1cda14c02f4d
    case 2 => 0x1d148d82449eb4c6
    case 3 => 0x67ccfd4a74ab3dbf
    case 4 => 0x289c8961bcb410bb
    case 5 => 0x5244f9a98c8199c2
    case 6 => 0xdd2c68f1dcdf0249
    case 7 => 0xa7f41839ecea8b30
    case 8 => 0x438c80a64ce15841
    case 9 => 0x3954f06e7cd4d138
    case 10 => 0xb63c61362c8a4ab3
    case 11 => 0xcce411fe1cbfc3ca
    case 12 => 0x83b465d5d4a0eece
    case 13 => 0xf96c151de49567b7
    case 14 => 0x76048445b4cbfc3c
    case _ => 0x0cdcf48d84fe7545
  }

  function Row10(l: bv8): bv64
    requires l < 16
  {
    match l
    case 0 => 0x6fbd6d5ebd3716b7
    case 1 => 0x15651d968d029fce
    case 2 => 0x9a0d8ccedd5c0445
    case 3 => 0xe0d5fc06ed698d3c
    case 4 => 0xaf85882d2576a038
    case 5 => 0xd55df8e515432941
    case 6 => 0x5a3569bd451db2ca
    case 7 => 0x20ed197575283bb3
    case 8 => 0xc49581ead523e8c2
    case 9 => 0xbe4df122e51661bb
    case 10 => 0x3125607ab548fa30
    case 11 => 0x4bfd10b2857d7349
    case 12 => 0x04ad64994d625e4d
    case 13 => 0x7e7514517d57d734
    case 14 => 0xf11d85092d094cbf
    case _ => 0x8bc5f5c11d3cc5c6
  }

  function Row11(l: bv8): bv64
    requires l < 16
  {
    match l
    case 0 => 0x12b5926535897936
    case 1 => 0x686de2ad05bcf04f
    case 2 => 0xe70573f555e26bc4
    case 3 => 0x9ddd033d65d7e2bd
    case 4 => 0xd28d7716adc8cfb9
    case 5 => 0xa85507de9dfd46c0
    case 6 => 0x273d9686cda3dd4b
    case 7 => 0x5de5e64efd965432
    case 8 => 0xb99d7ed15d9d8743
    case 9 => 0xc3450e196da80e3a
    case 10 => 0x4c2d9f413df695b1
    case 11 => 0x36f5ef890dc31cc8
    case 12 => 0x79a59ba2c5dc31cc
    case 13 => 0x037deb6af5e9b8b5
    case 14 => 0x8c157a32a5b7233e
    case _ => 0xf6cd0afa9582aa47
  }

  function Row12(l: bv8): bv64
    requires l < 16
  {
    match l
    case 0 => 0x4ad64994d625e4da
    case 1 => 0x300e395ce6106da3
    case 2 => 0xbf66a804b64ef628
    case 3 => 0xc5bed8cc867b7f51
    case 4 => 0x8aeeace74e645255
    case 5 => 0xf036dc2f7e51db2c
    case 6 => 0x7f5e4d772e0f40a7
    case 7 => 0x05863dbf1e3ac9de
    case 8 => 0xe1fea520be311aaf
    case 9 => 0x9b26d5e88e0493d6
    case 10 => 0x144e44b0de5a085d
    case 11 => 0x6e963478ee6f8124
    case 12 => 0x21c640532670ac20
    case 13 => 0x5b1e309b16452559
    case 14 => 0xd476a1c3461bbed2
    case _ => 0xaeaed10b762e37ab
  }

  function Row13(l: bv8): bv64
    requires l < 16
  {
    match l
    case 0 => 0x37deb6af5e9b8b5b
    case 1 => 0x4d06c6676eae0222
    case 2 => 0xc26e573f3ef099a9
    case 3 => 0xb8b627f70ec510d0
    case 4 => 0xf7e653dcc6da3dd4
    case 5 => 0x8d3e2314f6efb4ad
    case 6 => 0x0256b24ca6b12f26
    case 7 => 0x788ec2849684a65f
    case 8 => 0x9cf65a1b368f752e
    case 9 => 0xe62e2ad306bafc57
    case 10 => 0x6946bb8b56e467dc
    case 11 => 0x139ecb4366d1eea5
    case 12 => 0x5ccebf68aecec3a1
    case 13 => 0x2616cfa09efb4ad8
    case 14 => 0xa97e5ef8cea5d153
    case _ => 0xd3a62e30fe90582a
  }

  function Row14(l: bv8): bv64
    requires l < 16
  {
    match l
    case 0 => 0xb0c7b7e3c7593bd8
    case 1 => 0xca1fc72bf76cb2a1
    case 2 => 0x45775673a732292a
    case 3 => 0x3faf26bb9707a053
    case 4 => 0x70ff52905f188d57
    case 5 => 0x0a2722586f2d042e
    case 6 => 0x854fb3003f739fa5
    case 7 => 0xff97c3c80f4616dc
    case 8 => 0x1bef5b57af4dc5ad
    case 9 => 0x61372b9f9f784cd4
    case 10 => 0xee5fbac7cf26d75f
    case 11 => 0x9487ca0fff135e26
    case 12 => 0xdbd7be24370c7322
    case 13 => 0xa10fceec0739fa5b
    case 14 => 0x2e675fb4576761d0
    case _ => 0x54bf2f7c6752e8a9
  }

  function Row15(l: bv8): bv64
    requires l < 16
  {
    match l
    case 0 => 0xcdcf48d84fe75459
    case 1 => 0xb71738107fd2dd20
    case 2 => 0x387fa9482f8c46ab
    case 3 => 0x42a7d9801fb9cfd2
    case 4 => 0x0df7adabd7a6e2d6
    case 5 => 0x772fdd63e7936baf
    case 6 => 0xf8474c3bb7cdf024
    case 7 => 0x829f3cf387f8795d
    case 8 => 0x66e7a46c27f3aa2c
    case 9 => 0x1c3fd4a417c62355
    case 10 => 0x935745fc4798b8de
    case 11 => 0xe98f353477ad31a7
    case 12 => 0xa6df411fbfb21ca3
    case 13 => 0xdc0731d78f8795da
    case 14 => 0x536fa08fdfd90e51
    case _ => 0x29b7d047efec8728
  }

  // Sixteen entries a row; the rows are split in four only to keep each choice small.
  function Quarter0(row: bv8, column: bv8): bv64
    requires row < 4 && column < 16
  {
    match row
    case 0 => Row0(column)
    case 1 => Row1(column)
    case 2 => Row2(column)
    case _ => Row3(column)
  }

  function Quarter1(row: bv8, column: bv8): bv64
    requires row < 4 && column < 16
  {
    match row
    case 0 => Row4(column)
    case 1 => Row5(column)
    case 2 => Row6(column)
    case _ => Row7(column)
  }

  function Quarter2(row: bv8, column: bv8): bv64
    requires row < 4 && column < 16
  {
    match row
    case 0 => Row8(column)
    case 1 => Row9(column)
    case 2 => Row10(column)
    case _ => Row11(column)
  }

  function Quarter3(row: bv8, column: bv8): bv64
    requires row < 4 && column < 16
  {
    match row
    case 0 => Row12(column)
    case 1 => Row13(column)
    case 2 => Row14(column)
    case _ => Row15(column)
  }

  /** The entry of the table at index b. */
  function Table(b: bv8): bv64 {
    var row, column := b >> 4, b & 0xf;
    if b < 64 then Quarter0(row, column)
    else if b < 128 then Quarter1(row - 4, column)
    else if b < 192 then Quarter2(row - 8, column)
    else Quarter3(row - 12, column)
  }

  lemma Row0Correct(b: bv8)
    requires b >> 4 == 0
    ensures Table(b) == ByteStep(b as bv64)
  {
    match b & 0xf
    case 0 => case 1 => case 2 => case 3 => case 4 => case 5 => case 6 => case 7 =>
    case 8 => case 9 => case 10 => case 11 => case 12 => case 13 => case 14 => case _ =>
  }

  lemma Row1Correct(b: bv8)
    requires b >> 4 == 1
    ensures Table(b) == ByteStep(b as bv64)
  {
    match b & 0xf
    case 0 => case 1 => case 2 => case 3 => case 4 => case 5 => case 6 => case 7 =>
    case 8 => case 9 => case 10 => case 11 => case 12 => case 13 => case 14 => case _ =>
  }

  lemma Row2Correct(b: bv8)
    requires b >> 4 == 2
    ensures Table(b) == ByteStep(b as bv64)
  {
    match b & 0xf
    case 0 => case 1 => case 2 => case 3 => case 4 => case 5 => case 6 => case 7 =>
    case 8 => case 9 => case 10 => case 11 => case 12 => case 13 => case 14 => case _ =>
  }

  lemma Row3Correct(b: bv8)
    requires b >> 4 == 3
    ensures Table(b) == ByteStep(b as bv64)
  {
    match b & 0xf
    case 0 => case 1 => case 2 => case 3 => case 4 => case 5 => case 6 => case 7 =>
    case 8 => case 9 => case 10 => case 11 => case 12 => case 13 => case 14 => case _ =>
  }

  lemma Row4Correct(b: bv8)
    requires b >> 4 == 4
    ensures Table(b) == ByteStep(b as bv64)
  {
    match b & 0xf
    case 0 => case 1 => case 2 => case 3 => case 4 => case 5 => case 6 => case 7 =>
    case 8 => case 9 => case 10 => case 11 => case 12 => case 13 => case 14 => case _ =>
  }

  lemma Row5Correct(b: bv8)
    requires b >> 4 == 5
    ensures Table(b) == ByteStep(b as bv64)
  {
    match b & 0xf
    case 0 => case 1 => case 2 => case 3 => case 4 => case 5 => case 6 => case 7 =>
    case 8 => case 9 => case 10 => case 11 => case 12 => case 13 => case 14 => case _ =>
  }

  lemma Row6Correct(b: bv8)
    requires b >> 4 == 6
    ensures Table(b) == ByteStep(b as bv64)
  {
    match b & 0xf
    case 0 => case 1 => case 2 => case 3 => case 4 => case 5 => case 6 => case 7 =>
    case 8 => case 9 => case 10 => case 11 => case 12 => case 13 => case 14 => case _ =>
  }

  lemma Row7Correct(b: bv8)
    requires b >> 4 == 7
    ensures Table(b) == ByteStep(b as bv64)
  {
    match b & 0xf
    case 0 => case 1 => case 2 => case 3 => case 4 => case 5 => case 6 => case 7 =>
    case 8 => case 9 => case 10 => case 11 => case 12 => case 13 => case 14 => case _ =>
  }

  lemma Row8Correct(b: bv8)
    requires b >> 4 == 8
    ensures Table(b) == ByteStep(b as bv64)
  {
    match b & 0xf
    case 0 => case 1 => case 2 => case 3 => case 4 => case 5 => case 6 => case 7 =>
    case 8 => case 9 => case 10 => case 11 => case 12 => case 13 => case 14 => case _ =>
  }

  lemma Row9Correct(b: bv8)
    requires b >> 4 == 9
    ensures Table(b) == ByteStep(b as bv64)
  {
    match b & 0xf
    case 0 => case 1 => case 2 => case 3 => case 4 => case 5 => case 6 => case 7 =>
    case 8 => case 9 => case 10 => case 11 => case 12 => case 13 => case 14 => case _ =>
  }

  lemma Row10Correct(b: bv8)
    requires b >> 4 == 10
    ensures Table(b) == ByteStep(b as bv64)
  {
    match b & 0xf
    case 0 => case 1 => case 2 => case 3 => case 4 => case 5 => case 6 => case 7 =>
    case 8 => case 9 => case 10 => case 11 => case 12 => case 13 => case 14 => case _ =>
  }

  lemma Row11Correct(b: bv8)
    requires b >> 4 == 11
    ensures Table(b) == ByteStep(b as bv64)
  {
    match b & 0xf
    case 0 => case 1 => case 2 => case 3 => case 4 => case 5 => case 6 => case 7 =>
    case 8 => case 9 => case 10 => case 11 => case 12 => case 13 => case 14 => case _ =>
  }

  lemma Row12Correct(b: bv8)
    requires b >> 4 == 12
    ensures Table(b) == ByteStep(b as bv64)
  {
    match b & 0xf
    case 0 => case 1 => case 2 => case 3 => case 4 => case 5 => case 6 => case 7 =>
    case 8 => case 9 => case 10 => case 11 => case 12 => case 13 => case 14 => case _ =>
  }

  lemma Row13Correct(b: bv8)
    requires b >> 4 == 13
    ensures Table(b) == ByteStep(b as bv64)
  {
    match b & 0xf
    case 0 => case 1 => case 2 => case 3 => case 4 => case 5 => case 6 => case 7 =>
    case 8 => case 9 => case 10 => case 11 => case 12 => case 13 => case 14 => case _ =>
  }

  lemma Row14Correct(b: bv8)
    requires b >> 4 == 14
    ensures Table(b) == ByteStep(b as bv64)
  {
    match b & 0xf
    case 0 => case 1 => case 2 => case 3 => case 4 => case 5 => case 6 => case 7 =>
    case 8 => case 9 => case 10 => case 11 => case 12 => case 13 => case 14 => case _ =>
  }

  lemma Row15Correct(b: bv8)
    requires b >> 4 == 15
    ensures Table(b) == ByteStep(b as bv64)
  {
    match b & 0xf
    case 0 => case 1 => case 2 => case 3 => case 4 => case 5 => case 6 => case 7 =>
    case 8 => case 9 => case 10 => case 11 => case 12 => case 13 => case 14 => case _ =>
  }

  /** Every constant of the table is what eight steps make of its index. */
  lemma TableCorrect(b: bv8)
    ensures Table(b) == ByteStep(b as bv64)
  {
    match b >> 4
    case 0 => Row0Correct(b);
    case 1 => Row1Correct(b);
    case 2 => Row2Correct(b);
    case 3 => Row3Correct(b);
    case 4 => Row4Correct(b);
    case 5 => Row5Correct(b);
    case 6 => Row6Correct(b);
    case 7 => Row7Correct(b);
    case 8 => Row8Correct(b);
    case 9 => Row9Correct(b);
    case 10 => Row10Correct(b);
    case 11 => Row11Correct(b);
    case 12 => Row12Correct(b);
    case 13 => Row13Correct(b);
    case 14 => Row14Correct(b);
    case _ => Row15Correct(b);
  }

  // ---------- one table look-up is eight clocks ----------

  lemma LowByteWord(b: bv8)
    ensures WordBits(b as bv64) == LowFirstByte(b) + Zeros(56)
  {
    var x := LowBlocks(LittleEndian(b as bv64));
    assert LittleEndian(b as bv64) == [b, 0, 0, 0, 0, 0, 0, 0];
    BitsOfNulls(7);
    assert x == [LowFirstByte(b)] + LowBlocks(Nulls(7));
    FlattenConcat([LowFirstByte(b)], LowBlocks(Nulls(7)), 8);
    assert Flatten([LowFirstByte(b)], 8) == LowFirstByte(b) + Flatten([], 8);
  }

  lemma ClearedByte(s: seq<bv8>, cleared: seq<bv8>, dropped: seq<bv8>)
    requires s != [] && cleared == [0] + s[1..] && dropped == s[1..] + [0]
    ensures LowFirst(cleared) == Zeros(8) + LowFirst(s)[8..]
    ensures LowFirst(dropped) == LowFirst(s)[8..] + Zeros(8)
  {
    assert s == [s[0]] + s[1..];
    LowFirstConcat([s[0]], s[1..]);
    LowFirstConcat([0], s[1..]);
    LowFirstConcat(s[1..], [0]);
    assert Nulls(1) == [0];
    BitsOfNulls(1);
  }

  lemma HighByteValues(c: bv64, high: bv64)
    requires high == c & 0xffff_ffff_ffff_ff00
    ensures (high & 0xff) as bv8 == 0
    ensures ((high >> 8) & 0xff) as bv8 == ((c >> 8) & 0xff) as bv8
    ensures ((high >> 16) & 0xff) as bv8 == ((c >> 16) & 0xff) as bv8
    ensures ((high >> 24) & 0xff) as bv8 == ((c >> 24) & 0xff) as bv8
    ensures ((high >> 32) & 0xff) as bv8 == ((c >> 32) & 0xff) as bv8
    ensures ((high >> 40) & 0xff) as bv8 == ((c >> 40) & 0xff) as bv8
    ensures ((high >> 48) & 0xff) as bv8 == ((c >> 48) & 0xff) as bv8
    ensures ((high >> 56) & 0xff) as bv8 == ((c >> 56) & 0xff) as bv8
  {}

  lemma ShiftedByteValues(c: bv64, down: bv64)
    requires down == c >> 8
    ensures (down & 0xff) as bv8 == ((c >> 8) & 0xff) as bv8
    ensures ((down >> 8) & 0xff) as bv8 == ((c >> 16) & 0xff) as bv8
    ensures ((down >> 16) & 0xff) as bv8 == ((c >> 24) & 0xff) as bv8
    ensures ((down >> 24) & 0xff) as bv8 == ((c >> 32) & 0xff) as bv8
    ensures ((down >> 32) & 0xff) as bv8 == ((c >> 40) & 0xff) as bv8
    ensures ((down >> 40) & 0xff) as bv8 == ((c >> 48) & 0xff) as bv8
    ensures ((down >> 48) & 0xff) as bv8 == ((c >> 56) & 0xff) as bv8
    ensures ((down >> 56) & 0xff) as bv8 == 0
  {}

  lemma HighBytes(c: bv64, high: bv64)
    requires high == c & 0xffff_ffff_ffff_ff00
    ensures LittleEndian(high) == [0] + LittleEndian(c)[1..]
  {
    HighByteValues(c, high);
  }

  lemma ShiftedBytes(c: bv64, down: bv64)
    requires down == c >> 8
    ensures LittleEndian(down) == LittleEndian(c)[1..] + [0]
  {
    ShiftedByteValues(c, down);
  }

  lemma HighBytesWord(c: bv64, high: bv64, down: bv64)
    requires high == c & 0xffff_ffff_ffff_ff00 && down == c >> 8
    ensures WordBits(high) == Zeros(8) + WordBits(c)[8..]
    ensures WordBits(down) == WordBits(c)[8..] + Zeros(8)
  {
    HighBytes(c, high);
    ShiftedBytes(c, down);
    ClearedByte(LittleEndian(c), LittleEndian(high), LittleEndian(down));
  }

  lemma HighBytesSerial(c: bv64, high: bv64, down: bv64)
    requires high == c & 0xffff_ffff_ffff_ff00 && down == c >> 8
    ensures Serial(WordBits(high), Zeros(8), Generator()) == WordBits(down)
  {
    HighBytesWord(c, high, down);
    ShiftOutHigh(WordBits(c), 8, WordBits(high), WordBits(down), Generator());
  }

  lemma IndexAndRest(c: bv64, b: bv8, index: bv8, high: bv64, loaded: bv64)
    requires index == ((c & 0xff) as bv8) ^ b && high == c & 0xffff_ffff_ffff_ff00 && loaded == c ^ (b as bv64)
    ensures loaded == (index as bv64) ^ high
  {}

  /** Loading a message byte splits the register into the table index and the rest. */
  lemma LoadedRegister(c: bv64, b: bv8, index: bv8, high: bv64, loaded: bv64)
    requires loaded == c ^ (b as bv64) && loaded == (index as bv64) ^ high
    ensures Add(WordBits(c), LowFirstByte(b) + Zeros(56)) == Add(WordBits(index as bv64), WordBits(high))
  {
    LowByteWord(b);
    WordSum(c, b as bv64, loaded);
    WordSum(index as bv64, high, loaded);
  }

  lemma EntryIsSerial(index: bv8, entry: bv64)
    requires entry == Table(index)
    ensures WordBits(entry) == Serial(WordBits(index as bv64), Zeros(8), Generator())
  {
    TableCorrect(index);
    ByteStepIsSerial(index as bv64);
  }

  lemma LoadedByte(c: bv64, b: bv8, index: bv8, high: bv64)
    requires index == ((c & 0xff) as bv8) ^ b && high == c & 0xffff_ffff_ffff_ff00
    ensures Add(WordBits(c), LowFirstByte(b) + Zeros(56)) == Add(WordBits(index as bv64), WordBits(high))
  {
    var loaded := c ^ (b as bv64);
    IndexAndRest(c, b, index, high, loaded);
    LoadedRegister(c, b, index, high, loaded);
  }

  lemma RoundAdds(c: bv64, b: bv8, index: bv8, entry: bv64, high: bv64, down: bv64)
    requires index == ((c & 0xff) as bv8) ^ b && high == c & 0xffff_ffff_ffff_ff00 && down == c >> 8
    requires WordBits(entry) == Serial(WordBits(index as bv64), Zeros(8), Generator())
    ensures Add(WordBits(entry), WordBits(down)) == Serial(WordBits(c), LowFirstByte(b), Generator())
  {
    LoadedByte(c, b, index, high);
    HighBytesSerial(c, high, down);
    TableRound(WordBits(c), LowFirstByte(b), WordBits(index as bv64), WordBits(high),
               WordBits(entry), WordBits(down), Generator());
  }

  /** One table look-up is eight clocks: index with the low byte, shift the rest down. */
  lemma RoundCorrect(c: bv64, b: bv8, index: bv8, entry: bv64, down: bv64, next: bv64)
    requires index == ((c & 0xff) as bv8) ^ b && down == c >> 8 && next == entry ^ down
    requires WordBits(entry) == Serial(WordBits(index as bv64), Zeros(8), Generator())
    ensures WordBits(next) == Serial(WordBits(c), LowFirstByte(b), Generator())
  {
    RoundAdds(c, b, index, entry, c & 0xffff_ffff_ffff_ff00, down);
    WordSum(entry, down, next);
  }

  method Round(c: bv64, b: bv8) returns (next: bv64)
    ensures WordBits(next) == Serial(WordBits(c), LowFirstByte(b), Generator())
  {
    var index := ((c & 0xff) as bv8) ^ b;
    var entry := Table(index);
    next := entry ^ (c >> 8);
    EntryIsSerial(index, entry);
    RoundCorrect(c, b, index, entry, c >> 8, next);
  }

  /** The register after the bytes of a message, one byte at a time. */
  function Bytewise(register: seq<bool>, s: seq<bv8>): (r: seq<bool>)
    requires |register| == 64
    ensures |r| == 64
    decreases |s|
  {
    if s == [] then register else Bytewise(Serial(register, LowFirstByte(s[0]), Generator()), s[1..])
  }

  lemma {:induction false} BytewiseIsSerial(register: seq<bool>, s: seq<bv8>)
    requires |register| == 64
    ensures Bytewise(register, s) == Serial(register, LowFirst(s), Generator())
    decreases |s|
  {
    if s != [] {
      var next := Serial(register, LowFirstByte(s[0]), Generator());
      BytewiseIsSerial(next, s[1..]);
      assert LowBlocks(s)[1..] == LowBlocks(s[1..]);
      SerialConcat(register, LowFirstByte(s[0]), LowFirst(s[1..]), Generator());
    }
  }

  /** From register c, the bytes leave the word r: bit-at-a-time division, low bit first. */
  ghost predicate Computes(c: bv64, s: seq<bv8>, r: bv64) {
    WordBits(r) == Serial(WordBits(c), LowFirst(s), Generator())
  }

  method Compute(crc: bv64, s: seq<bv8>) returns (r: bv64)
    ensures Computes(crc, s, r)
  {
    r := crc;
    for j := 0 to |s|
      invariant Bytewise(WordBits(r), s[j..]) == Bytewise(WordBits(crc), s)
    {
      r := Round(r, s[j]);
    }
    BytewiseIsSerial(WordBits(crc), s);
  }

  // ---------- what the loop computes ----------

  /** Checksumming in two parts is checksumming the whole. */
  lemma ChecksumOfConcat(register: seq<bool>, a: seq<bv8>, b: seq<bv8>)
    requires |register| == 64
    ensures Serial(Serial(register, LowFirst(a), Generator()), LowFirst(b), Generator())
            == Serial(register, LowFirst(a + b), Generator())
  {
    LowFirstConcat(a, b);
    SerialConcat(register, LowFirst(a), LowFirst(b), Generator());
  }

  lemma WordOfBytes(c: bv64, d: bv64)
    requires LittleEndian(c) == LittleEndian(d)
    ensures c == d
  {
    assert forall i :: 0 <= i < 8 ==> LittleEndian(c)[i] == LittleEndian(d)[i];
  }

  /** Different words have different bits. */
  lemma WordBitsInjective(c: bv64, d: bv64)
    requires WordBits(c) == WordBits(d)
    ensures c == d
  {
    LowFirstInjective(LittleEndian(c), LittleEndian(d));
    WordOfBytes(c, d);
  }

  /** On the words themselves: crc64(crc64(c, a), b) is crc64(c, a + b). */
  lemma ComputeInTwoParts(c: bv64, a: seq<bv8>, b: seq<bv8>, first: bv64, second: bv64, whole: bv64)
    requires Computes(c, a, first) && Computes(first, b, second)
    ensures Computes(c, a + b, whole) <==> whole == second
  {
    ChecksumOfConcat(WordBits(c), a, b);
    if Computes(c, a + b, whole) {
      WordBitsInjective(whole, second);
    }
  }

  /** From a zero register the loop leaves the remainder of message * x^64 under long division. */
  lemma ChecksumIsRemainder(s: seq<bv8>)
    ensures Serial(Zeros(64), LowFirst(s), Generator()) == Remainder(LowFirst(s) + Zeros(64), Generator())
  {
    SerialFromZero(LowFirst(s), Generator());
  }

  /** The reflected constant stands for the documented generator, highest power first. */
  lemma GeneratorIsJones()
    ensures Generator() == HighFirst([0xad, 0x93, 0xd2, 0x35, 0x94, 0xc9, 0x35, 0xa9])
  {
    var low, high := LittleEndian(POLY), [0xad, 0x93, 0xd2, 0x35, 0x94, 0xc9, 0x35, 0xa9];
    assert low == [0xb5, 0xc9, 0x4b, 0xac, 0x29, 0x93, 0xac, 0x95];
    ReversedBytes();
    assert LowBlocks(low) == HighBlocks(high);
  }

  lemma ReversedBytes()
    ensures LowFirstByte(0xb5) == HighFirstByte(0xad) && LowFirstByte(0xc9) == HighFirstByte(0x93)
    ensures LowFirstByte(0x4b) == HighFirstByte(0xd2) && LowFirstByte(0xac) == HighFirstByte(0x35)
    ensures LowFirstByte(0x29) == HighFirstByte(0x94) && LowFirstByte(0x93) == HighFirstByte(0xc9)
    ensures LowFirstByte(0x95) == HighFirstByte(0xa9)
  {}
}
