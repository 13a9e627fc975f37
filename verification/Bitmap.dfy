/** The bitmap helpers of cluster.c. */
module Bitmap {

  function Mask(k: nat): bv8
    requires k < 8
  {
    match k
    case 0 => 1 case 1 => 2 case 2 => 4 case 3 => 8
    case 4 => 16 case 5 => 32 case 6 => 64 case _ => 128
  }

  predicate Overlaps(b: bv8, m: bv8) {
    b & m != 0
  }

  predicate HasBit(b: bv8, k: nat)
    requires k < 8
  {
    Overlaps(b, Mask(k))
  }

  function WithBit(b: bv8, k: nat): bv8
    requires k < 8
  {
    b | Mask(k)
  }

  function WithoutBit(b: bv8, k: nat): bv8
    requires k < 8
  {
    b & !Mask(k)
  }

  predicate TestBit(bitmap: seq<bv8>, pos: nat)
    requires pos < 8 * |bitmap|
  {
    HasBit(bitmap[pos / 8], pos % 8)
  }

  function SetBit(bitmap: seq<bv8>, pos: nat): seq<bv8>
    requires pos < 8 * |bitmap|
  {
    bitmap[pos / 8 := WithBit(bitmap[pos / 8], pos % 8)]
  }

  function ClearBit(bitmap: seq<bv8>, pos: nat): seq<bv8>
    requires pos < 8 * |bitmap|
  {
    bitmap[pos / 8 := WithoutBit(bitmap[pos / 8], pos % 8)]
  }

  lemma MaskIsShifted(k: nat)
    requires k < 8
    ensures Mask(k) == (1 as bv8) << k
  {
    match k
    case 0 => case 1 => case 2 => case 3 => case 4 => case 5 => case 6 => case _ =>
  }

  /** Bit pos is bit pos % 8, counted from the lowest, of byte pos / 8. */
  lemma BitOfByte(bitmap: seq<bv8>, pos: nat)
    requires pos < 8 * |bitmap|
    ensures TestBit(bitmap, pos) <==> bitmap[pos / 8] & ((1 as bv8) << (pos % 8)) != 0
  {
    MaskIsShifted(pos % 8);
  }

  predicate SingleBit(m: bv8) {
    m == 1 || m == 2 || m == 4 || m == 8 || m == 16 || m == 32 || m == 64 || m == 128
  }

  lemma MaskIsSingle(k: nat)
    requires k < 8
    ensures SingleBit(Mask(k))
  {}

  lemma MaskInjective(k: nat, l: nat)
    requires k < 8 && l < 8 && k != l
    ensures Mask(k) != Mask(l)
  {}

  lemma SetMask(b: bv8, m: bv8, n: bv8, c: bv8)
    requires SingleBit(m) && SingleBit(n) && c == b | m
    ensures Overlaps(c, n) == (m == n || Overlaps(b, n))
  {}

  lemma ClearMask(b: bv8, m: bv8, n: bv8, c: bv8)
    requires SingleBit(m) && SingleBit(n) && c == b & !m
    ensures Overlaps(c, n) == (m != n && Overlaps(b, n))
  {}

  lemma MaskEqual(k: nat, l: nat)
    requires k < 8 && l < 8
    ensures SingleBit(Mask(k)) && SingleBit(Mask(l)) && (Mask(k) == Mask(l) <==> k == l)
  {
    MaskIsSingle(k);
    MaskIsSingle(l);
    if k != l { MaskInjective(k, l); }
  }

  lemma MaskSet(b: bv8, k: nat, l: nat)
    requires k < 8 && l < 8
    ensures HasBit(WithBit(b, k), l) == (k == l || HasBit(b, l))
  {
    MaskEqual(k, l);
    SetMask(b, Mask(k), Mask(l), WithBit(b, k));
  }

  lemma MaskCleared(b: bv8, k: nat, l: nat)
    requires k < 8 && l < 8
    ensures HasBit(WithoutBit(b, k), l) == (k != l && HasBit(b, l))
  {
    MaskEqual(k, l);
    ClearMask(b, Mask(k), Mask(l), WithoutBit(b, k));
  }

  /** Setting one bit sets that bit and no other. */
  lemma SetBitEffect(bitmap: seq<bv8>, pos: nat, q: nat)
    requires pos < 8 * |bitmap| && q < 8 * |bitmap|
    ensures TestBit(SetBit(bitmap, pos), q) == (q == pos || TestBit(bitmap, q))
  {
    if pos / 8 == q / 8 {
      MaskSet(bitmap[pos / 8], pos % 8, q % 8);
    }
  }

  lemma ClearBitEffect(bitmap: seq<bv8>, pos: nat, q: nat)
    requires pos < 8 * |bitmap| && q < 8 * |bitmap|
    ensures TestBit(ClearBit(bitmap, pos), q) == (q != pos && TestBit(bitmap, q))
  {
    if pos / 8 == q / 8 {
      MaskCleared(bitmap[pos / 8], pos % 8, q % 8);
    }
  }
}
