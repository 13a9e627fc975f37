/**
 The hash slot of a key (cluster.c): the low fourteen bits of the CRC-16 of the
 key, or of the part between the first opening brace and the closing brace after it.
 */
module KeySlot {
  import opened BinaryPolynomial
  import opened BitOrder
  import Crc16

  const OPEN: bv8 := 123
  const CLOSE: bv8 := 125

  /** Index of the first b at or after `from`, or the length when there is none. */
  function FirstFrom(s: seq<bv8>, b: bv8, from: nat): (i: nat)
    requires from <= |s|
    ensures from <= i <= |s|
    ensures forall j :: from <= j < i ==> s[j] != b
    ensures i < |s| ==> s[i] == b
    decreases |s| - from
  {
    if from == |s| || s[from] == b then from else FirstFrom(s, b, from + 1)
  }

  /** The part of the key that is hashed. */
  function Hashed(key: seq<bv8>): seq<bv8> {
    var s := FirstFrom(key, OPEN, 0);
    if s == |key| then key
    else
      var e := FirstFrom(key, CLOSE, s + 1);
      if e == |key| || e == s + 1 then key else key[s + 1..e]
  }

  /** The coefficients of the remainder the slot number is cut from. */
  function HashBits(s: seq<bv8>): (r: seq<bool>)
    ensures |r| == 16
  {
    Remainder(HighFirst(s) + Zeros(16), Crc16.Generator())
  }

  lemma CutByte(high: bv8, cut: bv8)
    requires cut == high & 0x3f
    ensures HighFirstByte(cut) == [false, false] + HighFirstByte(high)[2..]
  {}

  lemma CutBytes(crc: bv16, slot: bv16)
    requires slot == crc & 0x3fff
    ensures (slot >> 8) as bv8 == ((crc >> 8) as bv8) & 0x3f
    ensures (slot & 0xff) as bv8 == (crc & 0xff) as bv8
  {}

  lemma TwoBytes(high: bv8, low: bv8)
    ensures HighFirst([high, low]) == HighFirstByte(high) + HighFirstByte(low)
  {
    assert [high, low] == [high] + [low];
    HighFirstConcat([high], [low]);
    HighFirstSingleton(high);
    HighFirstSingleton(low);
  }

  lemma LowFourteen(crc: bv16, slot: bv16)
    requires slot == crc & 0x3fff
    ensures Crc16.WordBits(slot) == [false, false] + Crc16.WordBits(crc)[2..]
  {
    CutBytes(crc, slot);
    CutByte((crc >> 8) as bv8, (slot >> 8) as bv8);
    TwoBytes((crc >> 8) as bv8, (crc & 0xff) as bv8);
    TwoBytes((slot >> 8) as bv8, (slot & 0xff) as bv8);
  }

  method KeyHashSlot(key: seq<bv8>) returns (slot: bv16)
    ensures slot < 16384
    ensures Crc16.WordBits(slot) == [false, false] + HashBits(Hashed(key))[2..]
  {
    var crc: bv16;
    var s := 0;
    while s < |key| && key[s] != OPEN
      invariant 0 <= s <= |key| && FirstFrom(key, OPEN, 0) == FirstFrom(key, OPEN, s)
    {
      s := s + 1;
    }
    if s == |key| {
      crc := Crc16.Compute(key);
    } else {
      var e := s + 1;
      while e < |key| && key[e] != CLOSE
        invariant s + 1 <= e <= |key| && FirstFrom(key, CLOSE, s + 1) == FirstFrom(key, CLOSE, e)
      {
        e := e + 1;
      }
      if e == |key| || e == s + 1 {
        crc := Crc16.Compute(key);
      } else {
        crc := Crc16.Compute(key[s + 1..e]);
      }
    }
    slot := crc & 0x3fff;
    LowFourteen(crc, slot);
  }

  lemma {:induction false} FirstFromIs(s: seq<bv8>, b: bv8, from: nat, i: nat)
    requires from <= i < |s| && s[i] == b
    requires forall j :: from <= j < i ==> s[j] != b
    ensures FirstFrom(s, b, from) == i
    decreases i - from
  {
    if from < i {
      FirstFromIs(s, b, from + 1, i);
    }
  }

  /** A non-empty tag in braces, bytes 123 and 125, alone decides the slot, whatever surrounds it. */
  lemma TagDecides(before: seq<bv8>, tag: seq<bv8>, after: seq<bv8>)
    requires 123 !in before && 125 !in tag && tag != []
    ensures Hashed(before + [123] + tag + [125] + after) == tag
  {
    var key := before + [OPEN] + tag + [CLOSE] + after;
    var s, e := |before|, |before| + 1 + |tag|;
    FirstFromIs(key, OPEN, 0, s);
    assert forall j :: s + 1 <= j < e ==> key[j] == tag[j - s - 1];
    FirstFromIs(key, CLOSE, s + 1, e);
    assert key[s + 1..e] == tag;
  }

  /** Every key either has such a tag, or is hashed whole. */
  lemma TaggedOrWhole(key: seq<bv8>) returns (before: seq<bv8>, after: seq<bv8>)
    ensures || Hashed(key) == key
            || (&& key == before + [123] + Hashed(key) + [125] + after
                && 123 !in before && 125 !in Hashed(key) && Hashed(key) != [])
  {
    var s := FirstFrom(key, OPEN, 0);
    before, after := [], [];
    if s < |key| {
      var e := FirstFrom(key, CLOSE, s + 1);
      if s + 1 < e < |key| {
        before, after := key[..s], key[e + 1..];
        assert key == key[..s] + [key[s]] + key[s + 1..e] + [key[e]] + key[e + 1..];
      }
    }
  }
}
