/**
 redisBitpos (bitops.c): the first set or clear bit of a byte string, found by
 skipping whole 64-bit words. Bits are numbered as GETBIT numbers them, from
 the high end of the first byte.
 */
module Bitpos {
  import opened Bitmap

  /** Bit p of the string, as GETBIT reads it. */
  predicate GetBit(s: seq<bv8>, p: nat)
    requires p < 8 * |s|
  {
    HasBit(s[p / 8], 7 - p % 8)
  }

  // ---------- words ----------

  /** Eight bytes as one word, the first in the high end. */
  function Word(b0: bv8, b1: bv8, b2: bv8, b3: bv8, b4: bv8, b5: bv8, b6: bv8, b7: bv8): bv64 {
    (b0 as bv64 << 56) | (b1 as bv64 << 48) | (b2 as bv64 << 40) | (b3 as bv64 << 32)
    | (b4 as bv64 << 24) | (b5 as bv64 << 16) | (b6 as bv64 << 8) | (b7 as bv64)
  }

  lemma UniformWord(b0: bv8, b1: bv8, b2: bv8, b3: bv8, b4: bv8, b5: bv8, b6: bv8, b7: bv8, w: bv64)
    requires w == Word(b0, b1, b2, b3, b4, b5, b6, b7)
    ensures w == 0 <==> b0 == b1 == b2 == b3 == b4 == b5 == b6 == b7 == 0
    ensures w == 0xffff_ffff_ffff_ffff <==> b0 == b1 == b2 == b3 == b4 == b5 == b6 == b7 == 0xff
  {}

  const TOP: bv64 := 0x8000_0000_0000_0000

  predicate Test(one: bv64, w: bv64) {
    one & w != 0
  }

  function Half(x: bv64): bv64 {
    x >> 1
  }

  /** The mask of the scan after k steps: the top bit moved down k places. */
  function One(k: nat): bv64 {
    if k == 0 then TOP else Half(One(k - 1))
  }

  /** Bit k of a word, from the high end. */
  predicate Bit(w: bv64, k: nat)
    decreases k
  {
    if k == 0 then Test(TOP, w) else Bit(w << 1, k - 1)
  }

  lemma Slide(x: bv64, y: bv64, w: bv64, v: bv64)
    requires y == Half(x) && v == w << 1
    ensures Test(y, w) == Test(x, v)
  {}

  /** Moving the mask down tests what moving the word up does. */
  lemma {:induction false} TestIsBit(k: nat, w: bv64)
    ensures Test(One(k), w) == Bit(w, k)
    decreases k
  {
    if k > 0 {
      var v := w << 1;
      TestIsBit(k - 1, v);
      Slide(One(k - 1), One(k), w, v);
    }
  }

  lemma OnBy1(w: bv64, k: nat, v: bv64)
    requires v == w << 1
    ensures Bit(w, k + 1) == Bit(v, k)
  {}

  lemma Shift2(w: bv64, u: bv64, v: bv64)
    requires u == w << 1 && v == w << 2
    ensures v == u << 1
  {}

  lemma OnBy2(w: bv64, k: nat, v: bv64)
    requires v == w << 2
    ensures Bit(w, k + 2) == Bit(v, k)
  {
    var u := w << 1;
    Shift2(w, u, v);
    OnBy1(w, k + 1, u);
    OnBy1(u, k, v);
  }

  lemma Shift4(w: bv64, u: bv64, v: bv64)
    requires u == w << 2 && v == w << 4
    ensures v == u << 2
  {}

  lemma OnBy4(w: bv64, k: nat, v: bv64)
    requires v == w << 4
    ensures Bit(w, k + 4) == Bit(v, k)
  {
    var u := w << 2;
    Shift4(w, u, v);
    OnBy2(w, k + 2, u);
    OnBy2(u, k, v);
  }

  lemma Shift8(w: bv64, u: bv64, v: bv64)
    requires u == w << 4 && v == w << 8
    ensures v == u << 4
  {}

  lemma OnBy8(w: bv64, k: nat, v: bv64)
    requires v == w << 8
    ensures Bit(w, k + 8) == Bit(v, k)
  {
    var u := w << 4;
    Shift8(w, u, v);
    OnBy4(w, k + 4, u);
    OnBy4(u, k, v);
  }

  lemma MaskSlide(b: bv8, c: bv8, j: nat)
    requires j < 7 && c & 0xfe == b << 1
    ensures HasBit(c, j + 1) == HasBit(b, j)
  {}

  lemma TopByteSlides(w: bv64, v: bv64, b: bv8, c: bv8)
    requires v == w << 1 && b as bv64 == w >> 56 && c as bv64 == v >> 56
    ensures c & 0xfe == b << 1
  {}

  lemma {:induction false} FirstByte(w: bv64, b: bv8, m: nat)
    requires m < 8 && b as bv64 == w >> 56
    ensures Bit(w, m) == HasBit(b, 7 - m)
    decreases m
  {
    if m > 0 {
      var v := w << 1;
      var c := (v >> 56) as bv8;
      FirstByte(v, c, m - 1);
      TopByteSlides(w, v, b, c);
      MaskSlide(b, c, 7 - m);
    }
  }

  /** The word holds these bytes, from the high end. */
  ghost predicate Matches(w: bv64, bs: seq<bv8>)
    decreases |bs|
  {
    bs == [] || (bs[0] as bv64 == w >> 56 && Matches(w << 8, bs[1..]))
  }

  lemma {:induction false} BitOfBytes(w: bv64, bs: seq<bv8>, k: nat)
    requires Matches(w, bs) && k < 8 * |bs|
    ensures Bit(w, k) == HasBit(bs[k / 8], 7 - k % 8)
    decreases k
  {
    if k < 8 {
      FirstByte(w, bs[0], k);
    } else {
      OnBy8(w, k - 8, w << 8);
      BitOfBytes(w << 8, bs[1..], k - 8);
    }
  }

  lemma MatchesFrom(w: bv64, v: bv64, bs: seq<bv8>, i: nat)
    requires i < |bs| && v == w << 8 && bs[i] as bv64 == w >> 56 && Matches(v, bs[i + 1..])
    ensures Matches(w, bs[i..])
  {
    assert bs[i..][1..] == bs[i + 1..];
  }

  // ---------- loading a word ----------

  /** Byte i of the string, with zeros behind it. */
  function Padded(s: seq<bv8>, i: nat): bv8 {
    if i < |s| then s[i] else 0
  }

  function PaddedBytes(s: seq<bv8>, p: nat): (bs: seq<bv8>)
    ensures |bs| == 8 && forall i :: 0 <= i < 8 ==> bs[i] == Padded(s, p + i)
  {
    seq(8, i requires 0 <= i < 8 => Padded(s, p + i))
  }

  /** v is w with a byte shifted in. */
  predicate ShiftsTo(w: bv64, v: bv64, b: bv8) {
    v == (w << 8) | (b as bv64)
  }

  /** Eight bytes shifted in stand in the word in order. */
  lemma ShiftedIn(b0: bv8, b1: bv8, b2: bv8, b3: bv8, b4: bv8, b5: bv8, b6: bv8, b7: bv8, w0: bv64,
                  w1: bv64, w2: bv64, w3: bv64, w4: bv64, w5: bv64, w6: bv64, w7: bv64, w8: bv64, w: bv64)
    requires ShiftsTo(w0, w1, b0) && ShiftsTo(w1, w2, b1) && ShiftsTo(w2, w3, b2) && ShiftsTo(w3, w4, b3)
    requires ShiftsTo(w4, w5, b4) && ShiftsTo(w5, w6, b5) && ShiftsTo(w6, w7, b6) && ShiftsTo(w7, w8, b7)
    requires w == w8
    ensures w == Word(b0, b1, b2, b3, b4, b5, b6, b7)
  {}

  lemma Tops(b0: bv8, b1: bv8, b2: bv8, b3: bv8, b4: bv8, b5: bv8, b6: bv8, b7: bv8, w: bv64,
             v1: bv64, v2: bv64, v3: bv64, v4: bv64, v5: bv64, v6: bv64, v7: bv64)
    requires w == Word(b0, b1, b2, b3, b4, b5, b6, b7)
    requires v1 == w << 8 && v2 == v1 << 8 && v3 == v2 << 8 && v4 == v3 << 8
    requires v5 == v4 << 8 && v6 == v5 << 8 && v7 == v6 << 8
    ensures b0 as bv64 == w >> 56 && b1 as bv64 == v1 >> 56 && b2 as bv64 == v2 >> 56 && b3 as bv64 == v3 >> 56
    ensures b4 as bv64 == v4 >> 56 && b5 as bv64 == v5 >> 56 && b6 as bv64 == v6 >> 56 && b7 as bv64 == v7 >> 56
  {}

  lemma MatchesWord(bs: seq<bv8>, w: bv64, v1: bv64, v2: bv64, v3: bv64, v4: bv64, v5: bv64, v6: bv64, v7: bv64)
    requires |bs| == 8
    requires v1 == w << 8 && v2 == v1 << 8 && v3 == v2 << 8 && v4 == v3 << 8
    requires v5 == v4 << 8 && v6 == v5 << 8 && v7 == v6 << 8
    requires bs[0] as bv64 == w >> 56 && bs[1] as bv64 == v1 >> 56 && bs[2] as bv64 == v2 >> 56
    requires bs[3] as bv64 == v3 >> 56 && bs[4] as bv64 == v4 >> 56 && bs[5] as bv64 == v5 >> 56
    requires bs[6] as bv64 == v6 >> 56 && bs[7] as bv64 == v7 >> 56
    ensures Matches(w, bs)
  {
    var v8 := v7 << 8;
    assert bs[8..] == [] && Matches(v8, bs[8..]);
    MatchesFrom(v7, v8, bs, 7);
    MatchesFrom(v6, v7, bs, 6);
    MatchesFrom(v5, v6, bs, 5);
    MatchesFrom(v4, v5, bs, 4);
    MatchesFrom(v3, v4, bs, 3);
    MatchesFrom(v2, v3, bs, 2);
    MatchesFrom(v1, v2, bs, 1);
    MatchesFrom(w, v1, bs, 0);
    assert bs[0..] == bs;
  }

  lemma WordMatches(bs: seq<bv8>, w: bv64)
    requires |bs| == 8 && w == Word(bs[0], bs[1], bs[2], bs[3], bs[4], bs[5], bs[6], bs[7])
    ensures Matches(w, bs)
  {
    var v1 := w << 8;
    var v2 := v1 << 8;
    var v3 := v2 << 8;
    var v4 := v3 << 8;
    var v5 := v4 << 8;
    var v6 := v5 << 8;
    var v7 := v6 << 8;
    Tops(bs[0], bs[1], bs[2], bs[3], bs[4], bs[5], bs[6], bs[7], w, v1, v2, v3, v4, v5, v6, v7);
    MatchesWord(bs, w, v1, v2, v3, v4, v5, v6, v7);
  }

  lemma ChainMatches(bs: seq<bv8>, w0: bv64, w1: bv64, w2: bv64, w3: bv64, w4: bv64, w5: bv64, w6: bv64, w7: bv64,
                     w8: bv64)
    requires |bs| == 8
    requires ShiftsTo(w0, w1, bs[0]) && ShiftsTo(w1, w2, bs[1]) && ShiftsTo(w2, w3, bs[2]) && ShiftsTo(w3, w4, bs[3])
    requires ShiftsTo(w4, w5, bs[4]) && ShiftsTo(w5, w6, bs[5]) && ShiftsTo(w6, w7, bs[6]) && ShiftsTo(w7, w8, bs[7])
    ensures w8 == Word(bs[0], bs[1], bs[2], bs[3], bs[4], bs[5], bs[6], bs[7])
  {
    ShiftedIn(bs[0], bs[1], bs[2], bs[3], bs[4], bs[5], bs[6], bs[7], w0, w1, w2, w3, w4, w5, w6, w7, w8, w8);
  }

  /** `w` holds the word before and after every turn of the loop that loads it. */
  ghost predicate Loading(w: seq<bv64>, s: seq<bv8>, p: nat, n: nat) {
    && |w| == n + 1
    && forall i, k :: 0 <= i < n && k == i + 1 ==> ShiftsTo(w[i], w[k], Padded(s, p + i))
  }

  lemma LoadedMatches(s: seq<bv8>, p: nat, w: seq<bv64>, bs: seq<bv8>)
    requires Loading(w, s, p, 8) && bs == PaddedBytes(s, p)
    ensures Matches(w[8], bs) && w[8] == Word(bs[0], bs[1], bs[2], bs[3], bs[4], bs[5], bs[6], bs[7])
  {
    ChainMatches(bs, w[0], w[1], w[2], w[3], w[4], w[5], w[6], w[7], w[8]);
    WordMatches(bs, w[8]);
  }

  predicate PaddedBit(s: seq<bv8>, q: nat) {
    HasBit(Padded(s, q / 8), 7 - q % 8)
  }

  /** The scan of the loaded word tests the bits of the padded string one after another. */
  lemma ScanTests(s: seq<bv8>, p: nat, k: nat, w: bv64, one: bv64)
    requires k < 64 && Matches(w, PaddedBytes(s, p)) && one == One(k)
    ensures Test(one, w) == PaddedBit(s, 8 * p + k)
  {
    BitOfBytes(w, PaddedBytes(s, p), k);
    TestIsBit(k, w);
  }

  // ---------- the mask runs out after 64 steps ----------

  const LAST_BIT: nat := 63

  lemma LastBitOf(b: bv8, w: bv64)
    requires w == Word(0, 0, 0, 0, 0, 0, 0, b) || w == Word(0xff, 0xff, 0xff, 0xff, 0xff, 0xff, 0xff, b)
    ensures Test(One(LAST_BIT), w) == HasBit(b, 0)
  {
    var fill: bv8 := if w == Word(0, 0, 0, 0, 0, 0, 0, b) then 0 else 0xff;
    var bs := seq(8, i => if i == 7 then b else fill);
    WordMatches(bs, w);
    BitOfBytes(w, bs, LAST_BIT);
    TestIsBit(LAST_BIT, w);
  }

  lemma OnlyLowBit(x: bv64)
    requires Test(x, 1) && !Test(x, 0xffff_ffff_ffff_fffe)
    ensures x == 1 && Half(x) == 0
  {}

  lemma OneEnds()
    ensures One(LAST_BIT) == 1 && One(LAST_BIT + 1) == 0
  {
    LastBitOf(1, 1);
    LastBitOf(0xfe, 0xffff_ffff_ffff_fffe);
    OnlyLowBit(One(LAST_BIT));
  }

  lemma {:induction false} OneNonzero(k: nat)
    requires k <= LAST_BIT
    ensures One(k) != 0
    decreases LAST_BIT - k
  {
    if k == LAST_BIT {
      OneEnds();
    } else {
      OneNonzero(k + 1);
    }
  }

  // ---------- what is found ----------

  /** The least position at which the string has the wanted bit; past the end for a clear bit, -1 for a set one. */
  ghost predicate IsFirst(s: seq<bv8>, bit: bool, pos: int) {
    if pos == -1 then bit && forall q: nat :: q < 8 * |s| ==> !GetBit(s, q)
    else
      && 0 <= pos <= 8 * |s|
      && (forall q: nat :: q < pos ==> GetBit(s, q) != bit)
      && (if pos < 8 * |s| then GetBit(s, pos) == bit else !bit)
  }

  function Skipped(bit: bool): bv8 {
    if bit then 0 else 0xff
  }

  lemma UniformByte(b: bv8, bit: bool, k: nat)
    requires b == Skipped(bit) && k < 8
    ensures HasBit(b, k) != bit
  {}

  lemma SameBitsMeanSkipped(b: bv8, bit: bool)
    requires forall k :: 0 <= k < 8 ==> HasBit(b, k) != bit
    ensures b == Skipped(bit)
  {
    assert HasBit(b, 0) == HasBit(b, 1) == HasBit(b, 2) == HasBit(b, 3) == !bit;
    assert HasBit(b, 4) == HasBit(b, 5) == HasBit(b, 6) == HasBit(b, 7) == !bit;
  }

  lemma SkippedBits(s: seq<bv8>, bit: bool, p: nat)
    requires p <= |s| && forall i :: 0 <= i < p ==> s[i] == Skipped(bit)
    ensures forall q: nat :: q < 8 * p ==> GetBit(s, q) != bit
  {
    forall q: nat | q < 8 * p ensures GetBit(s, q) != bit {
      UniformByte(s[q / 8], bit, 7 - q % 8);
    }
  }

  /** No padded bit from `lo` up to, not including, `hi` is the wanted one. */
  ghost predicate Unwanted(s: seq<bv8>, bit: bool, lo: nat, hi: nat) {
    forall q: nat :: lo <= q < hi ==> PaddedBit(s, q) != bit
  }

  /** The scan stops at the first wanted bit of the string, or just behind it if a clear bit is wanted. */
  lemma FoundInWord(s: seq<bv8>, bit: bool, p: nat, pos: nat)
    requires p <= |s| && 8 * p <= pos && (forall i :: 0 <= i < p ==> s[i] == Skipped(bit))
    requires Unwanted(s, bit, 8 * p, pos) && PaddedBit(s, pos) == bit
    ensures IsFirst(s, bit, pos)
  {
    SkippedBits(s, bit, p);
    if pos >= 8 * |s| {
      UniformByte(0, true, 7 - pos % 8);
      UniformByte(0, true, 7);
      assert PaddedBit(s, 8 * |s|) == false;
    }
    forall q: nat | q < pos && q < 8 * |s| ensures GetBit(s, q) != bit {
      assert q >= 8 * p ==> PaddedBit(s, q) != bit;
    }
  }

  /** A word all of whose 64 bits are the unwanted ones is eight skipped bytes. */
  lemma NothingInWord(s: seq<bv8>, bit: bool, p: nat, i: nat)
    requires Unwanted(s, bit, 8 * p, 8 * p + 64) && p <= i < p + 8
    ensures Padded(s, i) == Skipped(bit)
  {
    forall k | 0 <= k < 8 ensures HasBit(Padded(s, i), k) != bit {
      assert PaddedBit(s, 8 * i + 7 - k) != bit;
    }
    SameBitsMeanSkipped(Padded(s, i), bit);
  }

  lemma NoneLeft(s: seq<bv8>, p: nat)
    requires p <= |s| < p + 8 && (forall i :: 0 <= i < p ==> s[i] == 0)
    requires forall i: nat :: p <= i < p + 8 ==> Padded(s, i) == 0
    ensures IsFirst(s, true, -1)
  {
    forall q: nat | q < 8 * |s| ensures !GetBit(s, q) {
      assert q / 8 >= p ==> Padded(s, q / 8) == 0;
      UniformByte(s[q / 8], true, 7 - q % 8);
    }
  }

  /** A word as the machine loads it from the string. */
  function Native(s: seq<bv8>, p: nat): bv64
    requires p + 8 <= |s|
  {
    Word(s[p + 7], s[p + 6], s[p + 5], s[p + 4], s[p + 3], s[p + 2], s[p + 1], s[p])
  }

  ghost predicate AllSkipped(s: seq<bv8>, p: nat, bit: bool)
    requires p + 8 <= |s|
  {
    forall i :: p <= i < p + 8 ==> s[i] == Skipped(bit)
  }

  /** Comparing the machine word with all zeros or all ones compares its eight bytes. */
  method SkipsWord(s: seq<bv8>, p: nat, bit: bool) returns (skips: bool)
    requires p + 8 <= |s|
    ensures skips == AllSkipped(s, p, bit)
  {
    var skipval: bv64 := if bit then 0 else 0xffff_ffff_ffff_ffff;
    var l := Native(s, p);
    UniformWord(s[p + 7], s[p + 6], s[p + 5], s[p + 4], s[p + 3], s[p + 2], s[p + 1], s[p], l);
    skips := l == skipval;
    if skips {
      assert s[p] == s[p + 1] == s[p + 2] == s[p + 3] == Skipped(bit);
      assert s[p + 4] == s[p + 5] == s[p + 6] == s[p + 7] == Skipped(bit);
    }
  }

  /** The loop that loads the last word; each turn takes a byte while there is one. */
  method LoadWord(s: seq<bv8>, p: nat) returns (word: bv64)
    requires p <= |s|
    ensures Matches(word, PaddedBytes(s, p))
    ensures word == 0 <==> forall i: nat :: p <= i < p + 8 ==> Padded(s, i) == 0
  {
    word := 0;
    var c, count := p, |s| - p;
    ghost var history := [word];
    for j := 0 to 8
      invariant Loading(history, s, p, j) && word == history[j]
      invariant c + count == |s| && c == if p + j < |s| then p + j else |s|
    {
      var before := word;
      word := word << 8;
      if count > 0 {
        word := word | (s[c] as bv64);
        c, count := c + 1, count - 1;
      }
      ByteOrNothing(before, word, Padded(s, p + j), p + j < |s|);
      history := history + [word];
    }
    var bs := PaddedBytes(s, p);
    LoadedMatches(s, p, history, bs);
    ZeroWord(s, p, bs, word);
  }

  lemma ZeroWord(s: seq<bv8>, p: nat, bs: seq<bv8>, w: bv64)
    requires bs == PaddedBytes(s, p) && w == Word(bs[0], bs[1], bs[2], bs[3], bs[4], bs[5], bs[6], bs[7])
    ensures w == 0 <==> forall i: nat :: p <= i < p + 8 ==> Padded(s, i) == 0
  {
    UniformWord(bs[0], bs[1], bs[2], bs[3], bs[4], bs[5], bs[6], bs[7], w);
    if w == 0 {
      forall i: nat | p <= i < p + 8 ensures Padded(s, i) == 0 {
        assert bs[i - p] == Padded(s, i);
      }
    }
  }

  lemma ByteOrNothing(w: bv64, v: bv64, b: bv8, some: bool)
    requires v == if some then (w << 8) | (b as bv64) else w << 8
    requires !some ==> b == 0
    ensures ShiftsTo(w, v, b)
  {}

  /** Under each mask of the scan the word tests the next bit of the padded string. */
  ghost predicate Reads(word: bv64, s: seq<bv8>, p: nat) {
    forall k: nat :: k < 64 ==> Test(One(k), word) == PaddedBit(s, 8 * p + k)
  }

  lemma MatchingReads(word: bv64, s: seq<bv8>, p: nat)
    requires Matches(word, PaddedBytes(s, p))
    ensures Reads(word, s, p)
  {
    forall k: nat | k < 64 ensures Test(One(k), word) == PaddedBit(s, 8 * p + k) {
      ScanTests(s, p, k, word, One(k));
    }
  }

  lemma MaskRunsOut(k: nat, one: bv64)
    requires k <= 64 && one == One(k)
    ensures one == 0 <==> k == 64
  {
    if k == 64 { OneEnds(); } else { OneNonzero(k); }
  }

  ghost predicate NoneTested(word: bv64, bit: bool, k: nat) {
    forall j: nat :: j < k ==> Test(One(j), word) != bit
  }

  /** The scan of the last word, bit by bit from the high end. */
  method ScanWord(start: nat, bit: bool, word: bv64) returns (pos: nat, found: bool)
    ensures start <= pos <= start + 64 && NoneTested(word, bit, pos - start)
    ensures if found then pos < start + 64 && Test(One(pos - start), word) == bit else pos == start + 64
  {
    pos := start;
    var one: bv64 := TOP;
    ghost var k := 0;
    while one != 0
      invariant k <= 64 && one == One(k) && pos == start + k && NoneTested(word, bit, k)
      decreases 64 - k
    {
      MaskRunsOut(k, one);
      if Test(one, word) == bit { return pos, true; }
      NoneMore(word, bit, k);
      pos := pos + 1;
      one := Half(one);
      k := k + 1;
    }
    MaskRunsOut(k, one);
    found := false;
  }

  lemma NoneMore(word: bv64, bit: bool, k: nat)
    requires NoneTested(word, bit, k) && Test(One(k), word) != bit
    ensures NoneTested(word, bit, k + 1)
  {}

  lemma ScannedBits(s: seq<bv8>, p: nat, bit: bool, word: bv64, k: nat)
    requires Reads(word, s, p) && k <= 64 && NoneTested(word, bit, k)
    ensures Unwanted(s, bit, 8 * p, 8 * p + k)
  {
    forall q: nat | 8 * p <= q < 8 * p + k ensures PaddedBit(s, q) != bit {
      assert Test(One(q - 8 * p), word) == PaddedBit(s, 8 * p + (q - 8 * p));
    }
  }

  /** The scan always finds the bit: the panic behind it is not reached. */
  lemma PanicUnreachable(s: seq<bv8>, p: nat, bit: bool, word: bv64)
    requires Reads(word, s, p) && exists i: nat :: p <= i < p + 8 && Padded(s, i) != Skipped(bit)
    ensures !NoneTested(word, bit, 64)
  {
    if NoneTested(word, bit, 64) {
      ScannedBits(s, p, bit, word, 64);
      forall i: nat | p <= i < p + 8 ensures Padded(s, i) == Skipped(bit) {
        NothingInWord(s, bit, p, i);
      }
    }
  }

  /** The two skipping loops: single bytes up to a word boundary, then whole words. */
  method Skip(s: seq<bv8>, address: nat, bit: bool) returns (p: nat, pos: nat)
    ensures p <= |s| && pos == 8 * p && forall i :: 0 <= i < p ==> s[i] == Skipped(bit)
    ensures p + 8 <= |s| ==> !AllSkipped(s, p, bit)
  {
    p, pos := 0, 0;
    var count := |s|;
    while (address + p) % 8 != 0 && count > 0
      invariant p <= |s| && p + count == |s| && pos == 8 * p && forall i :: 0 <= i < p ==> s[i] == Skipped(bit)
      decreases count
    {
      if s[p] != Skipped(bit) { break; }
      p, count, pos := p + 1, count - 1, pos + 8;
    }
    while count >= 8
      invariant p <= |s| && p + count == |s| && pos == 8 * p && forall i :: 0 <= i < p ==> s[i] == Skipped(bit)
    {
      var skips := SkipsWord(s, p, bit);
      if !skips { break; }
      p, count, pos := p + 8, count - 8, pos + 64;
    }
  }

  /** redisBitpos, for a string that lies at the given address. */
  method Bitpos(s: seq<bv8>, address: nat, bit: bool) returns (pos: int)
    ensures IsFirst(s, bit, pos)
  {
    var p, start := Skip(s, address, bit);
    var word := LoadWord(s, p);
    if bit && word == 0 {
      ZerosLeft(s, p);
      return -1;
    }
    SomethingLeft(s, p, bit, word);
    MatchingReads(word, s, p);
    PanicUnreachable(s, p, bit, word);
    var found;
    pos, found := ScanWord(start, bit, word);
    if !found {
      assert false;
    }
    ScannedBits(s, p, bit, word, pos - 8 * p);
    assert Test(One(pos - 8 * p), word) == PaddedBit(s, 8 * p + (pos - 8 * p));
    FoundInWord(s, bit, p, pos);
  }

  lemma ZerosLeft(s: seq<bv8>, p: nat)
    requires p <= |s| && (forall i :: 0 <= i < p ==> s[i] == 0) && (p + 8 <= |s| ==> !AllSkipped(s, p, true))
    requires forall i: nat :: p <= i < p + 8 ==> Padded(s, i) == 0
    ensures IsFirst(s, true, -1)
  {
    if p + 8 <= |s| {
      forall i | p <= i < p + 8 ensures s[i] == Skipped(true) {
        assert Padded(s, i) == 0;
      }
    }
    NoneLeft(s, p);
  }

  lemma SomethingLeft(s: seq<bv8>, p: nat, bit: bool, word: bv64)
    requires p <= |s| && (p + 8 <= |s| ==> !AllSkipped(s, p, bit))
    requires word == 0 <==> forall i: nat :: p <= i < p + 8 ==> Padded(s, i) == 0
    requires bit ==> word != 0
    ensures exists i: nat :: p <= i < p + 8 && Padded(s, i) != Skipped(bit)
  {
    if !bit {
      if |s| < p + 8 {
        assert Padded(s, |s|) == 0;
      } else {
        var i :| p <= i < p + 8 && s[i] != Skipped(bit);
        assert Padded(s, i) == s[i];
      }
    }
  }
}
