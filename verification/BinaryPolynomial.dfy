/**
 Polynomials over the two-element field, as coefficient sequences with the
 highest power first, and the two ways of dividing by a generator that the
 checksums need: schoolbook long division, and a shift register that takes the
 message one bit at a time.

 A generator of degree w is given by its w coefficients below the leading one.
 */
module BinaryPolynomial {

  function Add(a: seq<bool>, b: seq<bool>): (r: seq<bool>)
    requires |a| == |b|
    ensures |r| == |a|
  {
    seq(|a|, i requires 0 <= i < |a| => a[i] != b[i])
  }

  function Zeros(n: nat): (r: seq<bool>)
    ensures |r| == n
  {
    seq(n, _ => false)
  }

  /** Schoolbook long division: cancel the leading coefficient until fewer than w + 1 are left. */
  function Remainder(p: seq<bool>, g: seq<bool>): (r: seq<bool>)
    requires 0 < |g| <= |p|
    ensures |r| == |g|
    decreases |p|
  {
    if |p| == |g| then p
    else if p[0] then Remainder(Add(p[1..|g| + 1], g) + p[|g| + 1..], g)
    else Remainder(p[1..], g)
  }

  /** One clock of the division register: shift left, and add the generator on feedback. */
  function Clock(register: seq<bool>, bit: bool, g: seq<bool>): (r: seq<bool>)
    requires |register| == |g| > 0
    ensures |r| == |g|
  {
    var shifted := register[1..] + [false];
    if register[0] != bit then Add(shifted, g) else shifted
  }

  function Serial(register: seq<bool>, message: seq<bool>, g: seq<bool>): (r: seq<bool>)
    requires |register| == |g| > 0
    ensures |r| == |g|
    decreases |message|
  {
    if message == [] then register else Serial(Clock(register, message[0], g), message[1..], g)
  }

  lemma {:induction false} SerialConcat(register: seq<bool>, a: seq<bool>, b: seq<bool>, g: seq<bool>)
    requires |register| == |g| > 0
    ensures Serial(register, a + b, g) == Serial(Serial(register, a, g), b, g)
    decreases |a|
  {
    if a == [] {
      assert a + b == b;
    } else {
      assert (a + b)[1..] == a[1..] + b;
      SerialConcat(Clock(register, a[0], g), a[1..], b, g);
    }
  }

  /** The dividend whose long division a register with contents `register` is about to carry out. */
  function Pending(register: seq<bool>, message: seq<bool>): (p: seq<bool>)
    ensures |p| == |register| + |message|
  {
    Add(register + Zeros(|message|), message + Zeros(|register|))
  }

  function CoefficientAt(p: seq<bool>, k: nat): bool {
    k < |p| && p[k]
  }

  lemma PendingAt(register: seq<bool>, message: seq<bool>, k: nat)
    requires k < |register| + |message|
    ensures Pending(register, message)[k] == (CoefficientAt(register, k) != CoefficientAt(message, k))
  {}

  /** Clocking the register is one cancellation step of the long division. */
  lemma ClockCancels(register: seq<bool>, message: seq<bool>, g: seq<bool>)
    requires |register| == |g| > 0 && message != []
    ensures var p := Pending(register, message);
            Pending(Clock(register, message[0], g), message[1..])
            == if p[0] then Add(p[1..|g| + 1], g) + p[|g| + 1..] else p[1..]
  {
    var p := Pending(register, message);
    var next := Clock(register, message[0], g);
    PendingAt(register, message, 0);
    forall k: nat | k < |g| + |message| - 1
      ensures Pending(next, message[1..])[k] == (p[k + 1] != (p[0] && CoefficientAt(g, k)))
    {
      PendingAt(register, message, k + 1);
      PendingAt(next, message[1..], k);
    }
  }

  /** The shift register and long division agree, whatever the register holds. */
  lemma {:induction false} SerialIsRemainder(register: seq<bool>, message: seq<bool>, g: seq<bool>)
    requires |register| == |g| > 0
    ensures Serial(register, message, g) == Remainder(Pending(register, message), g)
    decreases |message|
  {
    if message == [] {
      assert Pending(register, message) == register;
    } else {
      SerialIsRemainder(Clock(register, message[0], g), message[1..], g);
      ClockCancels(register, message, g);
    }
  }

  /** Started at zero, the register leaves the remainder of message * x^w. */
  lemma SerialFromZero(message: seq<bool>, g: seq<bool>)
    requires |g| > 0
    ensures Serial(Zeros(|g|), message, g) == Remainder(message + Zeros(|g|), g)
  {
    SerialIsRemainder(Zeros(|g|), message, g);
    assert Pending(Zeros(|g|), message) == message + Zeros(|g|);
  }

  // ---------- linearity, bijectivity, burst errors ----------

  lemma ClockLinear(r: seq<bool>, s: seq<bool>, m: bool, n: bool, g: seq<bool>)
    requires |r| == |s| == |g| > 0
    ensures Clock(Add(r, s), m != n, g) == Add(Clock(r, m, g), Clock(s, n, g))
  {}

  lemma {:induction false} SerialLinear(r: seq<bool>, s: seq<bool>, m: seq<bool>, n: seq<bool>, g: seq<bool>)
    requires |r| == |s| == |g| > 0 && |m| == |n|
    ensures Serial(Add(r, s), Add(m, n), g) == Add(Serial(r, m, g), Serial(s, n, g))
    decreases |m|
  {
    if m != [] {
      assert Add(m, n)[1..] == Add(m[1..], n[1..]);
      ClockLinear(r, s, m[0], n[0], g);
      SerialLinear(Clock(r, m[0], g), Clock(s, n[0], g), m[1..], n[1..], g);
    }
  }

  /** With constant term 1, one clock can be undone: its last bit tells the feedback. */
  lemma ClockInjective(r: seq<bool>, s: seq<bool>, bit: bool, g: seq<bool>)
    requires |r| == |s| == |g| > 0 && g[|g| - 1]
    requires Clock(r, bit, g) == Clock(s, bit, g)
    ensures r == s
  {
    var last := |g| - 1;
    assert Clock(r, bit, g)[last] == (r[0] != bit) && Clock(s, bit, g)[last] == (s[0] != bit);
    forall k | 0 < k < |g| ensures r[k] == s[k] {
      assert Clock(r, bit, g)[k - 1] == (r[k] != (r[0] != bit && g[k - 1]));
      assert Clock(s, bit, g)[k - 1] == (s[k] != (s[0] != bit && g[k - 1]));
    }
  }

  lemma {:induction false} SerialInjective(r: seq<bool>, s: seq<bool>, message: seq<bool>, g: seq<bool>)
    requires |r| == |s| == |g| > 0 && g[|g| - 1]
    requires Serial(r, message, g) == Serial(s, message, g)
    ensures r == s
    decreases |message|
  {
    if message != [] {
      SerialInjective(Clock(r, message[0], g), Clock(s, message[0], g), message[1..], g);
      ClockInjective(r, s, message[0], g);
    }
  }

  /** A message no longer than the register may be added to it all at once. */
  lemma AbsorbUpFront(register: seq<bool>, message: seq<bool>, g: seq<bool>)
    requires |register| == |g| > 0 && |message| <= |g|
    ensures Serial(register, message, g)
            == Serial(Add(register, message + Zeros(|g| - |message|)), Zeros(|message|), g)
  {
    var loaded := Add(register, message + Zeros(|g| - |message|));
    SerialIsRemainder(register, message, g);
    SerialIsRemainder(loaded, Zeros(|message|), g);
    assert Pending(loaded, Zeros(|message|)) == Pending(register, message);
  }

  /** Zeros at the front of the register are just shifted out. */
  lemma {:induction false} ShiftOut(register: seq<bool>, n: nat, g: seq<bool>)
    requires |register| == |g| && n <= |g| && |g| > 0
    requires forall k :: 0 <= k < n ==> !register[k]
    ensures Serial(register, Zeros(n), g) == register[n..] + Zeros(n)
    decreases n
  {
    if n > 0 {
      var next := Clock(register, false, g);
      assert Zeros(n)[1..] == Zeros(n - 1);
      ShiftOut(next, n - 1, g);
      assert next == register[1..] + [false];
      assert next[n - 1..] + Zeros(n - 1) == register[n..] + Zeros(n);
    } else {
      assert register[0..] + Zeros(0) == register;
    }
  }

  lemma ZeroMessageLinear(low: seq<bool>, high: seq<bool>, n: nat, g: seq<bool>)
    requires |low| == |high| == |g| > 0
    ensures Serial(Add(low, high), Zeros(n), g) == Add(Serial(low, Zeros(n), g), Serial(high, Zeros(n), g))
  {
    assert Add(Zeros(n), Zeros(n)) == Zeros(n);
    SerialLinear(low, high, Zeros(n), Zeros(n), g);
  }

  lemma ShiftOutHigh(register: seq<bool>, n: nat, high: seq<bool>, shifted: seq<bool>, g: seq<bool>)
    requires |register| == |g| > 0 && n <= |g|
    requires high == Zeros(n) + register[n..] && shifted == register[n..] + Zeros(n)
    ensures Serial(high, Zeros(n), g) == shifted
  {
    assert high[n..] == register[n..];
    ShiftOut(high, n, g);
  }

  /** The step of a table-driven loop: `low` and `high` split the register once the
      message bits are added to it; `entry` is the table's word for `low`. */
  lemma TableRound(register: seq<bool>, message: seq<bool>, low: seq<bool>, high: seq<bool>,
                   entry: seq<bool>, shifted: seq<bool>, g: seq<bool>)
    requires |register| == |low| == |high| == |g| > 0 && |message| <= |g|
    requires Add(register, message + Zeros(|g| - |message|)) == Add(low, high)
    requires entry == Serial(low, Zeros(|message|), g)
    requires shifted == Serial(high, Zeros(|message|), g)
    ensures Serial(register, message, g) == Add(entry, shifted)
  {
    AbsorbUpFront(register, message, g);
    ZeroMessageLinear(low, high, |message|, g);
  }

  /** Feeding a register its own contents clears it, and nothing else of its length does. */
  lemma ClearedByItself(register: seq<bool>, message: seq<bool>, g: seq<bool>)
    requires |register| == |message| == |g| > 0 && g[|g| - 1]
    ensures Serial(register, message, g) == Zeros(|g|) <==> register == message
  {
    AbsorbUpFront(register, message, g);
    assert message + Zeros(0) == message;
    ShiftOut(Zeros(|g|), |g|, g);
    if Serial(register, message, g) == Zeros(|g|) {
      SerialInjective(Add(register, message), Zeros(|g|), Zeros(|g|), g);
      assert Add(register, message) == Zeros(|g|);
      forall k | 0 <= k < |g| ensures register[k] == message[k] {
        assert !Add(register, message)[k];
      }
    }
    if register == message {
      assert Add(register, message) == Zeros(|g|);
    }
  }

  /** From one register, messages no longer than it leave different registers. */
  lemma ShortMessageInjective(start: seq<bool>, m: seq<bool>, n: seq<bool>, g: seq<bool>)
    requires |start| == |g| > 0 && |m| == |n| <= |g| && g[|g| - 1]
    requires Serial(start, m, g) == Serial(start, n, g)
    ensures m == n
  {
    AbsorbUpFront(start, m, g);
    AbsorbUpFront(start, n, g);
    var pad := Zeros(|g| - |m|);
    SerialInjective(Add(start, m + pad), Add(start, n + pad), Zeros(|m|), g);
    forall k | 0 <= k < |m| ensures m[k] == n[k] {
      assert Add(start, m + pad)[k] == (start[k] != m[k]);
      assert Add(start, n + pad)[k] == (start[k] != n[k]);
    }
  }

  /** Two messages that differ only within as many consecutive bits as the
      register holds leave different registers. */
  lemma BurstDetected(register: seq<bool>, before: seq<bool>, burst: seq<bool>, burst': seq<bool>,
                      after: seq<bool>, g: seq<bool>)
    requires |register| == |g| > 0 && |burst| == |burst'| <= |g| && g[|g| - 1]
    requires Serial(register, before + burst + after, g) == Serial(register, before + burst' + after, g)
    ensures burst == burst'
  {
    var start := Serial(register, before, g);
    SerialConcat(register, before + burst, after, g);
    SerialConcat(register, before + burst', after, g);
    SerialConcat(register, before, burst, g);
    SerialConcat(register, before, burst', g);
    SerialInjective(Serial(start, burst, g), Serial(start, burst', g), after, g);
    ShortMessageInjective(start, burst, burst', g);
  }

  lemma SplitInThree(a: seq<bool>, from: nat, n: nat)
    requires from + n <= |a|
    ensures a == a[..from] + a[from..from + n] + a[from + n..]
  {}

  /** The same with the burst given by its place in the message. */
  lemma BurstInPlace(register: seq<bool>, a: seq<bool>, b: seq<bool>, from: nat, n: nat, g: seq<bool>)
    requires |register| == |g| > 0 && g[|g| - 1] && n <= |g|
    requires |a| == |b| && from + n <= |a|
    requires a[..from] == b[..from] && a[from + n..] == b[from + n..]
    requires Serial(register, a, g) == Serial(register, b, g)
    ensures a == b
  {
    var before, after := a[..from], a[from + n..];
    SplitInThree(a, from, n);
    SplitInThree(b, from, n);
    BurstDetected(register, before, a[from..from + n], b[from..from + n], after, g);
  }

  // ---------- messages made of equal blocks ----------

  predicate Blocks(xs: seq<seq<bool>>, w: nat) {
    forall i :: 0 <= i < |xs| ==> |xs[i]| == w
  }

  function Flatten(xs: seq<seq<bool>>, w: nat): (r: seq<bool>)
    requires Blocks(xs, w)
    ensures |r| == w * |xs|
  {
    if xs == [] then [] else xs[0] + Flatten(xs[1..], w)
  }

  lemma {:induction false} FlattenConcat(xs: seq<seq<bool>>, ys: seq<seq<bool>>, w: nat)
    requires Blocks(xs, w) && Blocks(ys, w)
    ensures Flatten(xs + ys, w) == Flatten(xs, w) + Flatten(ys, w)
  {
    if xs == [] {
      assert xs + ys == ys;
    } else {
      assert (xs + ys)[1..] == xs[1..] + ys;
      FlattenConcat(xs[1..], ys, w);
    }
  }

  lemma {:induction false} FlattenInjective(xs: seq<seq<bool>>, ys: seq<seq<bool>>, w: nat)
    requires Blocks(xs, w) && Blocks(ys, w) && |xs| == |ys|
    requires Flatten(xs, w) == Flatten(ys, w)
    ensures xs == ys
  {
    if xs != [] {
      assert xs[0] == Flatten(xs, w)[..w] == Flatten(ys, w)[..w] == ys[0];
      assert Flatten(xs[1..], w) == Flatten(xs, w)[w..] == Flatten(ys, w)[w..] == Flatten(ys[1..], w);
      FlattenInjective(xs[1..], ys[1..], w);
      assert xs == [xs[0]] + xs[1..] && ys == [ys[0]] + ys[1..];
    }
  }

  lemma AddConcat(a: seq<bool>, b: seq<bool>, c: seq<bool>, d: seq<bool>)
    requires |a| == |c| && |b| == |d|
    ensures Add(a + b, c + d) == Add(a, c) + Add(b, d)
  {}

  lemma {:induction false} FlattenSum(xs: seq<seq<bool>>, ys: seq<seq<bool>>, sums: seq<seq<bool>>, w: nat)
    requires Blocks(xs, w) && Blocks(ys, w) && Blocks(sums, w) && |xs| == |ys| == |sums|
    requires forall i :: 0 <= i < |xs| ==> sums[i] == Add(xs[i], ys[i])
    ensures Flatten(sums, w) == Add(Flatten(xs, w), Flatten(ys, w))
  {
    if xs != [] {
      FlattenSum(xs[1..], ys[1..], sums[1..], w);
      AddConcat(xs[0], Flatten(xs[1..], w), ys[0], Flatten(ys[1..], w));
    }
  }

  /** Shifting a message towards the front, block by block. */
  lemma {:induction false} FlattenShift(xs: seq<seq<bool>>, shifted: seq<seq<bool>>, w: nat)
    requires Blocks(xs, w) && Blocks(shifted, w) && |xs| == |shifted| > 0 && w > 0
    requires forall i :: 0 <= i < |xs| - 1 ==> shifted[i] == xs[i][1..] + [xs[i + 1][0]]
    requires shifted[|xs| - 1] == xs[|xs| - 1][1..] + [false]
    ensures Flatten(shifted, w) == Flatten(xs, w)[1..] + [false]
  {
    if |xs| > 1 {
      FlattenShift(xs[1..], shifted[1..], w);
      var rest := Flatten(xs[1..], w);
      assert rest == [xs[1][0]] + rest[1..];
      assert Flatten(xs, w)[1..] == xs[0][1..] + rest;
    } else {
      assert shifted[1..] == [] && xs[1..] == [];
    }
  }
}
