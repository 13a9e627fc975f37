/** Decimal numbers as ll2string and printf write them, and as atoi and strtol read them. */
module Decimal {
  import opened Bytes

  const MINUS: byte := 45
  const PLUS: byte := 43

  predicate IsDigit(c: byte) {
    48 <= c <= 57
  }

  predicate IsSpace(c: byte) {
    c == 32 || 9 <= c <= 13
  }

  function Print(n: nat): (s: bytes)
    ensures s != [] && forall i :: 0 <= i < |s| ==> IsDigit(s[i])
    ensures n > 0 ==> s[0] > 48
  {
    if n < 10 then [48 + n as byte] else Print(n / 10) + [48 + (n % 10) as byte]
  }

  /** The value of the digits at the front of the string, after `acc` has been read. */
  function Digits(s: bytes, acc: nat): (n: nat)
    ensures n >= acc
  {
    if s == [] || !IsDigit(s[0]) then acc else Digits(s[1..], 10 * acc + (s[0] - 48) as nat)
  }

  function Atoi(s: bytes): int {
    if s == [] then 0
    else if IsSpace(s[0]) then Atoi(s[1..])
    else if s[0] == MINUS then 0 - Digits(s[1..], 0)
    else if s[0] == PLUS then Digits(s[1..], 0)
    else Digits(s, 0)
  }

  predicate NoDigitFirst(s: bytes) {
    s == [] || !IsDigit(s[0])
  }

  lemma {:induction false} DigitsSnoc(s: bytes, c: byte, rest: bytes, acc: nat)
    requires forall i :: 0 <= i < |s| ==> IsDigit(s[i])
    requires IsDigit(c) && NoDigitFirst(rest)
    ensures Digits(s + [c] + rest, acc) == 10 * Digits(s, acc) + (c - 48) as nat
  {
    if s == [] {
      assert (s + [c] + rest)[1..] == rest;
    } else {
      assert (s + [c] + rest)[1..] == s[1..] + [c] + rest;
      DigitsSnoc(s[1..], c, rest, 10 * acc + (s[0] - 48) as nat);
    }
  }

  lemma {:induction false} DigitsOfPrint(n: nat, rest: bytes)
    requires NoDigitFirst(rest)
    ensures Digits(Print(n) + rest, 0) == n
  {
    if n < 10 {
      assert (Print(n) + rest)[1..] == rest;
    } else {
      var c: byte := 48 + (n % 10) as byte;
      DigitsOfPrint(n / 10, []);
      assert Print(n / 10) + [] == Print(n / 10);
      DigitsSnoc(Print(n / 10), c, rest, 0);
      assert Print(n) + rest == Print(n / 10) + [c] + rest;
    }
  }

  /** Reading back what was printed, whatever follows it. */
  lemma AtoiOfPrint(n: nat, rest: bytes)
    requires NoDigitFirst(rest)
    ensures Atoi(Print(n) + rest) == n
  {
    DigitsOfPrint(n, rest);
  }

  lemma {:induction false} DigitsPositive(s: bytes, acc: nat)
    requires acc > 0
    ensures Digits(s, acc) > 0
  {
    if s != [] && IsDigit(s[0]) {
      DigitsPositive(s[1..], 10 * acc + (s[0] - 48) as nat);
    }
  }

  /** Cutting a positive number short leaves a positive number. */
  lemma AtoiOfCut(n: nat, rest: bytes, k: nat)
    requires n > 0 && 0 < k <= |Print(n) + rest|
    ensures Atoi((Print(n) + rest)[..k]) > 0
  {
    var s := (Print(n) + rest)[..k];
    assert s[0] == Print(n)[0];
    DigitsPositive(s[1..], (s[0] - 48) as nat);
  }

  function Power10(k: nat): nat {
    if k == 0 then 1 else 10 * Power10(k - 1)
  }

  lemma {:induction false} PrintLength(n: nat, k: nat)
    requires k > 0 && n < Power10(k)
    ensures |Print(n)| <= k
  {
    if n >= 10 {
      PrintLength(n / 10, k - 1);
    }
  }
}
