/**
 Four eight-bit counters kept in one 32-bit word, as redisPopcount (bitops.c)
 uses them: seven words of counts are added without a carry leaving its field,
 and one multiplication brings the four totals together.
 */
module WordCounters {

  const WORD: nat := 0x1_0000_0000

  function Add32(x: nat, y: nat): nat {
    (x + y) % WORD
  }

  /** Four counters in one word; as long as none reaches 256, none carries into the next. */
  function Fields(a: nat, b: nat, c: nat, d: nat): nat {
    a + 0x100 * b + 0x10000 * c + 0x1000000 * d
  }

  function Sum(c: seq<nat>): nat {
    if c == [] then 0 else c[0] + Sum(c[1..])
  }

  predicate Small(c: seq<nat>) {
    forall i :: 0 <= i < |c| ==> c[i] <= 8
  }

  lemma SumFrom(c: seq<nat>, i: nat)
    requires i < |c|
    ensures Sum(c[i..]) == c[i] + Sum(c[i + 1..])
  {
    assert c[i..][1..] == c[i + 1..];
  }

  lemma RemainderOfWord(n: nat, k: nat, r: nat)
    requires n == WORD * k + r && r < WORD
    ensures n % WORD == r
  {}

  lemma TopByte(s: nat, low: nat)
    requires low < 0x1000000
    ensures (0x1000000 * s + low) / 0x1000000 == s
  {}

  /** One multiplication adds the four counters into the top byte. */
  lemma Gather(a: nat, b: nat, c: nat, d: nat)
    requires a <= 56 && b <= 56 && c <= 56 && d <= 56
    ensures ((Fields(a, b, c, d) * 0x01010101) % WORD) / 0x1000000 == a + b + c + d
  {
    var lost := b + c + d + 0x100 * (c + d) + 0x10000 * d;
    var low := a + 0x100 * (a + b) + 0x10000 * (a + b + c);
    RemainderOfWord(Fields(a, b, c, d) * 0x01010101, lost, 0x1000000 * (a + b + c + d) + low);
    TopByte(a + b + c + d, low);
  }

  /** Adding a word to counters of at most 48 loses no carry. */
  lemma AddWord(a: nat, b: nat, c: nat, d: nat, a': nat, b': nat, c': nat, d': nat)
    requires a <= 48 && b <= 48 && c <= 48 && d <= 48 && a' <= 8 && b' <= 8 && c' <= 8 && d' <= 8
    ensures Add32(Fields(a, b, c, d), Fields(a', b', c', d')) == Fields(a + a', b + b', c + c', d + d')
  {
    RemainderOfWord(Fields(a, b, c, d) + Fields(a', b', c', d'), 0, Fields(a + a', b + b', c + c', d + d'));
  }

  /** The counters of the word that starts at i. */
  function FieldsAt(c: seq<nat>, i: nat): nat
    requires i + 4 <= |c|
  {
    Fields(c[i], c[i + 1], c[i + 2], c[i + 3])
  }

  /** The sum of every fourth count, n of them, from i on. */
  function Column(c: seq<nat>, i: nat, n: nat): nat
    requires i + 4 * n <= |c| + 3
  {
    if n == 0 then 0 else Column(c, i, n - 1) + c[i + 4 * (n - 1)]
  }

  lemma {:induction false} ColumnSmall(c: seq<nat>, i: nat, n: nat)
    requires i + 4 * n <= |c| + 3 && Small(c)
    ensures Column(c, i, n) <= 8 * n
  {
    if n > 0 {
      ColumnSmall(c, i, n - 1);
    }
  }

  function ColumnFields(c: seq<nat>, i: nat, n: nat): nat
    requires i + 4 * n <= |c|
  {
    Fields(Column(c, i, n), Column(c, i + 1, n), Column(c, i + 2, n), Column(c, i + 3, n))
  }

  lemma ColumnsSmall(c: seq<nat>, i: nat, n: nat)
    requires i + 4 * n <= |c| && Small(c)
    ensures Column(c, i, n) <= 8 * n && Column(c, i + 1, n) <= 8 * n
    ensures Column(c, i + 2, n) <= 8 * n && Column(c, i + 3, n) <= 8 * n
  {
    ColumnSmall(c, i, n);
    ColumnSmall(c, i + 1, n);
    ColumnSmall(c, i + 2, n);
    ColumnSmall(c, i + 3, n);
  }

  lemma OneMoreWord(c: seq<nat>, i: nat, n: nat)
    requires n < 7 && i + 4 * n + 4 <= |c| && Small(c)
    ensures Add32(ColumnFields(c, i, n), FieldsAt(c, i + 4 * n)) == ColumnFields(c, i, n + 1)
  {
    var k := i + 4 * n;
    ColumnsSmall(c, i, n);
    AddWord(Column(c, i, n), Column(c, i + 1, n), Column(c, i + 2, n), Column(c, i + 3, n),
            c[k], c[k + 1], c[k + 2], c[k + 3]);
  }

  lemma FourCounts(c: seq<nat>, i: nat)
    requires i + 4 <= |c|
    ensures Sum(c[i..]) == c[i] + c[i + 1] + c[i + 2] + c[i + 3] + Sum(c[i + 4..])
  {
    SumFrom(c, i);
    SumFrom(c, i + 1);
    SumFrom(c, i + 2);
    SumFrom(c, i + 3);
  }

  lemma {:induction false} ColumnsAreAll(c: seq<nat>, i: nat, n: nat)
    requires i + 4 * n <= |c|
    ensures Sum(c[i..]) == Column(c, i, n) + Column(c, i + 1, n) + Column(c, i + 2, n) + Column(c, i + 3, n)
                           + Sum(c[i + 4 * n..])
  {
    if n > 0 {
      ColumnsAreAll(c, i, n - 1);
      FourCounts(c, i + 4 * (n - 1));
    }
  }

  function RunningSum(c: seq<nat>, i: nat, n: nat): nat
    requires n > 0 && i + 4 * n <= |c|
  {
    if n == 1 then FieldsAt(c, i) else Add32(RunningSum(c, i, n - 1), FieldsAt(c, i + 4 * (n - 1)))
  }

  lemma NextSum(c: seq<nat>, i: nat, n: nat, before: nat, word: nat)
    requires n > 0 && i + 4 * n + 4 <= |c|
    requires before == RunningSum(c, i, n) && word == FieldsAt(c, i + 4 * n)
    ensures Add32(before, word) == RunningSum(c, i, n + 1)
  {}

  lemma FirstWord(c: seq<nat>, i: nat)
    requires i + 4 <= |c|
    ensures RunningSum(c, i, 1) == FieldsAt(c, i) == ColumnFields(c, i, 1)
  {
    OneInColumn(c, i);
    OneInColumn(c, i + 1);
    OneInColumn(c, i + 2);
    OneInColumn(c, i + 3);
  }

  lemma OneInColumn(c: seq<nat>, i: nat)
    requires i < |c|
    ensures Column(c, i, 1) == c[i]
  {}

  lemma {:induction false} RunningSumIsColumns(c: seq<nat>, i: nat, n: nat)
    requires 0 < n <= 7 && i + 4 * n <= |c| && Small(c)
    ensures RunningSum(c, i, n) == ColumnFields(c, i, n)
    decreases n
  {
    if n == 1 {
      FirstWord(c, i);
    } else {
      var before, word := ColumnFields(c, i, n - 1), FieldsAt(c, i + 4 * (n - 1));
      RunningSumIsColumns(c, i, n - 1);
      NextSum(c, i, n - 1, before, word);
      OneMoreWord(c, i, n - 1);
    }
  }

  /** Up to seven words of counts, added one by one in 32-bit arithmetic and gathered, give their exact total. */
  lemma SevenWords(c: seq<nat>, i: nat, n: nat, sum: nat)
    requires 0 < n <= 7 && i + 4 * n <= |c| && Small(c)
    requires sum == RunningSum(c, i, n)
    ensures Sum(c[i..]) == ((sum * 0x01010101) % WORD) / 0x1000000 + Sum(c[i + 4 * n..])
  {
    RunningSumIsColumns(c, i, n);
    ColumnsSmall(c, i, n);
    Gather(Column(c, i, n), Column(c, i + 1, n), Column(c, i + 2, n), Column(c, i + 3, n));
    ColumnsAreAll(c, i, n);
  }

  lemma TwoMore(c: seq<nat>, i: nat, n: nat, first: nat, a: nat, b: nat)
    requires n > 0 && i + 4 * n + 8 <= |c| && first == RunningSum(c, i, n)
    requires a == FieldsAt(c, i + 4 * n) && b == FieldsAt(c, i + 4 * n + 4)
    ensures Add32(Add32(first, a), b) == RunningSum(c, i, n + 2)
  {
    NextSum(c, i, n, first, a);
    NextSum(c, i, n + 1, Add32(first, a), b);
  }

  lemma SixMore(c: seq<nat>, i: nat, n: nat, first: nat, a: seq<nat>)
    requires n > 0 && |a| == 6 && i + 4 * n + 24 <= |c| && first == RunningSum(c, i, n)
    requires forall j :: 0 <= j < 6 ==> a[j] == FieldsAt(c, i + 4 * n + 4 * j)
    ensures Add32(Add32(Add32(Add32(Add32(Add32(first, a[0]), a[1]), a[2]), a[3]), a[4]), a[5])
            == RunningSum(c, i, n + 6)
  {
    TwoMore(c, i, n, first, a[0], a[1]);
    var third := Add32(Add32(first, a[0]), a[1]);
    TwoMore(c, i, n + 2, third, a[2], a[3]);
    TwoMore(c, i, n + 4, Add32(Add32(third, a[2]), a[3]), a[4], a[5]);
  }
}
