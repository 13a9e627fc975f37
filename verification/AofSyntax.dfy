/**
 The texts that loadAppendOnlyFile (aof.c) takes for commands, described by
 what is in them: they are all it reads, and what it takes for a command cut
 short is the front of one of them.
 */
module AofSyntax {
  import opened AofLog
  import opened Bytes
  import opened Decimal

  /** A line as fgets returns it before the end of the file: up to a line feed, or 127 bytes. */
  predicate Line(l: bytes) {
    && 0 < |l| <= 127 && (l[|l| - 1] == 10 || |l| == 127)
    && forall i :: 0 <= i < |l| - 1 ==> l[i] != 10
  }

  /** A line that starts with the byte and gives the number. */
  predicate Counts(l: bytes, c: byte, number: int) {
    Line(l) && |l| > 1 && l[0] == c && Atoi(l[1..]) == number
  }

  /** An argument: '$' and its length, its bytes, and two bytes whatever they are. */
  datatype Argument = Argument(line: bytes, value: bytes, end: bytes) {
    predicate Ok() {
      Counts(line, 36, |value|) && |end| == 2
    }

    function Text(): bytes {
      line + value + end
    }
  }

  function Texts(args: seq<Argument>): bytes {
    if args == [] then [] else args[0].Text() + Texts(args[1..])
  }

  predicate AllOk(args: seq<Argument>) {
    forall i :: 0 <= i < |args| ==> args[i].Ok()
  }

  function Values(args: seq<Argument>): Argv {
    if args == [] then [] else [args[0].value] + Values(args[1..])
  }

  /** A command: '*' and the number of its arguments, at least one, and the arguments. */
  datatype Request = Request(line: bytes, args: seq<Argument>) {
    predicate Ok() {
      args != [] && Counts(line, 42, |args|) && line[1] != 0 && AllOk(args)
    }

    function Text(): bytes {
      line + Texts(args)
    }
  }

  /** The front of a command, not all of it. */
  ghost predicate CutShort(s: bytes) {
    exists c: Request :: c.Ok() && s < c.Text()
  }

  /** At the end of the file, a NUL where the count should be. */
  predicate NulCount(s: bytes) {
    1 < |s| < 127 && s[0] == 42 && s[1] == 0 && forall i :: 0 <= i < |s| ==> s[i] != 10
  }

  /** Neither starts with a command nor is the front of one, even with more bytes behind it. */
  ghost predicate Damaged(s: bytes) {
    s != [] && !NulCount(s) && forall c: Request :: c.Ok() ==> !(c.Text() <= s) && !(s <= c.Text())
  }

  // ---------- lines ----------

  lemma {:induction false} LineTaken(l: bytes, more: bytes, limit: nat)
    requires 0 < |l| <= limit && (l[|l| - 1] == 10 || |l| == limit)
    requires forall i :: 0 <= i < |l| - 1 ==> l[i] != 10
    ensures LineLength(l + more, limit) == |l|
    decreases l
  {
    assert (l + more)[1..] == l[1..] + more;
    if |l| > 1 {
      LineTaken(l[1..], more, limit - 1);
    } else if limit > 1 {
      assert l[0] == LF;
    } else {
      assert (l + more)[0] == l[0];
    }
  }

  /** What fgets returns is a line, or else runs into the end of the file. */
  lemma {:induction false} TakenLine(s: bytes, limit: nat)
    requires s != [] && limit > 0
    ensures var n := LineLength(s, limit);
      && 0 < n && (forall i :: 0 <= i < n - 1 ==> s[i] != 10)
      && (s[n - 1] == 10 || n == limit || n == |s|)
    decreases s
  {
    if s[0] != LF && limit > 1 && |s| > 1 {
      TakenLine(s[1..], limit - 1);
      var n := LineLength(s, limit);
      assert n == 1 + LineLength(s[1..], limit - 1);
      forall i | 0 <= i < n - 1 ensures s[i] != 10 {
        if i > 0 {
          assert s[i] == s[1..][i - 1];
        }
      }
    }
  }

  lemma {:induction false} AtoiThenLF(s: bytes)
    ensures Atoi(s + [LF]) == Atoi(s)
  {
    if s == [] {
      assert Atoi([LF]) == Atoi([LF][1..]);
    } else {
      assert (s + [LF])[1..] == s[1..] + [LF];
      AtoiThenLF(s[1..]);
      DigitsThenLF(s[1..], 0);
      DigitsThenLF(s, 0);
    }
  }

  lemma {:induction false} DigitsThenLF(s: bytes, acc: nat)
    ensures Digits(s + [LF], acc) == Digits(s, acc)
    decreases s
  {
    if s == [] {
      assert !IsDigit(LF);
    } else {
      assert (s + [LF])[1..] == s[1..] + [LF];
      if IsDigit(s[0]) {
        DigitsThenLF(s[1..], 10 * acc + (s[0] - 48) as nat);
      }
    }
  }

  /** A line that runs into the end of the file is complete with a line feed, and says the same. */
  lemma EndedLine(s: bytes, c: byte)
    requires s != [] && s[0] == c != 10 && |s| < 127 && forall i :: 0 <= i < |s| ==> s[i] != 10
    ensures Counts(s + [10], c, Atoi(s[1..]))
  {
    AtoiThenLF(s[1..]);
    assert (s + [10])[1..] == s[1..] + [LF];
  }

  // ---------- all that is read is such a text, and the other way round ----------

  lemma LineInFront(line: bytes, behind: bytes)
    requires Line(line)
    ensures var s := line + behind; var n := LineLength(s, LINE_MAX);
      n == |line| && s[1..n] == line[1..] && s[n..] == behind
  {
    LineTaken(line, behind, LINE_MAX);
  }

  lemma ArgumentParses(a: Argument, more: bytes)
    requires a.Ok()
    ensures ParseBulk(a.Text() + more) == Parsed(a.value, more)
  {
    var behind := a.value + a.end + more;
    assert a.Text() + more == a.line + behind;
    LineInFront(a.line, behind);
    assert behind[..|a.value|] == a.value && behind[|a.value| + 2..] == more;
  }

  lemma ParsedBulk(s: bytes, value: bytes, rest: bytes) returns (a: Argument)
    requires ParseBulk(s) == Parsed(value, rest)
    ensures a.Ok() && a.value == value && s == a.Text() + rest
  {
    var n := LineLength(s, LINE_MAX);
    TakenLine(s, LINE_MAX);
    var line, body := s[..n], s[n..];
    assert line[1..] == s[1..n] && s == line + body;
    a := Argument(line, value, body[|value|..|value| + 2]);
    assert body == value + a.end + rest;
  }

  lemma {:induction false} ArgumentsParse(args: seq<Argument>, more: bytes)
    requires AllOk(args)
    ensures ParseBulks(Texts(args) + more, |args|) == Parsed(Values(args), more)
  {
    if args == [] {
      assert Texts(args) + more == more;
    } else {
      Assoc(args[0].Text(), Texts(args[1..]), more);
      ArgumentParses(args[0], Texts(args[1..]) + more);
      ArgumentsParse(args[1..], more);
    }
  }

  lemma OneMore(a: Argument, args: seq<Argument>)
    requires a.Ok() && AllOk(args)
    ensures var all := [a] + args;
      && AllOk(all) && Values(all) == [a.value] + Values(args) && Texts(all) == a.Text() + Texts(args)
  {
    assert ([a] + args)[1..] == args;
  }

  /** The arguments, and what is behind the last. */
  predicate Spells(args: seq<Argument>, argv: Argv, s: bytes, rest: bytes) {
    |args| == |argv| && AllOk(args) && Values(args) == argv && s == Texts(args) + rest
  }

  lemma SpellsOneMore(a: Argument, args: seq<Argument>, argv: Argv, s: bytes, rest: bytes)
    requires a.Ok() && Spells(args, argv, s, rest)
    ensures Spells([a] + args, [a.value] + argv, a.Text() + s, rest)
  {
    OneMore(a, args);
    Assoc(a.Text(), Texts(args), rest);
  }

  lemma ParsedFirst(s: bytes, argc: nat, argv: Argv, rest: bytes) returns (a: Argument, next: bytes)
    requires argc > 0 && ParseBulks(s, argc) == Parsed(argv, rest)
    ensures a.Ok() && s == a.Text() + next
    ensures argv != [] && argv == [a.value] + argv[1..] && ParseBulks(next, argc - 1) == Parsed(argv[1..], rest)
  {
    var p := ParseBulk(s);
    next := p.rest;
    a := ParsedBulk(s, p.value, next);
    var q := ParseBulks(next, argc - 1);
    assert Prepend([p.value], q) == Parsed(argv, rest);
    assert ([p.value] + q.value)[1..] == q.value;
  }

  lemma {:induction false} ParsedBulks(s: bytes, argc: nat, argv: Argv, rest: bytes) returns (args: seq<Argument>)
    requires ParseBulks(s, argc) == Parsed(argv, rest)
    ensures Spells(args, argv, s, rest)
    decreases argc
  {
    if argc == 0 {
      args := [];
    } else {
      var a, next := ParsedFirst(s, argc, argv, rest);
      var others := ParsedBulks(next, argc - 1, argv[1..], rest);
      SpellsOneMore(a, others, argv[1..], next, rest);
      args := [a] + others;
    }
  }

  lemma RequestParses(c: Request, more: bytes)
    requires c.Ok()
    ensures ParseCommand(c.Text() + more) == Parsed(Values(c.args), more)
  {
    Assoc(c.line, Texts(c.args), more);
    LineInFront(c.line, Texts(c.args) + more);
    ArgumentsParse(c.args, more);
  }

  lemma ParsedCount(s: bytes, argv: Argv, rest: bytes) returns (line: bytes, tail: bytes)
    requires s != [] && ParseCommand(s) == Parsed(argv, rest)
    ensures s == line + tail && Counts(line, 42, |argv|) && line[1] != 0 && argv != []
    ensures ParseBulks(tail, |argv|) == Parsed(argv, rest)
  {
    var n := LineLength(s, LINE_MAX);
    TakenLine(s, LINE_MAX);
    line, tail := s[..n], s[n..];
    assert line[1..] == s[1..n] && s == line + tail;
    assert ParseBulk([]) == ShortRead;
    assert tail != [];
  }

  lemma ParsedCommand(s: bytes, argv: Argv, rest: bytes) returns (c: Request)
    requires s != [] && ParseCommand(s) == Parsed(argv, rest)
    ensures c.Ok() && Values(c.args) == argv && s == c.Text() + rest
  {
    var line, tail := ParsedCount(s, argv, rest);
    var args := ParsedBulks(tail, |argv|, argv, rest);
    Assoc(line, Texts(args), rest);
    c := Request(line, args);
  }

  /** The loader reads a command exactly where the text of one stands, and then all of it. */
  lemma ParsesExactlyWhen(s: bytes, argv: Argv, rest: bytes)
    requires s != []
    ensures ParseCommand(s) == Parsed(argv, rest)
       <==> exists c: Request :: c.Ok() && Values(c.args) == argv && s == c.Text() + rest
  {
    if ParseCommand(s) == Parsed(argv, rest) {
      var c := ParsedCommand(s, argv, rest);
    }
    forall c: Request | c.Ok() && Values(c.args) == argv && s == c.Text() + rest
      ensures ParseCommand(s) == Parsed(argv, rest)
    {
      RequestParses(c, rest);
    }
  }

  // ---------- what is taken for a command cut short ----------

  function Zeros(n: nat): (z: bytes)
    ensures |z| == n
  {
    seq(n, _ => 0)
  }

  /** "$0" and its line feed. */
  const EMPTY: Argument := Argument([36, 48, 10], [], [13, 10])

  lemma EmptyIsOk()
    ensures EMPTY.Ok()
  {
    assert EMPTY.line[1..] == [48, 10] == [48] + [LF];
    AtoiThenLF([48]);
    assert Digits([48], 0) == Digits([], 0);
  }

  lemma Longer(s: bytes, front: bytes, t: bytes)
    ensures s < t ==> front + s < front + t
    ensures s < front ==> s < front + t
  {}

  /** What is missing of an argument. */
  lemma ShortBulk(s: bytes) returns (a: Argument)
    requires ParseBulk(s) == ShortRead
    ensures a.Ok() && s < a.Text()
  {
    if s == [] {
      EmptyIsOk();
      a := EMPTY;
      assert a.Text() != [];
    } else {
      var n := LineLength(s, LINE_MAX);
      TakenLine(s, LINE_MAX);
      if s[n - 1] == 10 || n == 127 {
        a := ShortBody(s[..n], s[n..], Atoi(s[1..n]));
        assert s[..n][1..] == s[1..n] && s == s[..n] + s[n..];
      } else {
        assert s[1..n] == s[1..];
        EndedLine(s, 36);
        a := Argument(s + [10], Zeros(Atoi(s[1..])), [13, 10]);
        Longer(s, s + [10], a.value + a.end);
      }
    }
  }

  lemma ShortBody(line: bytes, body: bytes, len: nat) returns (a: Argument)
    requires |body| < len + 2
    ensures a.line == line && |a.value| == len && |a.end| == 2 && line + body < a.Text()
  {
    var all := body + Zeros(len + 2 - |body|);
    a := Argument(line, all[..len], all[len..]);
    assert a.value + a.end == all;
    Longer(body, line, all);
  }

  function Empties(n: nat): (args: seq<Argument>)
    ensures |args| == n && forall i :: 0 <= i < n ==> args[i] == EMPTY
  {
    seq(n, _ => EMPTY)
  }

  /** So many arguments, which go on where s breaks off. */
  ghost predicate Completes(args: seq<Argument>, argc: nat, s: bytes) {
    |args| == argc && AllOk(args) && s < Texts(args)
  }

  lemma EmptiesBehind(s: bytes, a: Argument, n: nat)
    requires a.Ok() && s < a.Text()
    ensures Completes([a] + Empties(n), n + 1, s)
  {
    EmptyIsOk();
    OneMore(a, Empties(n));
    Longer(s, a.Text(), Texts(Empties(n)));
  }

  lemma CompletesOneMore(s: bytes, a: Argument, next: bytes, others: seq<Argument>, n: nat)
    requires a.Ok() && s == a.Text() + next && Completes(others, n, next)
    ensures Completes([a] + others, n + 1, s)
  {
    OneMore(a, others);
    Longer(next, a.Text(), Texts(others));
  }

  lemma ShortFirst(s: bytes, argc: nat) returns (a: Argument, next: bytes, cut: bool)
    requires ParseBulks(s, argc) == ShortRead
    ensures argc > 0 && a.Ok()
    ensures if cut then s < a.Text() else s == a.Text() + next && ParseBulks(next, argc - 1) == ShortRead
  {
    var p := ParseBulk(s);
    cut := p.ShortRead?;
    if cut {
      a := ShortBulk(s);
      next := [];
    } else {
      next := p.rest;
      a := ParsedBulk(s, p.value, next);
    }
  }

  /** What is missing of the arguments. */
  lemma {:induction false} ShortBulks(s: bytes, argc: nat) returns (args: seq<Argument>)
    requires ParseBulks(s, argc) == ShortRead
    ensures Completes(args, argc, s)
    decreases argc
  {
    var a, next, cut := ShortFirst(s, argc);
    if cut {
      EmptiesBehind(s, a, argc - 1);
      args := [a] + Empties(argc - 1);
    } else {
      var others := ShortBulks(next, argc - 1);
      CompletesOneMore(s, a, next, others, argc - 1);
      args := [a] + others;
    }
  }

  /** With "*1" and its line feed, the rest can be an empty argument. */
  lemma LoneStar()
    ensures CutShort([42])
  {
    var c := Request([42, 49, 10], [EMPTY]);
    assert c.line[1..] == [49, 10] == [49] + [LF];
    AtoiThenLF([49]);
    assert Digits([49], 0) == Digits([], 1);
    EmptyIsOk();
    Longer([42], c.line, Texts(c.args));
    assert c.line[..1] == [42] && c.Ok() && [42] < c.Text();
  }

  lemma CountAtEnd(s: bytes)
    requires 1 < |s| < 127 && s[0] == 42 && s[1] != 0 && Atoi(s[1..]) > 0
    requires forall i :: 0 <= i < |s| ==> s[i] != 10
    ensures CutShort(s)
  {
    EndedLine(s, 42);
    EmptyIsOk();
    var c := Request(s + [10], Empties(Atoi(s[1..])));
    Longer(s, c.line, Texts(c.args));
    assert c.Ok() && s < c.Text();
  }

  lemma ShortBehindLine(line: bytes, tail: bytes, argc: nat)
    requires argc > 0 && Counts(line, 42, argc) && line[1] != 0 && ParseBulks(tail, argc) == ShortRead
    ensures CutShort(line + tail)
  {
    var args := ShortBulks(tail, argc);
    var c := Request(line, args);
    Longer(tail, line, Texts(args));
    assert c.Ok() && line + tail < c.Text();
  }

  /** The loader takes for a command cut short only what is the front of one, but for a NUL as its count. */
  lemma ShortReadIsCut(s: bytes)
    requires s != [] && ParseCommand(s) == ShortRead
    ensures NulCount(s) || CutShort(s)
  {
    var n := LineLength(s, LINE_MAX);
    TakenLine(s, LINE_MAX);
    if n == 1 {
      assert s == [42];
      LoneStar();
    } else if s[1] != 0 {
      if s[n - 1] == 10 || n == 127 {
        var line, tail := s[..n], s[n..];
        assert line[1..] == s[1..n] && s == line + tail;
        ShortBehindLine(line, tail, Atoi(s[1..n]));
      } else {
        assert s[1..n] == s[1..];
        CountAtEnd(s);
      }
    }
  }

  /** What the server writes for a command is such a text. */
  lemma WrittenIsText(argv: Argv) returns (c: Request)
    requires Writable(argv)
    ensures c.Ok() && Values(c.args) == argv && c.Text() == Multibulk(argv)
  {
    var s := Multibulk(argv);
    MultibulkParses(argv, []);
    assert s + [] == s;
    c := ParsedCommand(s, argv, []);
    assert c.Text() + [] == c.Text();
  }

  lemma CommandIsNoDamage(s: bytes, argv: Argv, rest: bytes)
    requires s != [] && ParseCommand(s) == Parsed(argv, rest)
    ensures !Damaged(s)
  {
    var c := ParsedCommand(s, argv, rest);
    assert c.Text() <= s;
  }

  /** Damage is never taken for a command, nor for one cut short. */
  lemma DamageIsNoticed(s: bytes)
    requires Damaged(s)
    ensures ParseCommand(s).ReadError? || ParseCommand(s).BadFormat? || ParseCommand(s).NoMemory?
  {
    var p := ParseCommand(s);
    if p.Parsed? {
      CommandIsNoDamage(s, p.value, p.rest);
    } else if p.ShortRead? {
      ShortReadIsCut(s);
    }
  }

  /** Whatever starts with another byte than '*' is damage, and bad format. */
  lemma AnotherByte(s: bytes)
    requires s != [] && s[0] != 42
    ensures Damaged(s) && ParseCommand(s) == BadFormat
  {
    forall c: Request | c.Ok() ensures !(c.Text() <= s) && !(s <= c.Text()) {
      assert c.Text()[0] == c.line[0];
    }
  }

  // ---------- loading ----------

  /** A log that is followed by damage loads as exactly the log, and the loading fails. */
  lemma DamagedLog(raw: seq<Argv>, tail: bytes)
    requires AllWritable(raw) && Damaged(tail)
    ensures var l := Load(Log(raw) + tail);
      && l.raw == raw && l.validUpTo == |Log(raw)|
      && (l.ending == Unreadable || l.ending == FormatError || l.ending == OutOfMemory)
      && (tail[0] != 42 ==> l.ending == FormatError)
  {
    LoadBehind(raw, tail);
    DamageIsNoticed(tail);
    assert raw + [] == raw;
  }

  /**
   What is loaded before the ending is a file of its own, complete; a file that
   ends in the middle of a command does so in front of what is taken for one.
   */
  lemma {:induction false} LoadedPart(s: bytes)
    ensures var l := Load(s);
      && Load(s[..l.validUpTo]) == Loaded(l.raw, l.validUpTo, Complete)
      && (l.ending == Truncated ==>
            l.validUpTo < |s| && (NulCount(s[l.validUpTo..]) || CutShort(s[l.validUpTo..])))
    decreases |s|
  {
    if s != [] {
      var l, p := Load(s), ParseCommand(s);
      if p.Parsed? {
        var c := ParsedCommand(s, p.value, p.rest);
        LoadedPart(p.rest);
        var m := Load(p.rest).validUpTo;
        assert s[..l.validUpTo] == c.Text() + p.rest[..m] && s[l.validUpTo..] == p.rest[m..];
        RequestParses(c, p.rest[..m]);
      } else if p.ShortRead? {
        ShortReadIsCut(s);
        assert s[0..] == s;
      }
    }
  }
}
