/**
 The text of the append only file (aof.c): how commands are written to it, how
 it is loaded again, and what a log cut off at any byte loads as.
 */
module AofLog {
  import opened Bytes
  import opened Decimal
  import opened OptionType

  const STAR: byte := 42
  const DOLLAR: byte := 36
  const CR: byte := 13
  const LF: byte := 10
  const CRLF: bytes := [CR, LF]
  const SELECT: bytes := [83, 69, 76, 69, 67, 84]

  /** fgets is given a buffer of 128 bytes. */
  const LINE_MAX: nat := 127

  type Argv = seq<bytes>

  datatype Command = Command(db: nat, argv: Argv)

  // ---------- writing ----------

  function Header(c: byte, n: nat): bytes {
    [c] + (Print(n) + CRLF)
  }

  function Bulk(s: bytes): bytes {
    Header(DOLLAR, |s|) + s + CRLF
  }

  function Bulks(argv: Argv): bytes {
    if argv == [] then [] else Bulk(argv[0]) + Bulks(argv[1..])
  }

  /** One command as the log holds it. */
  function Multibulk(argv: Argv): bytes {
    Header(STAR, |argv|) + Bulks(argv)
  }

  function Log(raw: seq<Argv>): bytes {
    if raw == [] then [] else Multibulk(raw[0]) + Log(raw[1..])
  }

  lemma {:induction false} BulksSnoc(argv: Argv, s: bytes)
    ensures Bulks(argv + [s]) == Bulks(argv) + Bulk(s)
  {
    if argv == [] {
      assert Bulks([s]) == Bulk(s) + Bulks([]);
    } else {
      BulksSnoc(argv[1..], s);
      assert (argv + [s])[1..] == argv[1..] + [s];
    }
  }

  lemma BulkAppended(r: bytes, front: bytes, bulks: bytes, s: bytes)
    requires r == front + bulks
    ensures r + Header(DOLLAR, |s|) + s + CRLF == front + (bulks + Bulk(s))
  {
    var h := Header(DOLLAR, |s|);
    assert r + h + s + CRLF == r + (h + s + CRLF);
  }

  /** catAppendOnlyGenericCommand */
  method CatGenericCommand(dst: bytes, argv: Argv) returns (r: bytes)
    ensures r == dst + Multibulk(argv)
  {
    var buf := [STAR] + Print(|argv|);
    buf := buf + [CR, LF];
    Assoc([STAR], Print(|argv|), CRLF);
    r := dst + buf;
    ghost var front := r;
    for j := 0 to |argv|
      invariant r == front + Bulks(argv[..j])
    {
      buf := [DOLLAR] + Print(|argv[j]|);
      buf := buf + [CR, LF];
      Assoc([DOLLAR], Print(|argv[j]|), CRLF);
      BulkAppended(r, front, Bulks(argv[..j]), argv[j]);
      BulksSnoc(argv[..j], argv[j]);
      assert argv[..j + 1] == argv[..j] + [argv[j]];
      r := r + buf + argv[j] + CRLF;
    }
    assert argv[..|argv|] == argv;
    assert r == dst + Header(STAR, |argv|) + Bulks(argv);
    assert r == dst + (Header(STAR, |argv|) + Bulks(argv));
  }

  /** The commands written for one fed command: a SELECT first when the database is not the last one selected. */
  function Fed(selected: Option<nat>, c: Command): seq<Argv> {
    if selected == Some(c.db) then [c.argv] else [[SELECT, Print(c.db)], c.argv]
  }

  /** The untranslated branch of feedAppendOnlyFile; `selected` is None for aof_selected_db == -1. */
  method Feed(selected: Option<nat>, c: Command) returns (buf: bytes, now: Option<nat>)
    ensures buf == Log(Fed(selected, c)) && now == Some(c.db)
  {
    buf, now := [], selected;
    if selected != Some(c.db) {
      buf := CatGenericCommand(buf, [SELECT, Print(c.db)]);
      now := Some(c.db);
    }
    var before := buf;
    buf := CatGenericCommand(buf, c.argv);
    assert Log([c.argv]) == Multibulk(c.argv) + Log([]);
  }

  /** Everything written for a sequence of commands. */
  function FedAll(selected: Option<nat>, cs: seq<Command>): seq<Argv>
    decreases cs
  {
    if cs == [] then [] else Fed(selected, cs[0]) + FedAll(Some(cs[0].db), cs[1..])
  }

  // ---------- reading ----------

  /** What fgets takes off the front: up to and including a line feed, `limit` bytes at most. */
  function LineLength(s: bytes, limit: nat): (n: nat)
    ensures n <= |s| && n <= limit && (s != [] && limit > 0 ==> n > 0)
  {
    if s == [] || limit == 0 then 0 else if s[0] == LF then 1 else 1 + LineLength(s[1..], limit - 1)
  }

  datatype Parsed<+T> = Parsed(value: T, rest: bytes) | ShortRead | ReadError | BadFormat | NoMemory

  /** One argument. A negative length, taken as unsigned, is more memory than there is. */
  function ParseBulk(s: bytes): (p: Parsed<bytes>)
    ensures p.Parsed? ==> |p.rest| < |s|
  {
    var n := LineLength(s, LINE_MAX);
    if n == 0 then ShortRead
    else if s[0] != DOLLAR then BadFormat
    else
      var len := Atoi(s[1..n]);
      var body := s[n..];
      if len < 0 then NoMemory
      else if |body| < len || |body| < len + 2 then ShortRead
      else Parsed(body[..len], body[len + 2..])
  }

  function Prepend(args: Argv, p: Parsed<Argv>): Parsed<Argv> {
    if p.Parsed? then Parsed(args + p.value, p.rest) else p
  }

  function ParseBulks(s: bytes, argc: nat): (p: Parsed<Argv>)
    ensures p.Parsed? ==> |p.rest| <= |s| && |p.value| == argc
    decreases argc
  {
    if argc == 0 then Parsed([], s)
    else
      match ParseBulk(s)
      case Parsed(arg, rest) => Prepend([arg], ParseBulks(rest, argc - 1))
      case ShortRead => ShortRead
      case ReadError => ReadError
      case BadFormat => BadFormat
      case NoMemory => NoMemory
  }

  /** The line of n bytes that fgets returned ran into the end of the file. */
  predicate MeetsEof(s: bytes, n: nat)
    requires 0 < n <= |s|
  {
    n == |s| && n < LINE_MAX && s[n - 1] != LF
  }

  /** A NUL where the count should be is an error, forgiven only at the end of the file. */
  function ParseCommand(s: bytes): (p: Parsed<Argv>)
    requires s != []
    ensures p.Parsed? ==> |p.rest| < |s| && p.value != []
  {
    var n := LineLength(s, LINE_MAX);
    if s[0] != STAR then BadFormat
    else if n == 1 || s[1] == 0 then if MeetsEof(s, n) then ShortRead else ReadError
    else
      var argc := Atoi(s[1..n]);
      if argc < 1 then BadFormat else ParseBulks(s[n..], argc)
  }

  /** How loading ends: at the end of the log, in the middle of a command, or not at all. */
  datatype Ending = Complete | Truncated | Unreadable | FormatError | OutOfMemory

  /** The commands loaded before the ending, and the number of bytes they take. */
  datatype Loaded = Loaded(raw: seq<Argv>, validUpTo: nat, ending: Ending)

  function Load(s: bytes): (l: Loaded)
    ensures l.validUpTo <= |s|
    decreases |s|, 1
  {
    if s == [] then Loaded([], 0, Complete) else LoadOn(s, ParseCommand(s))
  }

  /** The outcome, given how the first command parses. */
  function LoadOn(s: bytes, p: Parsed<Argv>): (l: Loaded)
    requires p.Parsed? ==> |p.rest| < |s|
    ensures l.validUpTo <= |s|
    decreases |s|, 0
  {
    match p
    case Parsed(argv, rest) =>
      var l := Load(rest);
      Loaded([argv] + l.raw, |s| - |rest| + l.validUpTo, l.ending)
    case ShortRead => Loaded([], 0, Truncated)
    case ReadError => Loaded([], 0, Unreadable)
    case BadFormat => Loaded([], 0, FormatError)
    case NoMemory => Loaded([], 0, OutOfMemory)
  }

  // ---------- what was written is read back ----------

  /** Lengths of strings fit a long. */
  predicate Fits(n: nat) {
    n < 0x8000_0000_0000_0000
  }

  /** Argument counts and numbers of databases fit an int. */
  predicate FitsInt(n: nat) {
    n < 0x8000_0000
  }

  predicate Writable(argv: Argv) {
    argv != [] && FitsInt(|argv|) && forall i :: 0 <= i < |argv| ==> Fits(|argv[i]|)
  }

  predicate AllWritable(raw: seq<Argv>) {
    forall i :: 0 <= i < |raw| ==> Writable(raw[i])
  }

  lemma {:induction false} LineOf(head: bytes, more: bytes, limit: nat)
    requires LF !in head && |head| < limit
    ensures LineLength(head + [LF] + more, limit) == |head| + 1
    decreases head
  {
    if head != [] {
      assert (head + [LF] + more)[1..] == head[1..] + [LF] + more;
      LineOf(head[1..], more, limit - 1);
    }
  }

  lemma {:induction false} LineOfCut(head: bytes, limit: nat)
    requires LF !in head && |head| <= limit
    ensures LineLength(head, limit) == |head|
    decreases head
  {
    if head != [] {
      LineOfCut(head[1..], limit - 1);
    }
  }

  lemma PrintFits(n: nat)
    requires Fits(n)
    ensures |Print(n)| <= 19
  {
    assert Power10(7) == 10_000_000;
    assert Power10(13) == 10_000_000_000_000;
    assert Power10(19) == 10_000_000_000_000_000_000;
    PrintLength(n, 19);
  }

  /** A header is one line, and the number on it can be read back. */
  lemma HeaderLine(c: byte, n: nat, more: bytes)
    requires Fits(n) && c != LF
    ensures LineLength(Header(c, n) + more, LINE_MAX) == |Header(c, n)|
    ensures Atoi((Header(c, n) + more)[1..|Header(c, n)|]) == n
  {
    PrintFits(n);
    var head := [c] + Print(n) + [CR];
    assert Header(c, n) + more == head + [LF] + more;
    LineOf(head, more, LINE_MAX);
    AtoiOfPrint(n, CRLF);
    var number := Print(n) + CRLF;
    assert Header(c, n) == [c] + number;
    assert (Header(c, n) + more)[1..|Header(c, n)|] == number;
  }

  /** A header cut short is still one line. */
  lemma CutHeaderLine(c: byte, n: nat, k: nat)
    requires Fits(n) && c != LF && k < |Header(c, n)|
    ensures LineLength(Header(c, n)[..k], LINE_MAX) == k
  {
    PrintFits(n);
    var head := [c] + Print(n) + [CR];
    assert Header(c, n) == head + [LF];
    assert Header(c, n)[..k] == head[..k];
    LineOfCut(head[..k], LINE_MAX);
  }

  lemma BulkParses(s: bytes, more: bytes)
    requires Fits(|s|)
    ensures ParseBulk(Bulk(s) + more) == Parsed(s, more)
  {
    var h := Header(DOLLAR, |s|);
    HeaderLine(DOLLAR, |s|, s + CRLF + more);
    assert Bulk(s) + more == h + (s + CRLF + more);
    var body := (Bulk(s) + more)[|h|..];
    assert body == s + CRLF + more;
    assert body[..|s|] == s && body[|s| + 2..] == more;
  }

  lemma BulkCut(s: bytes, k: nat)
    requires Fits(|s|) && k < |Bulk(s)|
    ensures ParseBulk(Bulk(s)[..k]) == ShortRead
  {
    var h := Header(DOLLAR, |s|);
    if 0 < k < |h| {
      CutHeaderLine(DOLLAR, |s|, k);
      assert Bulk(s)[..k] == h[..k];
      NotNegative(|s|, k);
    } else if k >= |h| {
      var body := (s + CRLF)[..k - |h|];
      assert Bulk(s)[..k] == h + body;
      HeaderLine(DOLLAR, |s|, body);
      assert (h + body)[|h|..] == body;
    }
  }

  lemma CutNumber(c: byte, n: nat, k: nat)
    requires 1 < k < |Header(c, n)|
    ensures Header(c, n)[..k][1..k] == (Print(n) + CRLF)[..k - 1]
    ensures Header(c, n)[..k][1] == Print(n)[0]
  {
    var number := Print(n) + CRLF;
    var h := [c] + number;
    assert h[1..] == number && h[..k][1..k] == h[1..k] == h[1..][..k - 1];
    assert h[..k][1] == h[1] == number[0];
  }

  lemma NotNegative(n: nat, k: nat)
    requires 0 < k < |Header(DOLLAR, n)|
    ensures Atoi(Header(DOLLAR, n)[..k][1..k]) >= 0
  {
    if k > 1 {
      CutNumber(DOLLAR, n, k);
      var line := (Print(n) + CRLF)[..k - 1];
      assert line[0] == Print(n)[0];
    }
  }

  lemma {:induction false} BulksParse(argv: Argv, more: bytes)
    requires forall i :: 0 <= i < |argv| ==> Fits(|argv[i]|)
    ensures ParseBulks(Bulks(argv) + more, |argv|) == Parsed(argv, more)
  {
    if argv == [] {
      assert Bulks(argv) + more == more;
    } else {
      var rest := Bulks(argv[1..]) + more;
      Assoc(Bulk(argv[0]), Bulks(argv[1..]), more);
      BulkParses(argv[0], rest);
      BulksParse(argv[1..], more);
      assert [argv[0]] + argv[1..] == argv;
    }
  }

  lemma CutBehindFirst(arg: bytes, cut: bytes, argc: nat)
    requires Fits(|arg|) && ParseBulks(cut, argc) == ShortRead
    ensures ParseBulks(Bulk(arg) + cut, argc + 1) == ShortRead
  {
    BulkParses(arg, cut);
  }

  lemma {:induction false} BulksCut(argv: Argv, k: nat)
    requires (forall i :: 0 <= i < |argv| ==> Fits(|argv[i]|)) && k < |Bulks(argv)|
    ensures ParseBulks(Bulks(argv)[..k], |argv|) == ShortRead
  {
    var first, others := Bulk(argv[0]), Bulks(argv[1..]);
    if k < |first| {
      BulkCut(argv[0], k);
      assert (first + others)[..k] == first[..k];
    } else {
      PrefixSplit(first, others, k);
      BulksCut(argv[1..], k - |first|);
      CutBehindFirst(argv[0], others[..k - |first|], |argv| - 1);
    }
  }

  lemma MultibulkParses(argv: Argv, more: bytes)
    requires Writable(argv)
    ensures ParseCommand(Multibulk(argv) + more) == Parsed(argv, more)
  {
    var h := Header(STAR, |argv|);
    var s := Multibulk(argv) + more;
    assert s == h + (Bulks(argv) + more);
    HeaderLine(STAR, |argv|, Bulks(argv) + more);
    assert s[|h|..] == Bulks(argv) + more && s[1] == Print(|argv|)[0];
    BulksParse(argv, more);
  }

  lemma CutInHeader(argv: Argv, k: nat)
    requires Writable(argv) && 0 < k < |Header(STAR, |argv|)|
    ensures ParseCommand(Header(STAR, |argv|)[..k]) == ShortRead
  {
    CutHeaderLine(STAR, |argv|, k);
    if k > 1 {
      CutNumber(STAR, |argv|, k);
      AtoiOfCut(|argv|, CRLF, k - 1);
    }
  }

  lemma CutBehindHeader(argv: Argv, k: nat)
    requires Writable(argv) && k < |Bulks(argv)|
    ensures ParseCommand(Header(STAR, |argv|) + Bulks(argv)[..k]) == ShortRead
  {
    var h, body := Header(STAR, |argv|), Bulks(argv)[..k];
    HeaderLine(STAR, |argv|, body);
    assert (h + body)[|h|..] == body && (h + body)[1] == Print(|argv|)[0];
    BulksCut(argv, k);
  }

  /** A command cut anywhere but at its ends reads as one cut short, never as a different command. */
  lemma MultibulkCut(argv: Argv, k: nat)
    requires Writable(argv) && 0 < k < |Multibulk(argv)|
    ensures ParseCommand(Multibulk(argv)[..k]) == ShortRead
  {
    var h := Header(STAR, |argv|);
    if k < |h| {
      CutInHeader(argv, k);
      assert Multibulk(argv)[..k] == h[..k];
    } else {
      CutBehindHeader(argv, k - |h|);
      assert Multibulk(argv)[..k] == h + Bulks(argv)[..k - |h|];
    }
  }

  /** The number of commands that lie wholly within the first k bytes of the log. */
  function Whole(raw: seq<Argv>, k: nat): (w: nat)
    ensures w <= |raw|
  {
    if raw == [] || k < |Multibulk(raw[0])| then 0 else 1 + Whole(raw[1..], k - |Multibulk(raw[0])|)
  }

  lemma {:induction false} WholeIsGreatest(raw: seq<Argv>, k: nat)
    ensures var w := Whole(raw, k);
      |Log(raw[..w])| <= k && (w < |raw| ==> k < |Log(raw[..w + 1])|)
    decreases raw
  {
    var w := Whole(raw, k);
    if raw != [] {
      if w == 0 {
        assert raw[..1][1..] == [];
      } else {
        WholeIsGreatest(raw[1..], k - |Multibulk(raw[0])|);
        assert raw[..w][1..] == raw[1..][..w - 1];
        if w < |raw| {
          assert raw[..w + 1][1..] == raw[1..][..w];
        }
      }
    }
  }

  lemma LoadFirst(argv: Argv, rest: bytes, s: bytes)
    requires Writable(argv) && s == Multibulk(argv) + rest
    ensures Load(s) == Loaded([argv] + Load(rest).raw, |Multibulk(argv)| + Load(rest).validUpTo, Load(rest).ending)
  {
    MultibulkParses(argv, rest);
  }

  lemma PrefixSplit(first: bytes, rest: bytes, k: nat)
    requires |first| <= k <= |first| + |rest|
    ensures (first + rest)[..k] == first + rest[..k - |first|]
  {}

  lemma FirstIsWhole(raw: seq<Argv>, k: nat)
    requires raw != [] && |Multibulk(raw[0])| <= k
    ensures var w := Whole(raw, k);
      && w > 0 && raw[..w] == [raw[0]] + raw[1..][..w - 1]
      && |Log(raw[..w])| == |Multibulk(raw[0])| + |Log(raw[1..][..w - 1])|
  {
    var w := Whole(raw, k);
    assert raw[..w][1..] == raw[1..][..w - 1];
  }

  /** Any byte prefix of a log loads as the commands whole in it. */
  lemma {:induction false} LoadOfPrefix(raw: seq<Argv>, k: nat)
    requires AllWritable(raw) && k <= |Log(raw)|
    ensures var w := Whole(raw, k);
      Load(Log(raw)[..k])
      == Loaded(raw[..w], |Log(raw[..w])|, if k == |Log(raw[..w])| then Complete else Truncated)
    decreases raw
  {
    var s := Log(raw)[..k];
    if raw == [] || k == 0 {
      assert s == [];
    } else {
      var first := Multibulk(raw[0]);
      if k < |first| {
        assert s == first[..k];
        MultibulkCut(raw[0], k);
      } else {
        LoadOfPrefix(raw[1..], k - |first|);
        PrefixSplit(first, Log(raw[1..]), k);
        LoadFirst(raw[0], Log(raw[1..])[..k - |first|], s);
        FirstIsWhole(raw, k);
      }
    }
  }

  // ---------- databases ----------

  function Lower(c: byte): byte {
    if 65 <= c <= 90 then c + 32 else c
  }

  /** Command names are looked up without regard to case. */
  predicate IsSelect(argv: Argv) {
    && |argv| == 2 && |argv[0]| == |SELECT|
    && forall i :: 0 <= i < |SELECT| ==> Lower(argv[0][i]) == Lower(SELECT[i])
  }

  /** What the loader runs: every command other than SELECT, in the database selected last. */
  function Execute(raw: seq<Argv>, db: int): seq<(int, Argv)> {
    if raw == [] then []
    else if IsSelect(raw[0]) then Execute(raw[1..], Atoi(raw[0][1]))
    else [(db, raw[0])] + Execute(raw[1..], db)
  }

  /** The database selected after the commands. */
  function Selected(raw: seq<Argv>, db: int): int {
    if raw == [] then db else Selected(raw[1..], if IsSelect(raw[0]) then Atoi(raw[0][1]) else db)
  }

  function Runs(cs: seq<Command>): (r: seq<(int, Argv)>)
    ensures |r| == |cs| && forall i :: 0 <= i < |r| ==> r[i] == (cs[i].db as int, cs[i].argv)
  {
    seq(|cs|, i requires 0 <= i < |cs| => (cs[i].db as int, cs[i].argv))
  }

  /** Fed commands are not SELECT, which is not a write command. */
  predicate Feedable(c: Command) {
    Writable(c.argv) && !IsSelect(c.argv) && FitsInt(c.db)
  }

  predicate AllFeedable(cs: seq<Command>) {
    forall i :: 0 <= i < |cs| ==> Feedable(cs[i])
  }

  function Written(cs: seq<Command>): bytes {
    Log(FedAll(None, cs))
  }

  lemma {:induction false} FedAllSnoc(selected: Option<nat>, cs: seq<Command>, c: Command)
    ensures FedAll(selected, cs + [c])
         == FedAll(selected, cs) + Fed(if cs == [] then selected else Some(cs[|cs| - 1].db), c)
    decreases cs
  {
    if cs == [] {
      assert FedAll(Some(c.db), []) == [];
    } else {
      assert (cs + [c])[1..] == cs[1..] + [c];
      FedAllSnoc(Some(cs[0].db), cs[1..], c);
    }
  }

  lemma LogOfOne(argv: Argv)
    ensures Log([argv]) == Multibulk(argv)
  {
    assert Multibulk(argv) + [] == Multibulk(argv);
  }

  lemma LogOfTwo(a: Argv, b: Argv)
    ensures Log([a, b]) == Multibulk(a) + Multibulk(b)
  {
    LogOfOne(a);
    LogOfOne(b);
    LogConcat([a], [b]);
    assert [a] + [b] == [a, b];
  }

  /** One more command adds its own text, with a SELECT in front exactly if the last one was in another database. */
  lemma SelectsExactlyOnChange(cs: seq<Command>, c: Command)
    ensures cs != [] && cs[|cs| - 1].db == c.db ==> Written(cs + [c]) == Written(cs) + Multibulk(c.argv)
    ensures !(cs != [] && cs[|cs| - 1].db == c.db) ==>
      Written(cs + [c]) == Written(cs) + (Multibulk([[83, 69, 76, 69, 67, 84], Print(c.db)]) + Multibulk(c.argv))
  {
    var last := if cs == [] then None else Some(cs[|cs| - 1].db);
    FedAllSnoc(None, cs, c);
    LogConcat(FedAll(None, cs), Fed(last, c));
    LogOfOne(c.argv);
    LogOfTwo([SELECT, Print(c.db)], c.argv);
  }

  lemma HeaderIs(c: byte, n: nat)
    ensures Header(c, n) == [c] + Print(n) + [13, 10]
  {}

  lemma BulksOfOne(s: bytes)
    ensures Bulks([s]) == Bulk(s)
  {
    assert [s][1..] == [];
    assert Bulk(s) + [] == Bulk(s);
  }

  /** The bytes of a command with one argument: "*1", and "$" and the length, and the argument, each with CR LF. */
  lemma OneArgument(s: bytes)
    ensures Multibulk([s]) == ([42] + Print(1) + [13, 10]) + ([36] + Print(|s|) + [13, 10] + s + [13, 10])
  {
    HeaderIs(42, 1);
    HeaderIs(36, |s|);
    BulksOfOne(s);
  }

  lemma {:induction false} FedAllWritable(selected: Option<nat>, cs: seq<Command>)
    requires AllFeedable(cs)
    ensures AllWritable(FedAll(selected, cs))
    decreases cs
  {
    if cs != [] {
      FedAllWritable(Some(cs[0].db), cs[1..]);
      PrintFits(cs[0].db);
    }
  }

  /** How many of the commands are wholly among the first w of what was written. */
  function Among(selected: Option<nat>, cs: seq<Command>, w: nat): (m: nat)
    ensures m <= |cs|
    decreases cs
  {
    if cs == [] || w < |Fed(selected, cs[0])| then 0
    else 1 + Among(Some(cs[0].db), cs[1..], w - |Fed(selected, cs[0])|)
  }

  lemma SelectIsSelect(db: nat)
    ensures IsSelect([SELECT, Print(db)]) && Atoi(Print(db)) == db
  {
    AtoiOfPrint(db, []);
    assert Print(db) + [] == Print(db);
  }

  /** The first w of what was written run as the commands wholly among them, each in its own database. */
  lemma {:induction false} ExecuteOfPrefix(selected: Option<nat>, cs: seq<Command>, w: nat, db: int)
    requires AllFeedable(cs) && w <= |FedAll(selected, cs)| && (selected.Some? ==> db == selected.value)
    ensures Execute(FedAll(selected, cs)[..w], db) == Runs(cs[..Among(selected, cs, w)])
    decreases cs
  {
    if cs != [] && w > 0 {
      var c := cs[0];
      if w < |Fed(selected, c)| {
        SelectIsSelect(c.db);
        assert FedAll(selected, cs)[..w] == [[SELECT, Print(c.db)]];
      } else {
        var k := w - |Fed(selected, c)|;
        ExecuteOfPrefix(Some(c.db), cs[1..], k, c.db);
        FedPrefix(selected, cs, w);
        RunFed(selected, c, FedAll(Some(c.db), cs[1..])[..k], db);
        RunsFirst(cs, Among(selected, cs, w));
      }
    }
  }

  lemma FedPrefix(selected: Option<nat>, cs: seq<Command>, w: nat)
    requires cs != [] && |Fed(selected, cs[0])| <= w <= |FedAll(selected, cs)|
    ensures FedAll(selected, cs)[..w]
         == Fed(selected, cs[0]) + FedAll(Some(cs[0].db), cs[1..])[..w - |Fed(selected, cs[0])|]
  {}

  lemma RunsFirst(cs: seq<Command>, m: nat)
    requires 0 < m <= |cs|
    ensures Runs(cs[..m]) == [(cs[0].db as int, cs[0].argv)] + Runs(cs[1..][..m - 1])
  {}

  lemma RunFed(selected: Option<nat>, c: Command, rest: seq<Argv>, db: int)
    requires Feedable(c) && (selected.Some? ==> db == selected.value)
    ensures Execute(Fed(selected, c) + rest, db) == [(c.db as int, c.argv)] + Execute(rest, c.db)
  {
    var raw := Fed(selected, c) + rest;
    SelectIsSelect(c.db);
    if selected == Some(c.db) {
      assert raw[1..] == rest;
    } else {
      assert raw[1..] == [c.argv] + rest;
      assert raw[1..][1..] == rest;
    }
  }

  lemma {:induction false} LogConcat(a: seq<Argv>, b: seq<Argv>)
    ensures Log(a + b) == Log(a) + Log(b)
  {
    if a == [] {
      assert a + b == b;
    } else {
      LogConcat(a[1..], b);
      var both := a + b;
      assert both[0] == a[0] && both[1..] == a[1..] + b;
      Assoc(Multibulk(a[0]), Log(a[1..]), Log(b));
    }
  }

  lemma {:induction false} AmongIsGreatest(selected: Option<nat>, cs: seq<Command>, w: nat)
    ensures var m := Among(selected, cs, w);
      |FedAll(selected, cs[..m])| <= w && (m < |cs| ==> w < |FedAll(selected, cs[..m + 1])|)
    decreases cs
  {
    var m := Among(selected, cs, w);
    if cs != [] {
      if m == 0 {
        assert cs[..1][1..] == [];
      } else {
        AmongIsGreatest(Some(cs[0].db), cs[1..], w - |Fed(selected, cs[0])|);
        assert cs[..m][1..] == cs[1..][..m - 1];
        if m < |cs| {
          assert cs[..m + 1][1..] == cs[1..][..m];
        }
      }
    }
  }

  lemma {:induction false} FedAllPrefix(selected: Option<nat>, cs: seq<Command>, m: nat)
    requires m <= |cs|
    ensures FedAll(selected, cs[..m]) <= FedAll(selected, cs)
    decreases cs
  {
    if m > 0 {
      FedAllPrefix(Some(cs[0].db), cs[1..], m - 1);
      assert cs[..m][1..] == cs[1..][..m - 1];
    }
  }

  lemma LogOfPrefix(raw: seq<Argv>, i: nat, j: nat)
    requires i <= j <= |raw|
    ensures |Log(raw[..i])| <= |Log(raw[..j])|
  {
    LogConcat(raw[..i], raw[i..j]);
    assert raw[..i] + raw[i..j] == raw[..j];
  }

  /** The first j commands against the first w pieces, in bytes. */
  lemma PiecesInBytes(cs: seq<Command>, j: nat, w: nat)
    requires j <= |cs| && w <= |FedAll(None, cs)|
    ensures |FedAll(None, cs[..j])| <= w ==> |Written(cs[..j])| <= |Log(FedAll(None, cs)[..w])|
    ensures w <= |FedAll(None, cs[..j])| ==> |Log(FedAll(None, cs)[..w])| <= |Written(cs[..j])|
  {
    var raw := FedAll(None, cs);
    var p := |FedAll(None, cs[..j])|;
    FedAllPrefix(None, cs, j);
    assert FedAll(None, cs[..j]) == raw[..p];
    if p <= w {
      LogOfPrefix(raw, p, w);
    } else {
      LogOfPrefix(raw, w, p);
    }
  }

  /** In bytes: the commands wholly among the first w pieces take no more, and one more command takes more, than k. */
  lemma AmongInBytes(cs: seq<Command>, k: nat, m: nat)
    requires k <= |Written(cs)| && m == Among(None, cs, Whole(FedAll(None, cs), k))
    ensures |Written(cs[..m])| <= k && (m < |cs| ==> k < |Written(cs[..m + 1])|)
  {
    var w := Whole(FedAll(None, cs), k);
    WholeIsGreatest(FedAll(None, cs), k);
    AmongIsGreatest(None, cs, w);
    PiecesInBytes(cs, m, w);
    if m < |cs| {
      FedAllPrefix(None, cs, m + 1);
      PiecesInBytes(cs, m + 1, w + 1);
    }
  }

  /**
   Loading any byte prefix of what was written for a sequence of commands runs
   exactly the commands that are whole in it, each in its own database.
   */
  lemma LoadAnyPrefix(cs: seq<Command>, k: nat) returns (m: nat)
    requires AllFeedable(cs) && k <= |Written(cs)|
    ensures m <= |cs| && |Written(cs[..m])| <= k && (m < |cs| ==> k < |Written(cs[..m + 1])|)
    ensures Execute(Load(Written(cs)[..k]).raw, 0) == Runs(cs[..m])
  {
    var w := Whole(FedAll(None, cs), k);
    m := Among(None, cs, w);
    AmongInBytes(cs, k, m);
    FedAllWritable(None, cs);
    LoadOfPrefix(FedAll(None, cs), k);
    ExecuteOfPrefix(None, cs, w, 0);
  }

  lemma ValidUpToOf(raw: seq<Argv>, k: nat)
    requires AllWritable(raw) && k <= |Log(raw)|
    ensures var l := Load(Log(raw)[..k]);
      && l.raw <= raw && l.validUpTo == |Log(l.raw)| <= k
      && (|l.raw| < |raw| ==> k < |Log(raw[..|l.raw| + 1])|)
      && l.ending == if l.validUpTo == k then Complete else Truncated
  {
    LoadOfPrefix(raw, k);
    WholeIsGreatest(raw, k);
    var w := Whole(raw, k);
    assert raw[..w] <= raw && |raw[..w]| == w;
  }

  /**
   valid_up_to is the end of the last whole command, SELECT included: the log
   reads as whole commands up to there, not one more fits, and loading is
   complete exactly when there is nothing after it.
   */
  lemma ValidUpTo(cs: seq<Command>, k: nat)
    requires AllFeedable(cs) && k <= |Written(cs)|
    ensures var l := Load(Written(cs)[..k]);
      && l.raw <= FedAll(None, cs)
      && l.validUpTo == |Log(l.raw)| <= k
      && (|l.raw| < |FedAll(None, cs)| ==> k < |Log(FedAll(None, cs)[..|l.raw| + 1])|)
      && l.ending == if l.validUpTo == k then Complete else Truncated
  {
    FedAllWritable(None, cs);
    ValidUpToOf(FedAll(None, cs), k);
  }

  lemma AsOne(a: seq<Argv>, b: seq<Argv>)
    requires a != []
    ensures [a[0]] + (a[1..] + b) == a + b
  {}

  /** Behind a complete log, anything loads as it would alone. */
  lemma {:induction false} LoadBehind(raw: seq<Argv>, s: bytes)
    requires AllWritable(raw)
    ensures Load(Log(raw) + s) == Loaded(raw + Load(s).raw, |Log(raw)| + Load(s).validUpTo, Load(s).ending)
    decreases raw
  {
    if raw == [] {
      assert Log(raw) + s == s;
    } else {
      var rest := Log(raw[1..]) + s;
      Assoc(Multibulk(raw[0]), Log(raw[1..]), s);
      LoadFirst(raw[0], rest, Log(raw) + s);
      LoadBehind(raw[1..], s);
      AsOne(raw, Load(s).raw);
    }
  }

  lemma {:induction false} ExecuteConcat(a: seq<Argv>, b: seq<Argv>, db: int)
    ensures Execute(a + b, db) == Execute(a, db) + Execute(b, Selected(a, db))
    ensures Selected(a + b, db) == Selected(b, Selected(a, db))
    decreases a
  {
    if a == [] {
      assert a + b == b;
    } else {
      assert (a + b)[1..] == a[1..] + b;
      ExecuteConcat(a[1..], b, if IsSelect(a[0]) then Atoi(a[0][1]) else db);
    }
  }

  lemma ExecuteAll(cs: seq<Command>, db: int)
    requires AllFeedable(cs)
    ensures Execute(FedAll(None, cs), db) == Runs(cs)
  {
    var raw := FedAll(None, cs);
    ExecuteOfPrefix(None, cs, |raw|, db);
    AmongIsGreatest(None, cs, |raw|);
    var m := Among(None, cs, |raw|);
    if m < |cs| {
      FedAllPrefix(None, cs, m + 1);
    }
    assert raw[..|raw|] == raw && cs[..|cs|] == cs;
  }

  lemma LoadWhole(raw: seq<Argv>)
    requires AllWritable(raw)
    ensures Load(Log(raw)) == Loaded(raw, |Log(raw)|, Complete)
  {
    LoadBehind(raw, []);
    assert Log(raw) + [] == Log(raw) && raw + [] == raw;
  }

  /**
   What a rewrite puts in place, a snapshot followed by what was fed since the
   fork, runs as the one and then the other.
   */
  lemma RewrittenFileLoads(snapshot: seq<Argv>, cs: seq<Command>)
    requires AllWritable(snapshot) && AllFeedable(cs)
    ensures var l := Load(Log(snapshot) + Written(cs));
      l.ending == Complete && Execute(l.raw, 0) == Execute(snapshot, 0) + Runs(cs)
  {
    LoadBehind(snapshot, Written(cs));
    FedAllWritable(None, cs);
    LoadWhole(FedAll(None, cs));
    ExecuteConcat(snapshot, FedAll(None, cs), 0);
    ExecuteAll(cs, Selected(snapshot, 0));
  }
}
