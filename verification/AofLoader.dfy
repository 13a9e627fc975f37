/** Loading the append only file (aof.c): what is run, and what becomes of a file that is cut short or damaged. */
module AofLoader {
  import opened AofLog
  import opened AofSyntax
  import opened Bytes
  import opened Decimal

  /** One argument, read from `pos` on. */
  method ReadBulk(file: bytes, pos: nat) returns (p: Parsed<bytes>, next: nat)
    requires pos <= |file|
    ensures p == ParseBulk(file[pos..]) && next <= |file|
    ensures p.Parsed? ==> pos < next && p.rest == file[next..]
  {
    next := pos;
    var n := LineLength(file[pos..], LINE_MAX);
    if n == 0 { return ShortRead, next; }
    if file[pos] != DOLLAR { return BadFormat, next; }
    var len := Atoi(file[pos + 1..pos + n]);
    assert file[pos..][1..n] == file[pos + 1..pos + n];
    if len < 0 { return NoMemory, next; }
    var body := pos + n;
    assert file[pos..][n..] == file[body..];
    if len > 0 && body + len > |file| { return ShortRead, next; }
    if body + len + 2 > |file| { return ShortRead, next; }
    next := body + len + 2;
    assert file[body..][..len] == file[body..body + len] && file[body..][len + 2..] == file[next..];
    p := Parsed(file[body..body + len], file[next..]);
  }

  lemma PrependNone(p: Parsed<Argv>)
    ensures Prepend([], p) == p
  {
    if p.Parsed? {
      assert [] + p.value == p.value;
    }
  }

  lemma PrependMore(args: Argv, arg: bytes, p: Parsed<Argv>)
    ensures Prepend(args, Prepend([arg], p)) == Prepend(args + [arg], p)
  {
    if p.Parsed? {
      assert args + ([arg] + p.value) == args + [arg] + p.value;
    }
  }

  /** The arguments of one command. */
  method ReadBulks(file: bytes, pos: nat, argc: nat) returns (p: Parsed<Argv>, next: nat)
    requires pos <= |file|
    ensures p == ParseBulks(file[pos..], argc) && next <= |file|
    ensures p.Parsed? ==> pos <= next && p.rest == file[next..]
  {
    var argv: Argv := [];
    next := pos;
    PrependNone(ParseBulks(file[pos..], argc));
    for j := 0 to argc
      invariant pos <= next <= |file|
      invariant ParseBulks(file[pos..], argc) == Prepend(argv, ParseBulks(file[next..], argc - j))
    {
      var arg, after := ReadBulk(file, next);
      if !arg.Parsed? {
        p := match arg
          case ShortRead => ShortRead case ReadError => ReadError case BadFormat => BadFormat case _ => NoMemory;
        return;
      }
      PrependMore(argv, arg.value, ParseBulks(file[after..], argc - j - 1));
      argv, next := argv + [arg.value], after;
    }
    assert argv + [] == argv;
    p := Parsed(argv, file[next..]);
  }

  /** One command, read from `pos` on, not at the end of the file. */
  method ReadCommand(file: bytes, pos: nat) returns (p: Parsed<Argv>, next: nat)
    requires pos < |file|
    ensures p == ParseCommand(file[pos..]) && next <= |file|
    ensures p.Parsed? ==> pos < next && p.rest == file[next..]
  {
    next := pos;
    var n := LineLength(file[pos..], LINE_MAX);
    if file[pos] != STAR { return BadFormat, next; }
    if n == 1 || file[pos + 1] == 0 {
      return if pos + n == |file| && n < LINE_MAX && file[pos + n - 1] != LF then ShortRead else ReadError, next;
    }
    var argc := Atoi(file[pos + 1..pos + n]);
    assert file[pos..][1..n] == file[pos + 1..pos + n];
    if argc < 1 { return BadFormat, next; }
    assert file[pos..][n..] == file[pos + n..];
    p, next := ReadBulks(file, pos + n, argc);
  }

  datatype LoadEnd = EmptyFile | LoadedOk | UnexpectedEof | ReadFailed | BadFile | NoMemoryLeft

  function Behind(raw: seq<Argv>, pos: nat, l: Loaded): Loaded {
    Loaded(raw + l.raw, pos + l.validUpTo, l.ending)
  }

  lemma LoadUnfolds(argv: Argv, s: bytes, rest: bytes)
    requires s != [] && ParseCommand(s) == Parsed(argv, rest)
    ensures Load(s) == Loaded([argv] + Load(rest).raw, |s| - |rest| + Load(rest).validUpTo, Load(rest).ending)
  {
    var p := Parsed(argv, rest);
    assert Load(s) == LoadOn(s, p);
  }

  lemma BehindOneMore(raw: seq<Argv>, pos: nat, argv: Argv, n: nat, l: Loaded)
    ensures Behind(raw, pos, Loaded([argv] + l.raw, n + l.validUpTo, l.ending)) == Behind(raw + [argv], pos + n, l)
  {
    assert raw + ([argv] + l.raw) == raw + [argv] + l.raw;
  }

  lemma OneMoreExecuted(raw: seq<Argv>, argv: Argv)
    ensures Execute(raw + [argv], 0) == Execute(raw, 0) + (if IsSelect(argv) then [] else [(Selected(raw, 0), argv)])
    ensures Selected(raw + [argv], 0) == if IsSelect(argv) then Atoi(argv[1]) else Selected(raw, 0)
  {
    ExecuteConcat(raw, [argv], 0);
    assert [argv][1..] == [];
  }

  /** The loop of loadAppendOnlyFile: it runs what it reads, up to the end of the file or the first error. */
  method RunFile(file: bytes, loadTruncated: bool)
    returns (ending: Ending, ran: seq<(int, Argv)>, validUpTo: nat)
    ensures ending == Load(file).ending && ran == Execute(Load(file).raw, 0)
    ensures loadTruncated ==> validUpTo == Load(file).validUpTo
  {
    var pos, db := 0, 0;
    ran, validUpTo := [], 0;
    ghost var raw: seq<Argv> := [];
    assert file[0..] == file && [] + Load(file).raw == Load(file).raw;
    while true
      invariant pos <= |file| && Load(file) == Behind(raw, pos, Load(file[pos..]))
      invariant ran == Execute(raw, 0) && db == Selected(raw, 0)
      invariant loadTruncated ==> validUpTo == pos
      decreases |file| - pos
    {
      assert raw + [] == raw;
      if pos == |file| { return Complete, ran, validUpTo; }
      var p, next := ReadCommand(file, pos);
      match p {
        case ShortRead => return Truncated, ran, validUpTo;
        case ReadError => return Unreadable, ran, validUpTo;
        case BadFormat => return FormatError, ran, validUpTo;
        case NoMemory => return OutOfMemory, ran, validUpTo;
        case Parsed(argv, _) =>
          LoadUnfolds(argv, file[pos..], file[next..]);
          BehindOneMore(raw, pos, argv, next - pos, Load(file[next..]));
          OneMoreExecuted(raw, argv);
          if IsSelect(argv) { db := Atoi(argv[1]); } else { ran := ran + [(db, argv)]; }
          raw := raw + [argv];
          pos := next;
          if loadTruncated { validUpTo := pos; }
      }
    }
  }

  /** The file is a log the server wrote, with damage behind it. */
  ghost predicate DamagedBehind(file: bytes, raw: seq<Argv>, tail: bytes) {
    AllWritable(raw) && Damaged(tail) && file == Log(raw) + tail
  }

  lemma DamageEndsLoading(file: bytes)
    ensures forall raw, tail :: DamagedBehind(file, raw, tail) ==>
      && Load(file).raw == raw
      && (Load(file).ending == Unreadable || Load(file).ending == FormatError || Load(file).ending == OutOfMemory)
      && (tail[0] != 42 ==> Load(file).ending == FormatError)
  {
    forall raw, tail | DamagedBehind(file, raw, tail)
      ensures Load(file).raw == raw
      ensures Load(file).ending == Unreadable || Load(file).ending == FormatError || Load(file).ending == OutOfMemory
      ensures tail[0] != 42 ==> Load(file).ending == FormatError
    {
      DamagedLog(raw, tail);
    }
  }

  /**
   loadAppendOnlyFile, for a file without MULTI and with every command known.
   `kept` is the file as it is left: cut back to the last whole command when it
   ends in the middle of one and truncated files are to be loaded. Nothing else
   is ever cut off, and what is kept loads completely and runs the same.
   */
  method LoadAppendOnlyFile(file: bytes, loadTruncated: bool, canTruncate: bool)
    returns (end: LoadEnd, ran: seq<(int, Argv)>, kept: bytes)
    ensures file == [] ==> end == EmptyFile && ran == [] && kept == file
    ensures file != [] ==> ran == Execute(Load(file).raw, 0)
    ensures file != [] ==>
      match Load(file).ending
      case Complete => end == LoadedOk && kept == file
      case Truncated =>
        if loadTruncated && canTruncate then end == LoadedOk && kept == file[..Load(file).validUpTo]
        else end == UnexpectedEof && kept == file
      case Unreadable => end == ReadFailed && kept == file
      case FormatError => end == BadFile && kept == file
      case OutOfMemory => end == NoMemoryLeft && kept == file
    ensures kept != file ==>
      && loadTruncated && canTruncate && end == LoadedOk && kept <= file
      && (NulCount(file[|kept|..]) || CutShort(file[|kept|..]))
      && Load(kept).ending == Complete && ran == Execute(Load(kept).raw, 0)
    ensures forall raw, tail :: DamagedBehind(file, raw, tail) ==>
      && kept == file && ran == Execute(raw, 0) && (end == ReadFailed || end == BadFile || end == NoMemoryLeft)
      && (tail[0] != 42 ==> end == BadFile)
  {
    LoadedPart(file);
    DamageEndsLoading(file);
    if file == [] { return EmptyFile, [], file; }
    var ending, validUpTo;
    ending, ran, validUpTo := RunFile(file, loadTruncated);
    kept := file;
    match ending {
      case Complete => end := LoadedOk;
      case Truncated =>
        if loadTruncated && canTruncate {
          kept := file[..validUpTo];
          end := LoadedOk;
        } else {
          end := UnexpectedEof;
        }
      case Unreadable => end := ReadFailed;
      case FormatError => end := BadFile;
      case OutOfMemory => end := NoMemoryLeft;
    }
  }
}
