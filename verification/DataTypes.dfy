/** The data types of a database, and what the commands that build values of them do (t_list.c, t_set.c and others). */
module DataTypes {
  import opened AofLog
  import opened Bytes

  /** Scores are kept as the text they are written as. */
  datatype Value =
    | Text(text: bytes)
    | List(elements: seq<bytes>)
    | Set(members: set<bytes>)
    | ZSet(scores: map<bytes, bytes>)
    | Hash(fields: map<bytes, bytes>)

  type Db = map<bytes, Value>

  datatype Verb = SetVerb | RPushVerb | LPushVerb | SAddVerb | ZAddVerb | HMSetVerb | OtherVerb

  function Lowered(name: bytes): bytes {
    seq(|name|, i requires 0 <= i < |name| => Lower(name[i]))
  }

  /** The command table, by name in lower case: set, rpush, lpush, sadd, zadd and hmset. */
  function Lookup(name: bytes): Verb {
    var lowered := Lowered(name);
    if lowered == [115, 101, 116] then SetVerb
    else if lowered == [114, 112, 117, 115, 104] then RPushVerb
    else if lowered == [108, 112, 117, 115, 104] then LPushVerb
    else if lowered == [115, 97, 100, 100] then SAddVerb
    else if lowered == [122, 97, 100, 100] then ZAddVerb
    else if lowered == [104, 109, 115, 101, 116] then HMSetVerb
    else OtherVerb
  }

  function Reversed(s: seq<bytes>): seq<bytes> {
    if s == [] then [] else Reversed(s[1..]) + [s[0]]
  }

  /** Members with their scores, given as scores and members in turn. */
  function Scored(m: map<bytes, bytes>, args: Argv): map<bytes, bytes>
    decreases |args|
  {
    if |args| < 2 then m else Scored(m[args[1] := args[0]], args[2..])
  }

  /** Fields with their values, given in turn. */
  function Fielded(m: map<bytes, bytes>, args: Argv): map<bytes, bytes>
    decreases |args|
  {
    if |args| < 2 then m else Fielded(m[args[0] := args[1]], args[2..])
  }

  /** SET replaces any value. */
  function ExecSet(key: bytes, args: Argv, db: Db): Db {
    if |args| == 1 then db[key := Text(args[0])] else db
  }

  /** Elements go to the tail in the order they are given, or one by one to the head. */
  function ExecPush(key: bytes, args: Argv, db: Db, tail: bool): Db {
    if key in db && !db[key].List? then db
    else
      var elements := if key in db then db[key].elements else [];
      db[key := List(if tail then elements + args else Reversed(args) + elements)]
  }

  function ExecSAdd(key: bytes, args: Argv, db: Db): Db {
    if key in db && !db[key].Set? then db
    else db[key := Set((if key in db then db[key].members else {}) + set a | a in args)]
  }

  function ExecZAdd(key: bytes, args: Argv, db: Db): Db {
    if |args| % 2 != 0 || (key in db && !db[key].ZSet?) then db
    else db[key := ZSet(Scored(if key in db then db[key].scores else map[], args))]
  }

  function ExecHMSet(key: bytes, args: Argv, db: Db): Db {
    if |args| % 2 != 0 || (key in db && !db[key].Hash?) then db
    else db[key := Hash(Fielded(if key in db then db[key].fields else map[], args))]
  }

  /**
   What a command does to the database it is run in. With the wrong number of
   arguments, or on a value of another type, it changes nothing.
   */
  function Exec(argv: Argv, db: Db): Db {
    if |argv| < 3 then db
    else
      var key, args := argv[1], argv[2..];
      match Lookup(argv[0])
      case SetVerb => ExecSet(key, args, db)
      case RPushVerb => ExecPush(key, args, db, true)
      case LPushVerb => ExecPush(key, args, db, false)
      case SAddVerb => ExecSAdd(key, args, db)
      case ZAddVerb => ExecZAdd(key, args, db)
      case HMSetVerb => ExecHMSet(key, args, db)
      case OtherVerb => db
  }

  function ExecAll(raw: seq<Argv>, db: Db): Db
    decreases raw
  {
    if raw == [] then db else ExecAll(raw[1..], Exec(raw[0], db))
  }

  lemma {:induction false} ScoredConcat(m: map<bytes, bytes>, a: Argv, b: Argv)
    requires |a| % 2 == 0
    ensures Scored(m, a + b) == Scored(Scored(m, a), b)
    ensures Fielded(m, a + b) == Fielded(Fielded(m, a), b)
    decreases |a|
  {
    if a == [] {
      assert a + b == b;
    } else {
      assert (a + b)[2..] == a[2..] + b;
      ScoredConcat(m[a[1] := a[0]], a[2..], b);
      ScoredConcat(m[a[0] := a[1]], a[2..], b);
    }
  }
}
