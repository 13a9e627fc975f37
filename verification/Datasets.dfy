/**
 Every dataset that commands make can be written as a snapshot (aof.c): the
 child can always be forked, in any run.
 */
module Datasets {
  import F = AofFlush
  import opened AofLog
  import opened Bytes
  import opened ChunkedRewrite
  import opened DataTypes
  import opened OptionType
  import P = Persistence
  import opened Replay
  import opened Snapshot

  const LIMIT: nat := REDIS_AOF_REWRITE_ITEMS_PER_CMD

  // ---------- what commands leave in a dataset ----------

  predicate AllFit(ss: set<bytes>) {
    forall s :: s in ss ==> Fits(|s|)
  }

  predicate MapFits(m: map<bytes, bytes>) {
    forall k :: k in m ==> Fits(|k|) && Fits(|m[k]|)
  }

  predicate ValueFits(v: Value) {
    match v
    case Text(text) => Fits(|text|)
    case List(elements) => forall i :: 0 <= i < |elements| ==> Fits(|elements[i]|)
    case Set(members) => AllFit(members)
    case ZSet(scores) => MapFits(scores)
    case Hash(fields) => MapFits(fields)
  }

  predicate NotEmpty(v: Value) {
    match v
    case Text(_) => true
    case List(elements) => elements != []
    case Set(members) => members != {}
    case ZSet(scores) => scores != map[]
    case Hash(fields) => fields != map[]
  }

  /** No collection is empty, and every string fits a long. */
  predicate DbOk(db: Db) {
    forall k :: k in db ==> Fits(|k|) && ValueFits(db[k]) && NotEmpty(db[k])
  }

  /** Databases are numbered from 0, and those listed hold something. */
  predicate KeyspaceOk(ks: Keyspace, dbnum: nat) {
    NoneEmpty(ks) && forall j :: j in ks ==> 0 <= j < dbnum && DbOk(ks[j])
  }

  predicate ArgsFit(args: Argv) {
    forall i :: 0 <= i < |args| ==> Fits(|args[i]|)
  }

  lemma {:induction false} PairsFit(m: map<bytes, bytes>, args: Argv)
    requires MapFits(m) && ArgsFit(args)
    ensures MapFits(Scored(m, args)) && MapFits(Fielded(m, args))
    ensures |args| > 1 || m != map[] ==> Scored(m, args) != map[] && Fielded(m, args) != map[]
    decreases |args|
  {
    if |args| >= 2 {
      var scored, fielded := m[args[1] := args[0]], m[args[0] := args[1]];
      assert args[1] in scored && args[0] in fielded;
      PairsFit(scored, args[2..]);
      PairsFit(fielded, args[2..]);
    }
  }

  lemma {:induction false} ReversedFits(args: Argv)
    requires ArgsFit(args)
    ensures |Reversed(args)| == |args| && ArgsFit(Reversed(args))
  {
    if args != [] {
      ReversedFits(args[1..]);
    }
  }

  /** What a command writes under its key. */
  ghost predicate Writes(db: Db, key: bytes, now: Db) {
    now == db || exists v :: ValueFits(v) && NotEmpty(v) && now == db[key := v]
  }

  lemma PushWrites(key: bytes, args: Argv, db: Db, tail: bool)
    requires args != [] && ArgsFit(args) && DbOk(db)
    ensures Writes(db, key, ExecPush(key, args, db, tail))
  {
    ReversedFits(args);
    if key !in db || db[key].List? {
      var v := ExecPush(key, args, db, tail)[key];
      assert ValueFits(v) && NotEmpty(v);
    }
  }

  lemma SAddWrites(key: bytes, args: Argv, db: Db)
    requires args != [] && ArgsFit(args) && DbOk(db)
    ensures Writes(db, key, ExecSAdd(key, args, db))
  {
    if key !in db || db[key].Set? {
      var v := ExecSAdd(key, args, db)[key];
      assert args[0] in v.members;
      assert ValueFits(v) && NotEmpty(v);
    }
  }

  lemma PairsWrite(key: bytes, args: Argv, db: Db)
    requires args != [] && ArgsFit(args) && DbOk(db)
    ensures Writes(db, key, ExecZAdd(key, args, db)) && Writes(db, key, ExecHMSet(key, args, db))
  {
    if |args| % 2 == 0 {
      if key !in db || db[key].ZSet? {
        PairsFit(if key in db then db[key].scores else map[], args);
        var v := ExecZAdd(key, args, db)[key];
        assert ValueFits(v) && NotEmpty(v);
      }
      if key !in db || db[key].Hash? {
        PairsFit(if key in db then db[key].fields else map[], args);
        var v := ExecHMSet(key, args, db)[key];
        assert ValueFits(v) && NotEmpty(v);
      }
    }
  }

  lemma SetWrites(key: bytes, args: Argv, db: Db)
    requires ArgsFit(args)
    ensures Writes(db, key, ExecSet(key, args, db))
  {
    if |args| == 1 {
      assert ValueFits(Text(args[0])) && NotEmpty(Text(args[0]));
    }
  }

  lemma ExecWrites(argv: Argv, db: Db)
    requires Writable(argv) && DbOk(db)
    ensures Exec(argv, db) == db || (|argv| > 1 && Writes(db, argv[1], Exec(argv, db)))
  {
    if |argv| >= 3 {
      var key, args := argv[1], argv[2..];
      match Lookup(argv[0])
      case SetVerb => SetWrites(key, args, db);
      case RPushVerb => PushWrites(key, args, db, true);
      case LPushVerb => PushWrites(key, args, db, false);
      case SAddVerb => SAddWrites(key, args, db);
      case ZAddVerb => PairsWrite(key, args, db);
      case HMSetVerb => PairsWrite(key, args, db);
      case OtherVerb =>
    }
  }

  lemma ExecKeeps(argv: Argv, db: Db)
    requires Writable(argv) && DbOk(db)
    ensures DbOk(Exec(argv, db))
  {
    ExecWrites(argv, db);
  }

  lemma RunInKeeps(ks: Keyspace, dbnum: nat, j: int, argv: Argv)
    requires KeyspaceOk(ks, dbnum) && 0 <= j < dbnum && Writable(argv)
    ensures KeyspaceOk(RunIn(ks, j, argv), dbnum)
  {
    ExecKeeps(argv, In(ks, j));
  }

  /** Commands in the databases there are. */
  predicate Within(cs: seq<Command>, dbnum: nat) {
    forall i :: 0 <= i < |cs| ==> Writable(cs[i].argv) && cs[i].db < dbnum
  }

  lemma {:induction false} RunsKeep(ks: Keyspace, dbnum: nat, cs: seq<Command>)
    requires KeyspaceOk(ks, dbnum) && Within(cs, dbnum)
    ensures KeyspaceOk(Replayed(RunIn, ks, Runs(cs)), dbnum)
    decreases cs
  {
    if cs != [] {
      RunInKeeps(ks, dbnum, cs[0].db, cs[0].argv);
      assert Runs(cs)[1..] == Runs(cs[1..]);
      RunsKeep(RunIn(ks, cs[0].db, cs[0].argv), dbnum, cs[1..]);
    }
  }

  // ---------- entries for every value ----------

  lemma {:induction false} SomeOrder(s: set<bytes>) returns (elements: seq<bytes>)
    ensures forall e :: e in elements <==> e in s
    decreases s
  {
    if s == {} {
      elements := [];
    } else {
      var x :| x in s;
      var rest := SomeOrder(s - {x});
      elements := [x] + rest;
    }
  }

  lemma SomePairs(m: map<bytes, bytes>) returns (pairs: seq<(bytes, bytes)>)
    ensures Enumerates(pairs, m)
  {
    var keys := SomeOrder(m.Keys);
    assert forall i :: 0 <= i < |keys| ==> keys[i] in keys;
    pairs := seq(|keys|, i requires 0 <= i < |keys| => (keys[i], m[keys[i]]));
    forall k | k in m ensures (k, m[k]) in pairs {
      assert k in keys;
      var i :| 0 <= i < |keys| && keys[i] == k;
      assert pairs[i] == (k, m[k]);
    }
  }

  lemma SingletonPairs(pairs: seq<(bytes, bytes)>, m: map<bytes, bytes>)
    requires Enumerates(pairs, m)
    ensures AddItems(HMSet, Hash(map[]), Fields(pairs)) == Hash(m)
    ensures AddItems(ZAdd, ZSet(map[]), Scores(pairs)) == ZSet(m)
    ensures m != map[] ==> pairs != []
  {
    PairsPut(map[], pairs);
    PutAllEnumerated(pairs, m);
    if m != map[] {
      var k :| k in m;
      assert (k, m[k]) in pairs;
    }
  }

  /** An entry that means the value. */
  ghost predicate EntryFor(e: Entry, key: bytes, v: Value) {
    e.key == key && Proper(e) && SizedEntry(e, LIMIT) && Meaning(e) == v
  }

  lemma ListEntry(key: bytes, v: Value) returns (e: Entry)
    requires Fits(|key|) && ValueFits(v) && NotEmpty(v) && v.List?
    ensures EntryFor(e, key, v)
  {
    FlatSingles(v.elements);
    assert [] + v.elements == v.elements;
    e := Collection(key, RPush, Singles(v.elements));
  }

  lemma SetEntry(key: bytes, v: Value) returns (e: Entry)
    requires Fits(|key|) && ValueFits(v) && NotEmpty(v) && v.Set?
    ensures EntryFor(e, key, v)
  {
    var elements := SomeOrder(v.members);
    FlatSingles(elements);
    assert {} + (set x | x in elements) == v.members;
    assert forall i :: 0 <= i < |elements| ==> elements[i] in elements;
    e := Collection(key, SAdd, Singles(elements));
  }

  lemma PairsEntry(key: bytes, v: Value) returns (e: Entry)
    requires Fits(|key|) && ValueFits(v) && NotEmpty(v) && (v.ZSet? || v.Hash?)
    ensures EntryFor(e, key, v)
  {
    var m := if v.ZSet? then v.scores else v.fields;
    var pairs := SomePairs(m);
    SingletonPairs(pairs, m);
    e := if v.ZSet? then Collection(key, ZAdd, Scores(pairs)) else Collection(key, HMSet, Fields(pairs));
  }

  lemma SomeEntry(key: bytes, v: Value) returns (e: Entry)
    requires Fits(|key|) && ValueFits(v) && NotEmpty(v)
    ensures EntryFor(e, key, v)
  {
    match v
    case Text(text) => e := String(key, text);
    case List(_) => e := ListEntry(key, v);
    case Set(_) => e := SetEntry(key, v);
    case ZSet(_) => e := PairsEntry(key, v);
    case Hash(_) => e := PairsEntry(key, v);
  }

  // ---------- databases for every keyspace ----------

  predicate SizedDb(es: Database) {
    forall i :: 0 <= i < |es| ==> SizedEntry(es[i], LIMIT)
  }

  lemma {:induction false} PutEntriesSnoc(db: Db, es: Database, e: Entry)
    requires (forall i :: 0 <= i < |es| ==> Proper(es[i])) && Proper(e)
    ensures forall i :: 0 <= i < |es + [e]| ==> Proper((es + [e])[i])
    ensures PutEntries(db, es + [e]) == PutEntries(db, es)[e.key := Meaning(e)]
    decreases es
  {
    var more := es + [e];
    if es == [] {
      assert more[1..] == [];
    } else {
      assert more[0] == es[0] && more[1..] == es[1..] + [e];
      PutEntriesSnoc(db[es[0].key := Meaning(es[0])], es[1..], e);
    }
  }

  lemma OneMoreEntry(es: Database, e: Entry)
    requires ProperDb(es) && Proper(e) && forall i :: 0 <= i < |es| ==> es[i].key != e.key
    ensures ProperDb(es + [e]) && Holding(es + [e]) == Holding(es)[e.key := Meaning(e)]
  {
    PutEntriesSnoc(map[], es, e);
  }

  lemma {:induction false} SomeDatabase(db: Db) returns (es: Database)
    requires DbOk(db)
    ensures ProperDb(es) && SizedDb(es) && Holding(es) == db && (es == [] <==> db == map[])
    ensures forall i :: 0 <= i < |es| ==> es[i].key in db
    decreases db.Keys
  {
    if db == map[] {
      es := [];
    } else {
      var key :| key in db;
      var rest := SomeDatabase(db - {key});
      var e := SomeEntry(key, db[key]);
      es := rest + [e];
      OneMoreEntry(rest, e);
      assert (db - {key})[key := db[key]] == db;
    }
  }

  /** The first n databases of the keyspace. */
  ghost predicate DatabasesFor(dbs: seq<Database>, ks: Keyspace, n: nat) {
    && |dbs| == n && ProperDbs(dbs)
    && forall j :: 0 <= j < n ==> SizedDb(dbs[j]) && (dbs[j] != [] <==> j in ks)
                                  && (j in ks ==> Holding(dbs[j]) == ks[j])
  }

  lemma {:induction false} SomeDatabases(ks: Keyspace, dbnum: nat, n: nat) returns (dbs: seq<Database>)
    requires KeyspaceOk(ks, dbnum) && n <= dbnum
    ensures DatabasesFor(dbs, ks, n)
    decreases n
  {
    if n == 0 {
      dbs := [];
    } else {
      var front := SomeDatabases(ks, dbnum, n - 1);
      var es := SomeDatabase(In(ks, n - 1));
      dbs := front + [es];
      assert forall j :: 0 <= j < n - 1 ==> dbs[j] == front[j];
    }
  }

  /** Every keyspace that commands make is the dataset of some databases. */
  lemma KeyspaceIsDataset(ks: Keyspace, dbnum: nat) returns (dbs: seq<Database>)
    requires KeyspaceOk(ks, dbnum) && dbnum <= 0x8000_0000
    ensures |dbs| == dbnum && ProperDbs(dbs) && SizedDbs(dbs, LIMIT) && Dataset(dbs) == ks
  {
    dbs := SomeDatabases(ks, dbnum, dbnum);
    assert forall j :: j in Dataset(dbs) <==> j in ks;
  }

  // ---------- forking ----------

  /** What rewriteAppendOnlyFile writes is such a snapshot. */
  lemma SnapshotCanBeForked(policy: F.Policy, s: P.State<Keyspace>, dbs: seq<Database>, limit: nat)
    requires !s.exited && s.rewrite == None
    requires limit > 0 && ProperDbs(dbs) && SizedDbs(dbs, limit) && s.data == Dataset(dbs)
    ensures P.Enabled(RunIn, map[], policy, s, P.Fork(SnapshotCommands(dbs, limit)))
  {
    SnapshotRestores(dbs, limit);
    PartsWritable(dbs, 0, limit);
    LoadWhole(SnapshotCommands(dbs, limit));
  }

  /**
   At any moment of any run without a rewrite under way, whatever commands
   have been fed, there is a snapshot as rewriteAppendOnlyFile writes it with
   which the child can be forked.
   */
  lemma ForkAlwaysPossible(policy: F.Policy, states: seq<P.State<Keyspace>>, es: seq<P.Event<Keyspace>>, dbnum: nat)
    returns (dbs: seq<Database>)
    requires P.Run(RunIn, map[], policy, states, es) && Within(P.Commands(es), dbnum) && dbnum <= 0x8000_0000
    requires !states[|es|].exited && states[|es|].rewrite == None
    ensures |dbs| == dbnum && ProperDbs(dbs)
    ensures P.Enabled(RunIn, map[], policy, states[|es|], P.Fork(SnapshotCommands(dbs, LIMIT)))
  {
    P.RunKeeps(RunIn, map[], policy, states, es);
    RunsKeep(map[], dbnum, P.Commands(es));
    dbs := KeyspaceIsDataset(states[|es|].data, dbnum);
    SnapshotCanBeForked(policy, states[|es|], dbs, LIMIT);
  }
}
