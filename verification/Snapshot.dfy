/**
 The snapshot the child writes when the append only file is rewritten (aof.c):
 database by database, key by key, with a SELECT before each database.
 */
module Snapshot {
  import opened AofLog
  import AofRewrite
  import opened Bytes
  import opened ChunkedRewrite
  import opened DataTypes
  import opened Decimal
  import opened OptionType
  import opened Replay

  /** A key and its value, a collection as the sequence of its items in the order they are visited. */
  datatype Entry = String(key: bytes, text: bytes) | Collection(key: bytes, kind: Kind, items: seq<Item>)

  /** The entries of a database in the order they are visited. */
  type Database = seq<Entry>

  const SET: bytes := [83, 69, 84]

  function Meaning(e: Entry): Value
    requires e.Collection? ==> Items(e.kind, e.items)
  {
    match e
    case String(_, text) => Text(text)
    case Collection(_, kind, items) => AddItems(kind, Empty(kind), items)
  }

  /** No collection is empty. */
  predicate Proper(e: Entry) {
    e.Collection? ==> e.items != [] && Items(e.kind, e.items)
  }

  predicate ProperDb(es: Database) {
    && (forall i :: 0 <= i < |es| ==> Proper(es[i]))
    && (forall i, k :: 0 <= i < k < |es| ==> es[i].key != es[k].key)
  }

  predicate ProperDbs(dbs: seq<Database>) {
    forall j :: 0 <= j < |dbs| ==> ProperDb(dbs[j])
  }

  // ---------- what is written ----------

  function Commands(e: Entry, limit: nat): seq<Argv>
    requires limit > 0
  {
    match e
    case String(key, text) => [[SET, key, text]]
    case Collection(key, kind, items) => Chunks(kind, key, items, limit)
  }

  function DbCommands(es: Database, limit: nat): seq<Argv>
    requires limit > 0
  {
    if es == [] then [] else Commands(es[0], limit) + DbCommands(es[1..], limit)
  }

  /** One database; an empty one is passed over. */
  function Part(j: nat, es: Database, limit: nat): seq<Argv>
    requires limit > 0
  {
    if es == [] then [] else [[SELECT, Print(j)]] + DbCommands(es, limit)
  }

  /** The databases from number j on. */
  function PartsFrom(dbs: seq<Database>, j: nat, limit: nat): seq<Argv>
    requires limit > 0 && j <= |dbs|
    decreases |dbs| - j
  {
    if j == |dbs| then [] else Part(j, dbs[j], limit) + PartsFrom(dbs, j + 1, limit)
  }

  function SnapshotCommands(dbs: seq<Database>, limit: nat): seq<Argv>
    requires limit > 0
  {
    PartsFrom(dbs, 0, limit)
  }

  /** A database without keys leaves no trace, not even a SELECT. */
  lemma {:induction false} NothingForEmpty(dbs: seq<Database>, j: nat, limit: nat)
    requires limit > 0 && j <= |dbs| && forall k :: j <= k < |dbs| ==> dbs[k] == []
    ensures PartsFrom(dbs, j, limit) == []
    decreases |dbs| - j
  {
    if j < |dbs| {
      NothingForEmpty(dbs, j + 1, limit);
    }
  }

  // ---------- writing it ----------

  const SELECT_HEADER: bytes := [42, 50, 13, 10, 36, 54, 13, 10, 83, 69, 76, 69, 67, 84, 13, 10]
  const SET_HEADER: bytes := [42, 51, 13, 10, 36, 51, 13, 10, 83, 69, 84, 13, 10]

  lemma BulksFirst(argv: Argv)
    requires argv != []
    ensures Bulks(argv) == Bulk(argv[0]) + Bulks(argv[1..])
  {}

  lemma SelectWritten(number: bytes)
    ensures SELECT_HEADER + Bulk(number) == Multibulk([SELECT, number])
  {
    BulksOfTwo(SELECT, number);
    assert Print(2) == [50] && Print(6) == [54];
    assert Header(STAR, 2) + Bulk(SELECT) == SELECT_HEADER;
    Assoc(Header(STAR, 2), Bulk(SELECT), Bulk(number));
  }

  lemma SetWritten(key: bytes, text: bytes)
    ensures SET_HEADER + Bulk(key) + Bulk(text) == Multibulk([SET, key, text])
  {
    BulksFirst([SET, key, text]);
    assert [SET, key, text][1..] == [key, text];
    BulksOfTwo(key, text);
    assert Print(3) == [51];
    assert Header(STAR, 3) + Bulk(SET) == SET_HEADER;
    assert SET_HEADER + Bulk(key) + Bulk(text) == Header(STAR, 3) + (Bulk(SET) + (Bulk(key) + Bulk(text)));
  }

  /** The commands of one entry, by the type of its value. */
  method RewriteEntry(r: bytes, e: Entry) returns (out: bytes)
    requires Proper(e)
    ensures out == r + Log(Commands(e, 64))
  {
    match e
    case String(key, text) =>
      out := r + SET_HEADER + Bulk(key) + Bulk(text);
      SetWritten(key, text);
      LogOfOne([SET, key, text]);
      assert out == r + (SET_HEADER + Bulk(key) + Bulk(text));
    case Collection(key, kind, items) =>
      out := RewriteItems(r, kind, key, items, REDIS_AOF_REWRITE_ITEMS_PER_CMD);
  }

  lemma {:induction false} DbCommandsSnoc(es: Database, e: Entry, limit: nat)
    requires limit > 0
    ensures DbCommands(es + [e], limit) == DbCommands(es, limit) + Commands(e, limit)
    decreases es
  {
    if es == [] {
      assert ([] + [e])[1..] == [];
    } else {
      assert (es + [e])[0] == es[0] && (es + [e])[1..] == es[1..] + [e];
      DbCommandsSnoc(es[1..], e, limit);
    }
  }

  /** One turn of the outer loop. */
  method RewriteDatabase(r: bytes, j: nat, es: Database) returns (out: bytes)
    requires ProperDb(es)
    ensures out == r + Log(Part(j, es, REDIS_AOF_REWRITE_ITEMS_PER_CMD))
  {
    var limit := REDIS_AOF_REWRITE_ITEMS_PER_CMD;
    if |es| == 0 {
      assert r + [] == r;
      return r;
    }
    out := r + SELECT_HEADER + Bulk(Print(j));
    SelectWritten(Print(j));
    Assoc(r, SELECT_HEADER, Bulk(Print(j)));
    ghost var front := out;
    for i := 0 to |es|
      invariant out == front + Log(DbCommands(es[..i], limit))
    {
      out := RewriteEntry(out, es[i]);
      assert es[..i + 1] == es[..i] + [es[i]];
      DbCommandsSnoc(es[..i], es[i], limit);
      LogConcat(DbCommands(es[..i], limit), Commands(es[i], limit));
      Assoc(front, Log(DbCommands(es[..i], limit)), Log(Commands(es[i], limit)));
    }
    assert es[..|es|] == es;
    Assoc(r, Multibulk([SELECT, Print(j)]), Log(DbCommands(es, limit)));
    assert Part(j, es, limit)[1..] == DbCommands(es, limit);
  }

  /** rewriteAppendOnlyFile, as far as the snapshot goes. */
  method RewriteAppendOnlyFile(dbs: seq<Database>) returns (out: bytes)
    requires ProperDbs(dbs)
    ensures out == Log(SnapshotCommands(dbs, 64))
  {
    var limit := REDIS_AOF_REWRITE_ITEMS_PER_CMD;
    out := [];
    ghost var total := Log(PartsFrom(dbs, 0, limit));
    assert [] + total == total;
    for j := 0 to |dbs|
      invariant out + Log(PartsFrom(dbs, j, limit)) == total
    {
      LogConcat(Part(j, dbs[j], limit), PartsFrom(dbs, j + 1, limit));
      Assoc(out, Log(Part(j, dbs[j], limit)), Log(PartsFrom(dbs, j + 1, limit)));
      out := RewriteDatabase(out, j, dbs[j]);
    }
    assert out + [] == out;
  }

  // ---------- what it rebuilds ----------

  type Keyspace = map<int, Db>

  /** The contents of a database; those with no key are not in the keyspace. */
  function In(ks: Keyspace, j: int): Db {
    if j in ks then ks[j] else map[]
  }

  /** A command run in a database, which need not have held anything before, nor hold anything then. */
  function RunIn(ks: Keyspace, j: int, argv: Argv): Keyspace {
    var db := Exec(argv, In(ks, j));
    if db == map[] then ks - {j} else ks[j := db]
  }

  function PutEntries(db: Db, es: Database): Db
    requires forall i :: 0 <= i < |es| ==> Proper(es[i])
    decreases es
  {
    if es == [] then db
    else
      assert Proper(es[0]);
      PutEntries(db[es[0].key := Meaning(es[0])], es[1..])
  }

  /** What the database holds. */
  function Holding(es: Database): Db
    requires ProperDb(es)
  {
    PutEntries(map[], es)
  }

  /** What the databases hold, those that hold anything. */
  function Dataset(dbs: seq<Database>): Keyspace
    requires ProperDbs(dbs)
  {
    map j: int | 0 <= j < |dbs| && dbs[j] != [] :: Holding(dbs[j])
  }

  lemma {:induction false} PutEntriesHolds(db: Db, es: Database, key: bytes)
    requires ProperDb(es) && forall i :: 0 <= i < |es| ==> es[i].key !in db
    ensures key in PutEntries(db, es) <==> key in db || exists i :: 0 <= i < |es| && es[i].key == key
    ensures forall i :: 0 <= i < |es| && es[i].key == key ==>
      key in PutEntries(db, es) && PutEntries(db, es)[key] == Meaning(es[i])
    ensures key in db ==> key in PutEntries(db, es) && PutEntries(db, es)[key] == db[key]
    decreases es
  {
    if es != [] {
      PutEntriesHolds(db[es[0].key := Meaning(es[0])], es[1..], key);
      forall i | 0 <= i < |es| && es[i].key == key
        ensures key in PutEntries(db, es) && PutEntries(db, es)[key] == Meaning(es[i])
      {
        assert i > 0 ==> es[1..][i - 1] == es[i];
      }
      if i :| 0 <= i < |es[1..]| && es[1..][i].key == key {
        assert es[i + 1].key == key;
      }
    }
  }

  /** A database holds, under each of its keys, the value of that entry, and nothing else. */
  lemma HoldingIsEntries(es: Database, key: bytes)
    requires ProperDb(es)
    ensures key in Holding(es) <==> exists i :: 0 <= i < |es| && es[i].key == key
    ensures forall i :: 0 <= i < |es| && es[i].key == key ==> key in Holding(es) && Holding(es)[key] == Meaning(es[i])
  {
    PutEntriesHolds(map[], es, key);
  }

  lemma {:induction false} ExecAllConcat(a: seq<Argv>, b: seq<Argv>, db: Db)
    ensures ExecAll(a + b, db) == ExecAll(b, ExecAll(a, db))
    decreases a
  {
    if a == [] {
      assert a + b == b;
    } else {
      assert (a + b)[0] == a[0] && (a + b)[1..] == a[1..] + b;
      ExecAllConcat(a[1..], b, Exec(a[0], db));
    }
  }

  lemma SetRuns(key: bytes, text: bytes, db: Db)
    ensures Exec([SET, key, text], db) == db[key := Text(text)]
  {
    assert Lowered(SET) == [115, 101, 116];
    assert [SET, key, text][2..] == [text];
  }

  lemma CommandsRun(e: Entry, limit: nat, db: Db)
    requires limit > 0 && Proper(e) && e.key !in db
    ensures ExecAll(Commands(e, limit), db) == db[e.key := Meaning(e)]
  {
    match e
    case String(key, text) =>
      assert Commands(e, limit)[1..] == [];
      SetRuns(key, text, db);
    case Collection(key, kind, items) =>
      ChunksRun(kind, key, items, limit, db);
  }

  /** The commands of different keys do not disturb each other. */
  lemma {:induction false} DbCommandsRun(es: Database, limit: nat, db: Db)
    requires limit > 0 && ProperDb(es) && forall i :: 0 <= i < |es| ==> es[i].key !in db
    ensures ExecAll(DbCommands(es, limit), db) == PutEntries(db, es)
    decreases es
  {
    if es != [] {
      CommandsRun(es[0], limit, db);
      ExecAllConcat(Commands(es[0], limit), DbCommands(es[1..], limit), db);
      DbCommandsRun(es[1..], limit, db[es[0].key := Meaning(es[0])]);
    }
  }

  predicate NoneSelects(raw: seq<Argv>) {
    forall i :: 0 <= i < |raw| ==> !IsSelect(raw[i])
  }

  lemma {:induction false} ChunksLong(kind: Kind, key: bytes, items: seq<Item>, limit: nat)
    requires limit > 0 && Items(kind, items)
    ensures forall i :: 0 <= i < |Chunks(kind, key, items, limit)| ==> |Chunks(kind, key, items, limit)[i]| > 2
    decreases |items|
  {
    if items != [] {
      var n := Min(limit, |items|);
      FlatLength(kind, items[..n]);
      ChunksLong(kind, key, items[n..], limit);
    }
  }

  lemma {:induction false} DbCommandsSelectNone(es: Database, limit: nat)
    requires limit > 0 && ProperDb(es)
    ensures NoneSelects(DbCommands(es, limit))
    decreases es
  {
    if es != [] {
      if es[0].Collection? {
        ChunksLong(es[0].kind, es[0].key, es[0].items, limit);
      }
      DbCommandsSelectNone(es[1..], limit);
    }
  }

  /** The keyspace with the contents of one database replaced. */
  function WithDb(ks: Keyspace, j: int, db: Db): (r: Keyspace)
    ensures In(r, j) == db
  {
    if db == map[] then ks - {j} else ks[j := db]
  }

  /** No database in the keyspace is empty. */
  predicate NoneEmpty(ks: Keyspace) {
    forall j :: j in ks ==> ks[j] != map[]
  }

  lemma WithDbTwice(ks: Keyspace, j: int, a: Db, b: Db)
    ensures WithDb(WithDb(ks, j, a), j, b) == WithDb(ks, j, b)
    ensures NoneEmpty(ks) ==> NoneEmpty(WithDb(ks, j, a)) && WithDb(ks, j, In(ks, j)) == ks
  {}

  /** Commands other than SELECT run in the database selected before them. */
  lemma {:induction false} StaysInDatabase(raw: seq<Argv>, j: int, ks: Keyspace)
    requires NoneSelects(raw) && NoneEmpty(ks)
    ensures Selected(raw, j) == j
    ensures Replayed(RunIn, ks, Execute(raw, j)) == WithDb(ks, j, ExecAll(raw, In(ks, j)))
    decreases raw
  {
    if raw == [] {
      WithDbTwice(ks, j, map[], map[]);
    } else {
      var db := Exec(raw[0], In(ks, j));
      WithDbTwice(ks, j, db, ExecAll(raw[1..], db));
      assert Execute(raw, j) == [(j, raw[0])] + Execute(raw[1..], j);
      assert Execute(raw, j)[1..] == Execute(raw[1..], j);
      StaysInDatabase(raw[1..], j, WithDb(ks, j, db));
    }
  }

  /** The keyspace with one more database filled in. */
  function FilledOne(ks: Keyspace, es: Database, j: nat): Keyspace
    requires ProperDb(es)
  {
    if es == [] then ks else ks[j := Holding(es)]
  }

  lemma FilledOneKeeps(ks: Keyspace, es: Database, j: nat)
    requires ProperDb(es) && NoneEmpty(ks)
    ensures NoneEmpty(FilledOne(ks, es, j)) && (es != [] ==> Holding(es) != map[])
  {
    if es != [] {
      HoldingIsEntries(es, es[0].key);
    }
  }

  lemma PartRuns(j: nat, es: Database, limit: nat, ks: Keyspace, db: int)
    requires limit > 0 && ProperDb(es) && j !in ks && NoneEmpty(ks)
    ensures Replayed(RunIn, ks, Execute(Part(j, es, limit), db)) == FilledOne(ks, es, j)
  {
    if es != [] {
      var raw := DbCommands(es, limit);
      SelectIsSelect(j);
      assert Part(j, es, limit)[1..] == raw;
      DbCommandsRun(es, limit, map[]);
      DbCommandsSelectNone(es, limit);
      FilledOneKeeps(ks, es, j);
      StaysInDatabase(raw, j, ks);
    }
  }

  /** The dataset with the databases from number j on filled in. */
  function Filled(ks: Keyspace, dbs: seq<Database>, j: nat): Keyspace
    requires ProperDbs(dbs) && j <= |dbs|
    decreases |dbs| - j
  {
    if j == |dbs| then ks else Filled(FilledOne(ks, dbs[j], j), dbs, j + 1)
  }

  lemma {:induction false} FilledAt(ks: Keyspace, dbs: seq<Database>, j: nat, k: int)
    requires ProperDbs(dbs) && j <= |dbs|
    ensures k in Filled(ks, dbs, j) <==> k in ks || (j <= k < |dbs| && dbs[k] != [])
    ensures k in Filled(ks, dbs, j) ==>
      Filled(ks, dbs, j)[k] == if j <= k < |dbs| && dbs[k] != [] then Holding(dbs[k]) else ks[k]
    decreases |dbs| - j
  {
    if j < |dbs| {
      FilledAt(FilledOne(ks, dbs[j], j), dbs, j + 1, k);
    }
  }

  lemma FilledIsDataset(dbs: seq<Database>)
    requires ProperDbs(dbs)
    ensures Filled(map[], dbs, 0) == Dataset(dbs)
  {
    forall k ensures k in Filled(map[], dbs, 0) <==> k in Dataset(dbs) {
      FilledAt(map[], dbs, 0, k);
    }
    forall k | k in Dataset(dbs) ensures Filled(map[], dbs, 0)[k] == Dataset(dbs)[k] {
      FilledAt(map[], dbs, 0, k);
    }
  }

  /** Databases from number j on are not in the keyspace yet. */
  predicate NoneFrom(ks: Keyspace, j: int) {
    forall k :: k in ks ==> k < j
  }

  lemma {:induction false} PartsRun(dbs: seq<Database>, j: nat, limit: nat, ks: Keyspace, db: int)
    requires limit > 0 && ProperDbs(dbs) && j <= |dbs| && NoneEmpty(ks) && NoneFrom(ks, j)
    ensures Replayed(RunIn, ks, Execute(PartsFrom(dbs, j, limit), db)) == Filled(ks, dbs, j)
    decreases |dbs| - j
  {
    if j < |dbs| {
      var first, rest := Part(j, dbs[j], limit), PartsFrom(dbs, j + 1, limit);
      ExecuteConcat(first, rest, db);
      PartRuns(j, dbs[j], limit, ks, db);
      FilledOneKeeps(ks, dbs[j], j);
      ReplayedConcat(RunIn, ks, Execute(first, db), Execute(rest, Selected(first, db)));
      PartsRun(dbs, j + 1, limit, FilledOne(ks, dbs[j], j), Selected(first, db));
    }
  }

  // ---------- the text of it ----------

  predicate SizedEntry(e: Entry, limit: nat) {
    match e
    case String(key, text) => Fits(|key|) && Fits(|text|)
    case Collection(key, _, items) => Sized(key, items, limit)
  }

  /** Strings and numbers fit their C types. */
  predicate SizedDbs(dbs: seq<Database>, limit: nat) {
    |dbs| <= 0x8000_0000 && forall j, i :: 0 <= j < |dbs| && 0 <= i < |dbs[j]| ==> SizedEntry(dbs[j][i], limit)
  }

  lemma {:induction false} DbCommandsWritable(es: Database, limit: nat)
    requires limit > 0 && ProperDb(es) && forall i :: 0 <= i < |es| ==> SizedEntry(es[i], limit)
    ensures AllWritable(DbCommands(es, limit))
    decreases es
  {
    if es != [] {
      if es[0].Collection? {
        ChunksWritable(es[0].kind, es[0].key, es[0].items, limit);
      }
      DbCommandsWritable(es[1..], limit);
    }
  }

  lemma {:induction false} PartsWritable(dbs: seq<Database>, j: nat, limit: nat)
    requires limit > 0 && ProperDbs(dbs) && SizedDbs(dbs, limit) && j <= |dbs|
    ensures AllWritable(PartsFrom(dbs, j, limit))
    decreases |dbs| - j
  {
    if j < |dbs| {
      PrintFits(j);
      DbCommandsWritable(dbs[j], limit);
      PartsWritable(dbs, j + 1, limit);
    }
  }

  /** Loading the snapshot rebuilds every database, every key and every value, and nothing else. */
  lemma SnapshotRestores(dbs: seq<Database>, limit: nat)
    requires limit > 0 && ProperDbs(dbs) && SizedDbs(dbs, limit)
    ensures var l := Load(Log(SnapshotCommands(dbs, limit)));
      l.ending == Complete && Replayed(RunIn, map[], Execute(l.raw, 0)) == Dataset(dbs)
  {
    PartsWritable(dbs, 0, limit);
    LoadWhole(SnapshotCommands(dbs, limit));
    PartsRun(dbs, 0, limit, map[], 0);
    FilledIsDataset(dbs);
  }

  /**
   The file that a rewrite puts in place rebuilds the dataset there was at the
   fork, with every command fed since then run on it in its own database.
   */
  lemma InstalledFileRestores(es: seq<AofRewrite.Event>, dbs: seq<Database>, limit: nat, cs: seq<Command>)
    requires limit > 0 && ProperDbs(dbs) && SizedDbs(dbs, limit) && AllFeedable(cs)
    requires var snapshot := Log(SnapshotCommands(dbs, limit));
      && AofRewrite.Legal(AofRewrite.Forked(), es, snapshot)
      && AofRewrite.After(AofRewrite.Forked(), es, snapshot).installedFile.Some?
      && AofRewrite.After(AofRewrite.Forked(), es, snapshot).fed == Written(cs)
    requires forall i :: 0 <= i < |es| ==> es[i] != AofRewrite.ChildFinishes(true)
    ensures var snapshot := Log(SnapshotCommands(dbs, limit));
      var l := Load(AofRewrite.After(AofRewrite.Forked(), es, snapshot).installedFile.value);
      && l.ending == Complete
      && Replayed(RunIn, map[], Execute(l.raw, 0)) == Replayed(RunIn, Dataset(dbs), Runs(cs))
  {
    var raw := SnapshotCommands(dbs, limit);
    PartsWritable(dbs, 0, limit);
    AofRewrite.InstalledFileRuns(es, raw, cs);
    SnapshotRestores(dbs, limit);
    LoadWhole(raw);
    ReplayedConcat(RunIn, map[], Execute(raw, 0), Runs(cs));
  }
}
