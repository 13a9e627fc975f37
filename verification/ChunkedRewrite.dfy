/**
 Collections written out again when the append only file is rewritten (aof.c):
 one command for every few items, each declaring beforehand how many arguments
 it has.
 */
module ChunkedRewrite {
  import opened AofLog
  import opened Bytes
  import opened DataTypes
  import opened Decimal

  const REDIS_AOF_REWRITE_ITEMS_PER_CMD: nat := 64

  /** The commands that rebuild lists, sets, sorted sets and hashes. */
  datatype Kind = RPush | SAdd | ZAdd | HMSet

  function Name(kind: Kind): bytes {
    match kind
    case RPush => [82, 80, 85, 83, 72]
    case SAdd => [83, 65, 68, 68]
    case ZAdd => [90, 65, 68, 68]
    case HMSet => [72, 77, 83, 69, 84]
  }

  /** The arguments an item takes: an element; a score and a member; or a field and a value. */
  function Width(kind: Kind): nat {
    if kind == RPush || kind == SAdd then 1 else 2
  }

  type Item = seq<bytes>

  predicate Items(kind: Kind, items: seq<Item>) {
    forall i :: 0 <= i < |items| ==> |items[i]| == Width(kind)
  }

  function Flat(items: seq<Item>): Argv {
    if items == [] then [] else items[0] + Flat(items[1..])
  }

  function Min(a: nat, b: nat): nat {
    if a < b then a else b
  }

  /** The commands for the items: `limit` of them in each, and what is left in the last. */
  function Chunks(kind: Kind, key: bytes, items: seq<Item>, limit: nat): seq<Argv>
    requires limit > 0
    decreases |items|
  {
    if items == [] then []
    else
      var n := Min(limit, |items|);
      [[Name(kind), key] + Flat(items[..n])] + Chunks(kind, key, items[n..], limit)
  }

  // ---------- emitting ----------

  /** What is still to be written when `count` items of the current command have been. */
  function Rest(kind: Kind, key: bytes, items: seq<Item>, limit: nat, count: nat): bytes
    requires count < limit
  {
    if count == 0 then Log(Chunks(kind, key, items, limit))
    else
      var n := Min(limit - count, |items|);
      Bulks(Flat(items[..n])) + Log(Chunks(kind, key, items[n..], limit))
  }

  /** The same once the command has been opened. */
  function Opened(kind: Kind, key: bytes, items: seq<Item>, limit: nat, count: nat): bytes
    requires count < limit
  {
    var n := Min(limit - count, |items|);
    Bulks(Flat(items[..n])) + Log(Chunks(kind, key, items[n..], limit))
  }

  lemma {:induction false} FlatLength(kind: Kind, items: seq<Item>)
    requires Items(kind, items)
    ensures |Flat(items)| == |items| * Width(kind)
  {
    if items != [] {
      FlatLength(kind, items[1..]);
    }
  }

  lemma {:induction false} BulksConcat(a: Argv, b: Argv)
    ensures Bulks(a + b) == Bulks(a) + Bulks(b)
  {
    if a == [] {
      assert a + b == b;
    } else {
      assert (a + b)[0] == a[0] && (a + b)[1..] == a[1..] + b;
      BulksConcat(a[1..], b);
      Assoc(Bulk(a[0]), Bulks(a[1..]), Bulks(b));
    }
  }

  lemma BulksOfTwo(a: bytes, b: bytes)
    ensures Bulks([a, b]) == Bulk(a) + Bulk(b)
  {
    assert [a, b][1..] == [b] && [b][1..] == [];
    assert Bulks([b]) == Bulk(b) + [] == Bulk(b);
  }

  /** The count declared is the number of arguments that follow. */
  lemma CommandOpens(kind: Kind, key: bytes, items: seq<Item>, limit: nat)
    requires limit > 0 && items != [] && Items(kind, items)
    ensures Rest(kind, key, items, limit, 0)
         == Header(STAR, 2 + Min(limit, |items|) * Width(kind)) + Bulk(Name(kind)) + Bulk(key)
            + Opened(kind, key, items, limit, 0)
  {
    var n := Min(limit, |items|);
    var flat, after := Flat(items[..n]), Log(Chunks(kind, key, items[n..], limit));
    var argv := [Name(kind), key] + flat;
    FlatLength(kind, items[..n]);
    BulksConcat([Name(kind), key], flat);
    BulksOfTwo(Name(kind), key);
    var h := Header(STAR, |argv|);
    assert Rest(kind, key, items, limit, 0) == h + ((Bulk(Name(kind)) + Bulk(key)) + Bulks(flat)) + after;
    Regroup(h, Bulk(Name(kind)), Bulk(key), Bulks(flat), after);
  }

  lemma Regroup(h: bytes, a: bytes, b: bytes, c: bytes, d: bytes)
    ensures h + ((a + b) + c) + d == h + a + b + (c + d)
  {}

  lemma ItemWritten(kind: Kind, key: bytes, items: seq<Item>, limit: nat, count: nat)
    requires count < limit && items != []
    ensures Opened(kind, key, items, limit, count)
         == Bulks(items[0]) + Rest(kind, key, items[1..], limit, if count + 1 == limit then 0 else count + 1)
  {
    var n := Min(limit - count, |items|);
    var after := Log(Chunks(kind, key, items[n..], limit));
    assert items[..n][1..] == items[1..][..n - 1] && items[1..][n - 1..] == items[n..];
    BulksConcat(items[0], Flat(items[1..][..n - 1]));
    Assoc(Bulks(items[0]), Bulks(Flat(items[1..][..n - 1])), after);
    if count + 1 == limit {
      assert Flat(items[1..][..0]) == [] && [] + after == after;
    }
  }

  /** What is written before the first item of a command: `left` items are to come in all. */
  method OpenCommand(r: bytes, kind: Kind, key: bytes, left: nat, limit: nat, ghost items: seq<Item>)
    returns (out: bytes)
    requires limit > 0 && items != [] && Items(kind, items) && left == |items|
    ensures out + Opened(kind, key, items, limit, 0) == r + Rest(kind, key, items, limit, 0)
  {
    var cmdItems := if left > limit then limit else left;
    var header := Header(STAR, 2 + cmdItems * Width(kind));
    out := r + header + Bulk(Name(kind)) + Bulk(key);
    CommandOpens(kind, key, items, limit);
    Spread(r, header, Bulk(Name(kind)), Bulk(key), Opened(kind, key, items, limit, 0));
  }

  /** One item, and the counter wrapped if that fills the command. */
  method WriteItem(r: bytes, kind: Kind, key: bytes, item: Item, limit: nat, count: nat, ghost items: seq<Item>)
    returns (out: bytes, now: nat)
    requires count < limit && items != [] && item == items[0]
    ensures now < limit && out + Rest(kind, key, items[1..], limit, now) == r + Opened(kind, key, items, limit, count)
  {
    ItemWritten(kind, key, items, limit, count);
    out := r + Bulks(item);
    now := count + 1;
    if now == limit { now := 0; }
    Assoc(r, Bulks(item), Rest(kind, key, items[1..], limit, now));
  }

  /** The loop the four rewrite functions share: `count` wraps at the limit, `left` counts down the collection. */
  method RewriteItems(r: bytes, kind: Kind, key: bytes, items: seq<Item>, limit: nat) returns (out: bytes)
    requires limit > 0 && Items(kind, items)
    ensures out == r + Log(Chunks(kind, key, items, limit))
  {
    out := r;
    var count: nat, left := 0, |items|;
    ghost var rest := items;
    ghost var total := out + Rest(kind, key, items, limit, 0);
    for i := 0 to |items|
      invariant left == |rest| == |items| - i && rest == items[i..] && Items(kind, rest) && count < limit
      invariant out + Rest(kind, key, rest, limit, count) == total
    {
      if count == 0 {
        out := OpenCommand(out, kind, key, left, limit, rest);
      }
      assert out + Opened(kind, key, rest, limit, count) == total;
      out, count := WriteItem(out, kind, key, items[i], limit, count, rest);
      left, rest := left - 1, rest[1..];
    }
    assert rest == [];
    NothingLeft(kind, key, limit, count);
    assert out + [] == out;
  }

  lemma NothingLeft(kind: Kind, key: bytes, limit: nat, count: nat)
    requires count < limit
    ensures Rest(kind, key, [], limit, count) == []
  {}

  lemma Spread(r: bytes, h: bytes, a: bytes, b: bytes, rest: bytes)
    ensures r + (h + a + b + rest) == (r + h + a + b) + rest
  {}

  // ---------- replaying ----------

  predicate OfKind(kind: Kind, v: Value) {
    match kind case RPush => v.List? case SAdd => v.Set? case ZAdd => v.ZSet? case HMSet => v.Hash?
  }

  function Empty(kind: Kind): (v: Value)
    ensures OfKind(kind, v)
  {
    match kind
    case RPush => List([]) case SAdd => Set({}) case ZAdd => ZSet(map[]) case HMSet => Hash(map[])
  }

  /** A value with more items in it. */
  function AddItems(kind: Kind, v: Value, items: seq<Item>): (w: Value)
    requires OfKind(kind, v)
    ensures OfKind(kind, w)
  {
    match kind
    case RPush => List(v.elements + Flat(items))
    case SAdd => Set(v.members + set a | a in Flat(items))
    case ZAdd => ZSet(Scored(v.scores, Flat(items)))
    case HMSet => Hash(Fielded(v.fields, Flat(items)))
  }

  lemma {:induction false} FlatConcat(a: seq<Item>, b: seq<Item>)
    ensures Flat(a + b) == Flat(a) + Flat(b)
  {
    if a == [] {
      assert a + b == b;
    } else {
      assert (a + b)[0] == a[0] && (a + b)[1..] == a[1..] + b;
      FlatConcat(a[1..], b);
    }
  }

  lemma AddItemsConcat(kind: Kind, v: Value, a: seq<Item>, b: seq<Item>)
    requires OfKind(kind, v) && Items(kind, a)
    ensures AddItems(kind, v, a + b) == AddItems(kind, AddItems(kind, v, a), b)
  {
    FlatConcat(a, b);
    FlatLength(kind, a);
    match kind
    case RPush => assert v.elements + (Flat(a) + Flat(b)) == v.elements + Flat(a) + Flat(b);
    case SAdd =>
      assert v.members + (set e | e in Flat(a) + Flat(b))
          == v.members + (set e | e in Flat(a)) + set e | e in Flat(b);
    case ZAdd => ScoredConcat(v.scores, Flat(a), Flat(b));
    case HMSet => ScoredConcat(v.fields, Flat(a), Flat(b));
  }

  /** The value at the key, or an empty one of the kind. */
  function Present(kind: Kind, key: bytes, db: Db): (v: Value)
    requires key in db ==> OfKind(kind, db[key])
    ensures OfKind(kind, v)
  {
    if key in db then db[key] else Empty(kind)
  }

  /** The names written are the names of the commands that add such items. */
  lemma NameIsKnown(kind: Kind)
    ensures Lookup(Name(kind))
         == match kind case RPush => RPushVerb case SAdd => SAddVerb case ZAdd => ZAddVerb case HMSet => HMSetVerb
  {
    var name := Lowered(Name(kind));
    match kind
    case RPush => assert name == [114, 112, 117, 115, 104];
    case SAdd => assert name == [115, 97, 100, 100];
    case ZAdd => assert name == [122, 97, 100, 100];
    case HMSet => assert name == [104, 109, 115, 101, 116];
  }

  lemma ExecNamed(kind: Kind, key: bytes, args: Argv, db: Db)
    requires args != []
    ensures Exec([Name(kind), key] + args, db)
         == match kind
            case RPush => ExecPush(key, args, db, true)
            case SAdd => ExecSAdd(key, args, db)
            case ZAdd => ExecZAdd(key, args, db)
            case HMSet => ExecHMSet(key, args, db)
  {
    assert ([Name(kind), key] + args)[2..] == args;
    NameIsKnown(kind);
  }

  lemma ChunkRuns(kind: Kind, key: bytes, items: seq<Item>, db: Db)
    requires Items(kind, items) && items != [] && (key in db ==> OfKind(kind, db[key]))
    ensures Exec([Name(kind), key] + Flat(items), db) == db[key := AddItems(kind, Present(kind, key, db), items)]
  {
    FlatLength(kind, items);
    ExecNamed(kind, key, Flat(items), db);
  }

  lemma ExecFirst(argv: Argv, rest: seq<Argv>, db: Db)
    ensures ExecAll([argv] + rest, db) == ExecAll(rest, Exec(argv, db))
  {
    assert ([argv] + rest)[1..] == rest;
  }

  lemma ChunksFirst(kind: Kind, key: bytes, items: seq<Item>, limit: nat)
    requires limit > 0 && items != []
    ensures var n := Min(limit, |items|);
      0 < n <= |items| && Chunks(kind, key, items, limit)
      == [[Name(kind), key] + Flat(items[..n])] + Chunks(kind, key, items[n..], limit)
  {}

  /** Adding items to the value at a key in two goes. */
  lemma AddedInTwo(kind: Kind, key: bytes, a: seq<Item>, b: seq<Item>, db: Db, between: Db)
    requires Items(kind, a) && (key in db ==> OfKind(kind, db[key]))
    requires between == db[key := AddItems(kind, Present(kind, key, db), a)]
    ensures between[key := AddItems(kind, Present(kind, key, between), b)]
         == db[key := AddItems(kind, Present(kind, key, db), a + b)]
  {
    AddItemsConcat(kind, Present(kind, key, db), a, b);
  }

  lemma OneChunkMore(m: nat, limit: nat)
    ensures (m + 1) * limit == m * limit + limit && (m > 0 ==> (m - 1) * limit == m * limit - limit)
  {}

  /** There are as few commands as the limit allows. */
  lemma {:induction false} ChunksAreFew(kind: Kind, key: bytes, items: seq<Item>, limit: nat)
    requires limit > 0
    ensures var n := |Chunks(kind, key, items, limit)|;
      |items| <= n * limit && (n > 0 ==> (n - 1) * limit < |items|)
    decreases |items|
  {
    if items != [] {
      var n := Min(limit, |items|);
      ChunksFirst(kind, key, items, limit);
      ChunksAreFew(kind, key, items[n..], limit);
      OneChunkMore(|Chunks(kind, key, items[n..], limit)|, limit);
    }
  }

  /** The chunks, run in turn, add every item, in order, to the value at the key. */
  lemma {:induction false} ChunksRun(kind: Kind, key: bytes, items: seq<Item>, limit: nat, db: Db)
    requires limit > 0 && Items(kind, items) && items != [] && (key in db ==> OfKind(kind, db[key]))
    ensures ExecAll(Chunks(kind, key, items, limit), db) == db[key := AddItems(kind, Present(kind, key, db), items)]
    decreases |items|
  {
    var n := Min(limit, |items|);
    var front, rest := items[..n], items[n..];
    var between := db[key := AddItems(kind, Present(kind, key, db), front)];
    assert items == front + rest;
    ChunksFirst(kind, key, items, limit);
    ChunkRuns(kind, key, front, db);
    ExecFirst([Name(kind), key] + Flat(front), Chunks(kind, key, rest, limit), db);
    AddedInTwo(kind, key, front, rest, db, between);
    if rest == [] {
      assert front == items;
    } else {
      ChunksRun(kind, key, rest, limit, between);
    }
  }

  // ---------- the four types ----------

  predicate Sized(key: bytes, items: seq<Item>, limit: nat) {
    && Fits(|key|) && FitsInt(2 + 2 * limit)
    && forall i, k :: 0 <= i < |items| && 0 <= k < |items[i]| ==> Fits(|items[i][k]|)
  }

  lemma {:induction false} FlatFits(kind: Kind, items: seq<Item>)
    requires Items(kind, items)
    requires forall i, k :: 0 <= i < |items| && 0 <= k < |items[i]| ==> Fits(|items[i][k]|)
    ensures forall i :: 0 <= i < |Flat(items)| ==> Fits(|Flat(items)[i]|)
  {
    if items != [] {
      FlatFits(kind, items[1..]);
    }
  }

  lemma ChunkWritable(kind: Kind, key: bytes, items: seq<Item>, limit: nat)
    requires Items(kind, items) && Sized(key, items, limit) && |items| <= limit
    ensures Writable([Name(kind), key] + Flat(items)) && |[Name(kind), key] + Flat(items)| <= 2 + limit * Width(kind)
  {
    FlatFits(kind, items);
    FlatLength(kind, items);
  }

  lemma {:induction false} ChunksWritable(kind: Kind, key: bytes, items: seq<Item>, limit: nat)
    requires limit > 0 && Items(kind, items) && Sized(key, items, limit)
    ensures AllWritable(Chunks(kind, key, items, limit))
    ensures forall c :: c in Chunks(kind, key, items, limit) ==> |c| <= 2 + limit * Width(kind)
    decreases |items|
  {
    if items != [] {
      var n := Min(limit, |items|);
      ChunkWritable(kind, key, items[..n], limit);
      ChunksWritable(kind, key, items[n..], limit);
    }
  }

  /**
   Loading what was emitted, and running it where the key does not exist,
   leaves the rebuilt value there and nothing else.
   */
  lemma Rebuilds(kind: Kind, key: bytes, items: seq<Item>, limit: nat, db: Db)
    requires limit > 0 && Items(kind, items) && items != [] && Sized(key, items, limit) && key !in db
    ensures var l := Load(Log(Chunks(kind, key, items, limit)));
      l.ending == Complete && ExecAll(l.raw, db) == db[key := AddItems(kind, Empty(kind), items)]
  {
    ChunksWritable(kind, key, items, limit);
    LoadWhole(Chunks(kind, key, items, limit));
    ChunksRun(kind, key, items, limit, db);
  }

  function Singles(elements: seq<bytes>): (items: seq<Item>)
    ensures |items| == |elements| && forall i :: 0 <= i < |items| ==> items[i] == [elements[i]]
  {
    seq(|elements|, i requires 0 <= i < |elements| => [elements[i]])
  }

  /** rewriteListObject, and likewise the others, at the limit the server is built with. */
  method RewriteListObject(r: bytes, key: bytes, elements: seq<bytes>) returns (out: bytes)
    ensures out == r + Log(Chunks(RPush, key, Singles(elements), 64))
  {
    out := RewriteItems(r, RPush, key, Singles(elements), REDIS_AOF_REWRITE_ITEMS_PER_CMD);
  }

  method RewriteSetObject(r: bytes, key: bytes, elements: seq<bytes>) returns (out: bytes)
    ensures out == r + Log(Chunks(SAdd, key, Singles(elements), 64))
  {
    out := RewriteItems(r, SAdd, key, Singles(elements), REDIS_AOF_REWRITE_ITEMS_PER_CMD);
  }

  method RewriteSortedSetObject(r: bytes, key: bytes, pairs: seq<(bytes, bytes)>) returns (out: bytes)
    ensures out == r + Log(Chunks(ZAdd, key, Scores(pairs), 64))
  {
    out := RewriteItems(r, ZAdd, key, Scores(pairs), REDIS_AOF_REWRITE_ITEMS_PER_CMD);
  }

  method RewriteHashObject(r: bytes, key: bytes, pairs: seq<(bytes, bytes)>) returns (out: bytes)
    ensures out == r + Log(Chunks(HMSet, key, Fields(pairs), 64))
  {
    out := RewriteItems(r, HMSet, key, Fields(pairs), REDIS_AOF_REWRITE_ITEMS_PER_CMD);
  }

  /** Every pair of the map, each once or more, and nothing else. */
  predicate Enumerates(pairs: seq<(bytes, bytes)>, m: map<bytes, bytes>) {
    && (forall i :: 0 <= i < |pairs| ==> pairs[i].0 in m && m[pairs[i].0] == pairs[i].1)
    && (forall k :: k in m ==> (k, m[k]) in pairs)
  }

  lemma {:induction false} FlatSingles(elements: seq<bytes>)
    ensures Flat(Singles(elements)) == elements
  {
    if elements != [] {
      assert Singles(elements)[1..] == Singles(elements[1..]);
      FlatSingles(elements[1..]);
    }
  }

  function Fields(pairs: seq<(bytes, bytes)>): (items: seq<Item>)
    ensures |items| == |pairs| && forall i :: 0 <= i < |items| ==> items[i] == [pairs[i].0, pairs[i].1]
  {
    seq(|pairs|, i requires 0 <= i < |pairs| => [pairs[i].0, pairs[i].1])
  }

  function Scores(pairs: seq<(bytes, bytes)>): (items: seq<Item>)
    ensures |items| == |pairs| && forall i :: 0 <= i < |items| ==> items[i] == [pairs[i].1, pairs[i].0]
  {
    seq(|pairs|, i requires 0 <= i < |pairs| => [pairs[i].1, pairs[i].0])
  }

  function PutAll(m: map<bytes, bytes>, pairs: seq<(bytes, bytes)>): map<bytes, bytes>
    decreases pairs
  {
    if pairs == [] then m else PutAll(m[pairs[0].0 := pairs[0].1], pairs[1..])
  }

  lemma {:induction false} PairsPut(v: map<bytes, bytes>, pairs: seq<(bytes, bytes)>)
    ensures Scored(v, Flat(Scores(pairs))) == PutAll(v, pairs)
    ensures Fielded(v, Flat(Fields(pairs))) == PutAll(v, pairs)
    decreases pairs
  {
    if pairs != [] {
      assert Fields(pairs)[1..] == Fields(pairs[1..]) && Scores(pairs)[1..] == Scores(pairs[1..]);
      assert Flat(Fields(pairs))[2..] == Flat(Fields(pairs[1..]));
      assert Flat(Scores(pairs))[2..] == Flat(Scores(pairs[1..]));
      PairsPut(v[pairs[0].0 := pairs[0].1], pairs[1..]);
    }
  }

  lemma {:induction false} PutAllOf(v: map<bytes, bytes>, pairs: seq<(bytes, bytes)>, m: map<bytes, bytes>)
    requires forall i :: 0 <= i < |pairs| ==> pairs[i].0 in m && m[pairs[i].0] == pairs[i].1
    requires forall k :: k in v ==> k in m && m[k] == v[k]
    ensures forall k :: k in PutAll(v, pairs) <==> k in v || exists i :: 0 <= i < |pairs| && pairs[i].0 == k
    ensures forall k :: k in PutAll(v, pairs) ==> k in m && m[k] == PutAll(v, pairs)[k]
    decreases pairs
  {
    if pairs != [] {
      var u := v[pairs[0].0 := pairs[0].1];
      PutAllOf(u, pairs[1..], m);
      forall k ensures k in PutAll(v, pairs) <==> k in v || exists i :: 0 <= i < |pairs| && pairs[i].0 == k {
        if i :| 0 <= i < |pairs| && pairs[i].0 == k {
          assert i > 0 ==> pairs[1..][i - 1].0 == k;
        }
        if i :| 0 <= i < |pairs[1..]| && pairs[1..][i].0 == k {
          assert pairs[i + 1].0 == k;
        }
      }
    }
  }

  lemma PutAllEnumerated(pairs: seq<(bytes, bytes)>, m: map<bytes, bytes>)
    requires Enumerates(pairs, m)
    ensures PutAll(map[], pairs) == m
  {
    PutAllOf(map[], pairs, m);
    forall k | k in m ensures k in PutAll(map[], pairs) {
      assert (k, m[k]) in pairs;
    }
  }

  /** Rewriting keeps every list, set, sorted set and hash, whatever the limit per command. */
  lemma RewriteKeepsLists(key: bytes, elements: seq<bytes>, limit: nat, db: Db)
    requires limit > 0 && elements != [] && Sized(key, Singles(elements), limit) && key !in db
    ensures ExecAll(Load(Log(Chunks(RPush, key, Singles(elements), limit))).raw, db) == db[key := List(elements)]
  {
    Rebuilds(RPush, key, Singles(elements), limit, db);
    FlatSingles(elements);
    assert [] + elements == elements;
  }

  lemma RewriteKeepsSets(key: bytes, elements: seq<bytes>, limit: nat, db: Db)
    requires limit > 0 && elements != [] && Sized(key, Singles(elements), limit) && key !in db
    ensures ExecAll(Load(Log(Chunks(SAdd, key, Singles(elements), limit))).raw, db)
         == db[key := Set(set e | e in elements)]
  {
    Rebuilds(SAdd, key, Singles(elements), limit, db);
    FlatSingles(elements);
    assert {} + (set e | e in elements) == set e | e in elements;
  }

  lemma RewriteKeepsSortedSets(key: bytes, pairs: seq<(bytes, bytes)>, m: map<bytes, bytes>, limit: nat, db: Db)
    requires limit > 0 && pairs != [] && Enumerates(pairs, m) && Sized(key, Scores(pairs), limit) && key !in db
    ensures ExecAll(Load(Log(Chunks(ZAdd, key, Scores(pairs), limit))).raw, db) == db[key := ZSet(m)]
  {
    Rebuilds(ZAdd, key, Scores(pairs), limit, db);
    PairsPut(map[], pairs);
    PutAllEnumerated(pairs, m);
  }

  lemma RewriteKeepsHashes(key: bytes, pairs: seq<(bytes, bytes)>, m: map<bytes, bytes>, limit: nat, db: Db)
    requires limit > 0 && pairs != [] && Enumerates(pairs, m) && Sized(key, Fields(pairs), limit) && key !in db
    ensures ExecAll(Load(Log(Chunks(HMSet, key, Fields(pairs), limit))).raw, db) == db[key := Hash(m)]
  {
    Rebuilds(HMSet, key, Fields(pairs), limit, db);
    PairsPut(map[], pairs);
    PutAllEnumerated(pairs, m);
  }
}
