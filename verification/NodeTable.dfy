/**
 The slots and configEpochs of the node table as cluster.c prints them, for
 CLUSTER NODES and nodes.conf, and as it loads them from nodes.conf.
 */
module NodeTable {
  import opened Bitmap
  import opened Bytes
  import opened ClusterNodes
  import opened Decimal
  import opened OptionType
  import opened SlotIndex

  /** Slots from start to stop, both included. */
  datatype Range = Range(start: nat, stop: nat)

  type SlotMap = b: seq<bv8> | |b| == BITMAP_BYTES witness seq(BITMAP_BYTES, _ => 0)

  predicate Served(b: SlotMap, j: nat) {
    j < SLOTS && TestBit(b, j)
  }

  // ---------- printing ----------

  function Token(r: Range): bytes {
    if r.start == r.stop then Print(r.start) else Print(r.start) + [MINUS] + Print(r.stop)
  }

  /** One slot is its number; several are the first and the last, with a '-' between them. */
  lemma TokenSpelled(r: Range)
    ensures Token(r) == if r.start == r.stop then Print(r.start) else Print(r.start) + [45] + Print(r.stop)
  {}

  function Tokens(rs: seq<Range>): (ts: seq<bytes>)
    ensures |ts| == |rs| && forall i :: 0 <= i < |rs| ==> ts[i] == Token(rs[i])
  {
    seq(|rs|, i requires 0 <= i < |rs| => Token(rs[i]))
  }

  lemma OneMoreToken(rs: seq<Range>, r: Range)
    ensures Tokens(rs + [r]) == Tokens(rs) + [Token(r)]
  {}

  /** A run of served slots that cannot be made longer. */
  ghost predicate Maximal(b: SlotMap, r: Range) {
    && r.start <= r.stop < SLOTS
    && (forall j :: r.start <= j <= r.stop ==> Served(b, j))
    && (r.start == 0 || !Served(b, r.start - 1))
    && !Served(b, r.stop + 1)
  }

  ghost predicate Ascending(rs: seq<Range>) {
    forall i, k :: 0 <= i < k < |rs| ==> rs[i].stop + 1 < rs[k].start
  }

  ghost predicate Within(rs: seq<Range>, j: nat) {
    exists i :: 0 <= i < |rs| && rs[i].start <= j <= rs[i].stop
  }

  /** Maximal ranges, ascending and apart, that hold every served slot below `upTo`. */
  ghost predicate Describes(b: SlotMap, rs: seq<Range>, upTo: nat) {
    && (forall i :: 0 <= i < |rs| ==> Maximal(b, rs[i]) && rs[i].stop < upTo)
    && Ascending(rs)
    && (forall j: nat :: j < upTo && Served(b, j) ==> Within(rs, j))
  }

  lemma OneMoreRange(b: SlotMap, rs: seq<Range>, start: nat, j: nat)
    requires Describes(b, rs, start) && start < j <= SLOTS && Maximal(b, Range(start, j - 1))
    ensures Describes(b, rs + [Range(start, j - 1)], j)
  {
    var ss := rs + [Range(start, j - 1)];
    assert ss[|rs|] == Range(start, j - 1);
    forall i | 0 <= i < |rs| ensures rs[i].stop + 1 < start {
      assert Maximal(b, rs[i]) && !Served(b, rs[i].stop + 1) && Served(b, start);
    }
    forall k: nat | k < j && Served(b, k) ensures Within(ss, k) {
      if k < start {
        var i :| 0 <= i < |rs| && rs[i].start <= k <= rs[i].stop;
        assert ss[i] == rs[i];
      }
    }
  }

  /** Inside a run that began at `start`. */
  ghost predicate InRun(b: SlotMap, rs: seq<Range>, start: int, j: nat) {
    && 0 <= start < j
    && Describes(b, rs, start) && (start == 0 || !Served(b, start - 1))
    && forall k :: start <= k < j ==> Served(b, k)
  }

  /** Between runs. */
  ghost predicate BetweenRuns(b: SlotMap, rs: seq<Range>, j: nat) {
    Describes(b, rs, j) && (0 < j < SLOTS ==> !Served(b, j - 1))
  }

  lemma FreeSlot(b: SlotMap, rs: seq<Range>, j: nat)
    requires Describes(b, rs, j) && !Served(b, j)
    ensures BetweenRuns(b, rs, j + 1)
  {
    forall k: nat | k < j + 1 && Served(b, k) ensures Within(rs, k) {
      assert k < j;
    }
  }

  lemma RunBegins(b: SlotMap, rs: seq<Range>, j: nat)
    requires BetweenRuns(b, rs, j) && Served(b, j)
    ensures InRun(b, rs, j, j + 1)
  {}

  lemma RunGoesOn(b: SlotMap, rs: seq<Range>, start: int, j: nat)
    requires InRun(b, rs, start, j) && Served(b, j)
    ensures InRun(b, rs, start, j + 1)
  {}

  /** The run from `start` ends before j, a free slot or the end of the bitmap. */
  lemma RunEnds(b: SlotMap, rs: seq<Range>, start: nat, j: nat)
    requires InRun(b, rs, start, j) && j <= SLOTS && !Served(b, j)
    ensures BetweenRuns(b, rs + [Range(start, j - 1)], if j < SLOTS then j + 1 else SLOTS)
  {
    OneMoreRange(b, rs, start, j);
    if j < SLOTS {
      FreeSlot(b, rs + [Range(start, j - 1)], j);
    }
  }

  /** The tokens are the maximal runs of served slots, in ascending order, and no run is missing. */
  ghost predicate PrintsAs(b: SlotMap, tokens: seq<bytes>) {
    exists rs :: tokens == Tokens(rs) && Describes(b, rs, SLOTS)
  }

  /** One run, as a number or as two. */
  method PrintRange(tokens: seq<bytes>, start: nat, stop: nat, ghost rs: seq<Range>) returns (more: seq<bytes>)
    requires tokens == Tokens(rs)
    ensures more == Tokens(rs + [Range(start, stop)])
  {
    OneMoreToken(rs, Range(start, stop));
    if start == stop {
      more := tokens + [Print(start)];
    } else {
      more := tokens + [Print(start) + [MINUS] + Print(stop)];
    }
  }

  /** Where the loop stands: `start` is -1 outside a run; beyond the last slot there is no run. */
  ghost predicate Printing(b: SlotMap, tokens: seq<bytes>, rs: seq<Range>, start: int, j: nat) {
    && tokens == Tokens(rs) && j <= SLOTS + 1 && start >= -1
    && if start == -1 then BetweenRuns(b, rs, if j < SLOTS then j else SLOTS)
       else j < SLOTS && InRun(b, rs, start, j)
  }

  /** The loop of clusterGenNodeDescription over the slots. */
  method PrintSlots(b: SlotMap) returns (tokens: seq<bytes>)
    ensures PrintsAs(b, tokens)
  {
    tokens := [];
    ghost var rs := [];
    var start := -1;
    var j: nat := 0;
    while j < SLOTS
      invariant Printing(b, tokens, rs, start, j)
      decreases SLOTS - j
    {
      tokens, start, j, rs := PrintSlot(b, tokens, start, j, rs);
    }
  }

  /** One turn of it. */
  method PrintSlot(b: SlotMap, before: seq<bytes>, start0: int, slot: nat, ghost rs0: seq<Range>)
    returns (tokens: seq<bytes>, start: int, j: nat, ghost rs: seq<Range>)
    requires slot < SLOTS && Printing(b, before, rs0, start0, slot)
    ensures j > slot && Printing(b, tokens, rs, start, j)
  {
    tokens, start, j, rs := before, start0, slot, rs0;
    var bit := TestBit(b, j);
    assert bit == Served(b, j);
    if bit {
      if start == -1 {
        RunBegins(b, rs, j);
        start := j;
      } else {
        RunGoesOn(b, rs, start, j);
      }
    } else if start == -1 {
      FreeSlot(b, rs, j);
    }
    if start != -1 && (!bit || j == SLOTS - 1) {
      tokens, j, rs := PrintRun(b, tokens, start, j, bit, rs);
      start := -1;
    }
    j := j + 1;
  }

  /** The run from `start` is over, or goes on to the last slot. */
  method PrintRun(b: SlotMap, before: seq<bytes>, start: int, slot: nat, bit: bool, ghost rs0: seq<Range>)
    returns (tokens: seq<bytes>, j: nat, ghost rs: seq<Range>)
    requires slot < SLOTS && bit == Served(b, slot) && (bit ==> slot == SLOTS - 1)
    requires before == Tokens(rs0) && InRun(b, rs0, start, if bit then slot + 1 else slot)
    ensures j >= slot && Printing(b, tokens, rs, -1, j + 1)
  {
    j := slot;
    if bit && j == SLOTS - 1 { j := j + 1; }
    RunEnds(b, rs0, start, j);
    tokens := PrintRange(before, start, j - 1, rs0);
    rs := rs0 + [Range(start, j - 1)];
  }

  // ---------- loading ----------

  /** strchr: the index of the first '-', or the length. */
  function Dash(s: bytes): (i: nat)
    ensures i <= |s|
  {
    if s == [] || s[0] == MINUS then 0 else 1 + Dash(s[1..])
  }

  function Start(token: bytes): int {
    Atoi(token[..Dash(token)])
  }

  function Stop(token: bytes): int {
    if Dash(token) < |token| then Atoi(token[Dash(token) + 1..]) else Atoi(token)
  }

  ghost predicate InTokens(tokens: seq<bytes>, j: int) {
    exists i :: 0 <= i < |tokens| && Start(tokens[i]) <= j <= Stop(tokens[i])
  }

  /** The free slots that the tokens name bound to n. */
  ghost function Bound(slots: Table, n: ClusterNode, tokens: seq<bytes>): (t: Table)
    ensures |t| == |slots|
    ensures forall j :: 0 <= j < |slots| ==> t[j] == if slots[j] == null && InTokens(tokens, j) then n else slots[j]
  {
    seq(|slots|, j requires 0 <= j < |slots| => if slots[j] == null && InTokens(tokens, j) then n else slots[j])
  }

  lemma BoundOneMore(slots: Table, n: ClusterNode, tokens: seq<bytes>, i: nat)
    requires i < |tokens|
    ensures Filled(Bound(slots, n, tokens[..i]), n, Start(tokens[i]), Stop(tokens[i]) + 1)
         == Bound(slots, n, tokens[..i + 1])
  {
    forall j ensures InTokens(tokens[..i + 1], j)
      <==> InTokens(tokens[..i], j) || Start(tokens[i]) <= j <= Stop(tokens[i])
    {
      InTokensSnoc(tokens, i, j);
    }
  }

  /** The part of clusterLoadConfig that reads the slots of one node. */
  method LoadSlots(t: SlotTable, n: ClusterNode, tokens: seq<bytes>)
    requires t.Valid() && n in t.nodes
    requires forall i :: 0 <= i < |tokens| ==> 0 <= Start(tokens[i]) && Stop(tokens[i]) < SLOTS
    modifies t`slots, t.nodes`slots, t.nodes`numslots
    ensures t.Valid() && t.slots == Bound(old(t.slots), n, tokens)
  {
    for i := 0 to |tokens|
      invariant t.Valid() && t.slots == Bound(old(t.slots), n, tokens[..i])
    {
      AddRange(t, n, Start(tokens[i]), Stop(tokens[i]));
      BoundOneMore(old(t.slots), n, tokens, i);
    }
    assert tokens[..|tokens|] == tokens;
  }

  lemma InTokensSnoc(tokens: seq<bytes>, i: nat, j: int)
    requires i < |tokens|
    ensures InTokens(tokens[..i + 1], j)
            <==> InTokens(tokens[..i], j) || Start(tokens[i]) <= j <= Stop(tokens[i])
  {
    assert tokens[..i + 1] == tokens[..i] + [tokens[i]];
    if InTokens(tokens[..i], j) {
      var k :| 0 <= k < i && Start(tokens[..i][k]) <= j <= Stop(tokens[..i][k]);
      assert tokens[..i + 1][k] == tokens[k];
    }
    if Start(tokens[i]) <= j <= Stop(tokens[i]) {
      assert tokens[..i + 1][i] == tokens[i];
    }
    if InTokens(tokens[..i + 1], j) {
      var k :| 0 <= k <= i && Start(tokens[..i + 1][k]) <= j <= Stop(tokens[..i + 1][k]);
      assert k < i ==> tokens[..i][k] == tokens[k];
    }
  }

  /** The free slots from `start` up to, not including, `end` bound to n. */
  ghost function Filled(slots: Table, n: ClusterNode, start: int, end: int): (t: Table)
    ensures |t| == |slots|
    ensures forall j :: 0 <= j < |slots| ==> t[j] == if slots[j] == null && start <= j < end then n else slots[j]
  {
    seq(|slots|, j requires 0 <= j < |slots| => if slots[j] == null && start <= j < end then n else slots[j])
  }

  lemma FilledOneMore(slots: Table, n: ClusterNode, start: int, end: int)
    requires 0 <= start <= end < |slots|
    ensures var t := Filled(slots, n, start, end);
      Filled(slots, n, start, end + 1) == if t[end] == null then t[end := n] else t
  {}

  method AddRange(t: SlotTable, n: ClusterNode, start: int, stop: int)
    requires t.Valid() && n in t.nodes && 0 <= start && stop < SLOTS
    modifies t`slots, t.nodes`slots, t.nodes`numslots
    ensures t.Valid() && t.slots == Filled(old(t.slots), n, start, stop + 1)
  {
    var slot := start;
    assert t.slots == Filled(t.slots, n, start, start);
    while slot <= stop
      invariant start <= slot && t.Valid() && (slot <= stop + 1 || slot == start)
      invariant t.slots == Filled(old(t.slots), n, start, slot)
    {
      FilledOneMore(old(t.slots), n, start, slot);
      var _ := t.AddSlot(n, slot);
      slot := slot + 1;
    }
    assert Filled(old(t.slots), n, start, slot) == Filled(old(t.slots), n, start, stop + 1);
  }

  // ---------- the round trip ----------

  lemma {:induction false} DashOfDigits(s: bytes, rest: bytes)
    requires forall i :: 0 <= i < |s| ==> IsDigit(s[i])
    ensures Dash(s + [MINUS] + rest) == |s| && Dash(s) == |s|
  {
    if s != [] {
      assert (s + [MINUS] + rest)[1..] == s[1..] + [MINUS] + rest;
      DashOfDigits(s[1..], rest);
    }
  }

  lemma AtoiOfAll(n: nat)
    ensures Atoi(Print(n)) == n
  {
    AtoiOfPrint(n, []);
    assert Print(n) + [] == Print(n);
  }

  /** A token is read as the range it was printed from. */
  lemma TokenReadsBack(r: Range)
    requires r.start <= r.stop
    ensures Start(Token(r)) == r.start && Stop(Token(r)) == r.stop
  {
    DashOfDigits(Print(r.start), Print(r.stop));
    AtoiOfAll(r.start);
    AtoiOfAll(r.stop);
    var t := Token(r);
    if r.start == r.stop {
      assert t[..|t|] == t;
    } else {
      assert t[..|Print(r.start)|] == Print(r.start) && t[|Print(r.start)| + 1..] == Print(r.stop);
    }
  }

  /** The tokens printed for a bitmap hold exactly the slots set in it. */
  lemma PrintedSlotsReadBack(b: SlotMap, rs: seq<Range>, j: nat)
    requires Describes(b, rs, SLOTS) && j < SLOTS
    ensures InTokens(Tokens(rs), j) <==> TestBit(b, j)
  {
    forall i | 0 <= i < |rs| ensures Start(Tokens(rs)[i]) == rs[i].start && Stop(Tokens(rs)[i]) == rs[i].stop {
      assert Maximal(b, rs[i]);
      TokenReadsBack(rs[i]);
    }
    if Served(b, j) {
      var i :| 0 <= i < |rs| && rs[i].start <= j <= rs[i].stop;
      assert Start(Tokens(rs)[i]) <= j <= Stop(Tokens(rs)[i]);
    }
    if InTokens(Tokens(rs), j) {
      var i :| 0 <= i < |rs| && Start(Tokens(rs)[i]) <= j <= Stop(Tokens(rs)[i]);
      assert Maximal(b, rs[i]) && rs[i].start <= j <= rs[i].stop;
    }
  }

  // ---------- the whole table ----------

  datatype Config = Config(name: nat, epoch: nat, slots: SlotMap)

  /** What a line of nodes.conf says of a node's name, epoch and slots. */
  datatype Line = Line(name: nat, epoch: bytes, tokens: seq<bytes>)

  ghost predicate Printed(c: Config, l: Line) {
    && l.name == c.name && l.epoch == Print(c.epoch)
    && PrintsAs(c.slots, l.tokens)
  }

  datatype Loaded = Loaded(slots: seq<Option<nat>>, epochs: map<nat, int>)

  /** A slot already bound stays where it is. */
  ghost function LoadLine(t: Loaded, l: Line): Loaded
    requires |t.slots| == SLOTS
  {
    Loaded(seq(SLOTS, j requires 0 <= j < SLOTS =>
            if t.slots[j] == None && InTokens(l.tokens, j) then Some(l.name) else t.slots[j]),
          t.epochs[l.name := Atoi(l.epoch)])
  }

  ghost function LoadLines(lines: seq<Line>): (t: Loaded)
    ensures |t.slots| == SLOTS
    decreases lines
  {
    if lines == [] then Loaded(seq(SLOTS, _ => None), map[])
    else LoadLine(LoadLines(lines[..|lines| - 1]), lines[|lines| - 1])
  }

  ghost predicate Disjoint(cs: seq<Config>) {
    forall i, k: int, j: nat :: 0 <= i < k < |cs| && Served(cs[i].slots, j) ==> !Served(cs[k].slots, j)
  }

  ghost predicate Distinct(cs: seq<Config>) {
    forall i, k :: 0 <= i < k < |cs| ==> cs[i].name != cs[k].name
  }

  /** Loading the line printed for a node binds its slots that are free, and sets its epoch. */
  lemma LineReadsBack(t: Loaded, c: Config, l: Line)
    requires |t.slots| == SLOTS && Printed(c, l)
    ensures var u := LoadLine(t, l);
      && u.epochs == t.epochs[c.name := c.epoch]
      && forall j: nat :: j < SLOTS ==>
           u.slots[j] == if t.slots[j] == None && Served(c.slots, j) then Some(c.name) else t.slots[j]
  {
    AtoiOfAll(c.epoch);
    var rs :| l.tokens == Tokens(rs) && Describes(c.slots, rs, SLOTS);
    forall j: nat | j < SLOTS ensures InTokens(l.tokens, j) <==> Served(c.slots, j) {
      PrintedSlotsReadBack(c.slots, rs, j);
    }
  }

  ghost predicate OwnedBy(cs: seq<Config>, j: nat, owner: Option<nat>) {
    if owner == None then forall i :: 0 <= i < |cs| ==> !Served(cs[i].slots, j)
    else exists i :: 0 <= i < |cs| && cs[i].name == owner.value && Served(cs[i].slots, j)
  }

  lemma OwnerAfterLine(cs: seq<Config>, j: nat, before: Option<nat>, after: Option<nat>)
    requires cs != [] && Disjoint(cs) && OwnedBy(cs[..|cs| - 1], j, before)
    requires var c := cs[|cs| - 1];
      after == if before == None && Served(c.slots, j) then Some(c.name) else before
    ensures OwnedBy(cs, j, after)
  {
    var front := cs[..|cs| - 1];
    if before != None {
      var i :| 0 <= i < |front| && front[i].name == before.value && Served(front[i].slots, j);
      assert cs[i] == front[i];
    } else if after != None {
      assert cs[|cs| - 1].name == after.value;
    } else {
      forall i | 0 <= i < |cs| ensures !Served(cs[i].slots, j) {
        assert i < |front| ==> front[i] == cs[i];
      }
    }
  }

  /**
   Saving and loading a table of disjoint bitmaps gives back, for every slot,
   the node that serves it, or none, and for every node its configEpoch.
   */
  lemma {:induction false} TableReadsBack(cs: seq<Config>, lines: seq<Line>)
    requires Disjoint(cs) && Distinct(cs) && |lines| == |cs|
    requires forall i :: 0 <= i < |cs| ==> Printed(cs[i], lines[i])
    ensures var t := LoadLines(lines);
      && (forall j: nat :: j < SLOTS ==> OwnedBy(cs, j, t.slots[j]))
      && (forall i :: 0 <= i < |cs| ==> cs[i].name in t.epochs && t.epochs[cs[i].name] == cs[i].epoch)
    decreases |cs|
  {
    if cs != [] {
      var n := |cs| - 1;
      TableReadsBack(cs[..n], lines[..n]);
      var before := LoadLines(lines[..n]);
      LineReadsBack(before, cs[n], lines[n]);
      forall j: nat | j < SLOTS ensures OwnedBy(cs, j, LoadLines(lines).slots[j]) {
        OwnerAfterLine(cs, j, before.slots[j], LoadLines(lines).slots[j]);
      }
      forall i | 0 <= i < n ensures cs[i].name in before.epochs && before.epochs[cs[i].name] == cs[i].epoch {
        assert cs[..n][i] == cs[i];
      }
    }
  }

  /** The owner loaded for a served slot is the node that served it. */
  lemma OwnerIsServer(cs: seq<Config>, j: nat, owner: Option<nat>, i: nat)
    requires Disjoint(cs) && OwnedBy(cs, j, owner) && i < |cs| && Served(cs[i].slots, j)
    ensures owner == Some(cs[i].name)
  {
    if owner != None {
      var k :| 0 <= k < |cs| && cs[k].name == owner.value && Served(cs[k].slots, j);
      assert k == i;
    }
  }

  // ---------- into the slot table ----------

  /** The tokens name slots only. */
  predicate InRange(tokens: seq<bytes>) {
    forall i :: 0 <= i < |tokens| ==> 0 <= Start(tokens[i]) && Stop(tokens[i]) < SLOTS
  }

  /** The nodes the lines are about, all in the table and no two with the same name. */
  ghost predicate Named(t: SlotTable, ns: seq<ClusterNode>, lines: seq<Line>)
    reads t, ns
  {
    && |ns| == |lines|
    && (forall i :: 0 <= i < |ns| ==> ns[i] in t.nodes && ns[i].name == lines[i].name)
    && (forall i, k :: 0 <= i < k < |lines| ==> lines[i].name != lines[k].name)
  }

  /** The owners, by name. */
  ghost predicate NamedBy(slots: Table, names: seq<Option<nat>>)
    reads (set n | n in slots && n != null)`name
  {
    |slots| == |names| && forall j :: 0 <= j < |slots| ==> NameOf(slots[j]) == names[j]
  }

  /** The table and the nodes' epochs are those of LoadLines. */
  ghost predicate Holds(t: SlotTable, ns: seq<ClusterNode>, lines: seq<Line>)
    requires |ns| == |lines|
    reads t, t.slots, ns
  {
    && NamedBy(t.slots, LoadLines(lines).slots)
    && forall i :: 0 <= i < |ns| ==>
         lines[i].name in LoadLines(lines).epochs && LoadLines(lines).epochs[lines[i].name] == ns[i].configEpoch
  }

  lemma {:induction false} EpochsLoaded(lines: seq<Line>, i: nat)
    requires i < |lines| && forall i, k :: 0 <= i < k < |lines| ==> lines[i].name != lines[k].name
    ensures lines[i].name in LoadLines(lines).epochs && LoadLines(lines).epochs[lines[i].name] == Atoi(lines[i].epoch)
    decreases |lines|
  {
    if i < |lines| - 1 {
      EpochsLoaded(lines[..|lines| - 1], i);
    }
  }

  lemma BoundByName(slots: Table, n: ClusterNode, before: Loaded, l: Line)
    requires NamedBy(slots, before.slots) && |slots| == SLOTS && n.name == l.name
    ensures NamedBy(Bound(slots, n, l.tokens), LoadLine(before, l).slots)
  {
    forall j | 0 <= j < SLOTS ensures NameOf(Bound(slots, n, l.tokens)[j]) == LoadLine(before, l).slots[j] {
      assert NameOf(slots[j]) == before.slots[j];
    }
  }

  /** One line: the epoch of its node, and its slots. */
  method LoadNode(t: SlotTable, n: ClusterNode, l: Line, ghost before: Loaded)
    requires t.Valid() && n in t.nodes && InRange(l.tokens) && Atoi(l.epoch) >= 0
    requires n.name == l.name && NamedBy(t.slots, before.slots)
    modifies t`slots, t.nodes`slots, t.nodes`numslots, n`configEpoch
    ensures t.Valid() && n.configEpoch == Atoi(l.epoch)
    ensures |before.slots| == SLOTS && NamedBy(t.slots, LoadLine(before, l).slots)
  {
    n.configEpoch := Atoi(l.epoch);
    LoadSlots(t, n, l.tokens);
    BoundByName(old(t.slots), n, before, l);
  }

  /** clusterLoadConfig, line by line, for nodes that are already in the table. */
  method LoadConfig(t: SlotTable, ns: seq<ClusterNode>, lines: seq<Line>)
    requires t.Valid() && Named(t, ns, lines) && forall j :: 0 <= j < SLOTS ==> t.slots[j] == null
    requires forall i :: 0 <= i < |lines| ==> InRange(lines[i].tokens) && Atoi(lines[i].epoch) >= 0
    modifies t`slots, t.nodes`slots, t.nodes`numslots, t.nodes`configEpoch
    ensures t.Valid() && Holds(t, ns, lines)
  {
    assert lines[..0] == [] && NamedBy(t.slots, LoadLines([]).slots);
    for i := 0 to |lines|
      invariant t.Valid() && Named(t, ns, lines) && NamedBy(t.slots, LoadLines(lines[..i]).slots)
      invariant forall k :: 0 <= k < i ==> ns[k].configEpoch == Atoi(lines[k].epoch)
    {
      assert lines[..i + 1][..i] == lines[..i] && lines[..i + 1][i] == lines[i];
      LoadNode(t, ns[i], lines[i], LoadLines(lines[..i]));
    }
    assert lines[..|lines|] == lines;
    forall i | 0 <= i < |lines|
      ensures lines[i].name in LoadLines(lines).epochs
      ensures LoadLines(lines).epochs[lines[i].name] == ns[i].configEpoch
    {
      EpochsLoaded(lines, i);
    }
  }

  lemma PrintedInRange(c: Config, l: Line)
    requires Printed(c, l)
    ensures InRange(l.tokens) && Atoi(l.epoch) == c.epoch
  {
    AtoiOfAll(c.epoch);
    var rs :| l.tokens == Tokens(rs) && Describes(c.slots, rs, SLOTS);
    forall i | 0 <= i < |rs| ensures 0 <= Start(l.tokens[i]) && Stop(l.tokens[i]) < SLOTS {
      assert Maximal(c.slots, rs[i]);
      TokenReadsBack(rs[i]);
    }
  }

  /**
   The slot table loaded from the lines printed for nodes with disjoint
   bitmaps: every slot is with the node that serves it, or free if none does,
   and every node has its configEpoch.
   */
  method RestoreTable(t: SlotTable, ns: seq<ClusterNode>, ghost cs: seq<Config>, lines: seq<Line>)
    requires t.Valid() && Named(t, ns, lines) && forall j :: 0 <= j < SLOTS ==> t.slots[j] == null
    requires Disjoint(cs) && Distinct(cs) && |lines| == |cs|
    requires forall i :: 0 <= i < |cs| ==> Printed(cs[i], lines[i])
    modifies t`slots, t.nodes`slots, t.nodes`numslots, t.nodes`configEpoch
    ensures t.Valid() && forall j: nat :: j < SLOTS ==> OwnedBy(cs, j, NameOf(t.slots[j]))
    ensures forall i :: 0 <= i < |cs| ==> ns[i].configEpoch == cs[i].epoch
  {
    forall i | 0 <= i < |lines| ensures InRange(lines[i].tokens) && Atoi(lines[i].epoch) >= 0 {
      PrintedInRange(cs[i], lines[i]);
    }
    LoadConfig(t, ns, lines);
    TableReadsBack(cs, lines);
  }
}
