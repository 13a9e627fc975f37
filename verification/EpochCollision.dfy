/**
 Resolution of configEpoch collisions among a fixed set of masters (cluster.c),
 when no other rule changes an epoch. The network delays, loses, reorders and
 repeats messages at will: everything ever sent stays deliverable.
 */
module EpochCollision {
  import opened ConfigEpochs
  import OptionType
  import opened SetFacts

  /** A node, every configEpoch it has had, and how often the collision rule moved it. */
  datatype Machine = Machine(node: Node, history: set<nat>, moves: nat)

  type Machines = map<nat, Machine>

  datatype State = State(machines: Machines, sent: set<Header>)

  datatype Event = Send(n: nat) | Receive(n: nat, h: Header, ping: bool)

  ghost predicate WellFormed(ms: Machines) {
    forall n :: n in ms ==> ms[n].node.name == n && InTable(ms[n].node)
  }

  function Config(m: Machine): nat
    requires InTable(m.node)
  {
    Myself(m.node).configEpoch
  }

  function HeaderOf(m: Machine): Header
    requires InTable(m.node)
  {
    Header(m.node.name, m.node.currentEpoch, Config(m))
  }

  // ---------- steps and runs ----------

  ghost predicate Enabled(s: State, e: Event) {
    && e.n in s.machines && InTable(s.machines[e.n].node)
    && (e.Receive? ==> e.h in s.sent)
  }

  function Receives(n: Node, h: Header, ping: bool): Node
    requires InTable(n)
  {
    if ping then ReceivePing(n, h) else ReceiveHeader(n, h)
  }

  function Become(m: Machine, node: Node): Machine
    requires InTable(m.node) && InTable(node)
  {
    var config := Myself(node).configEpoch;
    Machine(node, m.history + {config}, if config == Config(m) then m.moves else m.moves + 1)
  }

  ghost function Apply(s: State, e: Event): State
    requires Enabled(s, e)
  {
    var m := s.machines[e.n];
    match e
    case Send(_) => s.(sent := s.sent + {HeaderOf(m)})
    case Receive(n, h, ping) => s.(machines := s.machines[n := Become(m, Receives(m.node, h, ping))])
  }

  ghost predicate Legal(s: State, es: seq<Event>)
    decreases es
  {
    es == [] || (Enabled(s, es[0]) && Legal(Apply(s, es[0]), es[1..]))
  }

  ghost function After(s: State, es: seq<Event>): State
    requires Legal(s, es)
    decreases es
  {
    if es == [] then s else After(Apply(s, es[0]), es[1..])
  }

  ghost predicate Acquainted(ms: Machines, n: nat, m: nat)
    requires WellFormed(ms) && n in ms && m in ms
  {
    && m in ms[n].node.table
    && var p := ms[n].node.table[m];
       p.isMaster && !p.inHandshake && p.configEpoch <= Config(ms[m])
  }

  /** All nodes are masters that know each other, with nothing sent yet; what they know of each other may be old. */
  ghost predicate Initial(s: State) {
    && WellFormed(s.machines) && s.sent == {}
    && (forall n :: n in s.machines ==>
          && s.machines[n].history == {Config(s.machines[n])} && s.machines[n].moves == 0
          && Config(s.machines[n]) <= s.machines[n].node.currentEpoch)
    && (forall n, m :: n in s.machines && m in s.machines ==> Acquainted(s.machines, n, m))
  }

  // ---------- what every step keeps ----------

  ghost predicate MachineOk(m: Machine) {
    && InTable(m.node)
    && Config(m) <= m.node.currentEpoch
    && Config(m) in m.history
    && (forall e :: e in m.history ==> e <= Config(m))
    && |m.history| == m.moves + 1
  }

  /** Some node with a greater ID has had this configEpoch. */
  ghost predicate UsedAbove(ms: Machines, n: nat, e: nat) {
    exists m :: m in ms && m > n && e in ms[m].history
  }

  /** Every configEpoch a node has left, it left because a greater ID had it. */
  ghost predicate LeftToGreater(ms: Machines, n: nat)
    requires n in ms && InTable(ms[n].node)
  {
    forall e :: e in ms[n].history && e != Config(ms[n]) ==> UsedAbove(ms, n, e)
  }

  ghost predicate HeaderOk(ms: Machines, h: Header) {
    h.sender in ms && h.configEpoch in ms[h.sender].history
  }

  ghost predicate MachinesOk(ms: Machines) {
    && WellFormed(ms)
    && (forall n :: n in ms ==> MachineOk(ms[n]))
    && (forall n :: n in ms ==> LeftToGreater(ms, n))
    && (forall n, m :: n in ms && m in ms ==> Acquainted(ms, n, m))
  }

  ghost predicate Invariant(s: State) {
    MachinesOk(s.machines) && forall h :: h in s.sent ==> HeaderOk(s.machines, h)
  }

  /** A packet either leaves the node's own configEpoch alone, or found it equal to that of a greater ID. */
  lemma ReceiveEffect(n: Node, h: Header, ping: bool, r: Node)
    requires InTable(n) && Known(n, h.sender) && r == Receives(n, h, ping)
    requires h.sender == n.name ==> h.configEpoch <= Myself(n).configEpoch
    ensures r.name == n.name && r.table.Keys == n.table.Keys && r.currentEpoch >= n.currentEpoch
    ensures forall p :: p in n.table ==>
      r.table[p].isMaster == n.table[p].isMaster && r.table[p].inHandshake == n.table[p].inHandshake
    ensures forall p :: p in n.table && p != n.name && p != h.sender ==> r.table[p] == n.table[p]
    ensures h.sender != n.name ==> r.table[h.sender].configEpoch == Max(n.table[h.sender].configEpoch, h.configEpoch)
    ensures Myself(r).configEpoch == Myself(n).configEpoch
         || (&& h.sender > n.name && h.configEpoch == Myself(n).configEpoch
             && n.currentEpoch < Myself(r).configEpoch == r.currentEpoch)
  {}

  lemma BecomeOk(m: Machine, r: Node)
    requires MachineOk(m) && InTable(r) && r.currentEpoch >= m.node.currentEpoch
    requires Myself(r).configEpoch == Config(m) || m.node.currentEpoch < Myself(r).configEpoch <= r.currentEpoch
    ensures MachineOk(Become(m, r))
  {
    if Myself(r).configEpoch == Config(m) {
      assert Become(m, r).history == m.history;
    }
  }

  lemma OneMachineReplaced(ms: Machines, n: nat, m: Machine, e: nat)
    requires n in ms && ms[n].history <= m.history
    requires WellFormed(ms) && WellFormed(ms[n := m])
    ensures forall k :: UsedAbove(ms, k, e) ==> UsedAbove(ms[n := m], k, e)
  {
    var ns := ms[n := m];
    forall k | UsedAbove(ms, k, e) ensures UsedAbove(ns, k, e) {
      var j :| j in ms && j > k && e in ms[j].history;
      assert j in ns && e in ns[j].history;
    }
  }

  lemma ReceiveKeepsHistory(ms: Machines, n: nat, h: Header, r: Node)
    requires MachinesOk(ms) && n in ms && HeaderOk(ms, h) && InTable(r)
    requires WellFormed(ms[n := Become(ms[n], r)])
    requires Myself(r).configEpoch == Config(ms[n]) || (h.sender > n && h.configEpoch == Config(ms[n]))
    ensures forall k :: k in ms ==> LeftToGreater(ms[n := Become(ms[n], r)], k)
  {
    var ns := ms[n := Become(ms[n], r)];
    forall k | k in ms ensures LeftToGreater(ns, k) {
      forall e | e in ns[k].history && e != Config(ns[k]) ensures UsedAbove(ns, k, e) {
        if k == n && e == Config(ms[n]) {
          assert h.sender in ns && e in ns[h.sender].history;
        } else {
          assert LeftToGreater(ms, k) && UsedAbove(ms, k, e);
          OneMachineReplaced(ms, n, Become(ms[n], r), e);
        }
      }
    }
  }

  lemma AcquaintanceKept(ms: Machines, n: nat, h: Header, ping: bool, r: Node, k: nat, m: nat)
    requires MachinesOk(ms) && n in ms && HeaderOk(ms, h) && k in ms && m in ms
    requires r == Receives(ms[n].node, h, ping) && InTable(r) && WellFormed(ms[n := Become(ms[n], r)])
    requires Config(ms[n]) <= Myself(r).configEpoch
    ensures Acquainted(ms[n := Become(ms[n], r)], k, m)
  {
    assert MachineOk(ms[h.sender]) && Acquainted(ms, n, h.sender) && Acquainted(ms, k, m);
    ReceiveEffect(ms[n].node, h, ping, r);
  }

  lemma ReceiverOk(ms: Machines, n: nat, h: Header, ping: bool, r: Node)
    requires MachinesOk(ms) && n in ms && HeaderOk(ms, h) && r == Receives(ms[n].node, h, ping)
    ensures r.name == n && InTable(r) && MachineOk(Become(ms[n], r)) && Config(ms[n]) <= Myself(r).configEpoch
    ensures Myself(r).configEpoch == Config(ms[n]) || (h.sender > n && h.configEpoch == Config(ms[n]))
  {
    assert MachineOk(ms[n]) && MachineOk(ms[h.sender]) && Acquainted(ms, n, h.sender);
    ReceiveEffect(ms[n].node, h, ping, r);
    BecomeOk(ms[n], r);
  }

  lemma ReceiveKeeps(ms: Machines, n: nat, h: Header, ping: bool, r: Node)
    requires MachinesOk(ms) && n in ms && HeaderOk(ms, h) && r == Receives(ms[n].node, h, ping)
    ensures InTable(r) && MachinesOk(ms[n := Become(ms[n], r)])
    ensures Config(ms[n]) <= Myself(r).configEpoch
  {
    ReceiverOk(ms, n, h, ping, r);
    var ns := ms[n := Become(ms[n], r)];
    ReceiveKeepsHistory(ms, n, h, r);
    forall k, m | k in ns && m in ns ensures Acquainted(ns, k, m) {
      AcquaintanceKept(ms, n, h, ping, r, k, m);
    }
  }

  lemma StepKeeps(s: State, e: Event)
    requires Invariant(s) && Enabled(s, e)
    ensures Invariant(Apply(s, e))
  {
    match e
    case Send(n) => assert MachineOk(s.machines[n]);
    case Receive(n, h, ping) =>
      ReceiveKeeps(s.machines, n, h, ping, Receives(s.machines[n].node, h, ping));
  }

  lemma {:induction false} RunKeeps(s: State, es: seq<Event>)
    requires Invariant(s) && Legal(s, es)
    ensures Invariant(After(s, es))
    decreases es
  {
    if es != [] {
      StepKeeps(s, es[0]);
      RunKeeps(Apply(s, es[0]), es[1..]);
    }
  }

  lemma InitialInvariant(s: State)
    requires Initial(s)
    ensures Invariant(s)
  {}

  ghost predicate Reachable(s: State) {
    exists s0, es :: Initial(s0) && Legal(s0, es) && After(s0, es) == s
  }

  lemma ReachableInvariant(s: State)
    requires Reachable(s)
    ensures Invariant(s)
  {
    var s0, es :| Initial(s0) && Legal(s0, es) && After(s0, es) == s;
    InitialInvariant(s0);
    RunKeeps(s0, es);
  }

  // ---------- how often a node moves ----------

  ghost function Above(ms: Machines, n: nat): set<nat> {
    set m | m in ms && m > n
  }

  ghost predicate UpClosed(ms: Machines, names: set<nat>) {
    names <= ms.Keys && forall m, n :: m in names && n in ms && n > m ==> n in names
  }

  /** Every configEpoch some node of the set has had. */
  ghost function Used(ms: Machines, names: set<nat>): set<nat>
    requires names <= ms.Keys
  {
    set m, e | m in names && e in ms[m].history :: e
  }

  /** The greatest IDs have between them never had more configEpochs than there are of them. */
  lemma {:induction false} UsedBound(ms: Machines, names: set<nat>)
    requires MachinesOk(ms) && UpClosed(ms, names)
    ensures |Used(ms, names)| <= |names|
    decreases names
  {
    if names == {} {
      assert Used(ms, names) == {};
    } else {
      var n := Least(names);
      var rest := names - {n};
      UsedBound(ms, rest);
      forall e | e in ms[n].history && e != Config(ms[n]) ensures e in Used(ms, rest) {
        assert LeftToGreater(ms, n) && UsedAbove(ms, n, e);
      }
      assert Used(ms, names) <= Used(ms, rest) + {Config(ms[n])};
      SubsetCardinality(Used(ms, names), Used(ms, rest) + {Config(ms[n])});
    }
  }

  /** A node moves at most once for every node with a greater ID. */
  lemma MovesAtMostRank(ms: Machines, n: nat)
    requires MachinesOk(ms) && n in ms
    ensures ms[n].moves <= |Above(ms, n)|
  {
    var used := Used(ms, Above(ms, n));
    UsedBound(ms, Above(ms, n));
    assert MachineOk(ms[n]);
    forall e | e in ms[n].history ensures e in used + {Config(ms[n])} {
      assert LeftToGreater(ms, n);
      assert e != Config(ms[n]) ==> UsedAbove(ms, n, e);
    }
    SubsetCardinality(ms[n].history, used + {Config(ms[n])});
  }

  lemma MovesInAnyRun(s: State, n: nat)
    requires Reachable(s) && n in s.machines
    ensures s.machines[n].moves <= |Above(s.machines, n)|
  {
    ReachableInvariant(s);
    MovesAtMostRank(s.machines, n);
  }

  // ---------- how many moves a whole run has ----------

  ghost predicate MovesAt(s: State, e: Event)
    requires Enabled(s, e)
  {
    Apply(s, e).machines[e.n].moves != s.machines[e.n].moves
  }

  ghost function MovesIn(s: State, es: seq<Event>): nat
    requires Legal(s, es)
    decreases es
  {
    if es == [] then 0 else (if MovesAt(s, es[0]) then 1 else 0) + MovesIn(Apply(s, es[0]), es[1..])
  }

  ghost function Total(ms: Machines, names: set<nat>): nat
    requires names <= ms.Keys
    decreases names
  {
    if names == {} then 0 else var n := Least(names); ms[n].moves + Total(ms, names - {n})
  }

  /** The number of pairs among n nodes. */
  function Pairs(n: nat): nat {
    if n == 0 then 0 else n - 1 + Pairs(n - 1)
  }

  lemma {:induction false} PairsClosed(n: nat)
    ensures 2 * Pairs(n) == n * (n - 1)
  {
    if n > 0 {
      PairsClosed(n - 1);
    }
  }

  lemma WithoutLeast(ms: Machines, names: set<nat>)
    requires UpClosed(ms, names) && names != {}
    ensures UpClosed(ms, names - {Least(names)}) && Above(ms, Least(names)) == names - {Least(names)}
    ensures |names - {Least(names)}| == |names| - 1
  {}

  lemma {:induction false} TotalBound(ms: Machines, names: set<nat>)
    requires UpClosed(ms, names) && forall n :: n in ms ==> ms[n].moves <= |Above(ms, n)|
    ensures Total(ms, names) <= Pairs(|names|)
    decreases names
  {
    if names != {} {
      WithoutLeast(ms, names);
      TotalBound(ms, names - {Least(names)});
    }
  }

  lemma {:induction false} TotalUpdate(ms: Machines, names: set<nat>, n: nat, m: Machine)
    requires names <= ms.Keys && n in ms
    ensures names <= ms[n := m].Keys
    ensures Total(ms[n := m], names) == Total(ms, names) + if n in names then m.moves - ms[n].moves else 0
    decreases names
  {
    if names != {} {
      TotalUpdate(ms, names - {Least(names)}, n, m);
    }
  }

  lemma {:induction false} MovesCounted(s: State, es: seq<Event>)
    requires Legal(s, es)
    ensures After(s, es).machines.Keys == s.machines.Keys
    ensures Total(After(s, es).machines, s.machines.Keys) == Total(s.machines, s.machines.Keys) + MovesIn(s, es)
    decreases es
  {
    if es != [] {
      var e := es[0];
      if e.Receive? {
        TotalUpdate(s.machines, s.machines.Keys, e.n, Apply(s, e).machines[e.n]);
      }
      assert Apply(s, e).machines.Keys == s.machines.Keys;
      MovesCounted(Apply(s, e), es[1..]);
    }
  }

  lemma {:induction false} NoMovesYet(ms: Machines, names: set<nat>)
    requires names <= ms.Keys && forall n :: n in ms ==> ms[n].moves == 0
    ensures Total(ms, names) == 0
    decreases names
  {
    if names != {} {
      NoMovesYet(ms, names - {Least(names)});
    }
  }

  lemma MovesAtMostPairs(s: State, es: seq<Event>)
    requires Initial(s) && Legal(s, es)
    ensures MovesIn(s, es) <= Pairs(|s.machines|)
  {
    var t := After(s, es);
    InitialInvariant(s);
    RunKeeps(s, es);
    NoMovesYet(s.machines, s.machines.Keys);
    MovesCounted(s, es);
    forall n | n in t.machines ensures t.machines[n].moves <= |Above(t.machines, n)| {
      MovesAtMostRank(t.machines, n);
    }
    TotalBound(t.machines, t.machines.Keys);
    assert |t.machines.Keys| == |s.machines|;
  }

  /** However long a run is, no more of its events move a configEpoch than there are pairs of masters. */
  lemma CollisionsEnd(s: State, es: seq<Event>)
    requires Initial(s) && Legal(s, es)
    ensures MovesIn(s, es) <= |s.machines| * (|s.machines| - 1) / 2
  {
    MovesAtMostPairs(s, es);
    PairsClosed(|s.machines|);
  }

  // ---------- when nothing moves any more ----------

  ghost predicate Quiet(s: State, es: seq<Event>)
    requires Legal(s, es)
  {
    MovesIn(s, es) == 0
  }

  ghost predicate SameConfigs(s: State, t: State) {
    && WellFormed(s.machines) && WellFormed(t.machines) && s.machines.Keys == t.machines.Keys
    && forall n :: n in s.machines ==> Config(t.machines[n]) == Config(s.machines[n])
  }

  lemma QuietStep(s: State, e: Event)
    requires Invariant(s) && Enabled(s, e) && !MovesAt(s, e)
    ensures Invariant(Apply(s, e)) && SameConfigs(s, Apply(s, e))
  {
    StepKeeps(s, e);
  }

  lemma {:induction false} RunPrefix(s: State, es: seq<Event>, k: nat)
    requires Legal(s, es) && k < |es|
    ensures Legal(s, es[..k]) && Enabled(After(s, es[..k]), es[k])
    ensures Legal(s, es[..k + 1]) && After(s, es[..k + 1]) == Apply(After(s, es[..k]), es[k])
    ensures Quiet(s, es) ==> !MovesAt(After(s, es[..k]), es[k])
    decreases k
  {
    assert es[..k + 1][1..] == es[1..][..k];
    if k > 0 {
      RunPrefix(Apply(s, es[0]), es[1..], k - 1);
      assert es[..k][1..] == es[1..][..k - 1];
    }
  }

  /** In a quiet run every state along the way has the configEpochs of the first. */
  lemma {:induction false} QuietAt(s: State, es: seq<Event>, k: nat)
    requires Invariant(s) && Legal(s, es) && Quiet(s, es) && k <= |es|
    ensures Legal(s, es[..k]) && Invariant(After(s, es[..k])) && SameConfigs(s, After(s, es[..k]))
    decreases k
  {
    if k > 0 {
      QuietAt(s, es, k - 1);
      RunPrefix(s, es, k - 1);
      QuietStep(After(s, es[..k - 1]), es[k - 1]);
    }
  }

  /** In this run, `from` sends a packet that `to` receives as a ping. */
  ghost predicate Pinged(s: State, es: seq<Event>, from: nat, to: nat) {
    exists a, b :: 0 <= a < b < |es| && PingedAt(s, es, from, to, a, b)
  }

  ghost predicate PingedAt(s: State, es: seq<Event>, from: nat, to: nat, a: nat, b: nat)
    requires a < b < |es|
  {
    && es[a] == Send(from)
    && Legal(s, es[..a]) && from in After(s, es[..a]).machines && InTable(After(s, es[..a]).machines[from].node)
    && es[b] == Receive(to, HeaderOf(After(s, es[..a]).machines[from]), true)
  }

  lemma EqualEpochsMove(s: State, n: nat, h: Header)
    requires Invariant(s) && Enabled(s, Receive(n, h, true)) && h.sender in s.machines && h.sender > n
    requires h.configEpoch == Config(s.machines[h.sender]) == Config(s.machines[n])
    ensures MovesAt(s, Receive(n, h, true))
  {
    assert Acquainted(s.machines, n, h.sender) && Acquainted(s.machines, n, n) && MachineOk(s.machines[n]);
  }

  lemma PingSeparates(s: State, es: seq<Event>, from: nat, to: nat)
    requires Invariant(s) && Legal(s, es) && Quiet(s, es)
    requires from in s.machines && to in s.machines && from > to && Pinged(s, es, from, to)
    ensures Config(s.machines[from]) != Config(s.machines[to])
  {
    var a, b :| 0 <= a < b < |es| && PingedAt(s, es, from, to, a, b);
    QuietAt(s, es, a);
    QuietAt(s, es, b);
    RunPrefix(s, es, b);
    var t := After(s, es[..b]);
    var h := HeaderOf(After(s, es[..a]).machines[from]);
    if Config(s.machines[from]) == Config(s.machines[to]) {
      assert After(s, es[..a]).machines[from].node.name == from;
      EqualEpochsMove(t, to, h);
    }
  }

  /** Once every pair has exchanged fresh pings with no move, all configEpochs are different. */
  lemma QuietPingsMeanDistinct(s: State, es: seq<Event>)
    requires Reachable(s) && Legal(s, es) && Quiet(s, es)
    requires forall m, n :: m in s.machines && n in s.machines && m > n ==> Pinged(s, es, m, n)
    ensures Invariant(After(s, es)) && After(s, es).machines.Keys == s.machines.Keys
    ensures forall m, n :: m in s.machines && n in s.machines && m != n ==>
      Config(After(s, es).machines[m]) != Config(After(s, es).machines[n])
  {
    ReachableInvariant(s);
    QuietAt(s, es, |es|);
    assert es[..|es|] == es;
    forall m, n | m in s.machines && n in s.machines && m != n
      ensures Config(s.machines[m]) != Config(s.machines[n])
    {
      if m > n {
        PingSeparates(s, es, m, n);
      } else {
        PingSeparates(s, es, n, m);
      }
    }
  }

  // ---------- every cluster gets there ----------

  ghost predicate AllDistinct(s: State)
    requires WellFormed(s.machines)
  {
    forall m, n :: m in s.machines && n in s.machines && m != n ==> Config(s.machines[m]) != Config(s.machines[n])
  }

  function Joined(rounds: seq<seq<Event>>): seq<Event> {
    if rounds == [] then [] else rounds[0] + Joined(rounds[1..])
  }

  lemma {:induction false} RunConcat(s: State, a: seq<Event>, b: seq<Event>)
    requires Legal(s, a + b)
    ensures Legal(s, a) && Legal(After(s, a), b) && After(s, a + b) == After(After(s, a), b)
    ensures MovesIn(s, a + b) == MovesIn(s, a) + MovesIn(After(s, a), b)
    decreases a
  {
    if a == [] {
      assert a + b == b;
    } else {
      assert (a + b)[0] == a[0] && (a + b)[1..] == a[1..] + b;
      RunConcat(Apply(s, a[0]), a[1..], b);
    }
  }

  /** In each round, whatever else happens in it, every pair of masters exchanges a fresh ping. */
  ghost predicate FullRounds(s: State, rounds: seq<seq<Event>>)
    decreases rounds
  {
    rounds != [] ==>
      && Legal(s, rounds[0])
      && (forall m, n :: m in s.machines && n in s.machines && m > n ==> Pinged(s, rounds[0], m, n))
      && FullRounds(After(s, rounds[0]), rounds[1..])
  }

  /** The number of rounds that end with two configEpochs still equal. */
  ghost function RoundsColliding(s: State, rounds: seq<seq<Event>>): nat
    requires FullRounds(s, rounds)
    decreases rounds
  {
    if rounds == [] then 0
    else
      var t := After(s, rounds[0]);
      (if WellFormed(t.machines) && AllDistinct(t) then 0 else 1) + RoundsColliding(t, rounds[1..])
  }

  /** A round that ends with equal configEpochs has a move in it. */
  lemma {:induction false} CollidingRoundsMove(s: State, rounds: seq<seq<Event>>)
    requires Reachable(s) && FullRounds(s, rounds) && Legal(s, Joined(rounds))
    ensures RoundsColliding(s, rounds) <= MovesIn(s, Joined(rounds))
    decreases rounds
  {
    if rounds != [] {
      RunConcat(s, rounds[0], Joined(rounds[1..]));
      ReachableAfter(s, rounds[0]);
      CollidingRoundsMove(After(s, rounds[0]), rounds[1..]);
      if Quiet(s, rounds[0]) {
        QuietPingsMeanDistinct(s, rounds[0]);
      }
    }
  }

  lemma {:induction false} ReachableAfter(s: State, es: seq<Event>)
    requires Reachable(s) && Legal(s, es)
    ensures Reachable(After(s, es))
    decreases es
  {
    if es != [] {
      Next(s, es[0]);
      ReachableAfter(Apply(s, es[0]), es[1..]);
    }
  }

  /**
   Masters that go on pinging each other end with different configEpochs:
   among n of them, all but at most n(n - 1)/2 rounds of pings do.
   */
  lemma CollisionsResolve(s: State, rounds: seq<seq<Event>>)
    requires Initial(s) && FullRounds(s, rounds)
    ensures RoundsColliding(s, rounds) <= |s.machines| * (|s.machines| - 1) / 2
  {
    RoundsLegal(s, rounds);
    assert Legal(s, []) && After(s, []) == s;
    CollidingRoundsMove(s, rounds);
    CollisionsEnd(s, Joined(rounds));
  }

  lemma {:induction false} FewCollide(s: State, rounds: seq<seq<Event>>)
    requires FullRounds(s, rounds) && RoundsColliding(s, rounds) < |rounds|
    ensures exists i :: 0 <= i < |rounds| && EndsDistinct(s, rounds, i)
    decreases rounds
  {
    var t := After(s, rounds[0]);
    if WellFormed(t.machines) && AllDistinct(t) {
      assert rounds[..1] == [rounds[0]] && Joined(rounds[..1]) == rounds[0] + Joined([]) == rounds[0];
      assert EndsDistinct(s, rounds, 0);
    } else {
      FewCollide(t, rounds[1..]);
      var i :| 0 <= i < |rounds| - 1 && EndsDistinct(t, rounds[1..], i);
      assert rounds[..i + 2][1..] == rounds[1..][..i + 1];
      JoinLegal(s, rounds[0], Joined(rounds[1..][..i + 1]));
      assert EndsDistinct(s, rounds, i + 1);
    }
  }

  lemma {:induction false} JoinLegal(s: State, a: seq<Event>, b: seq<Event>)
    requires Legal(s, a) && Legal(After(s, a), b)
    ensures Legal(s, a + b) && After(s, a + b) == After(After(s, a), b)
    decreases a
  {
    if a == [] {
      assert a + b == b;
    } else {
      assert (a + b)[0] == a[0] && (a + b)[1..] == a[1..] + b;
      JoinLegal(Apply(s, a[0]), a[1..], b);
    }
  }

  lemma {:induction false} RoundsLegal(s: State, rounds: seq<seq<Event>>)
    requires FullRounds(s, rounds)
    ensures Legal(s, Joined(rounds))
    decreases rounds
  {
    if rounds != [] {
      RoundsLegal(After(s, rounds[0]), rounds[1..]);
      JoinLegal(s, rounds[0], Joined(rounds[1..]));
    }
  }

  /** After round i all configEpochs are different. */
  ghost predicate EndsDistinct(s: State, rounds: seq<seq<Event>>, i: nat) {
    && i < |rounds| && Legal(s, Joined(rounds[..i + 1]))
    && var t := After(s, Joined(rounds[..i + 1])); WellFormed(t.machines) && AllDistinct(t)
  }

  /** One round more than that, and after some round all configEpochs are different. */
  lemma EventuallyDistinct(s: State, rounds: seq<seq<Event>>) returns (i: nat)
    requires Initial(s) && FullRounds(s, rounds)
    requires |rounds| > |s.machines| * (|s.machines| - 1) / 2
    ensures EndsDistinct(s, rounds, i)
  {
    CollisionsResolve(s, rounds);
    FewCollide(s, rounds);
    i :| 0 <= i < |rounds| && EndsDistinct(s, rounds, i);
  }

  // ---------- the bound is reached ----------

  lemma {:induction false} AfterOneMore(s: State, es: seq<Event>, e: Event)
    requires Legal(s, es) && Enabled(After(s, es), e)
    ensures Legal(s, es + [e]) && After(s, es + [e]) == Apply(After(s, es), e)
    decreases es
  {
    if es == [] {
      assert [e][1..] == [];
    } else {
      assert (es + [e])[1..] == es[1..] + [e];
      AfterOneMore(Apply(s, es[0]), es[1..], e);
    }
  }

  lemma Next(s: State, e: Event)
    requires Reachable(s) && Enabled(s, e)
    ensures Reachable(Apply(s, e))
  {
    var s0, es :| Initial(s0) && Legal(s0, es) && After(s0, es) == s;
    AfterOneMore(s0, es, e);
  }

  /** Masters with IDs 0 to size - 1, all in epoch 0. */
  ghost function Start(size: nat): State {
    var table := map p | p in Range(0, size) :: Peer(0, true, false, OptionType.None);
    State(map n | n in Range(0, size) :: Machine(Node(n, 0, 0, table), {0}, 0), {})
  }

  lemma StartReachable(size: nat)
    ensures Reachable(Start(size))
  {
    assert Initial(Start(size)) && Legal(Start(size), []) && After(Start(size), []) == Start(size);
  }

  /** In round k the node with k IDs above it pings those below; the ones under `i` have been reached. */
  function Value(size: nat, k: nat, i: nat, n: nat): nat
    requires n < size
  {
    if size - 1 - n <= k then size - 1 - n else if n < i then k + 1 else k
  }

  ghost predicate At(m: Machine, value: nat) {
    InTable(m.node) && Config(m) == m.node.currentEpoch == m.moves == value
  }

  ghost predicate Level(s: State, size: nat, k: nat, i: nat) {
    && (forall n: nat :: n in s.machines <==> n < size)
    && forall n :: n in s.machines ==> At(s.machines[n], Value(size, k, i, n))
  }

  lemma PingedMovesOn(s: State, n: nat, h: Header, k: nat)
    requires Invariant(s) && Enabled(s, Receive(n, h, true)) && h.sender in s.machines && h.sender > n
    requires At(s.machines[n], k) && At(s.machines[h.sender], k) && h.currentEpoch == h.configEpoch == k
    ensures At(Apply(s, Receive(n, h, true)).machines[n], k + 1)
  {
    assert Acquainted(s.machines, n, h.sender) && Acquainted(s.machines, n, n) && MachineOk(s.machines[n]);
  }

  lemma LevelAfterPing(s: State, t: State, size: nat, k: nat, i: nat, m: Machine)
    requires Level(s, size, k, i) && i < size - 1 - k && i in s.machines
    requires t.machines == s.machines[i := m] && At(m, k + 1)
    ensures Level(t, size, k, i + 1)
  {
    forall n | n in t.machines ensures At(t.machines[n], Value(size, k, i + 1, n)) {
      assert n != i ==> At(s.machines[n], Value(size, k, i, n));
    }
  }

  lemma OnePing(s: State, size: nat, k: nat, i: nat) returns (t: State)
    requires Reachable(s) && Level(s, size, k, i) && i < size - 1 - k && Header(size - 1 - k, k, k) in s.sent
    ensures Reachable(t) && Level(t, size, k, i + 1) && t.sent == s.sent
  {
    var e := Receive(i, Header(size - 1 - k, k, k), true);
    assert At(s.machines[i], Value(size, k, i, i)) && At(s.machines[size - 1 - k], Value(size, k, i, size - 1 - k));
    t := Apply(s, e);
    Next(s, e);
    assert At(t.machines[i], k + 1) by {
      ReachableInvariant(s);
      PingedMovesOn(s, i, e.h, k);
    }
    LevelAfterPing(s, t, size, k, i, t.machines[i]);
  }

  lemma {:induction false} Round(s: State, size: nat, k: nat, i: nat) returns (t: State)
    requires Reachable(s) && Level(s, size, k, i) && i <= size - 1 - k && Header(size - 1 - k, k, k) in s.sent
    ensures Reachable(t) && Level(t, size, k, size - 1 - k)
    decreases size - i
  {
    if i == size - 1 - k {
      t := s;
    } else {
      var u := OnePing(s, size, k, i);
      t := Round(u, size, k, i + 1);
    }
  }

  lemma NextLevel(s: State, size: nat, k: nat)
    requires k + 1 < size && Level(s, size, k, size - 1 - k)
    ensures Level(s, size, k + 1, 0)
  {
    forall n | n in s.machines ensures At(s.machines[n], Value(size, k + 1, 0, n)) {
      assert At(s.machines[n], Value(size, k, size - 1 - k, n));
    }
  }

  lemma SendInRound(s: State, size: nat, k: nat) returns (t: State)
    requires Reachable(s) && k + 1 < size && Level(s, size, k, 0)
    ensures Reachable(t) && Level(t, size, k, 0) && Header(size - 1 - k, k, k) in t.sent
  {
    var sender := size - 1 - k;
    assert At(s.machines[sender], Value(size, k, 0, sender));
    assert s.machines[sender].node.name == sender by {
      ReachableInvariant(s);
    }
    Next(s, Send(sender));
    t := Apply(s, Send(sender));
  }

  lemma {:induction false} Rounds(s: State, size: nat, k: nat) returns (t: State)
    requires Reachable(s) && k < size && Level(s, size, k, 0)
    ensures Reachable(t) && Level(t, size, size - 1, 0)
    decreases size - k
  {
    if k == size - 1 {
      t := s;
    } else {
      var sent := SendInRound(s, size, k);
      var u := Round(sent, size, k, 0);
      NextLevel(u, size, k);
      t := Rounds(u, size, k + 1);
    }
  }

  /** For every number of masters there is a run in which each moves exactly once for every greater ID. */
  lemma EveryNodeCanMoveItsRank(size: nat) returns (s: State)
    ensures Reachable(s) && |s.machines| == size
    ensures forall n :: n in s.machines ==> s.machines[n].moves == |Above(s.machines, n)|
  {
    StartReachable(size);
    s := Start(size);
    if size > 0 {
      s := Rounds(s, size, 0);
    }
    AllRanks(s, size);
  }

  lemma AllRanks(s: State, size: nat)
    requires if size == 0 then s.machines == map[] else Level(s, size, size - 1, 0)
    ensures |s.machines| == size && forall n :: n in s.machines ==> s.machines[n].moves == |Above(s.machines, n)|
  {
    assert s.machines.Keys == Range(0, size);
    forall n | n in s.machines ensures s.machines[n].moves == |Above(s.machines, n)| {
      assert At(s.machines[n], Value(size, size - 1, 0, n));
      assert Above(s.machines, n) == Range(n + 1, size);
    }
  }
}
