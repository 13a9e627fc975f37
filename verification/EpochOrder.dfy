/**
 The order between epochs that cluster.c relies on, over runs of every rule
 that changes one: packets, bumps, collisions, elections, nodes coming and
 going. The network delays, loses, reorders and repeats packets.
 */
module EpochOrder {
  import opened ConfigEpochs
  import opened OptionType

  /** A header, and the node and epoch an UPDATE is about. */
  datatype Packet = Packet(h: Header, update: Option<(nat, nat)>)

  datatype State = State(nodes: map<nat, Node>, packets: set<Packet>)

  datatype Event =
    | SendPing(n: nat)
    | SendUpdate(n: nat, about: nat)
    | Receive(n: nat, p: Packet, ping: bool)
    | BumpEpoch(n: nat)
    | AskForVotes(n: nat)
    | WinElection(n: nat)
    | SetConfigEpoch(n: nat, epoch: nat)
    | AddNode(n: nat, name: nat, peer: Peer)
    | DelNode(n: nat, name: nat)
    | ChangeRole(n: nat, name: nat, isMaster: bool, master: Option<nat>)

  /** A slave publishes its master's configEpoch, a master its own. */
  function HeaderOf(n: Node): Header
    requires InTable(n)
  {
    var me := Myself(n);
    Header(n.name, n.currentEpoch,
           if !me.isMaster && me.master.Some? && me.master.value in n.table
           then n.table[me.master.value].configEpoch else me.configEpoch)
  }

  function Win(n: Node): Node
    requires InTable(n)
  {
    WithConfig(n, n.name, Max(Myself(n).configEpoch, n.authEpoch))
  }

  function Remove(n: Node, name: nat): Node {
    n.(table := map p | p in n.table && p != name ::
         if n.table[p].master == Some(name) then n.table[p].(master := None) else n.table[p])
  }

  function Receives(n: Node, p: Packet, ping: bool): Node
    requires InTable(n)
  {
    match p.update
    case Some(u) => ReceiveUpdate(n, p.h, u.0, u.1)
    case None => if ping then ReceivePing(n, p.h) else ReceiveHeader(n, p.h)
  }

  /**
   A node taken into the table has configEpoch 0. One still in handshake has a
   random name, which is assumed to be the name of no node of the cluster.
   */
  ghost predicate Enabled(s: State, e: Event) {
    && e.n in s.nodes && InTable(s.nodes[e.n])
    && match e
       case SendUpdate(n, about) => about in s.nodes[n].table
       case Receive(_, p, _) => p in s.packets
       case SetConfigEpoch(n, _) => s.nodes[n].table.Keys == {n} && Myself(s.nodes[n]).configEpoch == 0
       case AddNode(n, name, peer) =>
         name !in s.nodes[n].table && peer.configEpoch == 0 && (peer.inHandshake ==> name !in s.nodes)
       case DelNode(n, name) => name in s.nodes[n].table && name != n
       case ChangeRole(n, name, _, _) => name in s.nodes[n].table
       case _ => true
  }

  ghost function Become(n: Node, e: Event): Node
    requires InTable(n)
    requires e.ChangeRole? ==> e.name in n.table
  {
    match e
    case SendPing(_) => n
    case SendUpdate(_, _) => n
    case Receive(_, p, ping) => Receives(n, p, ping)
    case BumpEpoch(_) => Bump(n)
    case AskForVotes(_) => n.(currentEpoch := n.currentEpoch + 1, authEpoch := n.currentEpoch + 1)
    case WinElection(_) => Win(n)
    case SetConfigEpoch(_, epoch) => WithConfig(n.(currentEpoch := Max(n.currentEpoch, epoch)), n.name, epoch)
    case AddNode(_, name, peer) => n.(table := n.table[name := peer])
    case DelNode(_, name) => Remove(n, name)
    case ChangeRole(_, name, isMaster, master) =>
      n.(table := n.table[name := n.table[name].(isMaster := isMaster, master := master)])
  }

  ghost function Sends(n: Node, e: Event): set<Packet>
    requires InTable(n)
    requires e.SendUpdate? ==> e.about in n.table
  {
    match e
    case SendPing(_) => {Packet(HeaderOf(n), None)}
    case SendUpdate(_, about) => {Packet(HeaderOf(n), Some((about, n.table[about].configEpoch)))}
    case AskForVotes(_) => {Packet(HeaderOf(Become(n, e)), None)}
    case _ => {}
  }

  ghost function Apply(s: State, e: Event): State
    requires Enabled(s, e)
  {
    State(s.nodes[e.n := Become(s.nodes[e.n], e)], s.packets + Sends(s.nodes[e.n], e))
  }

  ghost predicate Legal(s: State, es: seq<Event>)
    decreases es
  {
    es == [] || (Enabled(s, es[0]) && Legal(Apply(s, es[0]), es[1..]))
  }

  ghost function After(s: State, es: seq<Event>): State
    requires Legal(s, es)
    decreases es
  {
    if es == [] then s else After(Apply(s, es[0]), es[1..])
  }

  // ---------- the order ----------

  /** No configEpoch in a node's table, its own included, is above its currentEpoch. */
  ghost predicate Covered(n: Node) {
    && InTable(n) && n.authEpoch <= n.currentEpoch
    && forall p :: p in n.table ==> n.table[p].configEpoch <= n.currentEpoch
  }

  ghost predicate PacketOk(p: Packet) {
    && p.h.configEpoch <= p.h.currentEpoch
    && (p.update.Some? ==> p.update.value.1 <= p.h.currentEpoch)
  }

  ghost predicate NodeOk(s: State, k: nat)
    requires k in s.nodes
  {
    && s.nodes[k].name == k && Covered(s.nodes[k])
    && forall p :: p in s.nodes[k].table && p in s.nodes ==> !s.nodes[k].table[p].inHandshake
  }

  ghost predicate Ordered(s: State) {
    && (forall k :: k in s.nodes ==> NodeOk(s, k))
    && (forall p :: p in s.packets ==> PacketOk(p) && p.h.sender in s.nodes)
  }

  /** What CoverOnLoad leaves, once every node is in the table: the order that every run then keeps. */
  method LoadCovers(t: EpochTable)
    requires t.Valid() && t.authEpoch == 0
    modifies t`currentEpoch
    ensures t.Valid() && Covered(t.Self()) && t.currentEpoch >= old(t.currentEpoch)
    ensures t.currentEpoch == old(t.currentEpoch) <==> old(Covered(t.Self()))
  {
    ghost var before := t.Self();
    t.CoverOnLoad();
    assert forall p :: p in before.table ==> before.table[p].configEpoch == t.nodes[p].configEpoch;
  }

  lemma HeaderKeeps(n: Node, h: Header)
    requires Covered(n) && h.configEpoch <= h.currentEpoch
    ensures Covered(ReceiveHeader(n, h)) && ReceiveHeader(n, h).currentEpoch >= n.currentEpoch
    ensures h.sender in n.table && !n.table[h.sender].inHandshake
            ==> ReceiveHeader(n, h).currentEpoch >= h.currentEpoch
    ensures SameMembers(n, ReceiveHeader(n, h))
  {}

  ghost predicate SameMembers(n: Node, r: Node) {
    && r.name == n.name && r.table.Keys == n.table.Keys
    && forall p :: p in n.table ==> r.table[p].inHandshake == n.table[p].inHandshake
  }

  lemma PingKeeps(n: Node, h: Header)
    requires Covered(n) && h.configEpoch <= h.currentEpoch
    ensures Covered(ReceivePing(n, h)) && ReceivePing(n, h).currentEpoch >= n.currentEpoch
    ensures SameMembers(n, ReceivePing(n, h))
  {
    HeaderKeeps(n, h);
  }

  lemma UpdateKeeps(n: Node, h: Header, about: nat, epoch: nat)
    requires Covered(n) && h.configEpoch <= h.currentEpoch && epoch <= h.currentEpoch
    requires h.sender in n.table ==> !n.table[h.sender].inHandshake
    ensures Covered(ReceiveUpdate(n, h, about, epoch))
    ensures ReceiveUpdate(n, h, about, epoch).currentEpoch >= n.currentEpoch
    ensures SameMembers(n, ReceiveUpdate(n, h, about, epoch))
  {
    HeaderKeeps(n, h);
  }

  /**
   Why Enabled keeps the random name of a node in handshake apart from the
   names of the cluster's nodes: an UPDATE is applied even where its header is
   not learned from.
   */
  lemma UpdateKeepsExactlyWhen(n: Node, h: Header, about: nat, epoch: nat)
    requires Covered(n) && h.configEpoch <= h.currentEpoch && epoch <= h.currentEpoch
    requires h.sender in n.table && about in n.table
    ensures Covered(ReceiveUpdate(n, h, about, epoch))
            <==> !n.table[h.sender].inHandshake || epoch <= n.currentEpoch
  {
    var r := ReceiveUpdate(n, h, about, epoch);
    if n.table[h.sender].inHandshake {
      assert r.currentEpoch == n.currentEpoch;
      assert epoch > n.currentEpoch ==> r.table[about].configEpoch == epoch;
    } else {
      UpdateKeeps(n, h, about, epoch);
    }
  }

  lemma ReceivesKeeps(n: Node, p: Packet, ping: bool)
    requires Covered(n) && PacketOk(p)
    requires p.h.sender in n.table ==> !n.table[p.h.sender].inHandshake
    ensures Covered(Receives(n, p, ping)) && Receives(n, p, ping).currentEpoch >= n.currentEpoch
    ensures SameMembers(n, Receives(n, p, ping))
  {
    match p.update
    case Some(u) => UpdateKeeps(n, p.h, u.0, u.1);
    case None =>
      HeaderKeeps(n, p.h);
      PingKeeps(n, p.h);
  }

  lemma BecomeKeeps(s: State, e: Event)
    requires Ordered(s) && Enabled(s, e)
    ensures NodeOk(Apply(s, e), e.n) && Become(s.nodes[e.n], e).currentEpoch >= s.nodes[e.n].currentEpoch
  {
    assert NodeOk(s, e.n);
    var n := s.nodes[e.n];
    if e.Receive? {
      ReceivesKeeps(n, e.p, e.ping);
    }
  }

  lemma SendsOk(n: Node, e: Event)
    requires Covered(n) && (e.SendUpdate? ==> e.about in n.table)
    ensures forall p :: p in Sends(n, e) ==> PacketOk(p) && p.h.sender == n.name
  {}

  lemma StepKeeps(s: State, e: Event)
    requires Ordered(s) && Enabled(s, e)
    ensures Ordered(Apply(s, e)) && Rises(s, Apply(s, e))
  {
    var t := Apply(s, e);
    assert NodeOk(s, e.n);
    SendsOk(s.nodes[e.n], e);
    forall k | k in t.nodes ensures NodeOk(t, k) && t.nodes[k].currentEpoch >= s.nodes[k].currentEpoch {
      if k == e.n {
        BecomeKeeps(s, e);
      } else {
        assert NodeOk(s, k);
      }
    }
  }

  /** No node's currentEpoch is smaller in t than it was in s. */
  ghost predicate Rises(s: State, t: State) {
    && (forall k :: k in s.nodes <==> k in t.nodes)
    && forall k :: k in s.nodes ==> t.nodes[k].currentEpoch >= s.nodes[k].currentEpoch
  }

  /**
   Over every run: currentEpoch never falls, and nothing known or in flight is
   above the currentEpoch it goes with.
   */
  lemma {:induction false} EpochsStayOrdered(s: State, es: seq<Event>)
    requires Ordered(s) && Legal(s, es)
    ensures Ordered(After(s, es)) && Rises(s, After(s, es))
    decreases es
  {
    if es != [] {
      StepKeeps(s, es[0]);
      EpochsStayOrdered(Apply(s, es[0]), es[1..]);
    }
  }

  /**
   In any run, a bump leaves the node's own configEpoch positive and not below
   any number it knows of, its currentEpoch included.
   */
  lemma BumpInAnyRun(s: State, es: seq<Event>, k: nat)
    requires Ordered(s) && Legal(s, es) && k in After(s, es).nodes
    ensures Enabled(After(s, es), BumpEpoch(k))
    ensures var n := Apply(After(s, es), BumpEpoch(k)).nodes[k];
      && k in n.table && n.table[k].configEpoch > 0 && n.table[k].configEpoch >= n.currentEpoch
      && forall p :: p in n.table ==> n.table[p].configEpoch <= n.table[k].configEpoch
  {
    EpochsStayOrdered(s, es);
    assert NodeOk(After(s, es), k);
    BumpMakesGreatest(After(s, es).nodes[k]);
  }

  /** And so it is never needed: no packet of any run is from a node the receiver holds in handshake. */
  lemma NoPacketFromHandshake(s: State, es: seq<Event>, k: nat, p: Packet)
    requires Ordered(s) && Legal(s, es) && k in After(s, es).nodes && p in After(s, es).packets
    ensures p.h.sender in After(s, es).nodes[k].table ==> Known(After(s, es).nodes[k], p.h.sender)
  {
    EpochsStayOrdered(s, es);
    assert NodeOk(After(s, es), k);
  }
}
