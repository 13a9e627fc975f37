/**
 Where currentEpoch and the configEpochs change outside elections (cluster.c):
 headers received, UPDATE messages, the bump without consensus and the
 resolution of configEpoch collisions.
 */
module ConfigEpochs {
  import opened ClusterNodes
  import opened OptionType

  // ---------- on values ----------

  datatype Peer = Peer(configEpoch: nat, isMaster: bool, inHandshake: bool, master: Option<nat>)

  /** A node's own name, its currentEpoch, the epoch of its last election, and its table, itself included. */
  datatype Node = Node(name: nat, currentEpoch: nat, authEpoch: nat, table: map<nat, Peer>)

  datatype Header = Header(sender: nat, currentEpoch: nat, configEpoch: nat)

  predicate InTable(n: Node) {
    n.name in n.table
  }

  function Myself(n: Node): Peer
    requires InTable(n)
  {
    n.table[n.name]
  }

  predicate Known(n: Node, sender: nat) {
    sender in n.table && !n.table[sender].inHandshake
  }

  function WithConfig(n: Node, name: nat, epoch: nat): Node
    requires name in n.table
  {
    n.(table := n.table[name := n.table[name].(configEpoch := epoch)])
  }

  function Max(a: nat, b: nat): nat {
    if a < b then b else a
  }

  /** Every packet from a known node, before it is looked at by type. */
  function ReceiveHeader(n: Node, h: Header): Node {
    if Known(n, h.sender)
    then WithConfig(n.(currentEpoch := Max(n.currentEpoch, h.currentEpoch)), h.sender,
                    Max(n.table[h.sender].configEpoch, h.configEpoch))
    else n
  }

  predicate Collides(n: Node, sender: nat)
    requires InTable(n) && sender in n.table
  {
    && n.table[sender].configEpoch == Myself(n).configEpoch
    && n.table[sender].isMaster && Myself(n).isMaster
    && sender > n.name
  }

  function NewConfigEpoch(n: Node): Node
    requires InTable(n)
  {
    WithConfig(n.(currentEpoch := n.currentEpoch + 1), n.name, n.currentEpoch + 1)
  }

  function HandleCollision(n: Node, sender: nat): Node
    requires InTable(n) && sender in n.table
  {
    if Collides(n, sender) then NewConfigEpoch(n) else n
  }

  /** The epoch part of a PING, PONG or MEET. A sender in handshake counts as publishing epoch 0. */
  function ReceivePing(n: Node, h: Header): Node
    requires InTable(n)
  {
    var heard := ReceiveHeader(n, h);
    var senderConfigEpoch := if Known(n, h.sender) then h.configEpoch else 0;
    if h.sender in n.table && Myself(heard).isMaster && heard.table[h.sender].isMaster
       && senderConfigEpoch == Myself(heard).configEpoch
    then HandleCollision(heard, h.sender)
    else heard
  }

  /** An UPDATE about `about`, sent by a node whose header is h. */
  function ReceiveUpdate(n: Node, h: Header, about: nat, epoch: nat): Node {
    var heard := ReceiveHeader(n, h);
    if h.sender !in n.table || about !in n.table || heard.table[about].configEpoch >= epoch then heard
    else WithConfig(heard, about, epoch)
  }

  /** The node's own configEpoch is the greatest number it knows of. */
  predicate HasGreatest(n: Node)
    requires InTable(n)
  {
    n.currentEpoch <= Myself(n).configEpoch
    && forall p :: p in n.table ==> n.table[p].configEpoch <= Myself(n).configEpoch
  }

  function Bump(n: Node): Node
    requires InTable(n)
  {
    if Myself(n).configEpoch == 0 || !HasGreatest(n) then NewConfigEpoch(n) else n
  }

  /**
   What a bump is for. Where no configEpoch is above currentEpoch, afterwards
   the node's own is positive and the greatest number the node knows of; if it
   was that before, nothing has changed, and if not it is new: above every
   number known before.
   */
  lemma BumpMakesGreatest(n: Node)
    requires InTable(n) && forall p :: p in n.table ==> n.table[p].configEpoch <= n.currentEpoch
    ensures var r := Bump(n);
      var mine, was := r.table[n.name].configEpoch, n.table[n.name].configEpoch;
      && r.name == n.name && r.authEpoch == n.authEpoch && r.table.Keys == n.table.Keys
      && mine > 0 && mine == r.currentEpoch
      && (forall p :: p in r.table ==> r.table[p].configEpoch <= mine)
      && (forall p :: p in n.table && p != n.name ==> r.table[p] == n.table[p])
      && (r == n <==> was > 0 && was >= n.currentEpoch
                      && forall p :: p in n.table ==> n.table[p].configEpoch <= was)
      && (r != n ==> mine > n.currentEpoch && forall p :: p in n.table ==> n.table[p].configEpoch < mine)
  {}

  // ---------- on the server's own fields ----------

  ghost function PeerOf(n: ClusterNode): Peer
    reads n, if n.slaveof != null then {n.slaveof} else {}
  {
    Peer(n.configEpoch, n.isMaster, n.inHandshake, if n.slaveof == null then None else Some(n.slaveof.name))
  }

  /** The fields of server.cluster that hold epochs, and its dictionary of nodes. */
  class EpochTable {
    const myself: ClusterNode
    var currentEpoch: nat
    var authEpoch: nat
    var nodes: map<nat, ClusterNode>

    ghost predicate Valid()
      reads this, myself, set k | k in nodes :: nodes[k]
    {
      && (forall k :: k in nodes ==> nodes[k].name == k)
      && myself.name in nodes && nodes[myself.name] == myself
    }

    ghost function Peers(): (peers: map<nat, Peer>)
      reads this`nodes, set k | k in nodes :: nodes[k]
      reads set k | k in nodes && nodes[k].slaveof != null :: nodes[k].slaveof
    {
      map k | k in nodes :: PeerOf(nodes[k])
    }

    ghost function Self(): Node
      reads this, myself, set k | k in nodes :: nodes[k]
      reads set k | k in nodes && nodes[k].slaveof != null :: nodes[k].slaveof
    {
      Node(myself.name, currentEpoch, authEpoch, Peers())
    }

    /** A node starts as the only entry of its own table. */
    constructor (me: ClusterNode)
      ensures Valid() && myself == me && currentEpoch == authEpoch == 0 && nodes.Keys == {me.name}
    {
      myself := me;
      currentEpoch, authEpoch := 0, 0;
      nodes := map[];
      new;
      nodes := nodes[me.name := me];
    }

    /** clusterGetMaxEpoch */
    method GetMaxEpoch() returns (max: nat)
      requires Valid()
      ensures currentEpoch <= max && forall k :: k in nodes ==> nodes[k].configEpoch <= max
      ensures max == currentEpoch || exists k :: k in nodes && nodes[k].configEpoch == max
    {
      max := 0;
      var left := nodes.Keys;
      while left != {}
        invariant left <= nodes.Keys
        invariant forall k :: k in nodes && k !in left ==> nodes[k].configEpoch <= max
        invariant max == 0 || exists k :: k in nodes && nodes[k].configEpoch == max
        decreases |left|
      {
        var k :| k in left;
        left := left - {k};
        if nodes[k].configEpoch > max { max := nodes[k].configEpoch; }
      }
      if max < currentEpoch { max := currentEpoch; }
    }

    /**
     The last check of clusterLoadConfig: a stored currentEpoch smaller than a
     configEpoch in the table is raised to the greatest of them, and only then.
     */
    method CoverOnLoad()
      requires Valid()
      modifies this`currentEpoch
      ensures Valid() && currentEpoch >= old(currentEpoch)
      ensures forall k :: k in nodes ==> nodes[k].configEpoch <= currentEpoch
      ensures currentEpoch == old(currentEpoch) || exists k :: k in nodes && nodes[k].configEpoch == currentEpoch
      ensures Self() == old(Self()).(currentEpoch := currentEpoch)
    {
      var max := GetMaxEpoch();
      if max > currentEpoch { currentEpoch := max; }
    }

    method SetConfigEpoch(n: ClusterNode, epoch: nat)
      requires Valid() && n.name in nodes && nodes[n.name] == n
      modifies n`configEpoch
      ensures Valid() && Self() == old(WithConfig(Self(), n.name, epoch))
    {
      n.configEpoch := epoch;
      assert Peers() == old(Peers())[n.name := old(PeerOf(n)).(configEpoch := epoch)];
    }

    method GiveMyselfNewEpoch()
      requires Valid()
      modifies this`currentEpoch, myself`configEpoch
      ensures Valid() && Self() == old(NewConfigEpoch(Self()))
    {
      currentEpoch := currentEpoch + 1;
      SetConfigEpoch(myself, currentEpoch);
    }

    /** clusterBumpConfigEpochWithoutConsensus */
    method BumpConfigEpochWithoutConsensus() returns (bumped: bool)
      requires Valid()
      modifies this`currentEpoch, myself`configEpoch
      ensures Valid() && Self() == old(Bump(Self()))
      ensures bumped == (Self() != old(Self()))
      ensures bumped <==> old(myself.configEpoch == 0 || myself.configEpoch < currentEpoch
                              || exists k :: k in nodes && nodes[k].configEpoch > myself.configEpoch)
      ensures bumped ==> myself.configEpoch == currentEpoch == old(currentEpoch) + 1
    {
      var maxEpoch := GetMaxEpoch();
      assert (myself.configEpoch == maxEpoch) == HasGreatest(Self()) by {
        forall k | k in nodes ensures Self().table[k].configEpoch == nodes[k].configEpoch {}
      }
      bumped := myself.configEpoch == 0 || myself.configEpoch != maxEpoch;
      if bumped {
        GiveMyselfNewEpoch();
      }
    }

    /** clusterHandleConfigEpochCollision */
    method HandleConfigEpochCollision(sender: ClusterNode)
      requires Valid() && sender.name in nodes && nodes[sender.name] == sender
      modifies this`currentEpoch, myself`configEpoch
      ensures Valid() && Self() == old(HandleCollision(Self(), sender.name))
      ensures myself.configEpoch != old(myself.configEpoch) || currentEpoch != old(currentEpoch) ==>
        old(sender.configEpoch == myself.configEpoch && sender.isMaster && myself.isMaster && sender.name > myself.name)
      ensures old(sender.configEpoch == myself.configEpoch && sender.isMaster && myself.isMaster
                  && sender.name > myself.name) ==>
        myself.configEpoch == currentEpoch == old(currentEpoch) + 1
    {
      if sender.configEpoch != myself.configEpoch || !sender.isMaster || !myself.isMaster { return; }
      if sender.name <= myself.name { return; }
      GiveMyselfNewEpoch();
    }

    method RaiseCurrentEpoch(epoch: nat)
      requires Valid()
      modifies this`currentEpoch
      ensures Valid() && Self() == old(Self().(currentEpoch := Max(currentEpoch, epoch)))
    {
      if epoch > currentEpoch { currentEpoch := epoch; }
    }

    /** The epochs in the header of any packet. */
    method ProcessHeader(h: Header)
      requires Valid()
      modifies this`currentEpoch, (set k | k in nodes :: nodes[k])`configEpoch
      ensures Valid() && Self() == old(ReceiveHeader(Self(), h))
      ensures h.sender in nodes && !nodes[h.sender].inHandshake ==>
        && currentEpoch >= old(currentEpoch) && currentEpoch >= h.currentEpoch
        && (currentEpoch == old(currentEpoch) || currentEpoch == h.currentEpoch)
        && nodes[h.sender].configEpoch == old(if nodes[h.sender].configEpoch < h.configEpoch then h.configEpoch
                                              else nodes[h.sender].configEpoch)
    {
      if h.sender in nodes {
        var sender := nodes[h.sender];
        if !sender.inHandshake {
          RaiseCurrentEpoch(h.currentEpoch);
          SetConfigEpoch(sender, if h.configEpoch > sender.configEpoch then h.configEpoch else sender.configEpoch);
        }
      }
    }

    /** What clusterProcessPacket does with the epochs of a PING, PONG or MEET. */
    method ProcessPing(h: Header)
      requires Valid()
      modifies this`currentEpoch, (set k | k in nodes :: nodes[k])`configEpoch
      ensures Valid() && Self() == old(ReceivePing(Self(), h))
      ensures h.sender in nodes && !nodes[h.sender].inHandshake && h.sender > myself.name
              && myself.isMaster && nodes[h.sender].isMaster
              && old(nodes[h.sender].configEpoch) <= h.configEpoch == old(myself.configEpoch) ==>
        myself.configEpoch == currentEpoch > old(currentEpoch)
    {
      ProcessHeader(h);
      if h.sender in nodes {
        var sender := nodes[h.sender];
        var senderConfigEpoch := if sender.inHandshake then 0 else h.configEpoch;
        if myself.isMaster && sender.isMaster && senderConfigEpoch == myself.configEpoch {
          HandleConfigEpochCollision(sender);
        }
      }
    }

    /** What clusterProcessPacket does with the epochs of an UPDATE about `about`. */
    method ProcessUpdate(h: Header, about: nat, epoch: nat)
      requires Valid()
      modifies this`currentEpoch, (set k | k in nodes :: nodes[k])`configEpoch
      ensures Valid() && Self() == old(ReceiveUpdate(Self(), h, about, epoch))
      ensures h.sender in nodes && about in nodes ==>
        && nodes[about].configEpoch >= epoch && nodes[about].configEpoch >= old(nodes[about].configEpoch)
        && (about != h.sender ==>
              nodes[about].configEpoch == epoch || nodes[about].configEpoch == old(nodes[about].configEpoch))
    {
      ProcessHeader(h);
      if h.sender !in nodes || about !in nodes { return; }
      var n := nodes[about];
      if n.configEpoch >= epoch { return; }
      SetConfigEpoch(n, epoch);
    }
  }
}
