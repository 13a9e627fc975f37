/**
 The slot table and the nodes' bitmaps (cluster.c): every operation that
 assigns or releases a slot keeps the two in agreement.
 */
module SlotIndex {
  import opened Bitmap
  import opened ClusterNodes
  import opened OptionType

  const SLOTS: nat := 8 * BITMAP_BYTES

  // ---------- what the operations do to the table ----------

  type Table = seq<ClusterNode?>

  ghost function Owned(slots: Table, n: ClusterNode): set<nat> {
    set j: nat | j < |slots| && slots[j] == n
  }

  lemma UpdatedTwice(slots: Table, j: nat, n: ClusterNode)
    requires j < |slots|
    ensures slots[j := null][j := n] == slots[j := n]
  {}

  /** The first `upTo` slots, those of `from` handed to `to`, or released when `to` is null; the rest as they are. */
  ghost function HandedBelow(slots: Table, from: ClusterNode, to: ClusterNode?, upTo: nat): (t: Table)
    ensures |t| == |slots|
    ensures forall j :: 0 <= j < |slots| ==> t[j] == if j < upTo && slots[j] == from then to else slots[j]
  {
    seq(|slots|, j requires 0 <= j < |slots| => if j < upTo && slots[j] == from then to else slots[j])
  }

  ghost function Handed(slots: Table, from: ClusterNode, to: ClusterNode?): Table {
    HandedBelow(slots, from, to, |slots|)
  }

  lemma HandedOneMore(slots: Table, from: ClusterNode, to: ClusterNode?, j: nat, t: Table)
    requires j < |slots| && t == HandedBelow(slots, from, to, j)
    ensures t[j] == slots[j]
    ensures HandedBelow(slots, from, to, j + 1) == if slots[j] == from then t[j := to] else t
  {}

  /** The first `upTo` slots, those among the arguments given to `owner`; the rest as they are. */
  ghost function Commanded(slots: Table, args: seq<Option<nat>>, owner: ClusterNode?, upTo: nat): (t: Table)
    ensures |t| == |slots|
    ensures forall j: nat :: j < |slots| ==> t[j] == if j < upTo && Some(j) in args then owner else slots[j]
  {
    seq(|slots|, j requires 0 <= j < |slots| => if j < upTo && Some(j) in args then owner else slots[j])
  }

  lemma CommandedOneMore(slots: Table, args: seq<Option<nat>>, owner: ClusterNode?, j: nat, t: Table)
    requires j < |slots| && t == Commanded(slots, args, owner, j)
    ensures t[j] == slots[j]
    ensures Commanded(slots, args, owner, j + 1) == if Some(j) in args then t[j := owner] else t
  {}

  /** The first `upTo` slots, those marked given to n; the rest as they are. */
  ghost function Given(slots: Table, marked: seq<bool>, n: ClusterNode, upTo: nat): (t: Table)
    requires |marked| == |slots|
    ensures |t| == |slots|
    ensures forall j :: 0 <= j < |slots| ==> t[j] == if j < upTo && marked[j] then n else slots[j]
  {
    seq(|slots|, j requires 0 <= j < |slots| => if j < upTo && marked[j] then n else slots[j])
  }

  lemma GivenOneMore(slots: Table, marked: seq<bool>, n: ClusterNode, j: nat, t: Table)
    requires |marked| == |slots| && j < |slots| && t == Given(slots, marked, n, j)
    ensures t[j] == slots[j]
    ensures Given(slots, marked, n, j + 1) == if marked[j] then t[j := n] else t
  {}

  /** One of the first `upTo` slots is marked and with `owner`. */
  ghost predicate SomeTaken(slots: Table, marked: seq<bool>, owner: ClusterNode?, upTo: nat)
    requires |marked| == |slots|
  {
    exists j :: 0 <= j < upTo && j < |slots| && slots[j] == owner && marked[j]
  }

  lemma SomeTakenNext(slots: Table, marked: seq<bool>, owner: ClusterNode?, j: nat)
    requires |marked| == |slots| && j < |slots|
    ensures SomeTaken(slots, marked, owner, j + 1)
         == (SomeTaken(slots, marked, owner, j) || (slots[j] == owner && marked[j]))
  {}

  /** The marked ones of the first `upTo` slots that are this node's and hold keys. */
  ghost predicate DirtyBelow(dirty: seq<nat>, slots: Table, marked: seq<bool>, me: ClusterNode, keys: seq<nat>,
                             upTo: nat)
    requires |marked| == |slots| == |keys| && upTo <= |slots|
  {
    forall j: nat :: j in dirty <==> j < upTo && keys[j] > 0 && slots[j] == me && marked[j]
  }

  lemma DirtyNext(dirty: seq<nat>, slots: Table, marked: seq<bool>, me: ClusterNode, keys: seq<nat>, j: nat)
    requires |marked| == |slots| == |keys| && j < |slots| && DirtyBelow(dirty, slots, marked, me, keys, j)
    ensures DirtyBelow(if keys[j] > 0 && slots[j] == me && marked[j] then dirty + [j] else dirty,
                       slots, marked, me, keys, j + 1)
  {}

  /**
   A claimed slot goes to the claimant if it is not its already, not being
   imported, and free or held under a smaller epoch.
   */
  ghost predicate Taken(owner: ClusterNode?, importing: bool, claimed: bool, sender: ClusterNode, epoch: nat)
    reads if owner == null then {} else {owner}
  {
    claimed && owner != sender && !importing && (owner == null || owner.configEpoch < epoch)
  }

  /** How clusterUpdateSlotsConfigWith ends, and CLUSTER REPLICATE. */
  datatype Ending = Nothing | Reconfigured | NullDereferenced | AssertionFailed

  class SlotTable {
    const myself: ClusterNode
    var nodes: set<ClusterNode>
    var slots: Table
    var importing: Table
    var migrating: Table

    constructor (me: ClusterNode)
      requires me.slots == seq(BITMAP_BYTES, _ => 0) && me.numslots == 0
      ensures Valid() && myself == me && nodes == {me}
      ensures forall j :: 0 <= j < SLOTS ==> slots[j] == null && importing[j] == null && migrating[j] == null
    {
      myself, nodes := me, {me};
      slots, importing, migrating := seq(SLOTS, _ => null), seq(SLOTS, _ => null), seq(SLOTS, _ => null);
      new;
      assert Owned(slots, me) == {};
    }

    /** Bit j of a node's bitmap is set exactly when the table gives it slot j, and numslots counts those bits. */
    ghost predicate Agrees(n: ClusterNode)
      reads this, n
    {
      && |slots| == SLOTS && |n.slots| == BITMAP_BYTES
      && (forall j: nat :: j < SLOTS ==> (slots[j] == n <==> TestBit(n.slots, j)))
      && n.numslots == |Owned(slots, n)|
    }

    ghost predicate Valid()
      reads this, nodes
    {
      && |slots| == |importing| == |migrating| == SLOTS
      && myself in nodes
      && (forall n :: n in nodes ==> Agrees(n))
      && (forall j: nat :: j < SLOTS && slots[j] != null ==> slots[j] in nodes)
    }

    // ---------- one slot ----------

    /** clusterNodeSetSlotBit */
    static method SetSlotBit(n: ClusterNode, slot: nat) returns (wasSet: bool)
      requires |n.slots| == BITMAP_BYTES && slot < SLOTS
      modifies n`slots, n`numslots
      ensures wasSet == old(TestBit(n.slots, slot)) && n.slots == old(SetBit(n.slots, slot))
      ensures n.numslots == old(n.numslots) + if wasSet then 0 else 1
    {
      wasSet := TestBit(n.slots, slot);
      n.slots := SetBit(n.slots, slot);
      if !wasSet { n.numslots := n.numslots + 1; }
    }

    /** clusterNodeClearSlotBit */
    static method ClearSlotBit(n: ClusterNode, slot: nat) returns (wasSet: bool)
      requires |n.slots| == BITMAP_BYTES && slot < SLOTS && (TestBit(n.slots, slot) ==> n.numslots > 0)
      modifies n`slots, n`numslots
      ensures wasSet == old(TestBit(n.slots, slot)) && n.slots == old(ClearBit(n.slots, slot))
      ensures n.numslots == old(n.numslots) - if wasSet then 1 else 0
    {
      wasSet := TestBit(n.slots, slot);
      n.slots := ClearBit(n.slots, slot);
      if wasSet { n.numslots := n.numslots - 1; }
    }

    /** clusterAddSlot; it fails, changing nothing, when the slot has an owner. */
    method AddSlot(n: ClusterNode, slot: nat) returns (ok: bool)
      requires Valid() && n in nodes && slot < SLOTS
      modifies this`slots, n`slots, n`numslots
      ensures Valid()
      ensures ok == (old(slots[slot]) == null)
      ensures slots == if ok then old(slots)[slot := n] else old(slots)
    {
      if slots[slot] != null { return false; }
      ghost var before := slots;
      ghost var bits := n.slots;
      var wasSet := SetSlotBit(n, slot);
      slots := slots[slot := n];
      ok := true;
      forall j: nat | j < SLOTS ensures TestBit(n.slots, j) == (j == slot || TestBit(bits, j)) {
        SetBitEffect(bits, slot, j);
      }
      assert Owned(slots, n) == Owned(before, n) + {slot};
      forall m | m in nodes ensures Agrees(m) {
        assert m != n ==> Owned(slots, m) == Owned(before, m);
      }
    }

    /** clusterDelSlot. The assertion in it holds: the owner's bit is always set. */
    method DelSlot(slot: nat) returns (ok: bool)
      requires Valid() && slot < SLOTS
      modifies this`slots, (if slots[slot] == null then {} else {slots[slot]})`slots
      modifies (if slots[slot] == null then {} else {slots[slot]})`numslots
      ensures Valid()
      ensures ok == (old(slots[slot]) != null)
      ensures slots == old(slots)[slot := null]
    {
      var n := slots[slot];
      if n == null { return false; }
      ghost var before := slots;
      ghost var bits := n.slots;
      assert slot in Owned(slots, n);
      var wasSet := ClearSlotBit(n, slot);
      assert wasSet;
      slots := slots[slot := null];
      ok := true;
      forall j: nat | j < SLOTS ensures TestBit(n.slots, j) == (j != slot && TestBit(bits, j)) {
        ClearBitEffect(bits, slot, j);
      }
      assert Owned(slots, n) == Owned(before, n) - {slot};
      forall m | m in nodes ensures Agrees(m) {
        assert m != n ==> Owned(slots, m) == Owned(before, m);
      }
    }

    /** clusterDelSlot followed by clusterAddSlot, as every reassignment does it. */
    method MoveSlot(n: ClusterNode, slot: nat)
      requires Valid() && n in nodes && slot < SLOTS
      modifies this`slots, nodes`slots, nodes`numslots
      ensures Valid() && slots == old(slots)[slot := n]
    {
      UpdatedTwice(slots, slot, n);
      var _ := DelSlot(slot);
      var _ := AddSlot(n, slot);
    }

    // ---------- many slots ----------

    /** clusterDelNodeSlots. What it returns is the number of slots there are, not of those deleted. */
    method DelNodeSlots(node: ClusterNode) returns (deleted: nat)
      requires Valid() && node in nodes
      modifies this`slots, nodes`slots, nodes`numslots
      ensures Valid() && slots == Handed(old(slots), node, null)
      ensures deleted == SLOTS
    {
      deleted := 0;
      for j := 0 to SLOTS
        invariant Valid() && deleted == j
        invariant slots == HandedBelow(old(slots), node, null, j)
      {
        assert Agrees(node);
        HandedOneMore(old(slots), node, null, j, slots);
        if TestBit(node.slots, j) {
          var _ := DelSlot(j);
        }
        deleted := deleted + 1;
      }
    }

    /** One turn of the loop in clusterDelNode. */
    method ReleaseSlot(node: ClusterNode, j: nat)
      requires Valid() && node in nodes && j < SLOTS
      modifies this`slots, this`importing, this`migrating, nodes`slots, nodes`numslots
      ensures Valid()
      ensures slots == if old(slots)[j] == node then old(slots)[j := null] else old(slots)
      ensures importing == if old(importing)[j] == node then old(importing)[j := null] else old(importing)
      ensures migrating == if old(migrating)[j] == node then old(migrating)[j := null] else old(migrating)
    {
      if importing[j] == node { importing := importing[j := null]; }
      if migrating[j] == node { migrating := migrating[j := null]; }
      if slots[j] == node {
        var _ := DelSlot(j);
      }
    }

    /** clusterDelNode: the node's slots and open slots are released and it leaves the table. */
    method DelNode(node: ClusterNode)
      requires Valid() && node in nodes && node != myself
      modifies this`slots, this`importing, this`migrating, this`nodes, nodes`slots, nodes`numslots
      ensures Valid() && nodes == old(nodes) - {node}
      ensures slots == Handed(old(slots), node, null)
      ensures importing == Handed(old(importing), node, null)
      ensures migrating == Handed(old(migrating), node, null)
    {
      for j := 0 to SLOTS
        invariant Valid() && nodes == old(nodes)
        invariant slots == HandedBelow(old(slots), node, null, j)
        invariant importing == HandedBelow(old(importing), node, null, j)
        invariant migrating == HandedBelow(old(migrating), node, null, j)
      {
        HandedOneMore(old(slots), node, null, j, slots);
        HandedOneMore(old(importing), node, null, j, importing);
        HandedOneMore(old(migrating), node, null, j, migrating);
        ReleaseSlot(node, j);
      }
      nodes := nodes - {node};
    }

    /** The node joins the table, with no slots yet. */
    method AddNode(n: ClusterNode)
      requires Valid() && n !in nodes && n.slots == seq(BITMAP_BYTES, _ => 0) && n.numslots == 0
      modifies this`nodes
      ensures Valid() && nodes == old(nodes) + {n} && slots == old(slots)
    {
      nodes := nodes + {n};
      assert Owned(slots, n) == {};
    }

    /** clusterFailoverReplaceYourMaster: a slave takes over every slot of its master. */
    method ReplaceYourMaster()
      requires Valid() && (myself.slaveof != null ==> myself.slaveof in nodes && myself.slaveof != myself)
      modifies this`slots, nodes`slots, nodes`numslots, myself`isMaster, myself`slaveof
      ensures Valid()
      ensures old(myself.isMaster || myself.slaveof == null) ==>
        slots == old(slots) && myself.isMaster == old(myself.isMaster) && myself.slaveof == old(myself.slaveof)
      ensures old(!myself.isMaster && myself.slaveof != null) ==>
        && slots == Handed(old(slots), old(myself.slaveof), myself)
        && myself.isMaster && myself.slaveof == null && Follows()
    {
      var oldmaster := myself.slaveof;
      if myself.isMaster || oldmaster == null { return; }
      myself.isMaster, myself.slaveof := true, null;
      TakeSlotsOf(oldmaster);
    }

    method TakeSlotsOf(oldmaster: ClusterNode)
      requires Valid() && oldmaster in nodes && oldmaster != myself
      modifies this`slots, nodes`slots, nodes`numslots
      ensures Valid() && slots == Handed(old(slots), oldmaster, myself)
    {
      for j := 0 to SLOTS
        invariant Valid() && slots == HandedBelow(old(slots), oldmaster, myself, j)
      {
        assert Agrees(oldmaster);
        HandedOneMore(old(slots), oldmaster, myself, j, slots);
        if TestBit(oldmaster.slots, j) {
          MoveSlot(myself, j);
        }
      }
    }

    /** A slave knows its master. */
    ghost predicate Follows()
      reads this, myself
    {
      myself.isMaster || (myself.slaveof != null && myself.slaveof in nodes && myself.slaveof != myself)
    }

    /** CLUSTER FORGET: not this node, and not its master. */
    method Forget(node: ClusterNode) returns (ok: bool)
      requires Valid() && node in nodes
      modifies this`slots, this`importing, this`migrating, this`nodes, nodes`slots, nodes`numslots
      ensures Valid() && (old(Follows()) ==> Follows())
      ensures ok == !(node == myself || (!myself.isMaster && myself.slaveof == node))
      ensures nodes == if ok then old(nodes) - {node} else old(nodes)
      ensures slots == if ok then Handed(old(slots), node, null) else old(slots)
      ensures importing == if ok then Handed(old(importing), node, null) else old(importing)
      ensures migrating == if ok then Handed(old(migrating), node, null) else old(migrating)
    {
      if node == myself || (!myself.isMaster && myself.slaveof == node) { return false; }
      DelNode(node);
      ok := true;
    }

    /**
     CLUSTER REPLICATE, of a master, and by a node that is a slave already or
     holds neither slots nor keys. A slave that owns slots fails the assertion.
     */
    method Replicate(node: ClusterNode, keys: nat) returns (end: Ending)
      requires Valid() && node in nodes
      modifies this`importing, this`migrating, myself`isMaster, myself`slaveof
      ensures Valid() && (old(Follows()) ==> Follows())
      ensures end == Nothing <==>
        node == myself || !old(node.isMaster) || (old(myself.isMaster) && (myself.numslots != 0 || keys != 0))
      ensures end == Reconfigured ==> Follows() && !myself.isMaster && myself.slaveof == node
      ensures end == Reconfigured && old(myself.isMaster) ==>
        forall j :: 0 <= j < SLOTS ==> importing[j] == null && migrating[j] == null
      ensures end != Reconfigured || !old(myself.isMaster) ==>
        importing == old(importing) && migrating == old(migrating)
      ensures end == AssertionFailed <==>
        node != myself && old(node.isMaster && !myself.isMaster) && myself.numslots != 0
      ensures end != Reconfigured ==> myself.isMaster == old(myself.isMaster) && myself.slaveof == old(myself.slaveof)
      ensures end != NullDereferenced
    {
      if node == myself || !node.isMaster { return Nothing; }
      if myself.isMaster && (myself.numslots != 0 || keys != 0) { return Nothing; }
      if myself.numslots != 0 { return AssertionFailed; }
      SetMaster(node);
      end := Reconfigured;
    }

    // ---------- claims in packets ----------

    ghost predicate TakenAt(j: nat, sender: ClusterNode, epoch: nat, claimed: seq<bool>)
      requires |slots| == |importing| == |claimed| == SLOTS && j < SLOTS
      reads this, slots
    {
      Taken(slots[j], importing[j] != null, claimed[j], sender, epoch)
    }

    /** The first `upTo` slots as the claims of `sender` leave them. */
    ghost function Rebound(sender: ClusterNode, epoch: nat, claimed: seq<bool>, upTo: nat): (t: Table)
      requires |slots| == |importing| == |claimed| == SLOTS
      reads this, slots
      ensures |t| == SLOTS
      ensures forall j: nat :: j < SLOTS ==>
        t[j] == if j < upTo && TakenAt(j, sender, epoch, claimed) then sender else slots[j]
    {
      seq(SLOTS, j requires 0 <= j < SLOTS && |slots| == |importing| == |claimed| == SLOTS reads this, slots =>
        if j < upTo && TakenAt(j, sender, epoch, claimed) then sender else slots[j])
    }

    /** Some slot below `upTo` is taken away from `owner`. */
    ghost predicate TakenFrom(owner: ClusterNode?, sender: ClusterNode, epoch: nat, claimed: seq<bool>, upTo: nat)
      requires |slots| == |importing| == |claimed| == SLOTS
      reads this, slots
    {
      exists j: nat :: j < upTo && j < SLOTS && slots[j] == owner && TakenAt(j, sender, epoch, claimed)
    }

    /** The scan in clusterUpdateSlotsConfigWith. */
    method RebindSlots(sender: ClusterNode, epoch: nat, claimed: seq<bool>, keys: seq<nat>, curmaster: ClusterNode?)
      returns (newmaster: bool, dirty: seq<nat>)
      requires Valid() && sender in nodes && sender != myself && |claimed| == |keys| == SLOTS
      modifies this`slots, nodes`slots, nodes`numslots
      ensures Valid() && slots == old(Rebound(sender, epoch, claimed, SLOTS))
      ensures newmaster == old(TakenFrom(curmaster, sender, epoch, claimed, SLOTS))
      ensures forall j: nat :: j in dirty <==>
        j < SLOTS && keys[j] > 0 && old(slots)[j] == myself && old(TakenAt(j, sender, epoch, claimed))
    {
      ghost var takes := Takes(sender, epoch, claimed);
      newmaster, dirty := ScanClaims(sender, epoch, claimed, keys, curmaster, takes);
      assert slots == old(Rebound(sender, epoch, claimed, SLOTS));
    }

    /** The scan, given which slots it is going to take. */
    method ScanClaims(sender: ClusterNode, epoch: nat, claimed: seq<bool>, keys: seq<nat>, curmaster: ClusterNode?,
                      ghost takes: seq<bool>) returns (newmaster: bool, dirty: seq<nat>)
      requires Valid() && sender in nodes && |claimed| == |keys| == SLOTS && takes == Takes(sender, epoch, claimed)
      modifies this`slots, nodes`slots, nodes`numslots
      ensures Valid() && slots == Given(old(slots), takes, sender, SLOTS)
      ensures newmaster == SomeTaken(old(slots), takes, curmaster, SLOTS)
      ensures DirtyBelow(dirty, old(slots), takes, myself, keys, SLOTS)
    {
      newmaster, dirty := false, [];
      for j := 0 to SLOTS
        invariant Valid() && slots == Given(old(slots), takes, sender, j)
        invariant newmaster == SomeTaken(old(slots), takes, curmaster, j)
        invariant DirtyBelow(dirty, old(slots), takes, myself, keys, j)
      {
        SomeTakenNext(old(slots), takes, curmaster, j);
        DirtyNext(dirty, old(slots), takes, myself, keys, j);
        var slot: nat := j;
        var owner, taken := ScanSlot(sender, epoch, claimed, slot, old(slots), takes);
        if taken && owner == myself && keys[j] > 0 { dirty := dirty + [slot]; }
        if taken && owner == curmaster { newmaster := true; }
      }
    }

    method ScanSlot(sender: ClusterNode, epoch: nat, claimed: seq<bool>, j: nat, ghost before: Table,
                    ghost takes: seq<bool>) returns (owner: ClusterNode?, taken: bool)
      requires Valid() && sender in nodes && |claimed| == |takes| == |before| == SLOTS && j < SLOTS
      requires slots == Given(before, takes, sender, j)
      requires takes[j] == Taken(before[j], importing[j] != null, claimed[j], sender, epoch)
      modifies this`slots, nodes`slots, nodes`numslots
      ensures Valid() && slots == Given(before, takes, sender, j + 1)
      ensures owner == before[j] && taken == takes[j]
    {
      GivenOneMore(before, takes, sender, j, slots);
      owner := slots[j];
      taken := RebindSlot(sender, epoch, claimed, j);
    }

    /** Which slots the claims of `sender` take. */
    ghost function Takes(sender: ClusterNode, epoch: nat, claimed: seq<bool>): (r: seq<bool>)
      requires |slots| == |importing| == |claimed| == SLOTS
      reads this, slots
      ensures |r| == SLOTS && forall j: nat :: j < SLOTS ==> r[j] == TakenAt(j, sender, epoch, claimed)
    {
      seq(SLOTS, j requires 0 <= j < SLOTS && |slots| == |importing| == |claimed| == SLOTS reads this, slots =>
        TakenAt(j, sender, epoch, claimed))
    }

    /** One turn of the scan. */
    method RebindSlot(sender: ClusterNode, epoch: nat, claimed: seq<bool>, j: nat) returns (taken: bool)
      requires Valid() && sender in nodes && |claimed| == SLOTS && j < SLOTS
      modifies this`slots, nodes`slots, nodes`numslots
      ensures Valid() && taken == old(TakenAt(j, sender, epoch, claimed))
      ensures slots == if taken then old(slots)[j := sender] else old(slots)
    {
      taken := false;
      if claimed[j] {
        if slots[j] != sender && importing[j] == null {
          if slots[j] == null || slots[j].configEpoch < epoch {
            taken := true;
            MoveSlot(sender, j);
          }
        }
      }
    }

    /** clusterSetMaster, whose two assertions are its preconditions. */
    method SetMaster(n: ClusterNode)
      requires Valid() && n != myself && myself.numslots == 0
      modifies this`importing, this`migrating, myself`isMaster, myself`slaveof
      ensures Valid() && !myself.isMaster && myself.slaveof == n
      ensures old(myself.isMaster) ==> forall j :: 0 <= j < SLOTS ==> importing[j] == null && migrating[j] == null
      ensures !old(myself.isMaster) ==> importing == old(importing) && migrating == old(migrating)
    {
      if myself.isMaster {
        myself.isMaster := false;
        importing, migrating := seq(SLOTS, _ => null), seq(SLOTS, _ => null);
      }
      myself.slaveof := n;
    }

    /** The node whose losses matter here: this one, or its master if it is a slave. */
    ghost function Curmaster(): ClusterNode?
      reads this, myself
    {
      if myself.isMaster then myself else myself.slaveof
    }

    /** All that is left to the node, if it lost anything, has been taken from it. */
    ghost predicate LeftWithNothing(sender: ClusterNode, epoch: nat, claimed: seq<bool>)
      requires |slots| == |importing| == |claimed| == SLOTS
      reads this, myself, slots
    {
      && Curmaster() != null && TakenFrom(Curmaster(), sender, epoch, claimed, SLOTS)
      && Owned(Rebound(sender, epoch, claimed, SLOTS), Curmaster()) == {}
    }

    /**
     clusterUpdateSlotsConfigWith. It dereferences NULL exactly when the node is
     a slave without a master and an unassigned slot is taken; the assertion in
     clusterSetMaster fails exactly when the slave that is to be reconfigured
     has slots of its own.
     */
    method UpdateSlotsConfigWith(sender: ClusterNode, epoch: nat, claimed: seq<bool>, keys: seq<nat>)
      returns (end: Ending, cleared: seq<nat>)
      requires Valid() && sender in nodes && |claimed| == |keys| == SLOTS
      requires Curmaster() != null ==> Curmaster() in nodes
      modifies this`slots, this`importing, this`migrating, nodes`slots, nodes`numslots
      modifies myself`isMaster, myself`slaveof
      ensures Valid()
      ensures sender == myself ==> end == Nothing && cleared == [] && slots == old(slots)
      ensures sender != myself ==> slots == old(Rebound(sender, epoch, claimed, SLOTS))
      ensures end == NullDereferenced <==>
        sender != myself && old(Curmaster() == null && TakenFrom(null, sender, epoch, claimed, SLOTS))
      ensures end == Reconfigured || end == AssertionFailed <==>
        sender != myself && old(LeftWithNothing(sender, epoch, claimed))
      ensures end == AssertionFailed ==> !myself.isMaster && Owned(slots, myself) != {}
      ensures old(Follows()) ==> Follows() && end != NullDereferenced
      ensures end == Reconfigured ==> !myself.isMaster && myself.slaveof == sender && Owned(slots, myself) == {}
      ensures end != Reconfigured ==> importing == old(importing) && migrating == old(migrating)
      ensures end != Reconfigured ==> myself.isMaster == old(myself.isMaster) && myself.slaveof == old(myself.slaveof)
      ensures end != Nothing ==> cleared == []
      ensures end == Nothing && sender != myself ==> forall j: nat :: j in cleared <==>
        j < SLOTS && keys[j] > 0 && old(slots)[j] == myself && old(TakenAt(j, sender, epoch, claimed))
    {
      end, cleared := Nothing, [];
      var curmaster := if myself.isMaster then myself else myself.slaveof;
      if sender == myself { return; }
      var newmaster, dirty := RebindSlots(sender, epoch, claimed, keys, curmaster);
      if newmaster && curmaster == null { return NullDereferenced, []; }
      assert Agrees(myself) && (curmaster != null ==> Agrees(curmaster));
      if newmaster && curmaster.numslots == 0 {
        assert Owned(slots, curmaster) == {};
        if myself.numslots != 0 { return AssertionFailed, []; }
        SetMaster(sender);
        return Reconfigured, [];
      }
      cleared := dirty;
    }

    // ---------- CLUSTER ADDSLOTS, DELSLOTS and SETSLOT NODE ----------

    /** Every argument is a slot, none twice, and each is assigned if it is to be deleted, free if it is to be added. */
    ghost predicate Acceptable(del: bool, args: seq<Option<nat>>, upTo: nat)
      requires |slots| == SLOTS && upTo <= |args|
      reads this
    {
      && (forall i :: 0 <= i < upTo ==> args[i].Some? && args[i].value < SLOTS && (slots[args[i].value] != null) == del)
      && (forall i, k :: 0 <= i < k < upTo ==> args[i] != args[k])
    }

    /** The checks made before anything is changed. */
    method CheckSlots(del: bool, args: seq<Option<nat>>) returns (ok: bool, chosen: seq<nat>)
      requires |slots| == SLOTS
      requires forall i :: 0 <= i < |args| && args[i].Some? ==> args[i].value < SLOTS
      ensures ok == Acceptable(del, args, |args|)
      ensures |chosen| == SLOTS && (ok ==> forall j: nat :: j < SLOTS ==> (chosen[j] != 0 <==> Some(j) in args))
    {
      chosen := seq(SLOTS, _ => 0);
      for i := 0 to |args|
        invariant |chosen| == SLOTS && Acceptable(del, args, i)
        invariant forall j: nat :: j < SLOTS ==> chosen[j] == if Some(j) in args[..i] then 1 else 0
      {
        if args[i] == None { return false, chosen; }
        var slot := args[i].value;
        if del && slots[slot] == null { return false, chosen; }
        if !del && slots[slot] != null { return false, chosen; }
        var count := chosen[slot];
        chosen := chosen[slot := count + 1];
        if count == 1 {
          assert Some(slot) in args[..i];
          return false, chosen;
        }
        assert args[..i + 1] == args[..i] + [args[i]];
      }
      assert args[..|args|] == args;
      ok := true;
    }

    /** One chosen slot; the assertion on the return value holds, since every argument was checked. */
    method CommandSlot(del: bool, j: nat)
      requires Valid() && j < SLOTS && (slots[j] != null) == del
      modifies this`slots, this`importing, nodes`slots, nodes`numslots
      ensures Valid()
      ensures slots == old(slots)[j := if del then null else myself]
      ensures importing == old(importing)[j := null]
    {
      var retval;
      if importing[j] != null { importing := importing[j := null]; }
      if del { retval := DelSlot(j); } else { retval := AddSlot(myself, j); }
      assert retval;
    }

    /** CLUSTER ADDSLOTS and DELSLOTS: all the slots or, on any bad argument, none. */
    method AddOrDelSlots(del: bool, args: seq<Option<nat>>) returns (ok: bool)
      requires Valid()
      requires forall i :: 0 <= i < |args| && args[i].Some? ==> args[i].value < SLOTS
      modifies this`slots, this`importing, nodes`slots, nodes`numslots
      ensures Valid() && ok == old(Acceptable(del, args, |args|))
      ensures slots == if ok then Commanded(old(slots), args, if del then null else myself, SLOTS) else old(slots)
      ensures importing == if ok then Commanded(old(importing), args, null, SLOTS) else old(importing)
    {
      var chosen: seq<nat>;
      ok, chosen := CheckSlots(del, args);
      if !ok { return; }
      ghost var owner := if del then null else myself;
      for j := 0 to SLOTS
        invariant Valid() && slots == Commanded(old(slots), args, owner, j)
        invariant importing == Commanded(old(importing), args, null, j)
      {
        CommandedOneMore(old(slots), args, owner, j, slots);
        CommandedOneMore(old(importing), args, null, j, importing);
        if chosen[j] != 0 {
          CommandSlot(del, j);
        }
      }
    }

    /** CLUSTER SETSLOT NODE; `bump` asks for a new configEpoch without consensus. */
    method SetSlotNode(slot: nat, n: ClusterNode, keysInSlot: nat) returns (ok: bool, bump: bool)
      requires Valid() && n in nodes && slot < SLOTS
      modifies this`slots, this`importing, this`migrating, nodes`slots, nodes`numslots
      ensures Valid()
      ensures ok == !(old(slots)[slot] == myself && n != myself && keysInSlot != 0)
      ensures bump == (ok && n == myself && old(importing)[slot] != null)
      ensures slots == if ok then old(slots)[slot := n] else old(slots)
      ensures importing == if bump then old(importing)[slot := null] else old(importing)
      ensures migrating == if ok && keysInSlot == 0 then old(migrating)[slot := null] else old(migrating)
    {
      ok, bump := true, false;
      if slots[slot] == myself && n != myself {
        if keysInSlot != 0 { return false, false; }
      }
      if keysInSlot == 0 && migrating[slot] != null { migrating := migrating[slot := null]; }
      if n == myself && importing[slot] != null {
        bump := true;
        importing := importing[slot := null];
      }
      MoveSlot(n, slot);
    }
  }

  /**
   A scan of claims changes a slot exactly if it is claimed, not being imported
   here, not the claimant's already, and free or held under a smaller epoch.
   */
  lemma ReboundExactlyWhen(t: SlotTable, sender: ClusterNode, epoch: nat, claimed: seq<bool>, j: nat)
    requires |t.slots| == |t.importing| == |claimed| == SLOTS && j < SLOTS
    ensures var now := t.Rebound(sender, epoch, claimed, SLOTS)[j];
      && (now == t.slots[j] || now == sender)
      && (now != t.slots[j] <==>
            && claimed[j] && t.importing[j] == null && t.slots[j] != sender
            && (t.slots[j] != null ==> t.slots[j].configEpoch < epoch))
  {
    var now := t.Rebound(sender, epoch, claimed, SLOTS)[j];
    assert now == if t.TakenAt(j, sender, epoch, claimed) then sender else t.slots[j];
  }

  /** In a table that agrees with a node's bitmap, numslots is the number of bits set in it. */
  lemma NumslotsCountsBits(t: SlotTable, n: ClusterNode)
    requires t.Valid() && n in t.nodes
    ensures |n.slots| == BITMAP_BYTES && n.numslots == |set j: nat | j < SLOTS && TestBit(n.slots, j)|
  {
    assert t.Agrees(n);
    assert Owned(t.slots, n) == set j: nat | j < SLOTS && TestBit(n.slots, j);
  }

  /** A slave owns slot 0, and its master owns slot 1 only, in epoch 0. */
  ghost predicate SlaveWithSlots(t: SlotTable, claimant: ClusterNode)
    reads t, t.nodes, t.slots
  {
    && t.Valid() && t.Follows() && !t.myself.isMaster && claimant in t.nodes
    && claimant != t.myself && claimant != t.myself.slaveof && t.myself.slaveof.configEpoch == 0
    && t.slots[0] == t.myself && t.slots[1] == t.myself.slaveof && t.importing[1] == null
    && forall j :: 2 <= j < SLOTS ==> t.slots[j] == null
  }

  lemma ClaimOnSlotOne(t: SlotTable, claimant: ClusterNode, claimed: seq<bool>)
    requires SlaveWithSlots(t, claimant) && claimed == seq(SLOTS, j => j == 1)
    ensures t.LeftWithNothing(claimant, 1, claimed)
    ensures t.Rebound(claimant, 1, claimed, SLOTS)[0] == t.myself
  {
    assert t.TakenAt(1, claimant, 1, claimed);
    assert Owned(t.Rebound(claimant, 1, claimed, SLOTS), t.myself.slaveof) == {};
  }

  /** A new master that knows two others, none with any slot. */
  method MakeThree() returns (t: SlotTable, second: ClusterNode, third: ClusterNode)
    ensures fresh(t) && fresh(t.nodes) && t.Valid() && t.myself.isMaster && t.myself.numslots == 0
    ensures t.nodes == {t.myself, second, third} && |{t.myself, second, third}| == 3
    ensures second.isMaster && second.configEpoch == 0
    ensures forall j :: 0 <= j < SLOTS ==> t.slots[j] == null && t.importing[j] == null
  {
    var me := new ClusterNode(0, true, false);
    second := new ClusterNode(1, true, false);
    third := new ClusterNode(2, true, false);
    t := new SlotTable(me);
    t.AddNode(second);
    t.AddNode(third);
  }

  /** A new slave, of a master known to it, with one other node. */
  method MakeSlave() returns (t: SlotTable, claimant: ClusterNode)
    ensures fresh(t) && fresh(t.nodes) && t.Valid() && t.Follows() && !t.myself.isMaster && claimant in t.nodes
    ensures claimant != t.myself && claimant != t.myself.slaveof && t.myself.slaveof.configEpoch == 0
    ensures forall j :: 0 <= j < SLOTS ==> t.slots[j] == null && t.importing[j] == null
  {
    var master;
    t, master, claimant := MakeThree();
    var end := t.Replicate(master, 0);
  }

  /** Slot 1 is the master's, and CLUSTER ADDSLOTS gives the slave slot 0. */
  method MakeSlaveWithSlots() returns (t: SlotTable, claimant: ClusterNode)
    ensures SlaveWithSlots(t, claimant) && fresh(t) && fresh(t.nodes)
  {
    t, claimant := MakeSlave();
    var bound := t.AddSlot(t.myself.slaveof, 1);
    ghost var before := t.slots;
    assert t.Acceptable(false, [Some(0)], 1);
    var added := t.AddOrDelSlots(false, [Some(0)]);
    assert t.slots == Commanded(before, [Some(0)], t.myself, SLOTS);
    assert Some(0) in [Some(0)] && Some(1) !in [Some(0)];
  }

  /** The assertion in clusterSetMaster can fail: the master of such a slave loses its only slot to a claim. */
  method AssertionCanFail() returns (end: Ending)
    ensures end == AssertionFailed
  {
    var t, claimant := MakeSlaveWithSlots();
    var claimed := seq(SLOTS, j => j == 1);
    ClaimOnSlotOne(t, claimant, claimed);
    var cleared;
    end, cleared := t.UpdateSlotsConfigWith(claimant, 1, claimed, seq(SLOTS, _ => 0));
    assert 0 in Owned(t.slots, t.myself);
  }
}
