/**
 How a node's view of who owns which slot follows from the claims of the
 masters (cluster.c), whatever order and however often they arrive.
 */
module SlotConvergence {
  import opened ClusterNodes
  import ConfigEpochs
  import opened OptionType
  import opened SlotIndex

  /** The owner of every slot, and the configEpoch known for every node. */
  datatype View = View(owners: seq<Option<nat>>, epochs: map<nat, nat>)

  /** What a master publishes in its pings, or another node about it in an UPDATE. */
  datatype Claim = Claim(epoch: nat, slots: seq<bool>)

  type Claims = map<nat, Claim>

  datatype Packet = Packet(about: nat, ping: bool)

  /** Owners and claimants are in the node's table. */
  ghost predicate WellFormed(v: View, cs: Claims) {
    && |v.owners| == SLOTS
    && (forall j :: 0 <= j < SLOTS && v.owners[j].Some? ==> v.owners[j].value in v.epochs)
    && (forall n :: n in cs ==> n in v.epochs && |cs[n].slots| == SLOTS)
  }

  // ---------- one packet ----------

  predicate Takes(owner: Option<nat>, epochs: map<nat, nat>, n: nat, epoch: nat, claimed: bool)
    requires owner.Some? ==> owner.value in epochs
  {
    claimed && owner != Some(n) && (owner == None || epochs[owner.value] < epoch)
  }

  function Rebind(v: View, n: nat, epoch: nat, claimed: seq<bool>): (owners: seq<Option<nat>>)
    requires |v.owners| == |claimed| == SLOTS
    requires forall j :: 0 <= j < SLOTS && v.owners[j].Some? ==> v.owners[j].value in v.epochs
    ensures |owners| == SLOTS
    ensures forall j :: 0 <= j < SLOTS ==>
      owners[j] == if Takes(v.owners[j], v.epochs, n, epoch, claimed[j]) then Some(n) else v.owners[j]
  {
    seq(SLOTS, j requires 0 <= j < SLOTS =>
      if Takes(v.owners[j], v.epochs, n, epoch, claimed[j]) then Some(n) else v.owners[j])
  }

  /** The bitmap held for the node differs from the one it publishes. */
  predicate Dirty(v: View, n: nat, claimed: seq<bool>)
    requires |v.owners| == |claimed| == SLOTS
  {
    exists j :: 0 <= j < SLOTS && (v.owners[j] == Some(n)) != claimed[j]
  }

  function Raised(v: View, n: nat, epoch: nat): View
    requires n in v.epochs
  {
    v.(epochs := v.epochs[n := ConfigEpochs.Max(v.epochs[n], epoch)])
  }

  ghost function Receive(v: View, cs: Claims, p: Packet): View
    requires WellFormed(v, cs) && p.about in cs
  {
    var c := cs[p.about];
    var raised := Raised(v, p.about, c.epoch);
    if p.ping then
      if Dirty(v, p.about, c.slots) then raised.(owners := Rebind(raised, p.about, c.epoch, c.slots)) else raised
    else
      if v.epochs[p.about] >= c.epoch then v
      else raised.(owners := Rebind(raised, p.about, c.epoch, c.slots))
  }

  /** The scan skipped when the bitmaps match would have changed nothing. */
  lemma SkippingChangesNothing(v: View, cs: Claims, n: nat)
    requires WellFormed(v, cs) && n in cs && !Dirty(v, n, cs[n].slots)
    ensures Rebind(v, n, cs[n].epoch, cs[n].slots) == v.owners
  {
    forall j | 0 <= j < SLOTS ensures Rebind(v, n, cs[n].epoch, cs[n].slots)[j] == v.owners[j] {
      assert cs[n].slots[j] ==> v.owners[j] == Some(n);
    }
  }

  /** What one packet does to one slot. */
  lemma ReceiveSlot(v: View, cs: Claims, p: Packet, j: nat)
    requires WellFormed(v, cs) && p.about in cs && j < SLOTS
    ensures WellFormed(Receive(v, cs, p), cs)
    ensures p.ping || v.epochs[p.about] < cs[p.about].epoch ==>
      Receive(v, cs, p).owners[j]
        == if Takes(v.owners[j], v.epochs, p.about, cs[p.about].epoch, cs[p.about].slots[j])
           then Some(p.about) else v.owners[j]
    ensures !p.ping && v.epochs[p.about] >= cs[p.about].epoch ==> Receive(v, cs, p).owners[j] == v.owners[j]
    ensures Receive(v, cs, p).epochs == v.epochs[p.about := ConfigEpochs.Max(v.epochs[p.about], cs[p.about].epoch)]
  {
    var c := cs[p.about];
    var raised := Raised(v, p.about, c.epoch);
    if p.ping && !Dirty(v, p.about, c.slots) {
      assert c.slots[j] ==> v.owners[j] == Some(p.about);
    }
    if !p.ping && v.epochs[p.about] >= c.epoch {
      assert raised.epochs == v.epochs;
    }
  }

  /** An owner is only ever replaced under a strictly greater epoch. */
  lemma ReplacedOnlyByGreater(v: View, cs: Claims, p: Packet, j: nat)
    requires WellFormed(v, cs) && p.about in cs && j < SLOTS
    requires v.owners[j].Some? && Receive(v, cs, p).owners[j] != v.owners[j]
    ensures Receive(v, cs, p).owners[j] == Some(p.about)
    ensures v.epochs[v.owners[j].value] < cs[p.about].epoch && cs[p.about].slots[j]
  {
    ReceiveSlot(v, cs, p, j);
  }

  // ---------- any sequence of packets ----------

  ghost predicate AllKnown(cs: Claims, ps: seq<Packet>) {
    forall i :: 0 <= i < |ps| ==> ps[i].about in cs
  }

  ghost function Run(v: View, cs: Claims, ps: seq<Packet>): (r: View)
    requires WellFormed(v, cs) && AllKnown(cs, ps)
    ensures WellFormed(r, cs)
    decreases |ps|
  {
    if ps == [] then v
    else
      ReceiveSlot(v, cs, ps[0], 0);
      Run(Receive(v, cs, ps[0]), cs, ps[1..])
  }

  /** Packets of these claims only, and at least one ping from every claimant. */
  ghost predicate Covers(cs: Claims, ps: seq<Packet>) {
    AllKnown(cs, ps) && forall n :: n in cs ==> Packet(n, true) in ps
  }

  ghost predicate DistinctEpochs(cs: Claims) {
    forall m, n :: m in cs && n in cs && cs[m].epoch == cs[n].epoch ==> m == n
  }

  ghost predicate Claimant(cs: Claims, j: nat, n: nat) {
    n in cs && j < |cs[n].slots| && cs[n].slots[j]
  }

  /** The claimant of slot j with the greatest configEpoch. */
  ghost predicate Top(cs: Claims, j: nat, t: nat) {
    Claimant(cs, j, t) && forall n :: Claimant(cs, j, n) ==> cs[n].epoch <= cs[t].epoch
  }

  /** The epoch the receiver will know for a node once every claim has been heard. */
  ghost function Eventual(v: View, cs: Claims, n: nat): nat
    requires n in v.epochs
  {
    if n in cs then ConfigEpochs.Max(v.epochs[n], cs[n].epoch) else v.epochs[n]
  }

  /** A node that has slot j at the start, or can get it from whoever has. */
  ghost predicate MayOwn(v: View, cs: Claims, j: nat, n: nat)
    requires WellFormed(v, cs) && j < SLOTS
  {
    || v.owners[j] == Some(n)
    || (Claimant(cs, j, n) && Takes(v.owners[j], v.epochs, n, cs[n].epoch, true))
  }

  /** No other possible owner is, or will be, known under an epoch as great as that of the top claimant. */
  ghost predicate NoneBlocks(v: View, cs: Claims, j: nat, t: nat)
    requires WellFormed(v, cs) && j < SLOTS && Top(cs, j, t)
  {
    forall o :: o in v.epochs && o != t && MayOwn(v, cs, j, o) ==> Eventual(v, cs, o) < cs[t].epoch
  }

  ghost predicate AlwaysWins(v: View, cs: Claims, j: nat, t: nat)
    requires WellFormed(v, cs) && j < SLOTS
  {
    forall ps :: Covers(cs, ps) ==> Run(v, cs, ps).owners[j] == Some(t)
  }

  // ---------- the condition suffices ----------

  ghost predicate EpochsBetween(v0: View, v: View, cs: Claims) {
    && v.epochs.Keys == v0.epochs.Keys && (forall n :: n in cs ==> n in v0.epochs)
    && forall n :: n in v0.epochs ==> v0.epochs[n] <= v.epochs[n] <= Eventual(v0, cs, n)
  }

  /**
   The slot is where it was, or with a possible owner whose claim has been
   heard; once the top has pinged, with the top.
   */
  ghost predicate OnTheWay(v0: View, v: View, cs: Claims, j: nat, t: nat, pinged: bool)
    requires WellFormed(v0, cs) && WellFormed(v, cs) && j < SLOTS
  {
    && EpochsBetween(v0, v, cs)
    && (v.owners[j] == v0.owners[j]
        || (v.owners[j].Some? && var o := v.owners[j].value;
            Claimant(cs, j, o) && MayOwn(v0, cs, j, o) && v.epochs[o] >= cs[o].epoch))
    && (pinged ==> v.owners[j] == Some(t) && t in cs && v.epochs[t] >= cs[t].epoch)
  }

  lemma EpochsStayBetween(v0: View, v: View, cs: Claims, p: Packet)
    requires WellFormed(v, cs) && p.about in cs && EpochsBetween(v0, v, cs)
    ensures EpochsBetween(v0, Receive(v, cs, p), cs)
  {
    ReceiveSlot(v, cs, p, 0);
  }

  lemma OneStepOnTheWay(v0: View, v: View, cs: Claims, j: nat, t: nat, pinged: bool, p: Packet)
    requires WellFormed(v0, cs) && WellFormed(v, cs) && j < SLOTS && p.about in cs
    requires DistinctEpochs(cs) && Top(cs, j, t) && NoneBlocks(v0, cs, j, t)
    requires OnTheWay(v0, v, cs, j, t, pinged)
    ensures WellFormed(Receive(v, cs, p), cs)
    ensures OnTheWay(v0, Receive(v, cs, p), cs, j, t, pinged || p == Packet(t, true))
  {
    if v.owners[j].Some? && v.owners[j] != Some(t) {
      var o := v.owners[j].value;
      assert MayOwn(v0, cs, j, o) && Eventual(v0, cs, o) < cs[t].epoch;
    }
    ReceiveSlot(v, cs, p, j);
    EpochsStayBetween(v0, v, cs, p);
    var n := p.about;
    if Receive(v, cs, p).owners[j] != v.owners[j] {
      assert Claimant(cs, j, n) && Takes(v.owners[j], v.epochs, n, cs[n].epoch, true);
      assert MayOwn(v0, cs, j, n);
      assert n != t ==> cs[n].epoch < cs[t].epoch;
    }
  }

  lemma {:induction false} RunOnTheWay(v0: View, v: View, cs: Claims, j: nat, t: nat, pinged: bool, ps: seq<Packet>)
    requires WellFormed(v0, cs) && WellFormed(v, cs) && j < SLOTS && AllKnown(cs, ps)
    requires DistinctEpochs(cs) && Top(cs, j, t) && NoneBlocks(v0, cs, j, t)
    requires OnTheWay(v0, v, cs, j, t, pinged)
    ensures pinged || Packet(t, true) in ps ==> Run(v, cs, ps).owners[j] == Some(t)
    decreases |ps|
  {
    if ps != [] {
      OneStepOnTheWay(v0, v, cs, j, t, pinged, ps[0]);
      RunOnTheWay(v0, Receive(v, cs, ps[0]), cs, j, t, pinged || ps[0] == Packet(t, true), ps[1..]);
    }
  }

  // ---------- and it is needed ----------

  /** A node known under an epoch no claim exceeds keeps its slot. */
  lemma {:induction false} KeptByGreatest(v: View, cs: Claims, j: nat, o: nat, ps: seq<Packet>)
    requires WellFormed(v, cs) && j < SLOTS && AllKnown(cs, ps) && v.owners[j] == Some(o)
    requires forall n :: Claimant(cs, j, n) && n != o ==> cs[n].epoch <= v.epochs[o]
    ensures Run(v, cs, ps).owners[j] == Some(o)
    decreases |ps|
  {
    if ps != [] {
      ReceiveSlot(v, cs, ps[0], j);
      KeptByGreatest(Receive(v, cs, ps[0]), cs, j, o, ps[1..]);
    }
  }

  lemma {:induction false} PingEveryone(cs: Claims, names: set<nat>) returns (ps: seq<Packet>)
    requires forall n :: n in names ==> n in cs
    ensures AllKnown(cs, ps) && forall n :: n in names ==> Packet(n, true) in ps
    decreases names
  {
    if names == {} {
      ps := [];
    } else {
      var n :| n in names;
      var rest := PingEveryone(cs, names - {n});
      ps := [Packet(n, true)] + rest;
    }
  }

  /** A node in the way keeps the slot from the top claimant when its own claim comes first. */
  lemma BlockerWins(v: View, cs: Claims, j: nat, t: nat, o: nat) returns (ps: seq<Packet>)
    requires WellFormed(v, cs) && j < SLOTS && Top(cs, j, t)
    requires o in v.epochs && o != t && MayOwn(v, cs, j, o) && Eventual(v, cs, o) >= cs[t].epoch
    ensures Covers(cs, ps) && Run(v, cs, ps).owners[j] == Some(o)
  {
    var rest := PingEveryone(cs, cs.Keys);
    if o in cs {
      ReceiveSlot(v, cs, Packet(o, true), j);
      KeptByGreatest(Receive(v, cs, Packet(o, true)), cs, j, o, rest);
      ps := [Packet(o, true)] + rest;
      assert ps[1..] == rest;
    } else {
      KeptByGreatest(v, cs, j, o, rest);
      ps := rest;
    }
  }

  /** Every order and repetition gives the slot to its greatest-epoch claimant exactly when none blocks it. */
  lemma AlwaysWinsExactlyWhen(v: View, cs: Claims, j: nat, t: nat)
    requires WellFormed(v, cs) && j < SLOTS && DistinctEpochs(cs) && Top(cs, j, t)
    ensures AlwaysWins(v, cs, j, t) <==> NoneBlocks(v, cs, j, t)
  {
    if NoneBlocks(v, cs, j, t) {
      forall ps | Covers(cs, ps) ensures Run(v, cs, ps).owners[j] == Some(t) {
        RunOnTheWay(v, v, cs, j, t, false, ps);
      }
    } else {
      var o :| o in v.epochs && o != t && MayOwn(v, cs, j, o) && Eventual(v, cs, o) >= cs[t].epoch;
      var ps := BlockerWins(v, cs, j, t, o);
    }
  }

  /** Slot 0 with node 1, known under epoch 5, which claims nothing; node 2 claims it under epoch 3. */
  function GivenUp(): (v: View)
    ensures |v.owners| == SLOTS && v.owners[0] == Some(1) && v.epochs == map[1 := 5, 2 := 0]
    ensures forall j :: 1 <= j < SLOTS ==> v.owners[j] == None
  {
    View(seq(SLOTS, j => if j == 0 then Some(1) else None), map[1 := 5, 2 := 0])
  }

  function GivenUpClaims(): Claims {
    map[1 := Claim(5, seq(SLOTS, _ => false)), 2 := Claim(3, seq(SLOTS, j => j == 0))]
  }

  /**
   Such a slot stays with its old owner, whatever packets arrive, though no
   other node claims it any more: node 1 has given it up by DELSLOTS, node 2 has
   taken it by ADDSLOTS, and neither command makes a new configEpoch.
   */
  lemma ClaimantCanLose(ps: seq<Packet>)
    requires AllKnown(GivenUpClaims(), ps)
    ensures WellFormed(GivenUp(), GivenUpClaims()) && DistinctEpochs(GivenUpClaims()) && Top(GivenUpClaims(), 0, 2)
    ensures forall n :: Claimant(GivenUpClaims(), 0, n) ==> n == 2
    ensures Run(GivenUp(), GivenUpClaims(), ps).owners[0] == Some(1)
  {
    KeptByGreatest(GivenUp(), GivenUpClaims(), 0, 1, ps);
  }

  /**
   Receivers that start from different views, and hear the claims in different
   orders, agree on every claimed slot.
   */
  lemma ReceiversAgree(v: View, w: View, cs: Claims, ps: seq<Packet>, qs: seq<Packet>, j: nat, t: nat)
    requires WellFormed(v, cs) && WellFormed(w, cs) && DistinctEpochs(cs) && Covers(cs, ps) && Covers(cs, qs)
    requires j < SLOTS && Top(cs, j, t) && NoneBlocks(v, cs, j, t) && NoneBlocks(w, cs, j, t)
    ensures Run(v, cs, ps).owners[j] == Run(w, cs, qs).owners[j] == Some(t)
  {
    RunOnTheWay(v, v, cs, j, t, false, ps);
    RunOnTheWay(w, w, cs, j, t, false, qs);
  }

  /** When no claimant is known under a greater epoch than it claims, only the first owner can be in the way. */
  lemma OnlyTheFirstOwnerMatters(v: View, cs: Claims, j: nat, t: nat)
    requires WellFormed(v, cs) && j < SLOTS && DistinctEpochs(cs) && Top(cs, j, t)
    requires forall n :: n in cs ==> v.epochs[n] <= cs[n].epoch
    ensures NoneBlocks(v, cs, j, t)
            <==> v.owners[j] == None || v.owners[j] == Some(t) || Eventual(v, cs, v.owners[j].value) < cs[t].epoch
  {
    if v.owners[j].Some? {
      assert MayOwn(v, cs, j, v.owners[j].value);
    }
    forall o | o in v.epochs && o != t && MayOwn(v, cs, j, o) && v.owners[j] != Some(o)
      ensures Eventual(v, cs, o) < cs[t].epoch
    {
      assert cs[o].epoch <= cs[t].epoch;
    }
  }

  // ---------- the slot table does this ----------

  /** The view shows the table, by names. */
  ghost predicate Shows(v: View, t: SlotTable)
    reads t, t.nodes, t.slots
  {
    && t.Valid() && |v.owners| == SLOTS
    && (forall j :: 0 <= j < SLOTS ==> v.owners[j] == NameOf(t.slots[j]))
    && (forall n :: n in t.nodes ==> n.name in v.epochs && v.epochs[n.name] == n.configEpoch)
    && (forall m, n :: m in t.nodes && n in t.nodes && m.name == n.name ==> m == n)
  }

  /** With no slot being imported, the scan of the slot table is this Rebind. */
  lemma TableRebinds(t: SlotTable, v: View, sender: ClusterNode, epoch: nat, claimed: seq<bool>, j: nat)
    requires Shows(v, t) && sender in t.nodes && |claimed| == SLOTS && j < SLOTS
    requires t.importing[j] == null
    ensures NameOf(t.Rebound(sender, epoch, claimed, SLOTS)[j]) == Rebind(v, sender.name, epoch, claimed)[j]
  {
    assert v.owners[j] == NameOf(t.slots[j]);
  }
}
