/**
 The two halves of a failover election (cluster.c): a master deciding whether
 to vote for a slave, and a slave driving its own election.
 */
module FailoverAuth {
  import opened ClusterNodes
  import opened OptionType

  const SLOTS: nat := 16384

  // ---------- voting ----------

  datatype Request = Request(from: nat, currentEpoch: nat, configEpoch: nat, slots: seq<bool>, forceAck: bool)

  /** What the voter's table says about the master of the requesting node. */
  datatype MasterView = MasterView(failed: bool, votedTime: int)

  /** What a vote depends on besides the voter's epochs: its role, the requesting node, and the owners' epochs. */
  datatype View = View(isSlave: bool, numslots: nat, nodeIsMaster: bool, master: Option<MasterView>,
                       owners: seq<Option<nat>>)

  ghost predicate ClaimsCurrent(owners: seq<Option<nat>>, r: Request, upTo: nat)
    requires upTo <= |owners| && upTo <= |r.slots|
  {
    forall j :: 0 <= j < upTo && r.slots[j] && owners[j].Some? ==> owners[j].value <= r.configEpoch
  }

  /** Every condition for a vote to be granted. */
  ghost predicate Grants(currentEpoch: nat, lastVoteEpoch: nat, view: View, r: Request, now: int, nodeTimeout: int) {
    && !view.isSlave && view.numslots > 0
    && currentEpoch <= r.currentEpoch
    && lastVoteEpoch != currentEpoch
    && !view.nodeIsMaster
    && view.master.Some?
    && (view.master.value.failed || r.forceAck)
    && nodeTimeout * 2 <= now - view.master.value.votedTime
    && |view.owners| == |r.slots| == SLOTS
    && ClaimsCurrent(view.owners, r, SLOTS)
  }

  // ---------- a slave's election ----------

  /** The fields clusterHandleSlaveFailover reads and writes. */
  datatype Candidate = Candidate(currentEpoch: nat, configEpoch: nat, authTime: int, authRank: nat,
                                 authCount: nat, authSent: bool, authEpoch: nat)

  /** Everything else the call depends on: clock, random delay, the replica's situation, configuration. */
  datatype Circumstances = Circumstances(
    now: int, jitter: nat, isMaster: bool, hasMaster: bool, masterFailed: bool, masterSlots: nat,
    mfEnd: bool, mfCanStart: bool, dataAge: int, validityFactor: nat, pingPeriod: nat, nodeTimeout: nat,
    rank: nat, size: nat)

  datatype Outcome = NoReason | DataTooOld | Scheduled | Waiting | Expired | Asked(forceAck: bool) | Won | NoQuorumYet

  function Quorum(size: nat): nat {
    size / 2 + 1
  }

  function AuthTimeout(x: Circumstances): nat {
    if x.nodeTimeout * 2 < 2000 then 2000 else x.nodeTimeout * 2
  }

  predicate Manual(x: Circumstances) {
    x.mfEnd && x.mfCanStart
  }

  predicate Eligible(x: Circumstances) {
    !x.isMaster && x.hasMaster && (x.masterFailed || Manual(x)) && x.masterSlots != 0
  }

  predicate TooOld(dataAge: int, validityFactor: nat, pingPeriod: nat, nodeTimeout: nat) {
    var age := if dataAge > nodeTimeout then dataAge - nodeTimeout else dataAge;
    validityFactor != 0 && age > pingPeriod * 1000 + nodeTimeout * validityFactor
  }

  function Schedule(c: Candidate, mfEnd: bool, now: int, jitter: nat, rank: nat): Candidate {
    c.(authTime := if mfEnd then now else now + 500 + jitter % 500 + rank * 1000,
       authRank := if mfEnd then 0 else rank, authCount := 0, authSent := false)
  }

  /** The delay grows when better replicas have shown up since the election was scheduled. */
  function Rerank(c: Candidate, x: Circumstances): Candidate {
    if !c.authSent && !x.mfEnd && x.rank > c.authRank
    then c.(authTime := c.authTime + (x.rank - c.authRank) * 1000, authRank := x.rank)
    else c
  }

  function Ask(c: Candidate): Candidate {
    c.(currentEpoch := c.currentEpoch + 1, authEpoch := c.currentEpoch + 1, authSent := true)
  }

  function Take(c: Candidate): Candidate {
    if c.configEpoch < c.authEpoch then c.(configEpoch := c.authEpoch) else c
  }

  /** One call of clusterHandleSlaveFailover. The age of the attempt is measured before any new delay. */
  function HandleFailover(c: Candidate, x: Circumstances): (Candidate, Outcome) {
    var age := x.now - c.authTime;
    var ranked := Rerank(c, x);
    if !Eligible(x) then (c, NoReason)
    else if TooOld(x.dataAge, x.validityFactor, x.pingPeriod, x.nodeTimeout) && !Manual(x) then (c, DataTooOld)
    else if age > AuthTimeout(x) * 2 then (Schedule(c, x.mfEnd, x.now, x.jitter, x.rank), Scheduled)
    else if x.now < ranked.authTime then (ranked, Waiting)
    else if age > AuthTimeout(x) then (ranked, Expired)
    else if !ranked.authSent then (Ask(ranked), Asked(x.mfEnd))
    else if ranked.authCount >= Quorum(x.size) then (Take(ranked), Won)
    else (ranked, NoQuorumYet)
  }

  /** Votes are asked for, and an election won, only from its scheduled time on and until the timeout after it. */
  lemma ActsWithinTimeout(c: Candidate, x: Circumstances)
    requires HandleFailover(c, x).1.Asked? || HandleFailover(c, x).1.Won?
    ensures Eligible(x) && c.authTime <= x.now <= c.authTime + AuthTimeout(x)
    ensures HandleFailover(c, x).1.Won? ==> c.authSent && c.authCount >= Quorum(x.size)
    ensures HandleFailover(c, x).1.Asked? ==> !c.authSent
  {}

  /** Rank and delay are not reconsidered by a call that stops before. */
  predicate LooksAtRank(o: Outcome) {
    !o.NoReason? && !o.DataTooOld? && !o.Scheduled?
  }

  /**
   Successive calls, cs[i] being what the i-th call finds. In between, packets
   change the counter and the epochs, but not the time, the rank and whether
   votes have been asked for.
   */
  ghost predicate Calls(cs: seq<Candidate>, xs: seq<Circumstances>) {
    && |cs| == |xs|
    && forall i, k :: 0 <= i && k == i + 1 && k < |cs| ==> SameAttempt(HandleFailover(cs[i], xs[i]).0, cs[k])
  }

  ghost predicate SameAttempt(c: Candidate, d: Candidate) {
    d.authTime == c.authTime && d.authRank == c.authRank && d.authSent == c.authSent
  }

  /** The first call schedules an election, the last asks for votes, and none in between does either. */
  ghost predicate Attempt(cs: seq<Candidate>, xs: seq<Circumstances>) {
    && Calls(cs, xs) && |cs| >= 2
    && HandleFailover(cs[0], xs[0]).1.Scheduled? && HandleFailover(cs[|cs| - 1], xs[|cs| - 1]).1.Asked?
    && forall i :: 0 < i < |cs| - 1 ==>
         !HandleFailover(cs[i], xs[i]).1.Scheduled? && !HandleFailover(cs[i], xs[i]).1.Asked?
  }

  /** While votes are not asked for, the delay only grows, and with the rank by a second each. */
  lemma {:induction false} DelayOnlyGrows(cs: seq<Candidate>, xs: seq<Circumstances>, i: nat, k: nat)
    requires Attempt(cs, xs) && 0 < i <= k < |cs|
    ensures !cs[k].authSent && cs[k].authTime >= cs[i].authTime
    ensures cs[k].authTime - 1000 * cs[k].authRank == cs[i].authTime - 1000 * cs[i].authRank
    decreases k
  {
    if k == 1 {
      assert SameAttempt(HandleFailover(cs[0], xs[0]).0, cs[1]);
    } else {
      if i < k {
        DelayOnlyGrows(cs, xs, i, k - 1);
      } else {
        DelayOnlyGrows(cs, xs, i - 1, k - 1);
      }
      assert SameAttempt(HandleFailover(cs[k - 1], xs[k - 1]).0, cs[k]);
    }
  }

  /** A call that looks at the rank leaves at least the delay the rank asks for. */
  lemma DelayForRank(cs: seq<Candidate>, xs: seq<Circumstances>, i: nat)
    requires Attempt(cs, xs) && 0 < i < |cs| && !xs[0].mfEnd
    ensures cs[i].authTime >= xs[0].now + 500 + 1000 * cs[i].authRank
    ensures LooksAtRank(HandleFailover(cs[i], xs[i]).1) && !xs[i].mfEnd ==>
      Rerank(cs[i], xs[i]).authTime >= xs[0].now + 500 + 1000 * xs[i].rank
  {
    DelayOnlyGrows(cs, xs, 1, i);
    assert SameAttempt(HandleFailover(cs[0], xs[0]).0, cs[1]);
  }

  /**
   However often the slave calls in between, it asks for votes no sooner than
   half a second after the election was scheduled, and a second later still
   for every replica found to be ahead by the call that scheduled it or by any
   call since that looked; a manual failover does not wait.
   */
  lemma ElectionDelay(cs: seq<Candidate>, xs: seq<Circumstances>)
    requires Attempt(cs, xs)
    ensures var y := xs[|xs| - 1];
      && y.now >= xs[0].now
      && (!xs[0].mfEnd ==> y.now >= xs[0].now + 500 + 1000 * xs[0].rank)
      && forall i :: 0 < i < |xs| && LooksAtRank(HandleFailover(cs[i], xs[i]).1) && !xs[0].mfEnd && !xs[i].mfEnd ==>
           y.now >= xs[0].now + 500 + 1000 * xs[i].rank
  {
    var last := |cs| - 1;
    assert SameAttempt(HandleFailover(cs[0], xs[0]).0, cs[1]);
    DelayOnlyGrows(cs, xs, 1, last);
    forall i | 0 < i < |xs| && LooksAtRank(HandleFailover(cs[i], xs[i]).1) && !xs[0].mfEnd && !xs[i].mfEnd
      ensures xs[last].now >= xs[0].now + 500 + 1000 * xs[i].rank
    {
      DelayForRank(cs, xs, i);
      if i < last {
        DelayOnlyGrows(cs, xs, i, i);
        assert SameAttempt(HandleFailover(cs[i], xs[i]).0, cs[i + 1]);
        DelayOnlyGrows(cs, xs, i + 1, last);
      }
    }
  }

  /**
   One FAILOVER_AUTH_ACK: the sender must be a known master with slots, and its
   epoch at least that of the attempt.
   */
  function CountAck(c: Candidate, senderServesSlots: bool, senderCurrentEpoch: nat): Candidate {
    if senderServesSlots && senderCurrentEpoch >= c.authEpoch then c.(authCount := c.authCount + 1) else c
  }

  /**
   Taking the node timeout off first makes no jump: an age of at most the
   timeout is below the limit either way, so what counts is one limit on the
   whole age.
   */
  lemma TooOldExactlyWhen(dataAge: int, validityFactor: nat, pingPeriod: nat, nodeTimeout: nat)
    ensures TooOld(dataAge, validityFactor, pingPeriod, nodeTimeout)
            <==> validityFactor != 0 && dataAge > pingPeriod * 1000 + nodeTimeout * (validityFactor + 1)
  {}

  /** The check made before an election, bypassed for a manual one. */
  method DataIsTooOld(dataAge: int, validityFactor: nat, pingPeriod: nat, nodeTimeout: nat) returns (tooOld: bool)
    ensures tooOld <==> validityFactor != 0 && dataAge > pingPeriod * 1000 + nodeTimeout * (validityFactor + 1)
  {
    var age := dataAge;
    if age > nodeTimeout { age := age - nodeTimeout; }
    TooOldExactlyWhen(dataAge, validityFactor, pingPeriod, nodeTimeout);
    tooOld := validityFactor != 0 && age > pingPeriod * 1000 + nodeTimeout * validityFactor;
  }

  // ---------- when a slave acts, in terms of what it finds ----------

  /**
   A slave may act at all: its master has slots and has failed, with data no
   older than the limit, or the failover is manual and can start.
   */
  ghost predicate MayAct(x: Circumstances) {
    && !x.isMaster && x.hasMaster && x.masterSlots > 0
    && ((x.mfEnd && x.mfCanStart)
        || (x.masterFailed
            && (x.validityFactor == 0
                || x.dataAge <= x.pingPeriod * 1000 + x.nodeTimeout * (x.validityFactor + 1))))
  }

  /** How long votes are waited for: twice the node timeout, and two seconds at least. */
  ghost function Patience(x: Circumstances): int {
    if x.nodeTimeout > 1000 then 2 * x.nodeTimeout else 2000
  }

  /** What is added to the delay for replicas found to be ahead only now. */
  ghost function MoreDelay(c: Candidate, x: Circumstances): int {
    if !c.authSent && !x.mfEnd && x.rank > c.authRank then 1000 * (x.rank - c.authRank) else 0
  }

  /** An election is scheduled exactly by a slave that may act and whose last attempt is two timeouts old. */
  lemma SchedulesExactlyWhen(c: Candidate, x: Circumstances)
    ensures HandleFailover(c, x).1.Scheduled? <==> MayAct(x) && x.now - c.authTime > 2 * Patience(x)
  {
    TooOldExactlyWhen(x.dataAge, x.validityFactor, x.pingPeriod, x.nodeTimeout);
  }

  /** Votes are asked for exactly once an attempt, from its time on until the timeout. */
  lemma AsksExactlyWhen(c: Candidate, x: Circumstances)
    ensures HandleFailover(c, x).1.Asked? <==>
      MayAct(x) && !c.authSent && c.authTime + MoreDelay(c, x) <= x.now <= c.authTime + Patience(x)
    ensures HandleFailover(c, x).1.Asked? ==> HandleFailover(c, x).1.forceAck == x.mfEnd
  {
    TooOldExactlyWhen(x.dataAge, x.validityFactor, x.pingPeriod, x.nodeTimeout);
  }

  /** An election is won exactly with the votes of more than half of the masters, until the timeout. */
  lemma WinsExactlyWhen(c: Candidate, x: Circumstances)
    ensures HandleFailover(c, x).1.Won? <==>
      MayAct(x) && c.authSent && c.authTime <= x.now <= c.authTime + Patience(x) && 2 * c.authCount > x.size
  {
    TooOldExactlyWhen(x.dataAge, x.validityFactor, x.pingPeriod, x.nodeTimeout);
  }

  /**
   What each of the three leaves. A new attempt starts within a second, more by
   a second for every replica ahead, or at once if it is manual; asking takes the
   next epoch; winning makes the epoch of the election the slave's own.
   */
  lemma WhatFailoverLeaves(c: Candidate, x: Circumstances)
    ensures var (d, outcome) := HandleFailover(c, x);
      match outcome
      case Scheduled =>
        && d.authCount == 0 && !d.authSent && d.authRank == (if x.mfEnd then 0 else x.rank)
        && (if x.mfEnd then d.authTime == x.now
            else x.now + 500 + 1000 * x.rank <= d.authTime < x.now + 1000 + 1000 * x.rank)
        && d.currentEpoch == c.currentEpoch && d.authEpoch == c.authEpoch && d.configEpoch == c.configEpoch
      case Asked(_) =>
        && d.authSent && d.authCount == c.authCount && d.configEpoch == c.configEpoch
        && d.currentEpoch == d.authEpoch == c.currentEpoch + 1
      case Won =>
        && d.configEpoch >= d.authEpoch == c.authEpoch && d.currentEpoch == c.currentEpoch
        && d.configEpoch == (if c.configEpoch > c.authEpoch then c.configEpoch else c.authEpoch)
      case _ =>
        && d.currentEpoch == c.currentEpoch && d.authEpoch == c.authEpoch && d.configEpoch == c.configEpoch
        && d.authCount == c.authCount && d.authSent == c.authSent && d.authTime >= c.authTime
  {}

  /**
   Old data keeps a slave from scheduling, asking and winning alike, unless the
   failover is manual; a slave of a failed master with data that is recent
   enough is held up by nothing but time.
   */
  lemma OnlyFreshDataActs(c: Candidate, x: Circumstances)
    ensures HandleFailover(c, x).1.Scheduled? || HandleFailover(c, x).1.Asked? || HandleFailover(c, x).1.Won? ==>
      || (x.mfEnd && x.mfCanStart) || x.validityFactor == 0
      || x.dataAge <= x.pingPeriod * 1000 + x.nodeTimeout * (x.validityFactor + 1)
    ensures MayAct(x) ==> !HandleFailover(c, x).1.NoReason? && !HandleFailover(c, x).1.DataTooOld?
    ensures MayAct(x) && x.now - c.authTime > 2 * Patience(x) ==> HandleFailover(c, x).1.Scheduled?
  {
    SchedulesExactlyWhen(c, x);
    AsksExactlyWhen(c, x);
    WinsExactlyWhen(c, x);
    TooOldExactlyWhen(x.dataAge, x.validityFactor, x.pingPeriod, x.nodeTimeout);
  }

  // ---------- votes of one master, over any number of requests ----------

  /** One request that a master answers: whose slave it is for, and what Grants looks at. */
  datatype Ballot = Ballot(master: nat, failed: bool, view: View, r: Request, now: int, currentEpoch: nat)

  /** A master's memory: the epoch voted in last, and when it last voted for a slave of each master. */
  datatype Voter = Voter(lastVoteEpoch: nat, votedTimes: map<nat, int>)

  function VotedTime(v: Voter, master: nat): int {
    if master in v.votedTimes then v.votedTimes[master] else 0
  }

  ghost predicate Votes(v: Voter, b: Ballot, nodeTimeout: int) {
    Grants(b.currentEpoch, v.lastVoteEpoch, b.view.(master := Some(MasterView(b.failed, VotedTime(v, b.master)))),
           b.r, b.now, nodeTimeout)
  }

  ghost function AfterBallot(v: Voter, b: Ballot, nodeTimeout: int): Voter {
    if Votes(v, b, nodeTimeout) then Voter(b.currentEpoch, v.votedTimes[b.master := b.now]) else v
  }

  ghost function VoterAfter(v: Voter, bs: seq<Ballot>, nodeTimeout: int): Voter
    decreases |bs|
  {
    if bs == [] then v else AfterBallot(VoterAfter(v, bs[..|bs| - 1], nodeTimeout), bs[|bs| - 1], nodeTimeout)
  }

  ghost predicate VotesAt(v: Voter, bs: seq<Ballot>, i: nat, nodeTimeout: int)
    requires i < |bs|
  {
    Votes(VoterAfter(v, bs[..i], nodeTimeout), bs[i], nodeTimeout)
  }

  /** The clock and the master's currentEpoch never go back. */
  ghost predicate InOrder(bs: seq<Ballot>) {
    forall i, k :: 0 <= i < k < |bs| ==> bs[i].now <= bs[k].now && bs[i].currentEpoch <= bs[k].currentEpoch
  }

  lemma {:induction false} VoteRemembered(v: Voter, bs: seq<Ballot>, i: nat, k: nat, nodeTimeout: int)
    requires InOrder(bs) && i < k <= |bs| && VotesAt(v, bs, i, nodeTimeout)
    ensures bs[i].currentEpoch <= VoterAfter(v, bs[..k], nodeTimeout).lastVoteEpoch <= bs[k - 1].currentEpoch
    ensures VotedTime(VoterAfter(v, bs[..k], nodeTimeout), bs[i].master) >= bs[i].now
    decreases k
  {
    assert bs[..k][..k - 1] == bs[..k - 1];
    if i < k - 1 {
      VoteRemembered(v, bs, i, k - 1, nodeTimeout);
    }
  }

  /**
   However many requests a master answers, its votes for slaves of one master
   are at least two node timeouts apart, and no two votes are in one epoch.
   */
  lemma VotesFarApart(v: Voter, bs: seq<Ballot>, i: nat, k: nat, nodeTimeout: int)
    requires InOrder(bs) && i < k < |bs| && VotesAt(v, bs, i, nodeTimeout) && VotesAt(v, bs, k, nodeTimeout)
    ensures bs[i].currentEpoch < bs[k].currentEpoch
    ensures bs[i].master == bs[k].master ==> bs[k].now >= bs[i].now + 2 * nodeTimeout
  {
    VoteRemembered(v, bs, i, k, nodeTimeout);
  }

  // ---------- the handlers, on the server's own fields ----------

  ghost function OwnersOf(slots: seq<ClusterNode?>): (o: seq<Option<nat>>)
    reads slots
    ensures |o| == |slots|
    ensures forall j :: 0 <= j < |slots| ==>
      o[j] == if slots[j] == null then None else Some(slots[j].configEpoch)
    decreases |slots|
  {
    if slots == [] then []
    else
      assert slots[0] in slots && forall n :: n in slots[1..] ==> n in slots;
      [if slots[0] == null then None else Some(slots[0].configEpoch)] + OwnersOf(slots[1..])
  }

  /** The fields of server.cluster that an election touches. */
  class Elections {
    const myself: ClusterNode
    var currentEpoch: nat
    var lastVoteEpoch: nat
    var size: nat
    var slots: seq<ClusterNode?>
    var authTime: int
    var authCount: nat
    var authSent: bool
    var authRank: nat
    var authEpoch: nat
    var mfEnd: bool
    var mfCanStart: bool

    constructor (myself: ClusterNode)
      ensures this.myself == myself
      ensures currentEpoch == lastVoteEpoch == authEpoch == authCount == 0 && !authSent
      ensures |slots| == SLOTS && forall j :: 0 <= j < SLOTS ==> slots[j] == null
    {
      this.myself := myself;
      currentEpoch, lastVoteEpoch, size := 0, 0, 1;
      slots := seq(SLOTS, _ => null);
      authTime, authCount, authSent, authRank, authEpoch := 0, 0, false, 0, 0;
      mfEnd, mfCanStart := false, false;
    }

    ghost function ViewOf(node: ClusterNode): View
      reads this, myself, node, if node.slaveof != null then {node.slaveof} else {}
      reads slots
    {
      View(!myself.isMaster, myself.numslots, node.isMaster,
           if node.slaveof == null then None else Some(MasterView(node.slaveof.failed, node.slaveof.votedTime)),
           OwnersOf(slots))
    }

    ghost function Self(): Candidate
      reads this, myself
    {
      Candidate(currentEpoch, myself.configEpoch, authTime, authRank, authCount, authSent, authEpoch)
    }

    /** The scan of the claimed slots: no claim goes against an owner with a greater configEpoch. */
    method ClaimsAreCurrent(r: Request) returns (current: bool)
      requires |slots| == |r.slots| == SLOTS
      ensures current == ClaimsCurrent(OwnersOf(slots), r, SLOTS)
    {
      ghost var owners := OwnersOf(slots);
      var j := 0;
      while j < SLOTS
        invariant 0 <= j <= SLOTS
        invariant ClaimsCurrent(owners, r, j)
      {
        if !r.slots[j] || slots[j] == null || slots[j].configEpoch <= r.configEpoch {
          j := j + 1;
          continue;
        }
        assert owners[j].value > r.configEpoch;
        return false;
      }
      return true;
    }

    /** clusterSendFailoverAuthIfNeeded. The ack sent, if any, carries the epoch voted in. */
    method SendFailoverAuthIfNeeded(node: ClusterNode, r: Request, now: int, nodeTimeout: int)
      returns (granted: bool, ack: Option<nat>)
      requires |slots| == |r.slots| == SLOTS
      modifies this`lastVoteEpoch, (if node.slaveof != null then {node.slaveof} else {})`votedTime
      ensures granted == old(Grants(currentEpoch, lastVoteEpoch, ViewOf(node), r, now, nodeTimeout))
      ensures granted ==> myself.isMaster && myself.numslots > 0 && !node.isMaster && node.slaveof != null
      ensures granted ==> r.currentEpoch >= currentEpoch && currentEpoch != old(lastVoteEpoch)
      ensures granted ==> node.slaveof.failed || r.forceAck
      ensures granted ==> now >= old(node.slaveof.votedTime) + 2 * nodeTimeout
      ensures granted ==> forall j :: 0 <= j < SLOTS && r.slots[j] && slots[j] != null ==>
        slots[j].configEpoch <= r.configEpoch
      ensures !granted ==>
        || !myself.isMaster || myself.numslots == 0 || r.currentEpoch < currentEpoch || lastVoteEpoch == currentEpoch
        || node.isMaster || node.slaveof == null || !(node.slaveof.failed || r.forceAck)
        || now < node.slaveof.votedTime + 2 * nodeTimeout
        || exists j :: 0 <= j < SLOTS && r.slots[j] && slots[j] != null && slots[j].configEpoch > r.configEpoch
      ensures lastVoteEpoch == if granted then currentEpoch else old(lastVoteEpoch)
      ensures node.slaveof != null ==> node.slaveof.votedTime == if granted then now else old(node.slaveof.votedTime)
      ensures ack == if granted && node.linked then Some(currentEpoch) else None
    {
      granted, ack := false, None;
      var master := node.slaveof;
      if !myself.isMaster || myself.numslots == 0 { return; }
      if r.currentEpoch < currentEpoch { return; }
      if lastVoteEpoch == currentEpoch { return; }
      if node.isMaster || master == null || (!master.failed && !r.forceAck) { return; }
      if now - master.votedTime < nodeTimeout * 2 { return; }
      var current := ClaimsAreCurrent(r);
      if !current { return; }
      granted := true;
      if node.linked { ack := Some(currentEpoch); }
      lastVoteEpoch := currentEpoch;
      master.votedTime := now;
    }

    /** The FAILOVER_AUTH_ACK branch of clusterProcessPacket. */
    method ReceiveAuthAck(sender: ClusterNode, senderCurrentEpoch: nat)
      modifies this`authCount
      ensures Self() == old(CountAck(Self(), sender.isMaster && sender.numslots > 0, senderCurrentEpoch))
      ensures authCount == old(authCount)
                           + if sender.isMaster && sender.numslots > 0 && senderCurrentEpoch >= authEpoch then 1 else 0
    {
      if sender.isMaster && sender.numslots > 0 && senderCurrentEpoch >= authEpoch {
        authCount := authCount + 1;
      }
    }

    /** The situation a call of HandleSlaveFailover finds, given what it reads from outside the cluster state. */
    ghost function Situation(now: int, jitter: nat, dataAge: int, validityFactor: nat, pingPeriod: nat,
                             nodeTimeout: nat, rank: nat): Circumstances
      reads this, myself, if myself.slaveof != null then {myself.slaveof} else {}
    {
      Circumstances(now, jitter, myself.isMaster, myself.slaveof != null,
                    myself.slaveof != null && myself.slaveof.failed,
                    if myself.slaveof != null then myself.slaveof.numslots else 0,
                    mfEnd, mfCanStart, dataAge, validityFactor, pingPeriod, nodeTimeout, rank, size)
    }

    method ScheduleElection(now: int, jitter: nat, rank: nat)
      modifies this`authTime, this`authRank, this`authCount, this`authSent
      ensures Self() == old(Schedule(Self(), mfEnd, now, jitter, rank))
    {
      authTime := now + 500 + jitter % 500;
      authCount := 0;
      authSent := false;
      authRank := rank;
      authTime := authTime + authRank * 1000;
      if mfEnd {
        authTime := now;
        authRank := 0;
      }
    }

    /** clusterHandleSlaveFailover up to the takeover of the slots. */
    method HandleSlaveFailover(now: int, jitter: nat, dataAge: int, validityFactor: nat, pingPeriod: nat,
                               nodeTimeout: nat, rank: nat) returns (outcome: Outcome)
      modifies this`currentEpoch, this`authTime, this`authRank, this`authCount, this`authSent, this`authEpoch
      modifies myself`configEpoch
      ensures (Self(), outcome)
           == old(HandleFailover(
                Self(), Situation(now, jitter, dataAge, validityFactor, pingPeriod, nodeTimeout, rank)))
    {
      var authAge := now - authTime;
      var neededQuorum := size / 2 + 1;
      var manualFailover := mfEnd && mfCanStart;
      var authTimeout := nodeTimeout * 2;
      if authTimeout < 2000 { authTimeout := 2000; }
      var authRetryTime := authTimeout * 2;
      if myself.isMaster || myself.slaveof == null || (!myself.slaveof.failed && !manualFailover)
        || myself.slaveof.numslots == 0
      {
        return NoReason;
      }
      var tooOld := DataIsTooOld(dataAge, validityFactor, pingPeriod, nodeTimeout);
      TooOldExactlyWhen(dataAge, validityFactor, pingPeriod, nodeTimeout);
      if tooOld && !manualFailover { return DataTooOld; }
      if authAge > authRetryTime {
        ScheduleElection(now, jitter, rank);
        return Scheduled;
      }
      if !authSent && !mfEnd {
        if rank > authRank {
          authTime := authTime + (rank - authRank) * 1000;
          authRank := rank;
        }
      }
      if now < authTime { return Waiting; }
      if authAge > authTimeout { return Expired; }
      if !authSent {
        currentEpoch := currentEpoch + 1;
        authEpoch := currentEpoch;
        authSent := true;
        return Asked(mfEnd);
      }
      if authCount >= neededQuorum {
        if myself.configEpoch < authEpoch {
          myself.configEpoch := authEpoch;
        }
        return Won;
      }
      return NoQuorumYet;
    }
  }
}
