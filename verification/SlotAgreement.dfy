/**
 Elections and collisions put together with slots (cluster.c): the different
 configEpochs that receivers need to agree on the owners of slots are what
 elections and the collision rule leave behind.
 */
module SlotAgreement {
  import C = EpochCollision
  import E = Election
  import F = FailoverAuth
  import opened OptionType
  import opened SlotConvergence
  import opened SlotIndex

  // ---------- after a quiet round of pings ----------

  /** Every claim is that of a master under its present configEpoch. */
  ghost predicate Present(cs: Claims, ms: C.Machines)
    requires C.WellFormed(ms)
  {
    forall n :: n in cs ==> n in ms && cs[n].epoch == C.Config(ms[n])
  }

  /**
   Once every pair of masters has exchanged fresh pings with no move, receivers
   of their claims, from different views and in different orders, agree on
   every claimed slot.
   */
  lemma AgreeAfterQuietRound(s: C.State, es: seq<C.Event>, cs: Claims, v: View, w: View,
                             ps: seq<Packet>, qs: seq<Packet>, j: nat, t: nat)
    requires C.Reachable(s) && C.Legal(s, es) && C.Quiet(s, es)
    requires forall m, n :: m in s.machines && n in s.machines && m > n ==> C.Pinged(s, es, m, n)
    requires C.WellFormed(C.After(s, es).machines) && Present(cs, C.After(s, es).machines)
    requires WellFormed(v, cs) && WellFormed(w, cs) && Covers(cs, ps) && Covers(cs, qs)
    requires j < SLOTS && Top(cs, j, t) && NoneBlocks(v, cs, j, t) && NoneBlocks(w, cs, j, t)
    ensures Run(v, cs, ps).owners[j] == Run(w, cs, qs).owners[j] == Some(t)
  {
    C.QuietPingsMeanDistinct(s, es);
    ReceiversAgree(v, w, cs, ps, qs, j, t);
  }

  // ---------- after elections ----------

  /** No epoch that was asked for or won in the run is `floor` or less. */
  ghost predicate AboveFloor(s: E.State, floor: nat) {
    && (forall n :: 0 <= n < |s.nodes| ==> floor <= s.nodes[n].candidate.currentEpoch)
    && (forall n :: 0 <= n < |s.nodes| && s.nodes[n].candidate.authSent ==> floor < s.nodes[n].candidate.authEpoch)
    && (forall w :: w in s.wins ==> floor < w.epoch)
  }

  ghost predicate NodeAbove(c: F.Candidate, floor: nat) {
    floor <= c.currentEpoch && (c.authSent ==> floor < c.authEpoch)
  }

  lemma FailoverAbove(s: E.State, n: nat, x: F.Circumstances, configEpoch: nat, slots: seq<bool>, floor: nat)
    requires n < |s.nodes| && AboveFloor(s, floor)
    ensures AboveFloor(E.Apply(s, E.Failover(n, x, configEpoch, slots)), floor)
  {
    E.FailoverEffect(s.nodes[n].candidate, x);
    assert NodeAbove(s.nodes[n].candidate, floor) && NodeAbove(F.HandleFailover(s.nodes[n].candidate, x).0, floor);
  }

  lemma StepAboveFloor(s: E.State, e: E.Event, floor: nat)
    requires E.Enabled(s, e) && AboveFloor(s, floor)
    ensures AboveFloor(E.Apply(s, e), floor)
  {
    match e
    case Learn(_, _) =>
    case Failover(n, x, configEpoch, slots) => FailoverAbove(s, n, x, configEpoch, slots, floor);
    case ReceiveRequest(n, r, inHandshake, view, linked, now, nodeTimeout) =>
      var c := s.nodes[n].candidate;
      var heard := if inHandshake then c else E.Raise(c, r.currentEpoch);
      AnswerAbove(s, n, r, heard, view, linked, now, nodeTimeout, floor);
    case ReceiveAck(ack, known, servesSlots) =>
      AckAbove(s.(acks := s.acks - multiset{ack}), ack, known, servesSlots, floor);
  }

  lemma AnswerAbove(s: E.State, n: nat, r: F.Request, c: F.Candidate, view: F.View, linked: bool, now: int,
                    nodeTimeout: int, floor: nat)
    requires n < |s.nodes| && AboveFloor(s, floor) && NodeAbove(c, floor)
    ensures AboveFloor(E.Answer(s, n, r, c, view, linked, now, nodeTimeout), floor)
  {}

  lemma AckAbove(s: E.State, ack: E.Vote, known: bool, servesSlots: bool, floor: nat)
    requires AboveFloor(s, floor) && ack.candidate < |s.nodes|
    ensures AboveFloor(E.Count(s, ack, known, servesSlots), floor)
  {}

  lemma {:induction false} RunAboveFloor(s: E.State, es: seq<E.Event>, floor: nat)
    requires E.Legal(s, es) && AboveFloor(s, floor)
    ensures AboveFloor(E.After(s, es), floor)
    decreases es
  {
    if es != [] {
      StepAboveFloor(s, es[0], floor);
      RunAboveFloor(E.Apply(s, es[0]), es[1..], floor);
    }
  }

  /** Every claim is under an epoch its master won in the run, or one of the different epochs from before it. */
  ghost predicate WonOrOld(cs: Claims, wins: set<E.Win>, floor: nat) {
    && (forall n :: n in cs && cs[n].epoch > floor ==>
          exists w :: w in wins && w.candidate == n && w.epoch == cs[n].epoch)
    && (forall m, n :: m in cs && n in cs && cs[m].epoch == cs[n].epoch <= floor ==> m == n)
  }

  /** Elections in which every ack comes in time leave masters with different configEpochs. */
  lemma ElectionsKeepEpochsDistinct(m: nat, s0: E.State, es: seq<E.Event>, s: E.State, floor: nat, cs: Claims)
    requires E.Initial(s0) && E.Leads(m, s0, es, s) && E.AllTimely(s0, es)
    requires forall n :: 0 <= n < |s0.nodes| ==> floor <= s0.nodes[n].candidate.currentEpoch
    requires WonOrOld(cs, s.wins, floor)
    ensures DistinctEpochs(cs)
    ensures forall w :: w in s.wins ==> floor < w.epoch
  {
    RunAboveFloor(s0, es, floor);
    forall a, b | a in cs && b in cs && cs[a].epoch == cs[b].epoch ensures a == b {
      if cs[a].epoch > floor {
        var w1 :| w1 in s.wins && w1.candidate == a && w1.epoch == cs[a].epoch;
        var w2 :| w2 in s.wins && w2.candidate == b && w2.epoch == cs[b].epoch;
        E.OneWinnerPerEpoch(m, s0, es, s, w1, w2);
      }
    }
  }

  /** And so receivers of the claims of old masters and winners alike agree on every claimed slot. */
  lemma AgreeAfterElections(m: nat, s0: E.State, es: seq<E.Event>, s: E.State, floor: nat, cs: Claims,
                            v: View, w: View, ps: seq<Packet>, qs: seq<Packet>, j: nat, t: nat)
    requires E.Initial(s0) && E.Leads(m, s0, es, s) && E.AllTimely(s0, es)
    requires forall n :: 0 <= n < |s0.nodes| ==> floor <= s0.nodes[n].candidate.currentEpoch
    requires WonOrOld(cs, s.wins, floor)
    requires WellFormed(v, cs) && WellFormed(w, cs) && Covers(cs, ps) && Covers(cs, qs)
    requires j < SLOTS && Top(cs, j, t) && NoneBlocks(v, cs, j, t) && NoneBlocks(w, cs, j, t)
    ensures Run(v, cs, ps).owners[j] == Run(w, cs, qs).owners[j] == Some(t)
  {
    ElectionsKeepEpochsDistinct(m, s0, es, s, floor, cs);
    ReceiversAgree(v, w, cs, ps, qs, j, t);
  }

  /**
   A failover takes effect everywhere: a slave that won an election after every
   epoch known before it, and claims a slot no later winner claims, gets the
   slot from every receiver that knew no configEpoch above the old ones.
   */
  lemma WinnerTakesSlot(m: nat, s0: E.State, es: seq<E.Event>, s: E.State, floor: nat, cs: Claims,
                        v: View, ps: seq<Packet>, j: nat, t: nat)
    requires E.Initial(s0) && E.Leads(m, s0, es, s) && E.AllTimely(s0, es)
    requires forall n :: 0 <= n < |s0.nodes| ==> floor <= s0.nodes[n].candidate.currentEpoch
    requires WonOrOld(cs, s.wins, floor) && Claimant(cs, j, t) && cs[t].epoch > floor
    requires forall n :: Claimant(cs, j, n) && cs[n].epoch > floor ==> cs[n].epoch <= cs[t].epoch
    requires WellFormed(v, cs) && j < SLOTS && Covers(cs, ps)
    requires forall n :: n in v.epochs ==> v.epochs[n] <= floor
    requires forall n :: n in cs && v.owners[j] == Some(n) && n != t ==> cs[n].epoch < cs[t].epoch
    ensures Run(v, cs, ps).owners[j] == Some(t)
  {
    ElectionsKeepEpochsDistinct(m, s0, es, s, floor, cs);
    assert Top(cs, j, t);
    forall o | o in v.epochs && o != t && MayOwn(v, cs, j, o) ensures Eventual(v, cs, o) < cs[t].epoch {
      assert Claimant(cs, j, o) ==> cs[o].epoch <= cs[t].epoch && cs[o].epoch != cs[t].epoch;
    }
    AlwaysWinsExactlyWhen(v, cs, j, t);
  }
}
