/**
 Failover elections over whole runs (cluster.c): slaves schedule, ask for votes
 and count acks; masters vote; the network delays and loses messages, repeats
 requests, but does not repeat an ack.
 */
module Election {
  import opened OptionType
  import opened FailoverAuth
  import opened SetFacts

  /** A vote; also the FAILOVER_AUTH_ACK that carries it. */
  datatype Vote = Vote(voter: nat, candidate: nat, epoch: nat)

  /** A quorum test passed: the quorum required, and the votes that made it up. */
  datatype Win = Win(candidate: nat, epoch: nat, needed: nat, heard: set<nat>, stale: nat)

  /**
   The last two fields record where authCount comes from: the voters heard
   since votes were asked for, and the number of acks counted after the counter
   was zeroed but before that.
   */
  datatype Node = Node(candidate: Candidate, lastVoteEpoch: nat, heard: set<nat>, stale: nat)

  /** The network, and the history of votes granted and quorums reached. */
  datatype State = State(nodes: seq<Node>, requests: set<Request>, acks: multiset<Vote>,
                         votes: set<Vote>, wins: set<Win>)

  datatype Event =
    | Learn(n: nat, epoch: nat)
    | Failover(n: nat, x: Circumstances, configEpoch: nat, slots: seq<bool>)
    | ReceiveRequest(n: nat, r: Request, inHandshake: bool, view: View, linked: bool, now: int, nodeTimeout: int)
    | ReceiveAck(ack: Vote, known: bool, servesSlots: bool)

  function Raise(c: Candidate, epoch: nat): Candidate {
    if epoch > c.currentEpoch then c.(currentEpoch := epoch) else c
  }

  // ---------- steps ----------

  ghost predicate Enabled(s: State, e: Event) {
    match e
    case Learn(n, _) => n < |s.nodes|
    case Failover(n, _, _, _) => n < |s.nodes|
    case ReceiveRequest(n, r, _, _, _, _, _) => n < |s.nodes| && r in s.requests
    case ReceiveAck(ack, _, _) => ack in s.acks && ack.candidate < |s.nodes|
  }

  ghost function Apply(s: State, e: Event): State
    requires Enabled(s, e)
  {
    match e
    case Learn(n, epoch) =>
      s.(nodes := s.nodes[n := s.nodes[n].(candidate := Raise(s.nodes[n].candidate, epoch))])
    case Failover(n, x, configEpoch, slots) =>
      var (c, outcome) := HandleFailover(s.nodes[n].candidate, x);
      AfterFailover(s, n, c, outcome, Quorum(x.size), configEpoch, slots)
    case ReceiveRequest(n, r, inHandshake, view, linked, now, nodeTimeout) =>
      Answer(s, n, r, if inHandshake then s.nodes[n].candidate else Raise(s.nodes[n].candidate, r.currentEpoch),
             view, linked, now, nodeTimeout)
    case ReceiveAck(ack, known, servesSlots) =>
      Count(s.(acks := s.acks - multiset{ack}), ack, known, servesSlots)
  }

  ghost function AfterFailover(s: State, n: nat, c: Candidate, outcome: Outcome, needed: nat, configEpoch: nat,
                               slots: seq<bool>): State
    requires n < |s.nodes|
  {
    var node := s.nodes[n].(candidate := c);
    match outcome
    case Scheduled => s.(nodes := s.nodes[n := node.(heard := {}, stale := 0)])
    case Asked(force) =>
      s.(nodes := s.nodes[n := node], requests := s.requests + {Request(n, c.currentEpoch, configEpoch, slots, force)})
    case Won =>
      s.(nodes := s.nodes[n := node], wins := s.wins + {Win(n, c.authEpoch, needed, node.heard, node.stale)})
    case _ => s.(nodes := s.nodes[n := node])
  }

  ghost function Answer(s: State, n: nat, r: Request, c: Candidate, view: View, linked: bool, now: int,
                        nodeTimeout: int): State
    requires n < |s.nodes|
  {
    if Grants(c.currentEpoch, s.nodes[n].lastVoteEpoch, view, r, now, nodeTimeout) then
      var vote := Vote(n, r.from, c.currentEpoch);
      s.(nodes := s.nodes[n := s.nodes[n].(candidate := c, lastVoteEpoch := c.currentEpoch)],
         votes := s.votes + {vote},
         acks := if linked then s.acks + multiset{vote} else s.acks)
    else
      s.(nodes := s.nodes[n := s.nodes[n].(candidate := c)])
  }

  ghost function Count(s: State, ack: Vote, known: bool, servesSlots: bool): State
    requires ack.candidate < |s.nodes|
  {
    var node := s.nodes[ack.candidate];
    var c := if known then CountAck(Raise(node.candidate, ack.epoch), servesSlots, ack.epoch) else node.candidate;
    var counted := c.authCount > node.candidate.authCount;
    s.(nodes := s.nodes[ack.candidate := node.(
         candidate := c,
         heard := if counted && c.authSent then node.heard + {ack.voter} else node.heard,
         stale := if counted && !c.authSent then node.stale + 1 else node.stale)])
  }

  // ---------- runs ----------

  ghost predicate Initial(s: State) {
    && s.requests == {} && s.acks == multiset{} && s.votes == {} && s.wins == {}
    && forall n :: 0 <= n < |s.nodes| ==>
         && s.nodes[n].lastVoteEpoch <= s.nodes[n].candidate.currentEpoch
         && s.nodes[n].candidate.authEpoch <= s.nodes[n].candidate.currentEpoch
         && s.nodes[n].candidate.authCount == 0 && !s.nodes[n].candidate.authSent
         && s.nodes[n].heard == {} && s.nodes[n].stale == 0
  }

  ghost predicate Legal(s: State, es: seq<Event>)
    decreases es
  {
    es == [] || (Enabled(s, es[0]) && Legal(Apply(s, es[0]), es[1..]))
  }

  ghost function After(s: State, es: seq<Event>): State
    requires Legal(s, es)
    decreases es
  {
    if es == [] then s else After(Apply(s, es[0]), es[1..])
  }

  // ---------- what every step keeps ----------

  ghost predicate NodeOk(s: State, n: nat)
    requires n < |s.nodes|
  {
    var node := s.nodes[n];
    var c := node.candidate;
    && node.lastVoteEpoch <= c.currentEpoch
    && c.authEpoch <= c.currentEpoch
    && c.authCount == |node.heard| + node.stale
    && (!c.authSent ==> node.heard == {})
    && forall v :: v in node.heard ==> Vote(v, n, c.authEpoch) in s.votes && Vote(v, n, c.authEpoch) !in s.acks
  }

  ghost predicate VoteOk(s: State, v: Vote) {
    && v.voter < |s.nodes| && v.candidate < |s.nodes|
    && v.epoch <= s.nodes[v.voter].lastVoteEpoch
    && v.epoch <= s.nodes[v.candidate].candidate.authEpoch
  }

  ghost predicate RequestOk(s: State, r: Request) {
    r.from < |s.nodes| && r.currentEpoch <= s.nodes[r.from].candidate.authEpoch
  }

  ghost predicate WinOk(s: State, w: Win) {
    && w.needed <= |w.heard| + w.stale
    && forall v :: v in w.heard ==> Vote(v, w.candidate, w.epoch) in s.votes
  }

  ghost predicate OneVotePerEpoch(votes: set<Vote>) {
    forall v, w :: v in votes && w in votes && v.voter == w.voter && v.epoch == w.epoch ==> v == w
  }

  ghost predicate Invariant(s: State) {
    && (forall n :: 0 <= n < |s.nodes| ==> NodeOk(s, n))
    && (forall r :: r in s.requests ==> RequestOk(s, r))
    && (forall v :: v in s.votes ==> VoteOk(s, v))
    && (forall v :: v in s.acks ==> v in s.votes && s.acks[v] == 1)
    && OneVotePerEpoch(s.votes)
    && (forall w :: w in s.wins ==> WinOk(s, w))
  }

  /** Replacing one node keeps the invariant when its epochs do not fall and it is itself in order. */
  lemma NodeReplaced(s: State, n: nat, node: Node)
    requires Invariant(s) && n < |s.nodes|
    requires node.lastVoteEpoch >= s.nodes[n].lastVoteEpoch
    requires node.candidate.authEpoch >= s.nodes[n].candidate.authEpoch
    requires NodeOk(s.(nodes := s.nodes[n := node]), n)
    ensures Invariant(s.(nodes := s.nodes[n := node]))
  {
    var t := s.(nodes := s.nodes[n := node]);
    forall v | v in t.votes ensures VoteOk(t, v) {
      assert VoteOk(s, v);
    }
    forall m | 0 <= m < |t.nodes| ensures NodeOk(t, m) {
      assert NodeOk(s, m);
    }
    forall r | r in t.requests ensures RequestOk(t, r) {
      assert RequestOk(s, r);
    }
    forall w | w in t.wins ensures WinOk(t, w) {
      assert WinOk(s, w);
    }
  }

  /** Granting a vote in an epoch later than every earlier vote of that node. */
  lemma VoteAdded(s: State, vote: Vote, linked: bool)
    requires Invariant(s) && VoteOk(s, vote)
    requires forall v :: v in s.votes && v.voter == vote.voter ==> v.epoch < vote.epoch
    ensures Invariant(s.(votes := s.votes + {vote}, acks := if linked then s.acks + multiset{vote} else s.acks))
  {
    var t := s.(votes := s.votes + {vote}, acks := if linked then s.acks + multiset{vote} else s.acks);
    assert vote !in s.votes;
    forall m | 0 <= m < |t.nodes| ensures NodeOk(t, m) {
      assert NodeOk(s, m);
    }
    forall v | v in t.votes ensures VoteOk(t, v) {
      assert v in s.votes ==> VoteOk(s, v);
    }
    forall w | w in t.wins ensures WinOk(t, w) {
      assert WinOk(s, w);
    }
    forall r | r in t.requests ensures RequestOk(t, r) {
      assert RequestOk(s, r);
    }
  }

  lemma AnswerKeeps(s: State, n: nat, r: Request, c: Candidate, view: View, linked: bool, now: int, nodeTimeout: int)
    requires Invariant(s) && n < |s.nodes| && r in s.requests
    requires c == s.nodes[n].candidate || c == Raise(s.nodes[n].candidate, r.currentEpoch)
    ensures Invariant(Answer(s, n, r, c, view, linked, now, nodeTimeout))
  {
    assert NodeOk(s, n) && RequestOk(s, r);
    if Grants(c.currentEpoch, s.nodes[n].lastVoteEpoch, view, r, now, nodeTimeout) {
      var vote := Vote(n, r.from, c.currentEpoch);
      var node := s.nodes[n].(candidate := c, lastVoteEpoch := c.currentEpoch);
      NodeReplaced(s, n, node);
      forall v | v in s.votes && v.voter == vote.voter ensures v.epoch < vote.epoch {
        assert VoteOk(s, v);
      }
      VoteAdded(s.(nodes := s.nodes[n := node]), vote, linked);
    } else {
      NodeReplaced(s, n, s.nodes[n].(candidate := c));
    }
  }

  lemma AckTaken(s: State, ack: Vote)
    requires Invariant(s) && ack in s.acks
    ensures Invariant(s.(acks := s.acks - multiset{ack}))
  {
    var t := s.(acks := s.acks - multiset{ack});
    forall m | 0 <= m < |t.nodes| ensures NodeOk(t, m) {
      assert NodeOk(s, m);
    }
    forall v | v in t.votes ensures VoteOk(t, v) {
      assert VoteOk(s, v);
    }
    forall w | w in t.wins ensures WinOk(t, w) {
      assert WinOk(s, w);
    }
    forall r | r in t.requests ensures RequestOk(t, r) {
      assert RequestOk(s, r);
    }
  }

  lemma CountKeeps(s: State, ack: Vote, known: bool, servesSlots: bool)
    requires Invariant(s) && ack in s.votes && ack !in s.acks
    requires ack.candidate < |s.nodes|
    requires ack.epoch == s.nodes[ack.candidate].candidate.authEpoch
             ==> ack.voter !in s.nodes[ack.candidate].heard
    ensures Invariant(Count(s, ack, known, servesSlots))
  {
    var t := Count(s, ack, known, servesSlots);
    assert VoteOk(s, ack) && NodeOk(s, ack.candidate);
    NodeReplaced(s, ack.candidate, t.nodes[ack.candidate]);
  }

  /** What one call of clusterHandleSlaveFailover does to the counter and the epochs. */
  lemma FailoverEffect(c: Candidate, x: Circumstances)
    ensures var (d, outcome) := HandleFailover(c, x);
      match outcome
      case Scheduled =>
        d.currentEpoch == c.currentEpoch && d.authEpoch == c.authEpoch && d.authCount == 0 && !d.authSent
      case Asked(_) =>
        && d.currentEpoch == d.authEpoch == c.currentEpoch + 1 && d.authCount == c.authCount
        && !c.authSent && d.authSent
      case Won =>
        && d.currentEpoch == c.currentEpoch && d.authEpoch == c.authEpoch && d.authCount == c.authCount
        && d.authSent == c.authSent == true && d.authCount >= Quorum(x.size)
      case _ =>
        && d.currentEpoch == c.currentEpoch && d.authEpoch == c.authEpoch && d.authCount == c.authCount
        && d.authSent == c.authSent
  {}

  lemma RequestAdded(s: State, r: Request)
    requires Invariant(s) && RequestOk(s, r)
    ensures Invariant(s.(requests := s.requests + {r}))
  {
    var t := s.(requests := s.requests + {r});
    forall m | 0 <= m < |t.nodes| ensures NodeOk(t, m) {
      assert NodeOk(s, m);
    }
    forall v | v in t.votes ensures VoteOk(t, v) {
      assert VoteOk(s, v);
    }
    forall w | w in t.wins ensures WinOk(t, w) {
      assert WinOk(s, w);
    }
    forall q | q in t.requests ensures RequestOk(t, q) {
      assert q in s.requests ==> RequestOk(s, q);
    }
  }

  lemma WinAdded(s: State, w: Win)
    requires Invariant(s) && WinOk(s, w)
    ensures Invariant(s.(wins := s.wins + {w}))
  {
    var t := s.(wins := s.wins + {w});
    forall m | 0 <= m < |t.nodes| ensures NodeOk(t, m) {
      assert NodeOk(s, m);
    }
    forall v | v in t.votes ensures VoteOk(t, v) {
      assert VoteOk(s, v);
    }
    forall u | u in t.wins ensures WinOk(t, u) {
      assert u in s.wins ==> WinOk(s, u);
    }
    forall r | r in t.requests ensures RequestOk(t, r) {
      assert RequestOk(s, r);
    }
  }

  lemma FailoverKeeps(s: State, n: nat, x: Circumstances, configEpoch: nat, slots: seq<bool>)
    requires Invariant(s) && n < |s.nodes|
    ensures Invariant(Apply(s, Failover(n, x, configEpoch, slots)))
  {
    var (c, outcome) := HandleFailover(s.nodes[n].candidate, x);
    FailoverEffect(s.nodes[n].candidate, x);
    assert NodeOk(s, n);
    var node := s.nodes[n].(candidate := c);
    match outcome
    case Scheduled => NodeReplaced(s, n, node.(heard := {}, stale := 0));
    case Asked(force) =>
      NodeReplaced(s, n, node);
      RequestAdded(s.(nodes := s.nodes[n := node]), Request(n, c.currentEpoch, configEpoch, slots, force));
    case Won =>
      NodeReplaced(s, n, node);
      WinAdded(s.(nodes := s.nodes[n := node]), Win(n, c.authEpoch, Quorum(x.size), node.heard, node.stale));
    case _ => NodeReplaced(s, n, node);
  }

  lemma LearnKeeps(s: State, n: nat, epoch: nat)
    requires Invariant(s) && n < |s.nodes|
    ensures Invariant(Apply(s, Learn(n, epoch)))
  {
    assert NodeOk(s, n);
    NodeReplaced(s, n, s.nodes[n].(candidate := Raise(s.nodes[n].candidate, epoch)));
  }

  lemma StepKeeps(s: State, e: Event)
    requires Invariant(s) && Enabled(s, e)
    ensures Invariant(Apply(s, e))
  {
    match e
    case Learn(n, epoch) => LearnKeeps(s, n, epoch);
    case Failover(n, x, configEpoch, slots) => FailoverKeeps(s, n, x, configEpoch, slots);
    case ReceiveRequest(n, r, inHandshake, view, linked, now, nodeTimeout) =>
      AnswerKeeps(s, n, r,
                  if inHandshake then s.nodes[n].candidate else Raise(s.nodes[n].candidate, r.currentEpoch),
                  view, linked, now, nodeTimeout);
    case ReceiveAck(ack, known, servesSlots) =>
      assert NodeOk(s, ack.candidate);
      AckTaken(s, ack);
      CountKeeps(s.(acks := s.acks - multiset{ack}), ack, known, servesSlots);
  }

  lemma {:induction false} RunKeeps(s: State, es: seq<Event>)
    requires Invariant(s) && Legal(s, es)
    ensures Invariant(After(s, es))
    decreases es
  {
    if es != [] {
      StepKeeps(s, es[0]);
      RunKeeps(Apply(s, es[0]), es[1..]);
    }
  }

  lemma InitialInvariant(s: State)
    requires Initial(s)
    ensures Invariant(s)
  {}

  // ---------- the environment ----------

  /** Only nodes below m hold slots as masters, and every slave's cluster size is m. */
  ghost predicate FixedMasters(e: Event, m: nat) {
    && (e.Failover? ==> e.x.size == m)
    && (e.ReceiveRequest? && e.n >= m ==> e.view.isSlave || e.view.numslots == 0)
  }

  ghost predicate Leads(m: nat, s: State, es: seq<Event>, t: State) {
    && (forall i :: 0 <= i < |es| ==> FixedMasters(es[i], m))
    && Legal(s, es) && After(s, es) == t
  }

  ghost predicate ReachableWith(m: nat, s: State) {
    exists s0, es :: Initial(s0) && Leads(m, s0, es, s)
  }

  ghost predicate VotersAmong(m: nat, s: State) {
    && (forall v :: v in s.votes ==> v.voter < m)
    && (forall w :: w in s.wins ==> w.needed == Quorum(m))
  }

  lemma {:induction false} RunVoters(m: nat, s: State, es: seq<Event>, t: State)
    requires Leads(m, s, es, t) && VotersAmong(m, s)
    ensures VotersAmong(m, t)
    decreases es
  {
    if es != [] {
      assert FixedMasters(es[0], m);
      RunVoters(m, Apply(s, es[0]), es[1..], t);
    }
  }

  /** What the vote count stands on in any state a run with m masters reaches. */
  lemma ReachableFacts(m: nat, s: State)
    requires ReachableWith(m, s)
    ensures Invariant(s) && VotersAmong(m, s)
  {
    var s0, es :| Initial(s0) && Leads(m, s0, es, s);
    InitialInvariant(s0);
    RunKeeps(s0, es);
    RunVoters(m, s0, es, s);
  }

  // ---------- two winners of one epoch ----------

  ghost function VotersIn(s: State, epoch: nat): set<nat> {
    set v | v in s.votes && v.epoch == epoch :: v.voter
  }

  ghost predicate Rivals(s: State, w1: Win, w2: Win) {
    w1 in s.wins && w2 in s.wins && w1.epoch == w2.epoch && w1.candidate != w2.candidate
  }

  /**
   Two slaves that pass the quorum test with the same epoch need, between them,
   as many voters of that epoch as their quorums ask for, less the acks that
   were counted before the slave had asked.
   */
  lemma RivalsNeedStaleAcks(s: State, w1: Win, w2: Win)
    requires Invariant(s) && Rivals(s, w1, w2)
    ensures w1.needed + w2.needed <= |VotersIn(s, w1.epoch)| + w1.stale + w2.stale
  {
    assert WinOk(s, w1) && WinOk(s, w2);
    var voters := VotersIn(s, w1.epoch);
    forall v | v in w1.heard ensures v in voters && v !in w2.heard {
      assert Vote(v, w1.candidate, w1.epoch) in s.votes;
      assert v in w2.heard ==> Vote(v, w2.candidate, w2.epoch) in s.votes;
    }
    forall v | v in w2.heard ensures v in voters {
      assert Vote(v, w2.candidate, w2.epoch) in s.votes;
    }
    SubsetCardinality(w1.heard + w2.heard, voters);
  }

  /** The ack arrives while the counter is for the election whose votes have been asked for. */
  ghost predicate Timely(s: State, e: Event)
    requires Enabled(s, e)
  {
    e.ReceiveAck? ==> s.nodes[e.ack.candidate].candidate.authSent
  }

  ghost predicate AllTimely(s: State, es: seq<Event>)
    requires Legal(s, es)
    decreases es
  {
    es == [] || (Timely(s, es[0]) && AllTimely(Apply(s, es[0]), es[1..]))
  }

  ghost predicate NoneStale(s: State) {
    && (forall n :: 0 <= n < |s.nodes| ==> s.nodes[n].stale == 0)
    && (forall w :: w in s.wins ==> w.stale == 0)
  }

  lemma TimelyStep(s: State, e: Event)
    requires Enabled(s, e) && Timely(s, e) && NoneStale(s)
    ensures NoneStale(Apply(s, e))
  {
    match e
    case Learn(_, _) =>
    case Failover(n, x, _, _) => FailoverEffect(s.nodes[n].candidate, x);
    case ReceiveRequest(_, _, _, _, _, _, _) =>
    case ReceiveAck(ack, known, servesSlots) => TimelyAck(s, ack, known, servesSlots);
  }

  lemma TimelyAck(s: State, ack: Vote, known: bool, servesSlots: bool)
    requires NoneStale(s) && ack.candidate < |s.nodes| && s.nodes[ack.candidate].candidate.authSent
    ensures NoneStale(Count(s, ack, known, servesSlots))
  {}

  lemma {:induction false} TimelyRunHasNoneStale(s: State, es: seq<Event>)
    requires Legal(s, es) && AllTimely(s, es) && NoneStale(s)
    ensures NoneStale(After(s, es))
    decreases es
  {
    if es != [] {
      TimelyStep(s, es[0]);
      TimelyRunHasNoneStale(Apply(s, es[0]), es[1..]);
    }
  }

  /** Election safety: with no ack arriving between scheduling and asking, one epoch has one winner. */
  lemma OneWinnerPerEpoch(m: nat, s0: State, es: seq<Event>, s: State, w1: Win, w2: Win)
    requires Initial(s0) && Leads(m, s0, es, s) && AllTimely(s0, es)
    requires w1 in s.wins && w2 in s.wins && w1.epoch == w2.epoch
    ensures w1.candidate == w2.candidate
  {
    ReachableFacts(m, s);
    TimelyRunHasNoneStale(s0, es);
    if w1.candidate != w2.candidate {
      RivalsNeedStaleAcks(s, w1, w2);
      CardinalityBelow(m, VotersIn(s, w1.epoch));
    }
  }

  // ---------- the bound is exact ----------

  lemma {:induction false} AfterOneMore(s: State, es: seq<Event>, e: Event)
    requires Legal(s, es) && Enabled(After(s, es), e)
    ensures Legal(s, es + [e]) && After(s, es + [e]) == Apply(After(s, es), e)
    decreases es
  {
    var more := es + [e];
    if es == [] {
      assert more[1..] == [];
    } else {
      assert more[0] == es[0] && more[1..] == es[1..] + [e];
      AfterOneMore(Apply(s, es[0]), es[1..], e);
    }
  }

  lemma Next(m: nat, s: State, e: Event)
    requires ReachableWith(m, s) && Enabled(s, e) && FixedMasters(e, m)
    ensures ReachableWith(m, Apply(s, e))
  {
    var s0, es :| Initial(s0) && Leads(m, s0, es, s);
    AfterOneMore(s0, es, e);
    assert Leads(m, s0, es + [e], Apply(s, e));
  }

  /** A slave told by CLUSTER FAILOVER FORCE to take over from its master, with no replica ahead of it. */
  function At(now: int, size: nat): Circumstances {
    Circumstances(now, 0, false, true, false, 1, true, true, 0, 0, 0, 1, 0, size)
  }

  /** The claim of a slave whose master serves slot 0 only. */
  function SlotZero(): (s: seq<bool>)
    ensures |s| == SLOTS
  {
    seq(SLOTS, j => j == 0)
  }

  /** A master with slots that sees the requester as a slave of a live master and knows no owner of any slot. */
  function Willing(votedTime: int): (v: View)
    ensures |v.owners| == SLOTS
  {
    View(false, 1, false, Some(MasterView(false, votedTime)), seq(SLOTS, _ => None))
  }

  /** In this run votes of epoch e are granted at time 10000 e. */
  function VoteTime(epoch: nat): int {
    10000 * epoch
  }

  /** What one vote, granted and counted, changes. */
  ghost predicate Voted(s: State, t: State, c: nat, lo: nat, hi: nat, epoch: nat)
    requires c < |s.nodes|
  {
    && |t.nodes| == |s.nodes| && t.requests == s.requests && t.wins == s.wins
    && (forall n :: 0 <= n < |s.nodes| && n != c && !(lo <= n < hi) ==> t.nodes[n] == s.nodes[n])
    && (forall v :: lo <= v < hi && v < |t.nodes| ==>
          t.nodes[v].lastVoteEpoch == epoch && t.nodes[v].candidate.currentEpoch == epoch)
    && t.nodes[c].candidate.(authCount := 0) == s.nodes[c].candidate.(authCount := 0)
    && t.nodes[c].candidate.authCount == s.nodes[c].candidate.authCount + hi - lo
    && t.nodes[c].stale == s.nodes[c].stale + if s.nodes[c].candidate.authSent then 0 else hi - lo
  }

  ghost predicate MayVote(s: State, c: nat, r: Request, lo: nat, hi: nat) {
    && c < |s.nodes| && hi <= c
    && r in s.requests && r.from == c && |r.slots| == SLOTS && r.forceAck
    && r.currentEpoch == s.nodes[c].candidate.authEpoch <= s.nodes[c].candidate.currentEpoch
    && forall v :: lo <= v < hi ==>
         s.nodes[v].lastVoteEpoch < r.currentEpoch && s.nodes[v].candidate.currentEpoch <= r.currentEpoch
  }

  lemma OneVote(m: nat, s: State, c: nat, r: Request, v: nat) returns (t: State)
    requires ReachableWith(m, s) && v < m && MayVote(s, c, r, v, v + 1)
    ensures ReachableWith(m, t) && Voted(s, t, c, v, v + 1, r.currentEpoch)
  {
    var ask :=
      ReceiveRequest(v, r, false, Willing(VoteTime(s.nodes[v].lastVoteEpoch)), true, VoteTime(r.currentEpoch), 1);
    var granted := Apply(s, ask);
    Next(m, s, ask);
    var vote := Vote(v, c, r.currentEpoch);
    assert granted.acks == s.acks + multiset{vote};
    Next(m, granted, ReceiveAck(vote, true, true));
    t := Apply(granted, ReceiveAck(vote, true, true));
  }

  lemma {:induction false} ManyVotes(m: nat, s: State, c: nat, r: Request, lo: nat, hi: nat) returns (t: State)
    requires ReachableWith(m, s) && lo <= hi <= m && MayVote(s, c, r, lo, hi)
    ensures ReachableWith(m, t) && Voted(s, t, c, lo, hi, r.currentEpoch)
    decreases hi - lo
  {
    if lo == hi {
      t := s;
    } else {
      var u := OneVote(m, s, c, r, lo);
      t := ManyVotes(m, u, c, r, lo + 1, hi);
    }
  }

  /** A slave whose election is due asks for votes. */
  lemma AskNow(m: nat, s: State, c: nat) returns (t: State, r: Request)
    requires ReachableWith(m, s) && c < |s.nodes|
    requires !s.nodes[c].candidate.authSent && s.nodes[c].candidate.authRank == 0
    ensures ReachableWith(m, t) && t.nodes == s.nodes[c := s.nodes[c].(candidate := Ask(s.nodes[c].candidate))]
    ensures t.requests == s.requests + {r} && t.wins == s.wins
    ensures r.from == c && r.currentEpoch == s.nodes[c].candidate.currentEpoch + 1
    ensures |r.slots| == SLOTS && r.forceAck
  {
    var e := Failover(c, At(s.nodes[c].candidate.authTime, m), 0, SlotZero());
    r := Request(c, s.nodes[c].candidate.currentEpoch + 1, 0, SlotZero(), true);
    Next(m, s, e);
    t := Apply(s, e);
  }

  /** The retry time passes, so a new election is scheduled and the counter zeroed. */
  lemma ScheduleNow(m: nat, s: State, c: nat) returns (t: State, d: Candidate)
    requires ReachableWith(m, s) && c < |s.nodes|
    ensures ReachableWith(m, t) && t.nodes == s.nodes[c := Node(d, s.nodes[c].lastVoteEpoch, {}, 0)]
    ensures d.authCount == 0 && !d.authSent && d.authRank == 0
    ensures d.authEpoch == s.nodes[c].candidate.authEpoch && d.currentEpoch == s.nodes[c].candidate.currentEpoch
    ensures t.requests == s.requests && t.wins == s.wins
  {
    var x := At(s.nodes[c].candidate.authTime + 4001, m);
    d := HandleFailover(s.nodes[c].candidate, x).0;
    Next(m, s, Failover(c, x, 0, SlotZero()));
    t := Apply(s, Failover(c, x, 0, SlotZero()));
  }

  lemma WinNow(m: nat, s: State, c: nat) returns (t: State, w: Win)
    requires ReachableWith(m, s) && c < |s.nodes|
    requires s.nodes[c].candidate.authSent && s.nodes[c].candidate.authCount >= Quorum(m)
    ensures ReachableWith(m, t) && t.wins == s.wins + {w}
    ensures forall n :: 0 <= n < |s.nodes| && n != c ==> n < |t.nodes| && t.nodes[n] == s.nodes[n]
    ensures w.candidate == c && w.epoch == s.nodes[c].candidate.authEpoch && w.stale == s.nodes[c].stale
  {
    var e := Failover(c, At(s.nodes[c].candidate.authTime, m), 0, SlotZero());
    Next(m, s, e);
    t := Apply(s, e);
    w := Win(c, s.nodes[c].candidate.authEpoch, Quorum(m), s.nodes[c].heard, s.nodes[c].stale);
  }

  function Fresh(): Node {
    Node(Candidate(0, 0, 0, 0, 0, false, 0), 0, {}, 0)
  }

  /** m masters and two slaves, in epoch 0. */
  ghost function Start(m: nat): State {
    State(seq(m + 2, _ => Fresh()), {}, multiset{}, {}, {})
  }

  lemma StartReachable(m: nat)
    ensures ReachableWith(m, Start(m))
  {
    assert Initial(Start(m)) && Leads(m, Start(m), [], Start(m));
  }

  /** The acks of a first attempt arrive after a second one has been scheduled, and count for it. */
  lemma EarlyAcks(m: nat, d: nat) returns (t: State)
    requires d <= m
    ensures ReachableWith(m, t) && |t.nodes| == m + 2 && t.wins == {}
    ensures forall v :: 0 <= v < m ==> t.nodes[v].lastVoteEpoch <= 1 && t.nodes[v].candidate.currentEpoch <= 1
    ensures t.nodes[m + 1] == Fresh()
    ensures var c := t.nodes[m].candidate;
      !c.authSent && c.authRank == 0 && c.currentEpoch == c.authEpoch == 1 && c.authCount == t.nodes[m].stale == d
  {
    StartReachable(m);
    var due, c0 := ScheduleNow(m, Start(m), m);
    var asked, r := AskNow(m, due, m);
    var scheduled, c := ScheduleNow(m, asked, m);
    t := ManyVotes(m, scheduled, m, r, 0, d);
  }

  /** Both slaves ask in epoch 2: the first with d stale acks, the second having learned of epoch 1. */
  lemma BothAsk(m: nat, d: nat) returns (t: State, r: Request, q: Request)
    requires d <= m
    ensures ReachableWith(m, t) && |t.nodes| == m + 2 && t.wins == {} && r in t.requests && q in t.requests
    ensures r.from == m && q.from == m + 1 && r.currentEpoch == q.currentEpoch == 2
    ensures |r.slots| == |q.slots| == SLOTS && r.forceAck && q.forceAck
    ensures forall v :: 0 <= v < m ==> t.nodes[v].lastVoteEpoch <= 1 && t.nodes[v].candidate.currentEpoch <= 1
    ensures var c := t.nodes[m].candidate;
      c.authSent && c.currentEpoch == c.authEpoch == 2 && c.authCount == t.nodes[m].stale == d
    ensures var c := t.nodes[m + 1].candidate;
      c.authSent && c.currentEpoch == c.authEpoch == 2 && c.authCount == t.nodes[m + 1].stale == 0
  {
    var early := EarlyAcks(m, d);
    var first, r0 := AskNow(m, early, m);
    Next(m, first, Learn(m + 1, 1));
    var due, c := ScheduleNow(m, Apply(first, Learn(m + 1, 1)), m + 1);
    var second, q0 := AskNow(m, due, m + 1);
    t, r, q := second, r0, q0;
  }

  /** In every cluster size, the stale acks that the bound asks for are enough for two winners. */
  lemma TwoWinners(m: nat) returns (s: State, w1: Win, w2: Win)
    requires m > 0
    ensures ReachableWith(m, s) && Rivals(s, w1, w2) && w1.stale + w2.stale == 2 * Quorum(m) - m
  {
    var d := 2 * Quorum(m) - m;
    var both, r, q := BothAsk(m, d);
    var half := ManyVotes(m, both, m, r, 0, Quorum(m) - d);
    var full := ManyVotes(m, half, m + 1, q, Quorum(m) - d, m);
    var won, w := WinNow(m, full, m);
    w1 := w;
    s, w2 := WinNow(m, won, m + 1);
  }

  /**
   With at most k stale acks, two slaves can win one epoch exactly when k
   reaches twice the quorum less the number of masters.
   */
  lemma TwoWinnersExactlyWhen(m: nat, k: nat)
    requires m > 0
    ensures (exists s, w1, w2 :: ReachableWith(m, s) && Rivals(s, w1, w2) && w1.stale + w2.stale <= k)
            <==> k >= 2 * Quorum(m) - m
  {
    if k >= 2 * Quorum(m) - m {
      var s, w1, w2 := TwoWinners(m);
    }
    if s, w1, w2 :| ReachableWith(m, s) && Rivals(s, w1, w2) && w1.stale + w2.stale <= k {
      ReachableFacts(m, s);
      RivalsNeedStaleAcks(s, w1, w2);
      CardinalityBelow(m, VotersIn(s, w1.epoch));
    }
  }
}
