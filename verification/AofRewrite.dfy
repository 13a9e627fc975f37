/**
 The protocol between the server and the child that rewrites its append only
 file (aof.c): the server buffers what it executes and sends it down a pipe
 until the child asks it to stop; the child appends what it read, and the
 server appends the rest.
 */
module AofRewrite {
  import opened Bytes
  import opened OptionType
  import AofLog

  /** Where the child is: at work, waiting for the ack, reading the last of the pipe, or gone. */
  datatype Phase = Rewriting | Asked | Agreed | Exited(success: bool)

  datatype State = State(
    /** Everything fed to the append only file since the fork. */
    fed: bytes,
    /** The rewrite buffer, whether its handler is installed, and whether it has been told to stop. */
    buffer: bytes, installed: bool, stop: bool,
    /** The data pipe, and the '!' bytes on their way in the other two pipes. */
    pipe: bytes, listening: bool, asks: nat, acks: nat,
    /** The child: its phase, what it has read, and its file. */
    phase: Phase, diff: bytes, file: bytes,
    /** What the server has made of it in the end. */
    handled: bool, installedFile: Option<bytes>)

  datatype Event =
    | Feed(s: bytes)
    | SendDiff(n: nat)
    | AskArrives(ackSent: bool)
    | ChildReads(n: nat)
    | ChildAsks
    | ChildHearsAck
    | ChildFails
    | ChildFinishes(interrupted: bool)
    | ServerFinishes(written: bool)

  function Forked(): State {
    State([], [], false, false, [], true, 0, 0, Rewriting, [], [], false, None)
  }

  // ---------- steps ----------

  /** A read of the pipe gives up only when it is empty, unless it is interrupted. */
  predicate Enabled(s: State, e: Event) {
    && !s.handled
    && match e
       case Feed(_) => true
       case SendDiff(n) => s.installed && n <= |s.buffer|
       case AskArrives(_) => s.listening && s.asks > 0
       case ChildReads(n) => (s.phase == Rewriting || s.phase == Agreed) && 0 < n <= |s.pipe| && n <= 65536
       case ChildAsks => s.phase == Rewriting
       case ChildHearsAck => s.phase == Asked && s.acks > 0
       case ChildFails => !s.phase.Exited?
       case ChildFinishes(interrupted) => s.phase == Agreed && (s.pipe == [] || interrupted)
       case ServerFinishes(_) => s.phase.Exited?
  }

  function Apply(s: State, e: Event, snapshot: bytes): State
    requires Enabled(s, e)
  {
    match e
    case Feed(more) => s.(fed := s.fed + more, buffer := s.buffer + more, installed := true)
    case SendDiff(n) =>
      if s.stop || s.buffer == [] then s.(installed := false)
      else s.(pipe := s.pipe + s.buffer[..n], buffer := s.buffer[n..])
    case AskArrives(ackSent) =>
      s.(stop := true, listening := false, asks := s.asks - 1, acks := if ackSent then s.acks + 1 else s.acks)
    case ChildReads(n) => s.(diff := s.diff + s.pipe[..n], pipe := s.pipe[n..])
    case ChildAsks => s.(phase := Asked, asks := s.asks + 1)
    case ChildHearsAck => s.(phase := Agreed, acks := s.acks - 1)
    case ChildFails => s.(phase := Exited(false))
    case ChildFinishes(_) => s.(phase := Exited(true), file := snapshot + s.diff)
    case ServerFinishes(written) =>
      s.(handled := true, buffer := [],
         installedFile := if s.phase.success && written then Some(s.file + s.buffer) else None)
  }

  predicate Legal(s: State, es: seq<Event>, snapshot: bytes)
    decreases es
  {
    es == [] || (Enabled(s, es[0]) && Legal(Apply(s, es[0], snapshot), es[1..], snapshot))
  }

  function After(s: State, es: seq<Event>, snapshot: bytes): State
    requires Legal(s, es, snapshot)
    decreases es
  {
    if es == [] then s else After(Apply(s, es[0], snapshot), es[1..], snapshot)
  }

  // ---------- what every step keeps ----------

  /** Every byte fed is in exactly one of three places, in order; an ack means the server has stopped sending. */
  ghost predicate Invariant(s: State, snapshot: bytes) {
    && (s.acks > 0 || s.phase == Agreed || s.phase == Exited(true) ==> s.stop)
    && (s.phase == Exited(true) ==> s.file == snapshot + s.diff)
    && (!s.handled ==> s.diff + s.pipe + s.buffer == s.fed && s.installedFile == None)
    && (s.handled && s.installedFile.Some? ==>
          s.phase == Exited(true)
          && exists rest :: s.diff + s.pipe + rest == s.fed && s.installedFile == Some(s.file + rest))
  }

  lemma Moved(a: bytes, b: bytes, c: bytes, n: nat)
    requires n <= |c|
    ensures a + (b + c[..n]) + c[n..] == a + b + c
    ensures (a + c[..n]) + c[n..] + b == a + c + b
  {}

  lemma StepKeeps(s: State, e: Event, snapshot: bytes)
    requires Invariant(s, snapshot) && Enabled(s, e)
    ensures Invariant(Apply(s, e, snapshot), snapshot)
  {
    match e
    case Feed(more) => assert s.diff + s.pipe + (s.buffer + more) == s.diff + s.pipe + s.buffer + more;
    case SendDiff(n) => Moved(s.diff, s.pipe, s.buffer, n);
    case ChildReads(n) => Moved(s.diff, s.buffer, s.pipe, n);
    case ServerFinishes(written) => assert s.diff + s.pipe + s.buffer == s.fed;
    case _ =>
  }

  lemma {:induction false} RunKeeps(s: State, es: seq<Event>, snapshot: bytes)
    requires Invariant(s, snapshot) && Legal(s, es, snapshot)
    ensures Invariant(After(s, es, snapshot), snapshot)
    decreases es
  {
    if es != [] {
      StepKeeps(s, es[0], snapshot);
      RunKeeps(Apply(s, es[0], snapshot), es[1..], snapshot);
    }
  }

  /** Nothing is left in the pipe once the child has finished, unless its last read was interrupted. */
  predicate Drained(s: State) {
    s.phase == Exited(true) ==> s.pipe == []
  }

  lemma {:induction false} RunDrains(s: State, es: seq<Event>, snapshot: bytes)
    requires Invariant(s, snapshot) && Drained(s) && Legal(s, es, snapshot)
    requires forall i :: 0 <= i < |es| ==> es[i] != ChildFinishes(true)
    ensures Drained(After(s, es, snapshot))
    decreases es
  {
    if es != [] {
      StepKeeps(s, es[0], snapshot);
      RunDrains(Apply(s, es[0], snapshot), es[1..], snapshot);
    }
  }

  lemma WithoutMiddle(a: bytes, b: bytes, c: bytes, d: bytes)
    ensures (a + b) + d == a + (b + c + d) <==> c == []
  {
    assert |(a + b) + d| + |c| == |a + (b + c + d)|;
    if c == [] {
      assert b + c + d == b + d;
    }
  }

  /**
   A file put in place holds the snapshot followed by every byte fed since the
   fork exactly when the child's last read emptied the pipe.
   */
  lemma InstalledExactlyWhen(es: seq<Event>, snapshot: bytes)
    requires Legal(Forked(), es, snapshot) && After(Forked(), es, snapshot).installedFile.Some?
    ensures var s := After(Forked(), es, snapshot);
      s.installedFile.value == snapshot + s.fed <==> s.pipe == []
  {
    RunKeeps(Forked(), es, snapshot);
    var s := After(Forked(), es, snapshot);
    var rest :| s.diff + s.pipe + rest == s.fed && s.installedFile == Some(s.file + rest);
    WithoutMiddle(snapshot, s.diff, s.pipe, rest);
  }

  /**
   A run that loses what is fed: the server sends it while the child is at
   work, and the child's only read is the last one, which fails.
   */
  lemma InterruptedReadLoses(fed: bytes, snapshot: bytes) returns (es: seq<Event>)
    requires fed != []
    ensures Legal(Forked(), es, snapshot)
    ensures After(Forked(), es, snapshot).fed == fed
    ensures After(Forked(), es, snapshot).installedFile == Some(snapshot)
  {
    var s1 := Apply(Forked(), Feed(fed), snapshot);
    var s2 := Apply(s1, SendDiff(|fed|), snapshot);
    assert s2 == Forked().(fed := fed, pipe := fed, installed := true);
    var s3 := Apply(s2, ChildAsks, snapshot);
    var s4 := Apply(s3, AskArrives(true), snapshot);
    var s5 := Apply(s4, ChildHearsAck, snapshot);
    var s6 := Apply(s5, ChildFinishes(true), snapshot);
    var s7 := Apply(s6, ServerFinishes(true), snapshot);
    assert snapshot + [] + [] == snapshot;
    es := FirstThen(s6, ServerFinishes(true), [], snapshot);
    es := FirstThen(s5, ChildFinishes(true), es, snapshot);
    es := FirstThen(s4, ChildHearsAck, es, snapshot);
    es := FirstThen(s3, AskArrives(true), es, snapshot);
    es := FirstThen(s2, ChildAsks, es, snapshot);
    es := FirstThen(s1, SendDiff(|fed|), es, snapshot);
    es := FirstThen(Forked(), Feed(fed), es, snapshot);
  }

  lemma FirstThen(s: State, e: Event, rest: seq<Event>, snapshot: bytes) returns (es: seq<Event>)
    requires Enabled(s, e) && Legal(Apply(s, e, snapshot), rest, snapshot)
    ensures Legal(s, es, snapshot) && After(s, es, snapshot) == After(Apply(s, e, snapshot), rest, snapshot)
  {
    es := [e] + rest;
  }

  /** In every interleaving without an interrupted last read, no byte is lost, repeated or out of order. */
  lemma RewriteLosesNothing(es: seq<Event>, snapshot: bytes)
    requires Legal(Forked(), es, snapshot) && After(Forked(), es, snapshot).installedFile.Some?
    requires forall i :: 0 <= i < |es| ==> es[i] != ChildFinishes(true)
    ensures After(Forked(), es, snapshot).installedFile.value == snapshot + After(Forked(), es, snapshot).fed
  {
    InstalledExactlyWhen(es, snapshot);
    RunKeeps(Forked(), es, snapshot);
    RunDrains(Forked(), es, snapshot);
  }

  /** The file put in place runs as the snapshot and then every command fed since the fork, each in its own database. */
  lemma InstalledFileRuns(es: seq<Event>, snapshot: seq<AofLog.Argv>, cs: seq<AofLog.Command>)
    requires AofLog.AllWritable(snapshot) && AofLog.AllFeedable(cs)
    requires Legal(Forked(), es, AofLog.Log(snapshot))
    requires After(Forked(), es, AofLog.Log(snapshot)).installedFile.Some?
    requires After(Forked(), es, AofLog.Log(snapshot)).fed == AofLog.Written(cs)
    requires forall i :: 0 <= i < |es| ==> es[i] != ChildFinishes(true)
    ensures var l := AofLog.Load(After(Forked(), es, AofLog.Log(snapshot)).installedFile.value);
      && l.ending == AofLog.Complete
      && AofLog.Execute(l.raw, 0) == AofLog.Execute(snapshot, 0) + AofLog.Runs(cs)
  {
    RewriteLosesNothing(es, AofLog.Log(snapshot));
    AofLog.RewrittenFileLoads(snapshot, cs);
  }

  // ---------- the pipe handler ----------

  /**
   One call of the pipe handler is as many sends as it makes writes, taken
   here together, and one more that finds nothing to do if it uninstalls itself.
   */
  lemma HandlerIsEvents(s: State, sent: bytes, left: bytes, uninstalled: bool, snapshot: bytes) returns (es: seq<Event>)
    requires !s.handled && s.installed && sent + left == s.buffer
    requires (s.stop ==> sent == [] && uninstalled) && (uninstalled ==> s.stop || left == [])
    ensures Legal(s, es, snapshot)
    ensures After(s, es, snapshot) == s.(pipe := s.pipe + sent, buffer := left, installed := !uninstalled)
  {
    es := [];
    var t := s;
    if sent != [] {
      t := Apply(s, SendDiff(|sent|), snapshot);
      assert s.buffer[..|sent|] == sent && s.buffer[|sent|..] == left;
    } else {
      assert s.buffer == left && s.pipe + sent == s.pipe;
    }
    if uninstalled {
      es := FirstThen(t, SendDiff(0), [], snapshot);
    }
    if sent != [] {
      es := FirstThen(s, SendDiff(|sent|), es, snapshot);
    }
  }
}
