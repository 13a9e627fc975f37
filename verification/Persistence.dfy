/**
 The append only file over whole runs (aof.c): commands fed, flushes with any
 outcome, and rewrites that replace the file, in any interleaving. Loading it
 always rebuilds the dataset.
 */
module Persistence {
  import F = AofFlush
  import opened AofLog
  import R = AofRewrite
  import opened Bytes
  import opened Decimal
  import opened OptionType
  import opened Replay

  /** A rewrite under way: the protocol's state, the commands of the snapshot, and those fed since the fork. */
  datatype Rewrite = Rewrite(state: R.State, snapshot: seq<Argv>, since: seq<Command>)

  /**
   The file with its buffer, aof_selected_db, and the rewrite if there is one.
   `log` is what has been written to file and buffer, command by command, and
   `data` the dataset, changed by every command as it is fed.
   */
  datatype State<K> = State(main: F.State, selected: Option<nat>, rewrite: Option<Rewrite>,
                            log: seq<Argv>, data: K, exited: bool)

  datatype Event<K> =
    | Feed(c: Command)
    | Flush(a: F.Attempt, end: F.End, after: F.State)
    | Fork(snapshot: seq<Argv>)
    | Step(e: R.Event)

  /** The server with an empty file; `empty` is the dataset without any key. */
  function Start<K>(empty: K): State<K> {
    State(F.State([], [], 0, false, 0, 0, 0), None, None, [], empty, false)
  }

  // ---------- steps ----------

  /** The child writes commands that rebuild the dataset there is at the fork. */
  ghost predicate Enabled<K>(run: Runner<K>, empty: K, policy: F.Policy, s: State<K>, e: Event<K>) {
    && !s.exited
    && match e
       case Feed(c) => Feedable(c)
       case Flush(a, end, after) => F.StepOk(s.main, policy, F.Flushed(a, end), after)
       case Fork(snapshot) =>
         s.rewrite == None && AllWritable(snapshot) && Replayed(run, empty, Execute(snapshot, 0)) == s.data
       case Step(e) => s.rewrite.Some? && R.Enabled(s.rewrite.value.state, e) && !e.Feed? && e != R.ChildFinishes(true)
  }

  function Apply<K>(run: Runner<K>, s: State<K>, e: Event<K>): State<K>
    requires e.Step? ==> s.rewrite.Some? && R.Enabled(s.rewrite.value.state, e.e)
    requires s.rewrite.Some? ==> !s.rewrite.value.state.handled
  {
    match e
    case Feed(c) => Fed(run, s, c, Log(AofLog.Fed(s.selected, c)))
    case Flush(_, end, after) => s.(main := after, exited := end == F.Exited)
    case Fork(snapshot) => s.(rewrite := Some(Rewrite(R.Forked(), snapshot, [])), selected := None)
    case Step(e) => Stepped(s, s.rewrite.value, R.Apply(s.rewrite.value.state, e, Log(s.rewrite.value.snapshot)))
  }

  /** feedAppendOnlyFile: the text goes to the buffer and, during a rewrite, to the rewrite buffer. */
  function Fed<K>(run: Runner<K>, s: State<K>, c: Command, text: bytes): State<K>
    requires s.rewrite.Some? ==> !s.rewrite.value.state.handled
  {
    State(s.main.(buf := s.main.buf + text), Some(c.db),
          if s.rewrite == None then None
          else Some(s.rewrite.value.(state := R.Apply(s.rewrite.value.state, R.Feed(text), []),
                                     since := s.rewrite.value.since + [c])),
          s.log + AofLog.Fed(s.selected, c), run(s.data, c.db, c.argv), s.exited)
  }

  /** backgroundRewriteDoneHandler puts the new file in place, clears aof_buf and has SELECT issued again. */
  function Stepped<K>(s: State<K>, r: Rewrite, next: R.State): State<K> {
    if !next.handled then s.(rewrite := Some(r.(state := next)))
    else if next.installedFile == None then s.(rewrite := None)
    else
      var file := next.installedFile.value;
      s.(main := s.main.(file := file, buf := [], currentSize := |file|), selected := None, rewrite := None,
         log := r.snapshot + FedAll(None, r.since))
  }

  // ---------- what every step keeps ----------

  function LastDb(cs: seq<Command>): Option<nat> {
    if cs == [] then None else Some(cs[|cs| - 1].db)
  }

  lemma {:induction false} FedAllSnoc(selected: Option<nat>, cs: seq<Command>, c: Command)
    ensures FedAll(selected, cs + [c])
         == FedAll(selected, cs) + AofLog.Fed(if cs == [] then selected else LastDb(cs), c)
    decreases cs
  {
    if cs == [] {
      assert ([] + [c])[1..] == [];
      assert FedAll(selected, [c]) == AofLog.Fed(selected, c) + FedAll(Some(c.db), []);
    } else {
      assert (cs + [c])[0] == cs[0] && (cs + [c])[1..] == cs[1..] + [c];
      FedAllSnoc(Some(cs[0].db), cs[1..], c);
    }
  }

  /** The snapshot and the commands since account for the dataset, and the rewrite for their text. */
  ghost predicate RewriteOk<K>(run: Runner<K>, empty: K, s: State<K>, r: Rewrite) {
    && !r.state.handled && R.Invariant(r.state, Log(r.snapshot)) && R.Drained(r.state)
    && AllWritable(r.snapshot) && AllFeedable(r.since)
    && r.state.fed == Written(r.since) && s.selected == LastDb(r.since)
    && s.data == Replayed(run, Replayed(run, empty, Execute(r.snapshot, 0)), Runs(r.since))
  }

  /** The log accounts for the dataset, and file and buffer hold its text. */
  ghost predicate LogOk<K>(run: Runner<K>, empty: K, s: State<K>) {
    && AllWritable(s.log) && s.data == Replayed(run, empty, Execute(s.log, 0))
    && (s.selected.Some? ==> Selected(s.log, 0) == s.selected.value)
    && s.main.file <= Log(s.log)
    && (!s.exited ==> s.main.file + s.main.buf == Log(s.log) && s.main.currentSize == |s.main.file|)
  }

  ghost predicate Invariant<K>(run: Runner<K>, empty: K, s: State<K>) {
    LogOk(run, empty, s) && (s.rewrite.Some? ==> RewriteOk(run, empty, s, s.rewrite.value))
  }

  /** One command more, with a SELECT before it if its database is not the one selected. */
  lemma OneMoreFed(log: seq<Argv>, selected: Option<nat>, c: Command)
    requires Feedable(c) && AllWritable(log) && (selected.Some? ==> Selected(log, 0) == selected.value)
    ensures AllWritable(log + AofLog.Fed(selected, c))
    ensures Execute(log + AofLog.Fed(selected, c), 0) == Execute(log, 0) + [(c.db as int, c.argv)]
    ensures Selected(log + AofLog.Fed(selected, c), 0) == c.db
  {
    var more := AofLog.Fed(selected, c);
    ExecuteConcat(log, more, 0);
    RunFed(selected, c, [], Selected(log, 0));
    assert more + [] == more;
    PrintFits(c.db);
    SelectIsSelect(c.db);
    if selected != Some(c.db) {
      assert more[1..] == [c.argv] && [c.argv][1..] == [];
      assert Selected([c.argv], c.db) == c.db;
    } else {
      assert more[1..] == [];
    }
  }

  lemma ReplayOneMore<K>(run: Runner<K>, k: K, xs: seq<(int, Argv)>, x: (int, Argv))
    ensures Replayed(run, k, xs + [x]) == run(Replayed(run, k, xs), x.0, x.1)
  {
    ReplayedConcat(run, k, xs, [x]);
    assert [x][1..] == [];
  }

  lemma RunsOneMore<K>(run: Runner<K>, k: K, cs: seq<Command>, c: Command)
    ensures Replayed(run, k, Runs(cs + [c])) == run(Replayed(run, k, Runs(cs)), c.db, c.argv)
  {
    assert Runs(cs + [c]) == Runs(cs) + [(c.db as int, c.argv)];
    ReplayOneMore(run, k, Runs(cs), (c.db as int, c.argv));
  }

  lemma FedKeepsLog<K>(run: Runner<K>, empty: K, s: State<K>, c: Command, text: bytes)
    requires LogOk(run, empty, s) && !s.exited && Feedable(c) && text == Log(AofLog.Fed(s.selected, c))
    requires s.rewrite.Some? ==> !s.rewrite.value.state.handled
    ensures LogOk(run, empty, Fed(run, s, c, text))
  {
    OneMoreFed(s.log, s.selected, c);
    ReplayOneMore(run, empty, Execute(s.log, 0), (c.db as int, c.argv));
    LogConcat(s.log, AofLog.Fed(s.selected, c));
    Assoc(s.main.file, s.main.buf, text);
  }

  lemma FedKeepsRewrite<K>(run: Runner<K>, empty: K, s: State<K>, c: Command, text: bytes)
    requires s.rewrite.Some? && RewriteOk(run, empty, s, s.rewrite.value)
    requires Feedable(c) && text == Log(AofLog.Fed(s.selected, c))
    ensures var t := Fed(run, s, c, text); RewriteOk(run, empty, t, t.rewrite.value)
  {
    var r := s.rewrite.value;
    R.StepKeeps(r.state, R.Feed(text), Log(r.snapshot));
    FedAllSnoc(None, r.since, c);
    LogConcat(FedAll(None, r.since), AofLog.Fed(s.selected, c));
    RunsOneMore(run, Replayed(run, empty, Execute(r.snapshot, 0)), r.since, c);
  }

  lemma FlushKeeps<K>(run: Runner<K>, empty: K, policy: F.Policy, s: State<K>, e: Event<K>)
    requires e.Flush? && Invariant(run, empty, s) && Enabled(run, empty, policy, s, e)
    ensures Invariant(run, empty, Apply(run, s, e))
  {
    F.StepConserves(s.main, policy, F.Flushed(e.a, e.end), e.after, Log(s.log));
    assert Log(s.log) + [] == Log(s.log);
  }

  lemma ForkKeeps<K>(run: Runner<K>, empty: K, policy: F.Policy, s: State<K>, e: Event<K>)
    requires e.Fork? && Invariant(run, empty, s) && Enabled(run, empty, policy, s, e)
    ensures Invariant(run, empty, Apply(run, s, e))
  {
    assert Runs([]) == [] && Written([]) == [];
  }

  /** The file put in place holds the snapshot and every command fed since the fork. */
  lemma InstallKeeps<K>(run: Runner<K>, empty: K, s: State<K>, r: Rewrite, next: R.State)
    requires LogOk(run, empty, s) && !s.exited && RewriteOk(run, empty, s, r)
    requires next.installedFile == Some(Log(r.snapshot) + Written(r.since)) && next.handled
    ensures Invariant(run, empty, Stepped(s, r, next))
  {
    var diff := FedAll(None, r.since);
    LogConcat(r.snapshot, diff);
    FedAllWritable(None, r.since);
    ExecuteConcat(r.snapshot, diff, 0);
    ExecuteAll(r.since, Selected(r.snapshot, 0));
    ReplayedConcat(run, empty, Execute(r.snapshot, 0), Runs(r.since));
  }

  /** A step of the protocol other than a feed leaves the rewrite in order, or ends it with a complete file. */
  lemma ProtocolStep(state: R.State, e: R.Event, snapshot: bytes)
    requires !state.handled && R.Invariant(state, snapshot) && R.Drained(state)
    requires R.Enabled(state, e) && !e.Feed? && e != R.ChildFinishes(true)
    ensures var next := R.Apply(state, e, snapshot);
      && R.Invariant(next, snapshot) && R.Drained(next) && next.fed == state.fed
      && (next.installedFile.Some? ==> next.handled && next.installedFile.value == snapshot + state.fed)
  {
    var next := R.Apply(state, e, snapshot);
    R.StepKeeps(state, e, snapshot);
    if next.installedFile.Some? {
      var rest :| next.diff + next.pipe + rest == next.fed && next.installedFile == Some(next.file + rest);
      R.WithoutMiddle(snapshot, next.diff, next.pipe, rest);
    }
  }

  lemma StepOfRewriteKeeps<K>(run: Runner<K>, empty: K, policy: F.Policy, s: State<K>, e: Event<K>)
    requires e.Step? && Invariant(run, empty, s) && Enabled(run, empty, policy, s, e)
    ensures Invariant(run, empty, Apply(run, s, e))
  {
    var r := s.rewrite.value;
    var next := R.Apply(r.state, e.e, Log(r.snapshot));
    ProtocolStep(r.state, e.e, Log(r.snapshot));
    if next.installedFile.Some? {
      InstallKeeps(run, empty, s, r, next);
    }
  }

  lemma StepKeeps<K>(run: Runner<K>, empty: K, policy: F.Policy, s: State<K>, e: Event<K>)
    requires Invariant(run, empty, s) && Enabled(run, empty, policy, s, e)
    ensures Invariant(run, empty, Apply(run, s, e))
  {
    match e
    case Feed(c) =>
      var text := Log(AofLog.Fed(s.selected, c));
      FedKeepsLog(run, empty, s, c, text);
      if s.rewrite.Some? {
        FedKeepsRewrite(run, empty, s, c, text);
      }
    case Flush(_, _, _) => FlushKeeps(run, empty, policy, s, e);
    case Fork(_) => ForkKeeps(run, empty, policy, s, e);
    case Step(_) => StepOfRewriteKeeps(run, empty, policy, s, e);
  }

  // ---------- whole runs ----------

  /** A run from one state to another, with every state in between. */
  ghost predicate Run<K>(run: Runner<K>, empty: K, policy: F.Policy, states: seq<State<K>>, es: seq<Event<K>>) {
    && |states| == |es| + 1 && states[0] == Start(empty)
    && forall i :: 0 <= i < |es| ==>
         Ready(states[i]) && Enabled(run, empty, policy, states[i], es[i])
         && states[i + 1] == Apply(run, states[i], es[i])
  }

  predicate Ready<K>(s: State<K>) {
    s.rewrite.Some? ==> !s.rewrite.value.state.handled
  }

  function Commands<K>(es: seq<Event<K>>): seq<Command>
    decreases |es|
  {
    if es == [] then []
    else Commands(es[..|es| - 1]) + if es[|es| - 1].Feed? then [es[|es| - 1].c] else []
  }

  lemma RunFront<K>(run: Runner<K>, empty: K, policy: F.Policy, states: seq<State<K>>, es: seq<Event<K>>)
    requires Run(run, empty, policy, states, es) && es != []
    ensures Run(run, empty, policy, states[..|es|], es[..|es| - 1])
  {
    var n := |es| - 1;
    forall i | 0 <= i < n
      ensures Ready(states[i]) && Enabled(run, empty, policy, states[i], es[..n][i])
              && states[..n + 1][i + 1] == Apply(run, states[i], es[..n][i])
    {
      assert es[..n][i] == es[i];
    }
  }

  /** Only feeding changes the dataset, by the command fed. */
  lemma DataAfter<K>(run: Runner<K>, s: State<K>, e: Event<K>)
    requires Ready(s) && (e.Step? ==> s.rewrite.Some? && R.Enabled(s.rewrite.value.state, e.e))
    ensures Apply(run, s, e).data == if e.Feed? then run(s.data, e.c.db, e.c.argv) else s.data
  {}

  lemma CommandsAfter<K>(es: seq<Event<K>>)
    requires es != []
    ensures var e := es[|es| - 1];
      Commands(es) == if e.Feed? then Commands(es[..|es| - 1]) + [e.c] else Commands(es[..|es| - 1])
  {
    assert Commands(es[..|es| - 1]) + [] == Commands(es[..|es| - 1]);
  }

  lemma {:induction false} RunKeeps<K>(run: Runner<K>, empty: K, policy: F.Policy, states: seq<State<K>>,
                                       es: seq<Event<K>>)
    requires Run(run, empty, policy, states, es)
    ensures Invariant(run, empty, states[|es|])
    ensures states[|es|].data == Replayed(run, empty, Runs(Commands(es)))
    decreases |es|
  {
    if es == [] {
      StartKeeps(run, empty);
    } else {
      var n := |es| - 1;
      RunFront(run, empty, policy, states, es);
      RunKeeps(run, empty, policy, states[..n + 1], es[..n]);
      StepKeeps(run, empty, policy, states[n], es[n]);
      DataAfter(run, states[n], es[n]);
      CommandsAfter(es);
      if es[n].Feed? {
        RunsOneMore(run, empty, Commands(es[..n]), es[n].c);
      }
    }
  }

  lemma StartKeeps<K>(run: Runner<K>, empty: K)
    ensures Invariant(run, empty, Start(empty)) && empty == Replayed(run, empty, Runs([]))
  {
    assert Runs([]) == [];
  }

  /**
   At every moment of every run, whatever rewrites have replaced the file: file
   and buffer together load completely, and running them rebuilds what every
   command ever fed, run in its own database, makes of the empty dataset.
   */
  lemma EveryCommandIsKept<K>(run: Runner<K>, empty: K, policy: F.Policy, states: seq<State<K>>, es: seq<Event<K>>)
    requires Run(run, empty, policy, states, es) && !states[|es|].exited
    ensures var l := Load(states[|es|].main.file + states[|es|].main.buf);
      && l.ending == Complete
      && Replayed(run, empty, Execute(l.raw, 0)) == Replayed(run, empty, Runs(Commands(es)))
  {
    RunKeeps(run, empty, policy, states, es);
    LoadWhole(states[|es|].log);
  }

  lemma {:induction false} ExecuteOfFront(raw: seq<Argv>, w: nat, db: int)
    requires w <= |raw|
    ensures Execute(raw[..w], db) <= Execute(raw, db)
    decreases raw
  {
    if w > 0 {
      assert raw[..w][0] == raw[0] && raw[..w][1..] == raw[1..][..w - 1];
      ExecuteOfFront(raw[1..], w - 1, if IsSelect(raw[0]) then Atoi(raw[0][1]) else db);
    }
  }

  // ---------- what the file alone holds ----------

  /**
   The first `base` commands of the log are in the file and account for the
   first n commands fed; the rest of the log is the rest of them.
   */
  ghost predicate BaseOk<K>(run: Runner<K>, empty: K, s: State<K>, cs: seq<Command>, base: nat, n: nat) {
    && base <= |s.log| && n <= |cs| && |Log(s.log[..base])| <= |s.main.file|
    && Replayed(run, empty, Execute(s.log[..base], 0)) == Replayed(run, empty, Runs(cs[..n]))
    && Execute(s.log, 0) == Execute(s.log[..base], 0) + Runs(cs[n..])
  }

  lemma FedKeepsBase<K>(run: Runner<K>, empty: K, s: State<K>, cs: seq<Command>, base: nat, n: nat, c: Command,
                        text: bytes)
    requires LogOk(run, empty, s) && BaseOk(run, empty, s, cs, base, n) && Feedable(c)
    requires s.rewrite.Some? ==> !s.rewrite.value.state.handled
    ensures BaseOk(run, empty, Fed(run, s, c, text), cs + [c], base, n)
  {
    var t := Fed(run, s, c, text);
    OneMoreFed(s.log, s.selected, c);
    RunsSnoc(cs[n..], c);
    Regroup(Execute(s.log[..base], 0), Runs(cs[n..]), [(c.db as int, c.argv)]);
    assert t.log[..base] == s.log[..base] && (cs + [c])[..n] == cs[..n] && (cs + [c])[n..] == cs[n..] + [c];
  }

  lemma RunsSnoc(cs: seq<Command>, c: Command)
    ensures Runs(cs + [c]) == Runs(cs) + [(c.db as int, c.argv)]
  {}

  lemma Regroup(a: seq<(int, Argv)>, b: seq<(int, Argv)>, c: seq<(int, Argv)>)
    ensures (a + b) + c == a + (b + c)
  {}

  /** Whether the step puts a new file in place. */
  predicate Installs<K>(s: State<K>, e: Event<K>) {
    && e.Step? && s.rewrite.Some? && R.Enabled(s.rewrite.value.state, e.e)
    && R.Apply(s.rewrite.value.state, e.e, Log(s.rewrite.value.snapshot)).installedFile.Some?
  }

  lemma WholeLogIsBase<K>(run: Runner<K>, empty: K, s: State<K>, cs: seq<Command>)
    requires LogOk(run, empty, s) && s.main.file == Log(s.log) && s.data == Replayed(run, empty, Runs(cs))
    ensures BaseOk(run, empty, s, cs, |s.log|, |cs|)
  {
    assert s.log[..|s.log|] == s.log && cs[..|cs|] == cs;
    assert cs[|cs|..] == [] && Execute(s.log, 0) + Runs([]) == Execute(s.log, 0);
  }

  /** The new file holds the text of the log as it then is. */
  lemma InstalledIsLog<K>(s: State<K>, r: Rewrite, next: R.State)
    requires next.handled && next.installedFile == Some(Log(r.snapshot) + Written(r.since))
    ensures var t := Stepped(s, r, next); t.main.file == Log(t.log)
  {
    LogConcat(r.snapshot, FedAll(None, r.since));
  }

  /** A new file holds everything fed so far. */
  lemma InstallSetsBase<K>(run: Runner<K>, empty: K, policy: F.Policy, s: State<K>, e: Event<K>, cs: seq<Command>)
    requires Invariant(run, empty, s) && Enabled(run, empty, policy, s, e) && Installs(s, e)
    requires s.data == Replayed(run, empty, Runs(cs))
    ensures var t := Apply(run, s, e); BaseOk(run, empty, t, cs, |t.log|, |cs|)
  {
    var r := s.rewrite.value;
    StepKeeps(run, empty, policy, s, e);
    ProtocolStep(r.state, e.e, Log(r.snapshot));
    InstalledIsLog(s, r, R.Apply(r.state, e.e, Log(r.snapshot)));
    DataAfter(run, s, e);
    WholeLogIsBase(run, empty, Apply(run, s, e), cs);
  }

  lemma OtherStepsKeepBase<K>(run: Runner<K>, empty: K, policy: F.Policy, s: State<K>, e: Event<K>,
                              cs: seq<Command>, base: nat, n: nat)
    requires Invariant(run, empty, s) && Enabled(run, empty, policy, s, e) && !Installs(s, e) && !e.Feed?
    requires BaseOk(run, empty, s, cs, base, n)
    ensures BaseOk(run, empty, Apply(run, s, e), cs, base, n)
  {
    if e.Step? {
      ProtocolStep(s.rewrite.value.state, e.e, Log(s.rewrite.value.snapshot));
    }
  }

  /** The number of commands fed before the last new file was put in place. */
  ghost function Settled<K>(states: seq<State<K>>, es: seq<Event<K>>): nat
    requires |states| == |es| + 1
    decreases |es|
  {
    if es == [] then 0
    else if Installs(states[|es| - 1], es[|es| - 1]) then |Commands(es)|
    else Settled(states[..|es|], es[..|es| - 1])
  }

  lemma {:induction false} RunKeepsBase<K>(run: Runner<K>, empty: K, policy: F.Policy, states: seq<State<K>>,
                                           es: seq<Event<K>>) returns (base: nat)
    requires Run(run, empty, policy, states, es)
    ensures BaseOk(run, empty, states[|es|], Commands(es), base, Settled(states, es))
    decreases |es|
  {
    if es == [] {
      base := 0;
      assert Runs([]) == [] && Log(states[0].log[..0]) == [];
    } else {
      var k := |es| - 1;
      var s, e := states[k], es[k];
      RunFront(run, empty, policy, states, es);
      RunKeeps(run, empty, policy, states[..k + 1], es[..k]);
      CommandsAfter(es);
      if Installs(s, e) {
        InstallSetsBase(run, empty, policy, s, e, Commands(es));
        base := |states[k + 1].log|;
      } else {
        base := RunKeepsBase(run, empty, policy, states[..k + 1], es[..k]);
        if e.Feed? {
          FedKeepsBase(run, empty, s, Commands(es[..k]), base, Settled(states, es), e.c,
                       Log(AofLog.Fed(s.selected, e.c)));
        } else {
          OtherStepsKeepBase(run, empty, policy, s, e, Commands(es), base, Settled(states, es));
        }
      }
    }
  }

  /** What lies in so many bytes is at least what takes no more. */
  lemma WholeAtLeast(raw: seq<Argv>, k: nat, w: nat)
    requires w <= |raw| && |Log(raw[..w])| <= k
    ensures Whole(raw, k) >= w
  {
    WholeIsGreatest(raw, k);
    if Whole(raw, k) < w {
      LogOfPrefix(raw, Whole(raw, k) + 1, w);
    }
  }

  /** Commands from the base on execute as some of those fed after it. */
  lemma FrontRuns(log: seq<Argv>, base: nat, w: nat, cs: seq<Command>, n: nat) returns (m: nat)
    requires base <= w <= |log| && n <= |cs| && Execute(log, 0) == Execute(log[..base], 0) + Runs(cs[n..])
    ensures n <= m <= |cs| && Execute(log[..w], 0) == Execute(log[..base], 0) + Runs(cs[n..m])
  {
    var all, front, first := Execute(log, 0), Execute(log[..w], 0), Execute(log[..base], 0);
    ExecuteOfFront(log, w, 0);
    assert log[..w][..base] == log[..base];
    ExecuteOfFront(log[..w], base, 0);
    m := n + |front| - |first|;
    assert front == all[..|front|] && first == front[..|first|];
    assert all[|first|..] == Runs(cs[n..]);
    assert front[|first|..] == Runs(cs[n..])[..m - n] == Runs(cs[n..m]);
  }

  /** The first n commands of some, then those up to m, are the first m. */
  lemma ReplayedTo<K>(run: Runner<K>, empty: K, k: K, cs: seq<Command>, n: nat, m: nat)
    requires n <= m <= |cs| && k == Replayed(run, empty, Runs(cs[..n]))
    ensures Replayed(run, k, Runs(cs[n..m])) == Replayed(run, empty, Runs(cs[..m]))
  {
    assert Runs(cs[..m]) == Runs(cs[..n]) + Runs(cs[n..m]);
    ReplayedConcat(run, empty, Runs(cs[..n]), Runs(cs[n..m]));
  }

  /**
   The file alone, at any moment and after the server has exited in the middle
   of a write, rebuilds what the first m of the commands fed make of the empty
   dataset, for some m; and m is at least the number of those fed before the
   last new file was put in place.
   */
  lemma FileAloneIsPrefix<K>(run: Runner<K>, empty: K, policy: F.Policy, states: seq<State<K>>, es: seq<Event<K>>)
    returns (m: nat)
    requires Run(run, empty, policy, states, es)
    ensures Settled(states, es) <= m <= |Commands(es)|
    ensures var l := Load(states[|es|].main.file);
      && (l.ending == Complete || l.ending == Truncated)
      && Replayed(run, empty, Execute(l.raw, 0)) == Replayed(run, empty, Runs(Commands(es)[..m]))
  {
    RunKeeps(run, empty, policy, states, es);
    var base := RunKeepsBase(run, empty, policy, states, es);
    m := FileLoads(run, empty, states[|es|], Commands(es), base, Settled(states, es));
  }

  lemma FileLoads<K>(run: Runner<K>, empty: K, s: State<K>, cs: seq<Command>, base: nat, n: nat) returns (m: nat)
    requires LogOk(run, empty, s) && BaseOk(run, empty, s, cs, base, n)
    ensures n <= m <= |cs|
    ensures var l := Load(s.main.file);
      && (l.ending == Complete || l.ending == Truncated)
      && Replayed(run, empty, Execute(l.raw, 0)) == Replayed(run, empty, Runs(cs[..m]))
  {
    var k := |s.main.file|;
    var w := Whole(s.log, k);
    assert s.main.file == Log(s.log)[..k];
    LoadOfPrefix(s.log, k);
    WholeAtLeast(s.log, k, base);
    m := FrontRuns(s.log, base, w, cs, n);
    ReplayedConcat(run, empty, Execute(s.log[..base], 0), Runs(cs[n..m]));
    ReplayedTo(run, empty, Replayed(run, empty, Execute(s.log[..base], 0)), cs, n, m);
  }
}
