/**
 When the append only file is synced (aof.c): what each fsync policy keeps over
 a run of feeds and flushes, and what it does not.
 */
module AofSync {
  import opened AofFlush
  import opened Bytes

  /** Which way a flush goes, by its argument, the fields and what it meets. */
  lemma EndsExactlyWhen(s: State, policy: Policy, a: Attempt, t: State, end: End)
    requires Effect(s, policy, a, t, end)
    ensures end == Nothing <==> s.buf == []
    ensures end == Postponed <==>
      && s.buf != [] && policy == EverySecond && !a.force && a.syncPending
      && (s.postponed == 0 || a.now < s.postponed + 2)
    ensures end.Written? <==> s.buf != [] && end != Postponed && a.nwritten == |s.buf|
    ensures end == Exited <==> s.buf != [] && a.nwritten != |s.buf| && policy == Always
    ensures end == Written(Foreground) <==> end.Written? && policy == Always && !a.noFsync
    ensures end == Written(Background) <==>
      end.Written? && policy == EverySecond && !a.noFsync && a.now > s.lastFsync && !a.syncPending
  {}

  // ---------- what an fsync has been asked for ----------

  predicate Syncs(step: Step) {
    step.Flushed? && step.end.Written? && step.end.fsync != NoFsync
  }

  /**
   How many bytes were in the file when the last fsync was called or handed to
   the background thread. One already pending may or may not take in more.
   */
  function Covered(states: seq<State>, steps: seq<Step>, n: nat): nat
    requires n <= |steps| < |states|
  {
    if n == 0 then |states[0].file|
    else if Syncs(steps[n - 1]) then |states[n].file|
    else Covered(states, steps, n - 1)
  }

  /** An fsync is allowed in every flush of the run. */
  predicate AlwaysAllowed(steps: seq<Step>) {
    forall i :: 0 <= i < |steps| && steps[i].Flushed? ==> !steps[i].a.noFsync
  }

  /** Under "always" an fsync covers the whole file in every state but that of an exit. */
  lemma {:induction false} AlwaysCovered(states: seq<State>, steps: seq<Step>, n: nat)
    requires Run(Always, states, steps) && AlwaysAllowed(steps) && n <= |steps|
    ensures (n > 0 && Exits(steps[n - 1])) || Covered(states, steps, n) == |states[n].file|
  {
    if n > 0 {
      AlwaysCovered(states, steps, n - 1);
      assert StepOk(states[n - 1], Always, steps[n - 1], states[n]);
      assert n > 1 ==> !Exits(steps[n - 2]);
    }
  }

  /**
   Under "always", after a flush the server does not exit from, every byte fed
   so far is in the file and has been synced.
   */
  lemma FlushedIsSynced(states: seq<State>, steps: seq<Step>)
    requires Run(Always, states, steps) && AlwaysAllowed(steps) && states[0].currentSize == |states[0].file|
    requires steps != [] && steps[|steps| - 1].Flushed? && !Exits(steps[|steps| - 1])
    ensures states[|steps|].file == states[0].file + states[0].buf + AllFed(steps)
    ensures Covered(states, steps, |steps|) == |states[|steps|].file|
  {
    var n := |steps|;
    FlushConserves(Always, states, steps);
    AlwaysCovered(states, steps, n);
    assert StepOk(states[n - 1], Always, steps[n - 1], states[n]);
    EndsExactlyWhen(states[n - 1], Always, steps[n - 1].a, states[n], steps[n - 1].end);
    assert states[n].buf == [];
    assert states[n].file + [] == states[n].file;
  }

  // ---------- every second ----------

  lemma {:induction false} LastFsyncGrows(states: seq<State>, steps: seq<Step>, i: nat, j: nat)
    requires Run(EverySecond, states, steps) && i <= j <= |steps|
    ensures states[i].lastFsync <= states[j].lastFsync
    decreases j
  {
    if i < j {
      LastFsyncGrows(states, steps, i, j - 1);
      assert StepOk(states[j - 1], EverySecond, steps[j - 1], states[j]);
    }
  }

  /** Under "everysec" no two fsyncs are started in the same second, whatever the clock does. */
  lemma SyncsFarApart(states: seq<State>, steps: seq<Step>, i: nat, j: nat)
    requires Run(EverySecond, states, steps) && i < j < |steps| && Syncs(steps[i]) && Syncs(steps[j])
    ensures steps[i].a.now < steps[j].a.now
  {
    assert StepOk(states[i], EverySecond, steps[i], states[i + 1]);
    assert StepOk(states[j], EverySecond, steps[j], states[j + 1]);
    EndsExactlyWhen(states[i], EverySecond, steps[i].a, states[i + 1], steps[i].end);
    EndsExactlyWhen(states[j], EverySecond, steps[j].a, states[j + 1], steps[j].end);
    LastFsyncGrows(states, steps, i + 1, j);
  }

  predicate Postpones(step: Step) {
    step.Flushed? && step.end == Postponed
  }

  /** Nothing is written between the two steps. */
  predicate OnlyWaits(steps: seq<Step>, i: nat, j: nat)
    requires i <= j <= |steps|
  {
    forall k :: i <= k < j ==> steps[k].Flushed? ==> steps[k].end == Nothing || steps[k].end == Postponed
  }

  lemma {:induction false} PostponementKept(states: seq<State>, steps: seq<Step>, i: nat, j: nat)
    requires Run(EverySecond, states, steps) && i <= j <= |steps| && OnlyWaits(steps, i, j)
    requires states[i].postponed != 0
    ensures states[j].postponed == states[i].postponed
    decreases j
  {
    if i < j {
      PostponementKept(states, steps, i, j - 1);
      assert StepOk(states[j - 1], EverySecond, steps[j - 1], states[j]);
    }
  }

  /** A write is put off for less than two seconds after it was first put off. */
  lemma PostponedForLess(states: seq<State>, steps: seq<Step>, i: nat, j: nat)
    requires Run(EverySecond, states, steps) && i < j < |steps| && Postpones(steps[i]) && Postpones(steps[j])
    requires OnlyWaits(steps, i, j) && states[i].postponed == 0 && steps[i].a.now != 0
    ensures steps[j].a.now < steps[i].a.now + 2
  {
    assert StepOk(states[i], EverySecond, steps[i], states[i + 1]);
    assert StepOk(states[j], EverySecond, steps[j], states[j + 1]);
    EndsExactlyWhen(states[j], EverySecond, steps[j].a, states[j + 1], steps[j].end);
    PostponementKept(states, steps, i + 1, j);
  }

  /** With nothing in the buffer and nothing fed, nothing happens, and no fsync is started. */
  lemma {:induction false} QuietChangesNothing(policy: Policy, states: seq<State>, steps: seq<Step>, n: nat, m: nat)
    requires Run(policy, states, steps) && n <= m <= |steps| && states[n].buf == []
    requires forall i :: n <= i < m ==> steps[i].Flushed?
    ensures states[m] == states[n] && Covered(states, steps, m) == Covered(states, steps, n)
    decreases m
  {
    if n < m {
      QuietChangesNothing(policy, states, steps, n, m - 1);
      assert StepOk(states[m - 1], policy, steps[m - 1], states[m]);
    }
  }

  /** An fsync never covers more than the file holds. */
  lemma {:induction false} CoveredIsInFile(policy: Policy, states: seq<State>, steps: seq<Step>, n: nat)
    requires Run(policy, states, steps) && n <= |steps|
    ensures Covered(states, steps, n) <= |states[n].file|
  {
    if n > 0 {
      CoveredIsInFile(policy, states, steps, n - 1);
      assert StepOk(states[n - 1], policy, steps[n - 1], states[n]);
    }
  }

  /**
   Under "everysec", what a flush has just written is covered by an fsync,
   there and then and for as long as nothing more is fed, exactly if the second
   is a new one, no fsync is pending and none is forbidden. Otherwise no flush
   makes up for it, however late.
   */
  lemma WrittenIsCoveredExactlyWhen(states: seq<State>, steps: seq<Step>, n: nat, m: nat)
    requires Run(EverySecond, states, steps) && n < m <= |steps|
    requires steps[n].Flushed? && steps[n].end.Written?
    requires forall i :: n < i < m ==> steps[i].Flushed?
    ensures Covered(states, steps, m) == |states[m].file| <==>
      steps[n].a.now > states[n].lastFsync && !steps[n].a.syncPending && !steps[n].a.noFsync
  {
    var s, a, t := states[n], steps[n].a, states[n + 1];
    assert StepOk(s, EverySecond, steps[n], t);
    EndsExactlyWhen(s, EverySecond, a, t, steps[n].end);
    CoveredIsInFile(EverySecond, states, steps, n);
    QuietChangesNothing(EverySecond, states, steps, n + 1, m);
    assert t.file + [] == t.file && |t.file| == |s.file| + |s.buf|;
  }

  /** A flush at some second, with nothing in the buffer and no fsync pending. */
  function Late(now: int): Step {
    Flushed(Attempt(false, now, false, 0, false, false), Nothing)
  }

  const EMPTY: State := State([], [], 0, false, 0, 0, 0)
  const WAITING: State := State([], [0], 0, false, 1, 0, 0)
  const WRITTEN: State := State([0], [], 1, false, 0, 1, 3)
  const WAIT: Step := Flushed(Attempt(false, 1, true, 0, false, false), Postponed)
  const WRITE: Step := Flushed(Attempt(false, 3, true, 1, false, false), Written(NoFsync))

  lemma StepsAreOk(now: int)
    ensures StepOk(EMPTY, EverySecond, Fed([0]), EMPTY.(buf := [0]))
    ensures StepOk(EMPTY.(buf := [0]), EverySecond, WAIT, WAITING) && StepOk(WAITING, EverySecond, WRITE, WRITTEN)
    ensures StepOk(WRITTEN, EverySecond, Late(now), WRITTEN)
  {
    assert [] + [0] == [0] == [0] + [];
  }

  function StateAt(i: nat): State {
    if i == 0 then EMPTY else if i == 1 then EMPTY.(buf := [0]) else if i == 2 then WAITING else WRITTEN
  }

  function StepAt(nows: seq<int>, i: nat): Step
    requires i < |nows| + 3
  {
    if i == 0 then Fed([0]) else if i == 1 then WAIT else if i == 2 then WRITE else Late(nows[i - 3])
  }

  lemma UnsyncedRun(nows: seq<int>) returns (states: seq<State>, steps: seq<Step>)
    ensures Run(EverySecond, states, steps) && |steps| == |nows| + 3
    ensures forall i :: 0 <= i < |states| ==> states[i] == StateAt(i)
    ensures forall i :: 0 <= i < |steps| ==> steps[i] == StepAt(nows, i)
  {
    states := seq(|nows| + 4, i requires i >= 0 => StateAt(i));
    steps := seq(|nows| + 3, i requires 0 <= i < |nows| + 3 => StepAt(nows, i));
    forall i | 0 <= i < |steps| ensures StepOk(states[i], EverySecond, steps[i], states[i + 1]) {
      StepsAreOk(if i >= 3 then nows[i - 3] else 0);
    }
  }

  /**
   One byte is fed while an fsync is pending, and its write put off until two
   seconds have passed; then come any number of flushes, as late as one likes.
   The byte is in the file, and once it is there no fsync is ever asked for.
   */
  lemma StaysUnsynced(nows: seq<int>) returns (states: seq<State>, steps: seq<Step>)
    ensures Run(EverySecond, states, steps) && |steps| == |nows| + 3 && states[0] == EMPTY
    ensures steps[0] == Fed([0]) && forall i :: 0 <= i < |nows| ==> steps[i + 3] == Late(nows[i])
    ensures states[|steps|].file == [0] && Covered(states, steps, |steps|) == 0
  {
    states, steps := UnsyncedRun(nows);
    assert !Syncs(steps[0]) && !Syncs(steps[1]) && !Syncs(steps[2]);
    assert Covered(states, steps, 3) == Covered(states, steps, 2) == Covered(states, steps, 1)
        == Covered(states, steps, 0) == 0;
    assert states[3].buf == [];
    QuietChangesNothing(EverySecond, states, steps, 3, |steps|);
  }
}
