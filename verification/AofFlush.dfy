/**
 Writing the append only file (aof.c): data waits in a buffer, a write may take
 only part of it, and what was taken may or may not be undone by ftruncate.
 */
module AofFlush {
  import opened Bytes
  import opened OptionType
  import AofLog

  datatype Policy = Never | EverySecond | Always

  /** The file on disk and the fields of the server that go with it. A postponement of 0 means none. */
  datatype State = State(file: bytes, buf: bytes, currentSize: nat, writeFailed: bool, postponed: int,
                         delayed: nat, lastFsync: int)

  /**
   What a flush meets: its argument, the clock, pending fsyncs, what write and
   ftruncate return, and whether children forbid an fsync.
   */
  datatype Attempt = Attempt(force: bool, now: int, syncPending: bool, nwritten: int, truncated: bool, noFsync: bool)

  datatype End = Nothing | Postponed | Failed | Exited | Written(fsync: Fsync)

  datatype Fsync = NoFsync | Foreground | Background

  /** write(2) returns -1, or a count of at most what it was offered. */
  predicate Possible(s: State, a: Attempt) {
    -1 <= a.nwritten <= |s.buf|
  }

  predicate MustWait(s: State, policy: Policy, a: Attempt) {
    policy == EverySecond && !a.force && a.syncPending
    && (s.postponed == 0 || a.now - s.postponed < 2)
  }

  /** Whether a complete write is the time for an fsync, which a background fsync still pending does not put off. */
  predicate FsyncIsDue(s: State, policy: Policy, a: Attempt) {
    !a.noFsync && (policy == Always || (policy == EverySecond && a.now > s.lastFsync))
  }

  /** The fsync started by then: none under EverySecond while one is pending. */
  function ChosenFsync(s: State, policy: Policy, a: Attempt): Fsync {
    if !FsyncIsDue(s, policy, a) then NoFsync
    else if policy == Always then Foreground
    else if a.syncPending then NoFsync else Background
  }

  // ---------- one flush ----------

  /** The bytes the file is left with when the write was short. */
  function AfterShortWrite(s: State, a: Attempt): bytes
    requires Possible(s, a)
  {
    if a.nwritten == -1 then s.file
    else
      var longer := s.file + s.buf[..a.nwritten];
      if a.truncated && s.currentSize <= |longer| then longer[..s.currentSize] else longer
  }

  class AppendOnlyFile {
    const policy: Policy
    var file: bytes
    var buf: bytes
    var currentSize: nat
    var writeFailed: bool
    var postponed: int
    var delayed: nat
    var lastFsync: int

    constructor (policy: Policy, file: bytes)
      ensures Self() == State(file, [], |file|, false, 0, 0, 0) && this.policy == policy
    {
      this.policy, this.file, buf, currentSize := policy, file, [], |file|;
      writeFailed, postponed, delayed, lastFsync := false, 0, 0, 0;
    }

    ghost function Self(): State
      reads this
    {
      State(file, buf, currentSize, writeFailed, postponed, delayed, lastFsync)
    }

    /** The end of feedAppendOnlyFile, with the append only file on. */
    method Feed(s: bytes)
      modifies this`buf
      ensures Self() == old(Self()).(buf := old(buf) + s)
    {
      buf := buf + s;
    }

    method WriteAndTruncate(a: Attempt) returns (nwritten: int)
      requires Possible(Self(), a)
      modifies this`file
      ensures a.nwritten == |buf| ==> nwritten == |buf| && file == old(file) + buf
      ensures a.nwritten != |buf| ==> file == old(AfterShortWrite(Self(), a))
      ensures a.nwritten != |buf| ==>
        nwritten == if a.truncated && currentSize <= |old(file)| + a.nwritten then -1 else a.nwritten
    {
      nwritten := a.nwritten;
      if nwritten > 0 { file := file + buf[..nwritten]; }
      if nwritten != |buf| && nwritten != -1 {
        if a.truncated && currentSize <= |file| {
          file := file[..currentSize];
          nwritten := -1;
        }
      }
    }

    /** What follows the decision not to wait. */
    method WriteBuffer(a: Attempt) returns (end: End)
      requires Possible(Self(), a) && currentSize == |file| && buf != []
      modifies this`file, this`buf, this`currentSize, this`postponed, this`writeFailed
      ensures if a.nwritten == |old(buf)| then end.Written? else end == if policy == Always then Exited else Failed
      ensures old(file) <= file <= old(file) + old(buf) && postponed == 0
      ensures end != Exited ==> file + buf == old(file) + old(buf) && currentSize == |file|
      ensures end.Written? ==> buf == [] && !writeFailed
      ensures end == Failed ==> writeFailed
      ensures end == Failed ==>
        |file| == |old(file)| + if a.nwritten > 0 && !a.truncated then a.nwritten else 0
    {
      var nwritten := WriteAndTruncate(a);
      postponed := 0;
      if nwritten != |buf| {
        if policy == Always { return Exited; }
        writeFailed := true;
        if nwritten > 0 {
          currentSize := currentSize + nwritten;
          buf := buf[nwritten..];
        }
        return Failed;
      }
      writeFailed := false;
      currentSize := currentSize + nwritten;
      buf := [];
      end := Written(NoFsync);
    }

    method FsyncIfNeeded(a: Attempt) returns (fsync: Fsync)
      modifies this`lastFsync
      ensures fsync == ChosenFsync(old(Self()), policy, a)
      ensures lastFsync == if FsyncIsDue(old(Self()), policy, a) then a.now else old(lastFsync)
    {
      if a.noFsync { return NoFsync; }
      if policy == Always {
        lastFsync := a.now;
        return Foreground;
      } else if policy == EverySecond && a.now > lastFsync {
        lastFsync := a.now;
        return if a.syncPending then NoFsync else Background;
      }
      return NoFsync;
    }

    /** flushAppendOnlyFile */
    method Flush(a: Attempt) returns (end: End)
      requires Possible(Self(), a) && currentSize == |file|
      modifies this
      ensures Effect(old(Self()), policy, a, Self(), end)
    {
      if |buf| == 0 { return Nothing; }
      if policy == EverySecond && !a.force {
        if a.syncPending {
          if postponed == 0 {
            postponed := a.now;
            return Postponed;
          } else if a.now - postponed < 2 {
            return Postponed;
          }
          delayed := delayed + 1;
        }
      }
      end := WriteBuffer(a);
      if end.Written? {
        var fsync := FsyncIfNeeded(a);
        end := Written(fsync);
      }
    }
  }

  /**
   What a flush promises. Unless the server exits, the file and the buffer
   together hold what they held, and aof_current_size is the file's length; in
   every case the file holds what it held and a part of the buffer.
   */
  predicate Effect(s: State, policy: Policy, a: Attempt, t: State, end: End) {
    && s.file <= t.file <= s.file + s.buf
    && (end != Exited ==> t.file + t.buf == s.file + s.buf && t.currentSize == |t.file|)
    && Ends(s, policy, a, end)
    && t.lastFsync == (if end.Written? && FsyncIsDue(s, policy, a) then a.now else s.lastFsync)
    && t.delayed == s.delayed + (if WritesWhilePending(s, policy, a) then 1 else 0)
    && match end
       case Nothing => t == s
       case Postponed => t == s.(postponed := if s.postponed == 0 then a.now else s.postponed)
       case Failed =>
         && t.writeFailed && t.postponed == 0
         && |t.file| == |s.file| + if a.nwritten > 0 && !a.truncated then a.nwritten else 0
       case Exited => true
       case Written(fsync) =>
         && t.buf == [] && !t.writeFailed && t.postponed == 0
         && fsync == ChosenFsync(s, policy, a)
  }

  /** A write no longer put off for a pending fsync, which aof_delayed_fsync counts. */
  predicate WritesWhilePending(s: State, policy: Policy, a: Attempt) {
    s.buf != [] && policy == EverySecond && !a.force && a.syncPending && !MustWait(s, policy, a)
  }

  /** Which way a flush goes. */
  predicate Ends(s: State, policy: Policy, a: Attempt, end: End) {
    if s.buf == [] then end == Nothing
    else if MustWait(s, policy, a) then end == Postponed
    else if a.nwritten == |s.buf| then end.Written?
    else end == if policy == Always then Exited else Failed
  }

  // ---------- whole runs ----------

  datatype Step = Fed(s: bytes) | Flushed(a: Attempt, end: End)

  ghost predicate StepOk(s: State, policy: Policy, step: Step, t: State) {
    match step
    case Fed(more) => t == s.(buf := s.buf + more)
    case Flushed(a, end) => Possible(s, a) && Effect(s, policy, a, t, end)
  }

  /** A run of feeds and flushes, of any outcome, that goes on until the server exits if it does. */
  ghost predicate Run(policy: Policy, states: seq<State>, steps: seq<Step>) {
    && |states| == |steps| + 1
    && (forall i :: 0 <= i < |steps| ==> StepOk(states[i], policy, steps[i], states[i + 1]))
    && (forall i :: 0 <= i < |steps| - 1 ==> !Exits(steps[i]))
  }

  predicate Exits(step: Step) {
    step.Flushed? && step.end == Exited
  }

  function FedBy(step: Step): bytes {
    if step.Fed? then step.s else []
  }

  function AllFed(steps: seq<Step>): bytes {
    if steps == [] then [] else AllFed(steps[..|steps| - 1]) + FedBy(steps[|steps| - 1])
  }

  lemma PrefixOfSame(file: bytes, buf: bytes, total: bytes, later: bytes)
    requires file + buf == total && file <= later <= file + buf
    ensures later <= total
  {}

  /**
   Over every run that does not exit, file and buffer hold exactly what was
   fed; the file alone never holds anything else.
   */
  lemma {:induction false} FlushConserves(policy: Policy, states: seq<State>, steps: seq<Step>)
    requires Run(policy, states, steps) && states[0].currentSize == |states[0].file|
    ensures var total := states[0].file + states[0].buf + AllFed(steps);
      && states[|steps|].file <= total
      && ((steps != [] && Exits(steps[|steps| - 1]))
          || (states[|steps|].file + states[|steps|].buf == total
              && states[|steps|].currentSize == |states[|steps|].file|))
    decreases |steps|
  {
    if steps == [] {
      assert states[0].file + states[0].buf + [] == states[0].file + states[0].buf;
    } else {
      var n := |steps| - 1;
      FlushConserves(policy, states[..|states| - 1], steps[..n]);
      assert StepOk(states[n], policy, steps[n], states[n + 1]);
      assert n > 0 ==> !Exits(steps[n - 1]);
      var before := states[0].file + states[0].buf;
      StepConserves(states[n], policy, steps[n], states[n + 1], before + AllFed(steps[..n]));
      Assoc(before, AllFed(steps[..n]), FedBy(steps[n]));
    }
  }

  lemma StepConserves(s: State, policy: Policy, step: Step, t: State, total: bytes)
    requires StepOk(s, policy, step, t) && s.file + s.buf == total && s.currentSize == |s.file|
    ensures t.file <= total + FedBy(step)
    ensures !Exits(step) ==> t.file + t.buf == total + FedBy(step) && t.currentSize == |t.file|
  {
    match step
    case Fed(more) => Assoc(s.file, s.buf, more);
    case Flushed(a, end) =>
      assert total + [] == total;
      PrefixOfSame(s.file, s.buf, total, t.file);
  }

  /**
   Whatever the disk holds when the server stops, after any run of feeds and
   flushes or in the middle of a further write, loads as the commands whole in
   it, from the first one fed on.
   */
  lemma AnyStopLoads(policy: Policy, states: seq<State>, steps: seq<Step>, cs: seq<AofLog.Command>, disk: bytes)
    returns (m: nat)
    requires Run(policy, states, steps) && states[0].currentSize == 0 && states[0].file == states[0].buf == []
    requires AofLog.AllFeedable(cs) && AllFed(steps) == AofLog.Written(cs)
    requires disk == states[|steps|].file
          || (!(steps != [] && Exits(steps[|steps| - 1]))
              && states[|steps|].file <= disk <= states[|steps|].file + states[|steps|].buf)
    ensures m <= |cs| && |AofLog.Written(cs[..m])| <= |disk|
    ensures m < |cs| ==> |disk| < |AofLog.Written(cs[..m + 1])|
    ensures AofLog.Execute(AofLog.Load(disk).raw, 0) == AofLog.Runs(cs[..m])
  {
    FlushConserves(policy, states, steps);
    var total := AofLog.Written(cs);
    assert [] + [] + total == total;
    if disk != states[|steps|].file {
      PrefixOfSame(states[|steps|].file, states[|steps|].buf, total, disk);
    }
    assert disk == total[..|disk|];
    m := AofLog.LoadAnyPrefix(cs, |disk|);
  }
}
