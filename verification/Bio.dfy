/**
 The background job queue of one type (bio.c): any thread creates jobs, one
 worker runs them. A step is what happens under the mutex, or the run of one
 job, which happens outside it.
 */
module Bio {
  import opened AdList

  // ---------- interleaved steps ----------

  /** Where the worker is in its loop: looking for a job, with the first job in hand, or with that job run. */
  datatype Worker = Looking | Holding | Ran

  /** The queue and the counter, with the history of jobs created, run and taken off the queue. */
  datatype State<J> = State(queue: seq<J>, pending: int, worker: Worker, created: seq<J>, ran: seq<J>, retired: nat)

  datatype Event<J> = Create(job: J) | Take | Run | Retire

  predicate Enabled<J>(s: State<J>, e: Event<J>) {
    match e
    case Create(_) => true
    case Take => s.worker == Looking && s.queue != []
    case Run => s.worker == Holding && s.queue != []
    case Retire => s.worker == Ran && s.queue != []
  }

  function Apply<J>(s: State<J>, e: Event<J>): State<J>
    requires Enabled(s, e)
  {
    match e
    case Create(job) => s.(queue := s.queue + [job], pending := s.pending + 1, created := s.created + [job])
    case Take => s.(worker := Holding)
    case Run => s.(worker := Ran, ran := s.ran + [s.queue[0]])
    case Retire => s.(queue := s.queue[1..], pending := s.pending - 1, worker := Looking, retired := s.retired + 1)
  }

  predicate Legal<J>(s: State<J>, es: seq<Event<J>>)
    decreases es
  {
    es == [] || (Enabled(s, es[0]) && Legal(Apply(s, es[0]), es[1..]))
  }

  function After<J>(s: State<J>, es: seq<Event<J>>): State<J>
    requires Legal(s, es)
    decreases es
  {
    if es == [] then s else After(Apply(s, es[0]), es[1..])
  }

  function Start<J>(): State<J> {
    State([], 0, Looking, [], [], 0)
  }

  /** The queue is what was created and not retired; what ran is what was retired, and the job in hand if it has run. */
  ghost predicate Invariant<J>(s: State<J>) {
    && s.retired <= |s.created| && s.queue == s.created[s.retired..]
    && s.pending == |s.queue|
    && (s.worker != Looking ==> s.queue != [])
    && s.ran == s.created[..if s.worker == Ran && s.retired < |s.created| then s.retired + 1 else s.retired]
  }

  /** What the counter says of the jobs. */
  lemma InvariantMeans<J>(s: State<J>)
    requires Invariant(s)
    ensures s.ran <= s.created && s.pending == |s.queue| == |s.created| - s.retired
    ensures s.pending == 0 ==> s.ran == s.created
    ensures s.ran == s.created ==> s.pending <= 1
  {
    assert s.created[..|s.created|] == s.created;
  }

  lemma StepKeeps<J>(s: State<J>, e: Event<J>)
    requires Invariant(s) && Enabled(s, e)
    ensures Invariant(Apply(s, e))
  {
    var t := Apply(s, e);
    match e
    case Create(job) =>
      assert t.created[s.retired..] == s.created[s.retired..] + [job];
      assert t.created[..|s.ran|] == s.created[..|s.ran|];
    case Run =>
      assert s.created[..s.retired + 1] == s.created[..s.retired] + [s.created[s.retired]];
    case Retire =>
      assert s.created[s.retired..][1..] == s.created[s.retired + 1..];
    case Take =>
  }

  lemma {:induction false} RunKeeps<J>(s: State<J>, es: seq<Event<J>>)
    requires Invariant(s) && Legal(s, es)
    ensures Invariant(After(s, es))
    decreases es
  {
    if es != [] {
      StepKeeps(s, es[0]);
      RunKeeps(Apply(s, es[0]), es[1..]);
    }
  }

  /**
   In every interleaving of producers and the worker: jobs have run in creation
   order, each once; the counter is the length of the queue and the number of
   jobs created and not retired; and it is zero only when every job has run.
   */
  lemma QueueIsFaithful<J>(es: seq<Event<J>>)
    requires Legal(Start(), es)
    ensures var s := After(Start(), es);
      && s.ran <= s.created
      && s.pending == |s.queue| == |s.created| - s.retired
      && (s.pending == 0 ==> s.ran == s.created)
      && (s.ran == s.created ==> s.pending <= 1)
  {
    RunKeeps(Start<J>(), es);
    InvariantMeans(After(Start(), es));
  }

  // ---------- over the linked list ----------

  class Jobs<J(==)> {
    const list: List<J>
    var pending: int
    var current: ListNode?<J>
    var hasRun: bool
    ghost var Created: seq<J>
    ghost var Executed: seq<J>
    ghost var Retired: nat

    /** The list is in order, and the job in hand is its first. */
    ghost predicate WellLinked()
      reads this, list, list.Repr
    {
      && this !in list.Repr && list.Valid()
      && (current != null ==> current == At(list.Nodes, 0))
      && (hasRun ==> current != null)
    }

    ghost predicate Valid()
      reads this, list, list.Repr
    {
      WellLinked() && Invariant(Self())
    }

    ghost function Self(): State<J>
      reads this, list
    {
      State(list.Contents(), pending, if current == null then Looking else if hasRun then Ran else Holding,
            Created, Executed, Retired)
    }

    /** bioInit, for one type */
    constructor ()
      ensures Valid() && Self() == Start() && fresh(list) && fresh(list.Repr)
    {
      list := new List();
      pending, current, hasRun := 0, null, false;
      Created, Executed, Retired := [], [], 0;
    }

    /** bioCreateBackgroundJob */
    method CreateBackgroundJob(job: J)
      requires Valid()
      modifies this`pending, this`Created, list, list.Repr
      ensures Valid() && Self() == old(Apply(Self(), Create(job)))
      ensures fresh(list.Repr - old(list.Repr))
    {
      StepKeeps(Self(), Create(job));
      Enqueue(job);
    }

    method Enqueue(job: J)
      requires WellLinked()
      modifies this`pending, this`Created, list, list.Repr
      ensures WellLinked() && Self() == old(Apply(Self(), Create(job)))
      ensures fresh(list.Repr - old(list.Repr))
    {
      list.AddNodeTail(job);
      pending := pending + 1;
      Created := Created + [job];
    }

    /** The worker, with the mutex held: it waits if there is no job, or else looks at the first. */
    method TakeJob() returns (waits: bool)
      requires Valid() && current == null
      modifies this`current
      ensures Valid() && waits == (old(list.Contents()) == [])
      ensures Self() == if waits then old(Self()) else old(Apply(Self(), Take))
    {
      if list.len == 0 { return true; }
      StepKeeps(Self(), Take);
      current := list.head;
      waits := false;
    }

    /** The worker, with the mutex released. */
    method RunJob() returns (job: J)
      requires Valid() && current != null && !hasRun
      modifies this`hasRun, this`Executed
      ensures Valid() && Self() == old(Apply(Self(), Run)) && job == old(list.Contents())[0]
    {
      StepKeeps(Self(), Run);
      job := current.value;
      hasRun := true;
      Executed := Executed + [job];
    }

    /** The worker, with the mutex held again. */
    method RetireJob()
      requires Valid() && current != null && hasRun
      modifies this`current, this`hasRun, this`pending, this`Retired, list, list.Repr
      ensures Valid() && Self() == old(Apply(Self(), Retire))
    {
      StepKeeps(Self(), Retire);
      Dequeue();
    }

    method Dequeue()
      requires WellLinked() && current != null && hasRun
      modifies this`current, this`hasRun, this`pending, this`Retired, list, list.Repr
      ensures WellLinked() && old(list.Contents()) != [] && Self() == old(Apply(Self(), Retire))
    {
      WithoutFirst(list.Contents());
      list.DelNode(current, 0);
      pending := pending - 1;
      current, hasRun := null, false;
      Retired := Retired + 1;
    }

    /** bioPendingJobsOfType. A caller that sees 0 knows that every job created has run. */
    method PendingJobs() returns (n: int)
      requires Valid()
      ensures n == |Created| - Retired && Executed <= Created
      ensures n == 0 ==> Executed == Created
      ensures Executed == Created ==> n <= 1
    {
      InvariantMeans(Self());
      n := pending;
    }
  }

  lemma WithoutFirst<J>(s: seq<J>)
    requires s != []
    ensures Without(s, 0) == s[1..]
  {}
}
