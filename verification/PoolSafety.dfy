/** What every reachable state of the worker pool satisfies, whatever the interleaving. */
module PoolSafety {
  import opened Sums
  import opened WorkerPool

  /******* The phases of the main thread *******/

  predicate Phases(plan: Plan, s: State) {
    && |s.workers| <= plan.Threads()
    && s.sent <= plan.Items()
    && (s.sent > 0 ==> |s.workers| == plan.Threads())
    && |s.input| <= s.sent
    && (s.workers == [] ==> |s.input| == s.sent)
    && |s.collected| <= |plan.jobs|
    && (s.collected != [] ==> s.sent == plan.Items())
    && s.joined <= |s.workers|
    && (s.joined > 0 ==> s.sent == plan.Items() && |s.collected| == |plan.jobs|)
    && (forall w :: 0 <= w < s.joined ==> s.workers[w].Exited?)
  }

  /** The input queue holds the most recently sent items, in the order they were sent. */
  predicate Fifo(plan: Plan, s: State)
    requires Phases(plan, s)
  {
    forall k :: 0 <= k < |s.input| ==> s.input[k] == plan.Item(Taken(s) + k)
  }

  /** How many items workers have taken. */
  function Taken(s: State): nat
    requires |s.input| <= s.sent
  {
    s.sent - |s.input|
  }

  /******* Jobs are what they were sent as *******/

  /** A job on its way back is either reported in full, or was caught by the interrupt. */
  predicate IsResult(plan: Plan, j: Job, threadExit: bool)
    requires plan.Valid()
  {
    && j.id < |plan.jobs|
    && (j == plan.Reported(j.id) || (threadExit && j == plan.jobs[j.id].(isBreak := true)))
  }

  predicate Genuine(plan: Plan, v: Worker, threadExit: bool)
    requires plan.Valid()
  {
    match v
    case Waiting => true
    case Holding(j) => j.id < plan.Items() && j == plan.Item(j.id)
    case Admitted(j) => j.id < |plan.jobs| && j == plan.jobs[j.id]
    case Running(j) => j.id < |plan.jobs| && j == plan.jobs[j.id] && !j.isSkip
    case Returning(j) => IsResult(plan, j, threadExit)
    case Exited(j) => |plan.jobs| <= j.id < plan.Items() && j == plan.Item(j.id)
  }

  predicate AllGenuine(plan: Plan, s: State)
    requires plan.Valid()
  {
    && AllWorkersGenuine(plan, s.workers, s.threadExit)
    && AllResults(plan, s.output, s.threadExit)
    && AllResults(plan, s.collected, s.threadExit)
  }

  predicate AllWorkersGenuine(plan: Plan, ws: seq<Worker>, threadExit: bool)
    requires plan.Valid()
  {
    forall w :: 0 <= w < |ws| ==> Genuine(plan, ws[w], threadExit)
  }

  predicate AllResults(plan: Plan, js: seq<Job>, threadExit: bool)
    requires plan.Valid()
  {
    forall k :: 0 <= k < |js| ==> IsResult(plan, js[k], threadExit)
  }

  /******* Where everything is *******/

  /** Whether a job is item `id`. */
  function Is(id: nat): Job -> nat {
    (j: Job) => if j.id == id then 1 else 0
  }

  /** Whether a worker has item `id`. */
  function Has(id: nat): Worker -> nat {
    (v: Worker) => if !v.Waiting? && v.job.id == id then 1 else 0
  }

  /** In how many places item `id` is: queued, with a worker, handed back, or collected. */
  function Places(s: State, id: nat): nat {
    Sum(s.input, Is(id)) + Sum(s.workers, Has(id)) + Sum(s.output, Is(id)) + Sum(s.collected, Is(id))
  }

  /** Each item sent so far is in exactly one place, and nothing else is anywhere. */
  ghost predicate Conserved(s: State) {
    forall id: nat :: Places(s, id) == if id < s.sent then 1 else 0
  }

  lemma SumTail(js: seq<Job>, id: nat)
    requires js != []
    ensures Sum(js[1..], Is(id)) == Sum(js, Is(id)) - Is(id)(js[0])
  {
    SumRemove(js, Is(id), 0);
    assert js[..0] + js[1..] == js[1..];
  }

  /******* How many are where *******/

  /** Whether a worker has a stop token. */
  function HasToken(v: Worker): nat {
    if v.Exited? || (v.Holding? && v.job.isBreak) then 1 else 0
  }

  /** Whether a worker has a job. */
  function HasJob(v: Worker): nat {
    if v.Waiting? || HasToken(v) == 1 then 0 else 1
  }

  /** Tokens and jobs taken from the queue, counted: tokens leave it only after every job. */
  predicate Counted(plan: Plan, s: State)
    requires |s.input| <= s.sent
  {
    var taken := Taken(s);
    && Sum(s.workers, HasToken) == (if taken <= |plan.jobs| then 0 else taken - |plan.jobs|)
    && Sum(s.workers, HasJob) + |s.output| + |s.collected| == (if taken <= |plan.jobs| then taken else |plan.jobs|)
  }

  /******* The invariant *******/

  ghost predicate Invariant(plan: Plan, s: State) {
    && plan.Valid()
    && Phases(plan, s) && Fifo(plan, s)
    && AllGenuine(plan, s) && Counted(plan, s) && Conserved(s)
  }

  lemma StartInvariant(plan: Plan)
    requires plan.Valid()
    ensures Invariant(plan, Start)
  {
  }

  lemma StepKeepsPhases(plan: Plan, s: State, step: Step)
    requires Phases(plan, s) && Enabled(plan, s, step)
    ensures Phases(plan, Apply(plan, s, step))
  {
  }

  lemma StepKeepsFifo(plan: Plan, s: State, step: Step)
    requires Phases(plan, s) && Fifo(plan, s) && Enabled(plan, s, step)
    requires Phases(plan, Apply(plan, s, step))
    ensures Fifo(plan, Apply(plan, s, step))
  {
  }

  lemma StepKeepsGenuine(plan: Plan, s: State, step: Step)
    requires plan.Valid() && Phases(plan, s) && Fifo(plan, s) && AllGenuine(plan, s) && Enabled(plan, s, step)
    ensures AllGenuine(plan, Apply(plan, s, step))
  {
    match step
    case Spawn =>
    case Send =>
    case Collect => ResultMoves(plan, s.output, s.collected, s.threadExit);
    case Join =>
    case Interrupt => InterruptKeepsGenuine(plan, s);
    case Take(w) =>
      assert s.input[0] == plan.Item(Taken(s));
      WorkerStaysGenuine(plan, s.workers, s.threadExit, w, Holding(s.input[0]));
    case Inspect(w) =>
      assert Genuine(plan, s.workers[w], s.threadExit);
      WorkerStaysGenuine(plan, s.workers, s.threadExit, w, Inspected(s.workers[w].job, s.threadExit));
    case Launch(w) =>
      assert Genuine(plan, s.workers[w], s.threadExit);
      WorkerStaysGenuine(plan, s.workers, s.threadExit, w, Launched(s.workers[w].job));
    case Finish(w) =>
      assert Genuine(plan, s.workers[w], s.threadExit);
      WorkerStaysGenuine(plan, s.workers, s.threadExit, w, Finished(plan, s.workers[w].job));
    case Put(w) =>
      assert Genuine(plan, s.workers[w], s.threadExit);
      WorkerStaysGenuine(plan, s.workers, s.threadExit, w, Waiting);
      ResultAdded(plan, s.output, s.workers[w].job, s.threadExit);
  }

  lemma InterruptKeepsGenuine(plan: Plan, s: State)
    requires plan.Valid() && AllGenuine(plan, s)
    ensures AllGenuine(plan, s.(threadExit := true))
  {
    forall w | 0 <= w < |s.workers| ensures Genuine(plan, s.workers[w], true) {
      assert Genuine(plan, s.workers[w], s.threadExit);
    }
  }

  lemma WorkerStaysGenuine(plan: Plan, ws: seq<Worker>, threadExit: bool, w: nat, v: Worker)
    requires plan.Valid() && AllWorkersGenuine(plan, ws, threadExit) && w < |ws| && Genuine(plan, v, threadExit)
    ensures AllWorkersGenuine(plan, ws[w := v], threadExit)
  {
  }

  lemma ResultAdded(plan: Plan, js: seq<Job>, job: Job, threadExit: bool)
    requires plan.Valid() && AllResults(plan, js, threadExit) && IsResult(plan, job, threadExit)
    ensures AllResults(plan, js + [job], threadExit)
  {
  }

  lemma ResultMoves(plan: Plan, from: seq<Job>, to: seq<Job>, threadExit: bool)
    requires plan.Valid() && AllResults(plan, from, threadExit) && AllResults(plan, to, threadExit) && from != []
    ensures AllResults(plan, from[1..], threadExit) && AllResults(plan, to + [from[0]], threadExit)
  {
  }

  lemma StepKeepsCounted(plan: Plan, s: State, step: Step)
    requires plan.Valid() && Phases(plan, s) && Fifo(plan, s) && AllGenuine(plan, s) && Counted(plan, s)
    requires Enabled(plan, s, step) && Phases(plan, Apply(plan, s, step))
    ensures Counted(plan, Apply(plan, s, step))
  {
    match step
    case Spawn => SpawnKeepsCounted(plan, s);
    case Send =>
    case Collect =>
    case Join =>
    case Interrupt =>
    case Take(w) => TakeKeepsCounted(plan, s, w);
    case Put(w) => PutKeepsCounted(plan, s, w);
    case Inspect(_) => WorkKeepsCounted(plan, s, step);
    case Launch(_) => WorkKeepsCounted(plan, s, step);
    case Finish(_) => WorkKeepsCounted(plan, s, step);
  }

  lemma SpawnKeepsCounted(plan: Plan, s: State)
    requires |s.input| <= s.sent && Counted(plan, s)
    ensures Counted(plan, s.(workers := s.workers + [Waiting]))
  {
    SumAppend(s.workers, HasToken, Waiting);
    SumAppend(s.workers, HasJob, Waiting);
  }

  lemma WorkKeepsCounted(plan: Plan, s: State, step: Step)
    requires step.Inspect? || step.Launch? || step.Finish?
    requires |s.input| <= s.sent && Counted(plan, s) && Enabled(plan, s, step)
    ensures Counted(plan, Apply(plan, s, step))
  {
    match step
    case Inspect(w) => SameHolding(plan, s, w, Inspected(s.workers[w].job, s.threadExit));
    case Launch(w) => SameHolding(plan, s, w, Launched(s.workers[w].job));
    case Finish(w) => SameHolding(plan, s, w, Finished(plan, s.workers[w].job));
  }

  lemma TakeKeepsCounted(plan: Plan, s: State, w: nat)
    requires plan.Valid() && Phases(plan, s) && Fifo(plan, s) && Counted(plan, s)
    requires w < |s.workers| && s.workers[w].Waiting? && s.input != []
    ensures Counted(plan, s.(workers := s.workers[w := Holding(s.input[0])], input := s.input[1..]))
  {
    var job := s.input[0];
    assert job == plan.Item(Taken(s));
    assert job.isBreak <==> Taken(s) >= |plan.jobs|;
    HoldingChange(s, w, Holding(job));
  }

  lemma PutKeepsCounted(plan: Plan, s: State, w: nat)
    requires |s.input| <= s.sent && Counted(plan, s) && w < |s.workers| && s.workers[w].Returning?
    ensures Counted(plan, s.(workers := s.workers[w := Waiting], output := s.output + [s.workers[w].job]))
  {
    HoldingChange(s, w, Waiting);
  }

  /** Whoever goes on with the same job or token changes no count. */
  lemma SameHolding(plan: Plan, s: State, w: nat, v: Worker)
    requires |s.input| <= s.sent && Counted(plan, s) && w < |s.workers|
    requires HasToken(v) == HasToken(s.workers[w]) && HasJob(v) == HasJob(s.workers[w])
    ensures Counted(plan, s.(workers := s.workers[w := v]))
  {
    HoldingChange(s, w, v);
  }

  lemma HoldingChange(s: State, w: nat, v: Worker)
    requires w < |s.workers|
    ensures Sum(s.workers[w := v], HasToken) == Sum(s.workers, HasToken) - HasToken(s.workers[w]) + HasToken(v)
    ensures Sum(s.workers[w := v], HasJob) == Sum(s.workers, HasJob) - HasJob(s.workers[w]) + HasJob(v)
  {
    SumUpdate(s.workers, HasToken, w, v);
    SumUpdate(s.workers, HasJob, w, v);
  }

  /** Only sending adds an item; every other step moves one from one place to the next. */
  lemma StepMoves(plan: Plan, s: State, step: Step, id: nat)
    requires Enabled(plan, s, step)
    ensures Places(Apply(plan, s, step), id)
         == Places(s, id) + if step.Send? && plan.Item(s.sent).id == id then 1 else 0
  {
    match step
    case Spawn => SumAppend(s.workers, Has(id), Waiting);
    case Send => SumAppend(s.input, Is(id), plan.Item(s.sent));
    case Collect => SumTail(s.output, id); SumAppend(s.collected, Is(id), s.output[0]);
    case Join =>
    case Interrupt =>
    case Take(w) => SumTail(s.input, id); SumUpdate(s.workers, Has(id), w, Holding(s.input[0]));
    case Inspect(w) => SamePlace(s, w, Inspected(s.workers[w].job, s.threadExit), id);
    case Launch(w) => SamePlace(s, w, Launched(s.workers[w].job), id);
    case Finish(w) => SamePlace(s, w, Finished(plan, s.workers[w].job), id);
    case Put(w) => SumUpdate(s.workers, Has(id), w, Waiting); SumAppend(s.output, Is(id), s.workers[w].job);
  }

  lemma SamePlace(s: State, w: nat, v: Worker, id: nat)
    requires w < |s.workers| && Has(id)(v) == Has(id)(s.workers[w])
    ensures Places(s.(workers := s.workers[w := v]), id) == Places(s, id)
  {
    SumUpdate(s.workers, Has(id), w, v);
  }

  lemma StepKeepsConserved(plan: Plan, s: State, step: Step)
    requires plan.Valid() && Conserved(s) && Enabled(plan, s, step)
    ensures Conserved(Apply(plan, s, step))
  {
    forall id: nat ensures Places(Apply(plan, s, step), id) == if id < Apply(plan, s, step).sent then 1 else 0 {
      StepMoves(plan, s, step, id);
    }
  }

  lemma StepKeepsInvariant(plan: Plan, s: State, step: Step)
    requires Invariant(plan, s) && Enabled(plan, s, step)
    ensures Invariant(plan, Apply(plan, s, step))
  {
    StepKeepsPhases(plan, s, step);
    StepKeepsFifo(plan, s, step);
    StepKeepsGenuine(plan, s, step);
    StepKeepsCounted(plan, s, step);
    StepKeepsConserved(plan, s, step);
  }
}
