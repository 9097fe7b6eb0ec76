/**
 The worker pool of the test runner, as a state machine.  One main thread spawns the workers, sends
 every job and then one stop token per worker down a FIFO queue, collects one result per job, and
 joins the workers; each worker loops over the queue on its own.  An interrupt may be raised at any
 moment.  Every step below is one atomic action of one thread, so a sequence of steps is an
 arbitrary interleaving.
 */
module WorkerPool {
  import opened Sums

  /**
   `id` is the position at which the job is sent.  A job is cleared when the result file of its
   suite says PASS or SKIP; `returncode` and `isCleared` mean nothing before it has run.
   */
  datatype Job = Job(id: nat, isBreak: bool, isSkip: bool, isExample: bool, returncode: int, isCleared: bool)

  datatype Outcome = Outcome(returncode: int, isCleared: bool)

  /** The jobs to run, what running each of them would yield, and the requested number of threads. */
  datatype Plan = Plan(jobs: seq<Job>, outcomes: seq<Outcome>, processors: int)
  {
    predicate Valid() {
      && |outcomes| == |jobs|
      && (forall i :: 0 <= i < |jobs| ==> jobs[i].id == i && !jobs[i].isBreak)
    }

    /** `range(processors)` is empty for a negative count. */
    function Threads(): nat {
      if processors < 0 then 0 else processors
    }

    /** How many items go down the input queue: every job, then one token per thread. */
    function Items(): nat {
      |jobs| + Threads()
    }

    function Item(i: nat): Job
      requires i < Items()
    {
      if i < |jobs| then jobs[i] else Job(i, true, false, false, 0, false)
    }

    /** What a worker hands back for job `i` if it is not interrupted. */
    function Reported(i: nat): Job
      requires Valid() && i < |jobs|
    {
      if jobs[i].isSkip then jobs[i]
      else jobs[i].(returncode := outcomes[i].returncode, isCleared := outcomes[i].isCleared)
    }
  }

  datatype Worker =
    | Waiting              // blocked on the input queue
    | Holding(job: Job)    // has taken a job and not looked at any flag yet
    | Admitted(job: Job)   // has seen that no interrupt was raised
    | Running(job: Job)    // its subprocess has been started
    | Returning(job: Job)  // about to hand the job back
    | Exited(job: Job)     // has stopped, on this token

  datatype State = State(
    workers: seq<Worker>,
    input: seq<Job>,
    output: seq<Job>,
    threadExit: bool,
    sent: nat,             // items put on the input queue so far
    collected: seq<Job>,   // taken from the output queue by the main thread
    joined: nat)

  datatype Step =
    | Spawn | Send | Collect | Join                                      // main thread
    | Interrupt                                                          // signal handler
    | Take(w: nat) | Inspect(w: nat) | Launch(w: nat) | Finish(w: nat) | Put(w: nat)  // worker w

  const Start := State([], [], [], false, 0, [], 0)

  predicate Done(plan: Plan, s: State) {
    s.sent == plan.Items() && |s.collected| == |plan.jobs| && s.joined == plan.Threads() == |s.workers|
  }

  predicate Enabled(plan: Plan, s: State, step: Step) {
    match step
    case Spawn => |s.workers| < plan.Threads()
    case Send => |s.workers| == plan.Threads() && s.sent < plan.Items()
    case Collect => s.sent == plan.Items() && |s.collected| < |plan.jobs| && s.output != []
    case Join =>
      && s.sent == plan.Items() && |s.collected| == |plan.jobs|
      && s.joined < |s.workers| && s.workers[s.joined].Exited?
    case Interrupt => true
    case Take(w) => w < |s.workers| && s.workers[w].Waiting? && s.input != []
    case Inspect(w) => w < |s.workers| && s.workers[w].Holding?
    case Launch(w) => w < |s.workers| && s.workers[w].Admitted?
    case Finish(w) => w < |s.workers| && s.workers[w].Running? && s.workers[w].job.id < |plan.outcomes|
    case Put(w) => w < |s.workers| && s.workers[w].Returning?
  }

  /** What a worker makes of the job it has taken. */
  function Inspected(job: Job, threadExit: bool): Worker {
    if job.isBreak then Exited(job)
    else if threadExit then Returning(job.(isBreak := true))
    else Admitted(job)
  }

  function Launched(job: Job): Worker {
    if job.isSkip then Returning(job) else Running(job)
  }

  function Finished(plan: Plan, job: Job): Worker
    requires job.id < |plan.outcomes|
  {
    Returning(job.(returncode := plan.outcomes[job.id].returncode, isCleared := plan.outcomes[job.id].isCleared))
  }

  function Apply(plan: Plan, s: State, step: Step): State
    requires Enabled(plan, s, step)
  {
    match step
    case Spawn => s.(workers := s.workers + [Waiting])
    case Send => s.(input := s.input + [plan.Item(s.sent)], sent := s.sent + 1)
    case Collect => s.(output := s.output[1..], collected := s.collected + [s.output[0]])
    case Join => s.(joined := s.joined + 1)
    case Interrupt => s.(threadExit := true)
    case Take(w) => s.(workers := s.workers[w := Holding(s.input[0])], input := s.input[1..])
    case Inspect(w) => s.(workers := s.workers[w := Inspected(s.workers[w].job, s.threadExit)])
    case Launch(w) => s.(workers := s.workers[w := Launched(s.workers[w].job)])
    case Finish(w) => s.(workers := s.workers[w := Finished(plan, s.workers[w].job)])
    case Put(w) => s.(workers := s.workers[w := Waiting], output := s.output + [s.workers[w].job])
  }

  predicate Feasible(plan: Plan, s: State, run: seq<Step>)
    decreases |run|
  {
    run == [] || (Enabled(plan, s, run[0]) && Feasible(plan, Apply(plan, s, run[0]), run[1..]))
  }

  function Execute(plan: Plan, s: State, run: seq<Step>): State
    requires Feasible(plan, s, run)
    decreases |run|
  {
    if run == [] then s else Execute(plan, Apply(plan, s, run[0]), run[1..])
  }

  /******* Every run ends *******/

  /** The steps a worker still owes before its job is in the output queue, or its token spent. */
  function Weight(v: Worker): nat {
    match v
    case Waiting => 0
    case Holding(_) => 5
    case Admitted(_) => 4
    case Running(_) => 3
    case Returning(_) => 2
    case Exited(_) => 0
  }

  function Measure(plan: Plan, s: State): int {
    (plan.Threads() - |s.workers|) + 7 * (plan.Items() - s.sent) + 6 * |s.input| + Sum(s.workers, Weight)
    + |s.output| + (plan.Threads() - s.joined)
  }

  lemma StepDecreases(plan: Plan, s: State, step: Step)
    requires Enabled(plan, s, step)
    ensures Measure(plan, Apply(plan, s, step)) + (if step.Interrupt? then 0 else 1) <= Measure(plan, s)
  {
    match step
    case Spawn => SumAppend(s.workers, Weight, Waiting);
    case Send =>
    case Collect =>
    case Join =>
    case Interrupt =>
    case Take(w) => SumUpdate(s.workers, Weight, w, Holding(s.input[0]));
    case Inspect(w) => SumUpdate(s.workers, Weight, w, Inspected(s.workers[w].job, s.threadExit));
    case Launch(w) => SumUpdate(s.workers, Weight, w, Launched(s.workers[w].job));
    case Finish(w) => SumUpdate(s.workers, Weight, w, Finished(plan, s.workers[w].job));
    case Put(w) => SumUpdate(s.workers, Weight, w, Waiting);
  }
}
