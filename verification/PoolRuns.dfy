/** What whole runs of the worker pool do: they end, lose nothing, and heed the interrupt. */
module PoolRuns {
  import opened Sums
  import opened WorkerPool
  import opened PoolSafety

  /******* Every run, under every interleaving *******/

  lemma {:induction false} RunKeepsInvariant(plan: Plan, s: State, run: seq<Step>)
    requires Invariant(plan, s) && Feasible(plan, s, run)
    ensures Invariant(plan, Execute(plan, s, run))
    decreases |run|
  {
    if run != [] {
      StepKeepsInvariant(plan, s, run[0]);
      RunKeepsInvariant(plan, Apply(plan, s, run[0]), run[1..]);
    }
  }

  /** The steps of a run that are not interrupts. */
  function Moves(run: seq<Step>): nat
    decreases |run|
  {
    if run == [] then 0 else (if run[0].Interrupt? then 0 else 1) + Moves(run[1..])
  }

  lemma {:induction false} RunIsShort(plan: Plan, s: State, run: seq<Step>)
    requires Invariant(plan, s) && Feasible(plan, s, run)
    ensures Moves(run) <= Measure(plan, s)
    decreases |run|
  {
    if run != [] {
      StepDecreases(plan, s, run[0]);
      StepKeepsInvariant(plan, s, run[0]);
      RunIsShort(plan, Apply(plan, s, run[0]), run[1..]);
    }
  }

  /**
   No interleaving goes on forever: apart from interrupts, which may come any number of times, a run
   takes at most seven steps a job and nine a thread.
   */
  lemma RunsEnd(plan: Plan, run: seq<Step>)
    requires plan.Valid() && Feasible(plan, Start, run)
    ensures Moves(run) <= 7 * |plan.jobs| + 9 * plan.Threads()
  {
    StartInvariant(plan);
    RunIsShort(plan, Start, run);
  }

  /******* No reachable state is stuck *******/

  /** Some step other than the interrupt can be taken. */
  ghost predicate CanProceed(plan: Plan, s: State) {
    exists step: Step :: !step.Interrupt? && Enabled(plan, s, step)
  }

  /** The step that worker `w` takes next, unless it is blocked or has stopped. */
  function OwnStep(s: State, w: nat): Step
    requires w < |s.workers|
  {
    match s.workers[w]
    case Waiting => Take(w)
    case Holding(_) => Inspect(w)
    case Admitted(_) => Launch(w)
    case Running(_) => Finish(w)
    case Returning(_) => Put(w)
    case Exited(_) => Join
  }

  lemma BusyWorkerProceeds(plan: Plan, s: State, w: nat)
    requires Invariant(plan, s) && w < |s.workers| && !s.workers[w].Waiting? && !s.workers[w].Exited?
    ensures CanProceed(plan, s)
  {
    assert Genuine(plan, s.workers[w], s.threadExit);
    assert Enabled(plan, s, OwnStep(s, w));
  }

  lemma WaitingWorkerProceeds(plan: Plan, s: State, w: nat)
    requires Invariant(plan, s) && w < |s.workers| && s.workers[w].Waiting? && s.input != []
    ensures CanProceed(plan, s)
  {
    assert Enabled(plan, s, Take(w));
  }

  /** While results are outstanding, one is ready, or a worker can go on. */
  lemma CollectingProceeds(plan: Plan, s: State)
    requires Invariant(plan, s) && s.sent == plan.Items() && |s.collected| < |plan.jobs|
    requires plan.Threads() > 0 && |s.workers| == plan.Threads()
    ensures CanProceed(plan, s)
  {
    if s.output != [] {
      assert Enabled(plan, s, Collect);
    } else if w :| 0 <= w < |s.workers| && !s.workers[w].Waiting? && !s.workers[w].Exited? {
      BusyWorkerProceeds(plan, s, w);
    } else {
      AllIdle(s.workers);
      assert Taken(s) < |plan.jobs| && s.input != [];
      NoEarlyExit(plan, s);
      WaitingWorkerProceeds(plan, s, 0);
    }
  }

  /** Idle workers have no job. */
  lemma {:induction false} AllIdle(ws: seq<Worker>)
    requires forall w :: 0 <= w < |ws| ==> ws[w].Waiting? || ws[w].Exited?
    ensures Sum(ws, HasJob) == 0
  {
    if ws != [] {
      AllIdle(ws[..|ws| - 1]);
      assert ws[|ws| - 1].Waiting? || ws[|ws| - 1].Exited?;
    }
  }

  /** No worker exits before every job has been taken from the queue. */
  lemma NoEarlyExit(plan: Plan, s: State)
    requires Invariant(plan, s) && Taken(s) <= |plan.jobs|
    ensures forall w :: 0 <= w < |s.workers| ==> !s.workers[w].Exited?
  {
    SumZero(s.workers, HasToken);
    forall w | 0 <= w < |s.workers| ensures !s.workers[w].Exited? {
      assert HasToken(s.workers[w]) == 0;
    }
  }

  /** When the queue is drained each worker has taken one token. */
  lemma DrainedMeansTokens(plan: Plan, s: State)
    requires Invariant(plan, s) && s.sent == plan.Items() && s.input == [] && |s.workers| == plan.Threads()
    ensures forall w :: 0 <= w < |s.workers| ==> !s.workers[w].Waiting?
  {
    SumFull(s.workers, HasToken);
    forall w | 0 <= w < |s.workers| ensures !s.workers[w].Waiting? {
      assert HasToken(s.workers[w]) == 1;
    }
  }

  /** Once all results are in, every worker gets a token of its own and stops. */
  lemma JoiningProceeds(plan: Plan, s: State)
    requires Invariant(plan, s) && s.sent == plan.Items() && |s.collected| == |plan.jobs|
    requires s.joined < |s.workers| == plan.Threads()
    ensures CanProceed(plan, s)
  {
    var w := s.joined;
    if s.workers[w].Exited? {
      assert Enabled(plan, s, Join);
    } else if !s.workers[w].Waiting? {
      BusyWorkerProceeds(plan, s, w);
    } else {
      if s.input == [] {
        DrainedMeansTokens(plan, s);
      }
      WaitingWorkerProceeds(plan, s, w);
    }
  }

  /** With a thread to do the work, or nothing to do, the run can always go on until it is done. */
  lemma NotStuck(plan: Plan, s: State)
    requires Invariant(plan, s) && !Done(plan, s)
    requires plan.processors >= 1 || plan.jobs == []
    ensures CanProceed(plan, s)
  {
    if |s.workers| < plan.Threads() {
      assert Enabled(plan, s, Spawn);
    } else if s.sent < plan.Items() {
      assert Enabled(plan, s, Send);
    } else if |s.collected| < |plan.jobs| {
      CollectingProceeds(plan, s);
    } else {
      JoiningProceeds(plan, s);
    }
  }

  /** Whatever has happened so far, the run can be carried to its end. */
  lemma {:induction false} CanFinish(plan: Plan, s: State) returns (rest: seq<Step>)
    requires Invariant(plan, s) && (plan.processors >= 1 || plan.jobs == [])
    ensures Feasible(plan, s, rest) && Done(plan, Execute(plan, s, rest))
    decreases Measure(plan, s)
  {
    if Done(plan, s) {
      rest := [];
    } else {
      NotStuck(plan, s);
      var step: Step :| !step.Interrupt? && Enabled(plan, s, step);
      StepDecreases(plan, s, step);
      StepKeepsInvariant(plan, s, step);
      var tail := CanFinish(plan, Apply(plan, s, step));
      rest := [step] + tail;
      assert rest[1..] == tail;
    }
  }

  /** Without a thread nothing is ever taken, so the wait for the first result never ends. */
  lemma NoThreadNoResult(plan: Plan, s: State)
    requires Invariant(plan, s) && plan.processors < 1 && plan.jobs != []
    ensures s.collected == [] && !Done(plan, s)
    ensures s.sent == plan.Items() ==> !CanProceed(plan, s)
  {
  }

  /** Reachable: some run from the start leads there. */
  ghost predicate Reachable(plan: Plan, s: State)
    requires plan.Valid()
  {
    exists run :: Feasible(plan, Start, run) && Execute(plan, Start, run) == s
  }

  /**
   The run never gets stuck exactly when a thread was asked for or no job was sent.  (A negative
   `--jobs` option asks for none, and the script then waits forever for the first result.)
   */
  lemma DeadlockFreedom(plan: Plan)
    requires plan.Valid()
    ensures (forall s :: Reachable(plan, s) && !Done(plan, s) ==> CanProceed(plan, s))
       <==> plan.processors >= 1 || plan.jobs == []
  {
    StartInvariant(plan);
    forall s | Reachable(plan, s) ensures Invariant(plan, s) {
      var run :| Feasible(plan, Start, run) && Execute(plan, Start, run) == s;
      RunKeepsInvariant(plan, Start, run);
    }
    if plan.processors >= 1 || plan.jobs == [] {
      forall s | Reachable(plan, s) && !Done(plan, s) ensures CanProceed(plan, s) {
        NotStuck(plan, s);
      }
    } else {
      var s := AllSent(plan);
      NoThreadNoResult(plan, s);
    }
  }

  /** Sending everything is always possible once the threads are there; here, without any. */
  lemma AllSent(plan: Plan) returns (s: State)
    requires plan.Valid() && plan.processors < 1
    ensures Reachable(plan, s) && s.sent == plan.Items()
  {
    s := SendRest(plan, Start, plan.Items());
  }

  lemma {:induction false} SendRest(plan: Plan, s: State, n: nat) returns (t: State)
    requires plan.Valid() && plan.processors < 1 && s.workers == [] && s.sent + n == plan.Items()
    ensures t.sent == plan.Items()
    ensures exists run :: Feasible(plan, s, run) && Execute(plan, s, run) == t
    decreases n
  {
    if n == 0 {
      t := s;
      assert Feasible(plan, s, []) && Execute(plan, s, []) == t;
    } else {
      var next := Apply(plan, s, Send);
      t := SendRest(plan, next, n - 1);
      var run :| Feasible(plan, next, run) && Execute(plan, next, run) == t;
      assert ([Send] + run)[1..] == run;
      assert Feasible(plan, s, [Send] + run) && Execute(plan, s, [Send] + run) == t;
    }
  }
}
