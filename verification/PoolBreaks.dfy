/** Exactly which jobs an interrupted run hands back as breaks. */
module PoolBreaks {
  import opened Sums
  import opened WorkerPool
  import opened PoolSafety
  import opened PoolRuns
  import opened PoolOutcome

  /** Job `id` has been sent, taken and inspected, and is nowhere marked as a break. */
  predicate ReportsBack(s: State, id: nat) {
    && id < s.sent
    && (forall k :: 0 <= k < |s.input| ==> s.input[k].id != id)
    && (forall w :: 0 <= w < |s.workers| && s.workers[w].Holding? ==> s.workers[w].job.id != id)
    && (forall w :: 0 <= w < |s.workers| && !s.workers[w].Waiting? && s.workers[w].job.id == id ==> !s.workers[w].job.isBreak)
    && NoBreakOf(s.output, id) && NoBreakOf(s.collected, id)
  }

  predicate NoBreakOf(js: seq<Job>, id: nat) {
    forall k :: 0 <= k < |js| && js[k].id == id ==> !js[k].isBreak
  }

  lemma StepKeepsReport(plan: Plan, s: State, step: Step, id: nat)
    requires plan.Valid() && Enabled(plan, s, step) && ReportsBack(s, id)
    ensures ReportsBack(Apply(plan, s, step), id)
  {
    match step
    case Send => assert plan.Item(s.sent).id == s.sent;
    case Take(w) => assert s.input[0].id != id;
    case _ =>
  }

  lemma {:induction false} RunKeepsReport(plan: Plan, s: State, run: seq<Step>, id: nat)
    requires plan.Valid() && Feasible(plan, s, run) && ReportsBack(s, id)
    ensures ReportsBack(Execute(plan, s, run), id)
    decreases |run|
  {
    if run != [] {
      StepKeepsReport(plan, s, run[0], id);
      RunKeepsReport(plan, Apply(plan, s, run[0]), run[1..], id);
    }
  }

  /** As long as there is no interrupt, what has been inspected is no break. */
  lemma InspectedReportsBack(plan: Plan, s: State, id: nat)
    requires Invariant(plan, s) && !s.threadExit && id < |plan.jobs| && !Uninspected(plan, s, id)
    ensures ReportsBack(s, id)
  {
    forall k | 0 <= k < |s.input| ensures s.input[k].id != id {
      assert s.input[k] == plan.Item(Taken(s) + k);
    }
    forall w | 0 <= w < |s.workers| && !s.workers[w].Waiting? && s.workers[w].job.id == id
      ensures !s.workers[w].job.isBreak
    {
      assert Genuine(plan, s.workers[w], s.threadExit);
    }
    ResultsAreNoBreaks(plan, s.output, id);
    ResultsAreNoBreaks(plan, s.collected, id);
  }

  lemma ResultsAreNoBreaks(plan: Plan, js: seq<Job>, id: nat)
    requires plan.Valid() && AllResults(plan, js, false)
    ensures NoBreakOf(js, id)
  {
    forall k | 0 <= k < |js| && js[k].id == id ensures !js[k].isBreak {
      assert IsResult(plan, js[k], false);
    }
  }

  /** A job that was inspected before any interrupt is collected with its own result, whatever comes after. */
  lemma InspectedJobsReport(plan: Plan, s: State, run: seq<Step>, id: nat)
    requires Invariant(plan, s) && !s.threadExit && id < |plan.jobs| && !Uninspected(plan, s, id)
    requires Feasible(plan, s, run)
    ensures var t := Execute(plan, s, run);
      forall k :: 0 <= k < |t.collected| && t.collected[k].id == id ==> t.collected[k] == plan.Reported(id)
  {
    InspectedReportsBack(plan, s, id);
    RunKeepsReport(plan, s, run, id);
    RunKeepsInvariant(plan, s, run);
    var t := Execute(plan, s, run);
    forall k | 0 <= k < |t.collected| && t.collected[k].id == id ensures t.collected[k] == plan.Reported(id) {
      assert IsResult(plan, t.collected[k], t.threadExit);
    }
  }

  /** The run up to its first interrupt, which comes as step `k`. */
  predicate FirstInterrupt(run: seq<Step>, k: nat) {
    k < |run| && run[k] == Interrupt && Interrupt !in run[..k]
  }

  /**
   Where an interrupt comes, the jobs collected as breaks are exactly those that no worker had
   inspected by then; all others are collected with their own results.
   */
  lemma BreaksExactly(plan: Plan, run: seq<Step>, k: nat, i: nat)
    requires plan.Valid() && Feasible(plan, Start, run) && FirstInterrupt(run, k)
    requires i < |Execute(plan, Start, run).collected|
    ensures Feasible(plan, Start, run[..k])
    ensures var s, job := Execute(plan, Start, run[..k]), Execute(plan, Start, run).collected[i];
      && job.id < |plan.jobs| && |s.input| <= s.sent
      && (job.isBreak <==> Uninspected(plan, s, job.id))
      && (!job.isBreak ==> job == plan.Reported(job.id))
  {
    RunSplits(plan, Start, run, k);
    StartInvariant(plan);
    RunKeepsInvariant(plan, Start, run[..k]);
    RunKeepsInvariant(plan, Start, run);
    var s, job := Execute(plan, Start, run[..k]), Execute(plan, Start, run).collected[i];
    assert IsResult(plan, job, Execute(plan, Start, run).threadExit);
    FlagAfterRun(plan, Start, run[..k]);
    if Uninspected(plan, s, job.id) {
      InterruptedJobsComeBackAsBreaks(plan, run, k, job.id);
    } else {
      InspectedJobsReport(plan, s, run[k..], job.id);
    }
  }
}
