/**
 The test run itself: shared queues, worker threads and the main thread's counters as fields that
 the threads update, one atomic action a method.
 */
module TestRunner {
  import opened Sums
  import opened WorkerPool
  import opened PoolSafety
  import opened PoolRuns
  import opened PoolOutcome
  import opened Accounting

  /** At the end of a run a job is among the failed ones as often as its report calls for. */
  lemma FailedJobsAtEnd(plan: Plan, s: State, k: nat)
    requires Invariant(plan, s) && Done(plan, s) && k < |s.collected|
    ensures Sum(LedgerOf(s.collected).failedJobs, Is(s.collected[k].id)) == FailureEntries(s.collected[k])
  {
    FailedJobsCount(s.collected, s.collected[k].id);
    CollectedIsAJob(plan, s, k);
    DoneCollectsEverything(plan, s);
    DueOnce(s.collected, k);
  }

  lemma {:induction false} ReportsHold(plan: Plan, n: nat, id: nat)
    requires plan.Valid() && id < n <= |plan.jobs|
    ensures |Reports(plan, n)| == n && Reports(plan, n)[id] == plan.Reported(id) && plan.Reported(id).id == id
  {
    if n > 1 {
      ReportsHold(plan, n - 1, if id < n - 1 then id else 0);
    }
  }

  lemma FailedJobsUninterrupted(plan: Plan, s: State, id: nat)
    requires Invariant(plan, s) && Done(plan, s) && !s.threadExit && id < |plan.jobs|
    ensures Sum(LedgerOf(s.collected).failedJobs, Is(id)) == FailureEntries(plan.Reported(id))
  {
    FailedJobsCount(s.collected, id);
    DoneCollectsEverything(plan, s);
    UninterruptedRunReportsAll(plan, s, Due(id));
    UninterruptedRunReportsAll(plan, s, Is(id));
    ReportsHold(plan, |plan.jobs|, id);
    DueOnce(Reports(plan, |plan.jobs|), id);
  }

  lemma CollectedIsAJob(plan: Plan, s: State, k: nat)
    requires Invariant(plan, s) && k < |s.collected|
    ensures s.collected[k].id < |plan.jobs|
  {
  }

  /** What the books say at the end of a run. */
  lemma BooksAtEnd(plan: Plan, s: State)
    requires Invariant(plan, s) && Done(plan, s)
    ensures |s.collected| == |plan.jobs|
    ensures forall id: nat :: id < |plan.jobs| ==> Sum(s.collected, Is(id)) == 1
    ensures var l := LedgerOf(s.collected);
      && l.passed + l.failed + l.valgrind + l.crashed + l.skipped + Sum(s.collected, Got(Interrupted)) == |plan.jobs|
      && l.passed == Sum(s.collected, Got(Passed)) && l.skipped == Sum(s.collected, Got(Skipped))
      && l.failed == Sum(s.collected, Got(Failed)) && l.crashed == Sum(s.collected, Got(Crashed))
      && l.valgrind == Sum(s.collected, Got(ValgrindError))
      && (l.passed + l.skipped == |plan.jobs|
          <==> forall k :: 0 <= k < |s.collected| ==> VerdictOf(s.collected[k]) in {Passed, Skipped})
      && (forall k :: 0 <= k < |s.collected| ==> Sum(l.failedJobs, Is(s.collected[k].id)) == FailureEntries(s.collected[k]))
      && (!s.threadExit ==> forall id: nat :: id < |plan.jobs| ==> Sum(l.failedJobs, Is(id)) == FailureEntries(plan.Reported(id)))
    ensures !s.threadExit ==> forall v :: Sum(s.collected, Got(v)) == Sum(Reports(plan, |plan.jobs|), Got(v))
  {
    DoneCollectsEverything(plan, s);
    LedgerCounts(s.collected);
    VerdictsAddUp(s.collected);
    AllGood(s.collected);
    forall k | 0 <= k < |s.collected|
      ensures Sum(LedgerOf(s.collected).failedJobs, Is(s.collected[k].id)) == FailureEntries(s.collected[k])
    {
      FailedJobsAtEnd(plan, s, k);
    }
    forall id: nat | id < |plan.jobs| && !s.threadExit
      ensures Sum(LedgerOf(s.collected).failedJobs, Is(id)) == FailureEntries(plan.Reported(id))
    {
      FailedJobsUninterrupted(plan, s, id);
    }
    forall v | !s.threadExit ensures Sum(s.collected, Got(v)) == Sum(Reports(plan, |plan.jobs|), Got(v)) {
      UninterruptedRunReportsAll(plan, s, Got(v));
    }
  }

  /** A job is listed once for a code that is not 0, and once as a suite that its result file does not clear. */
  predicate Listed(failedJobs: seq<Job>, j: Job) {
    Sum(failedJobs, Is(j.id))
    == if j.isBreak || j.isSkip then 0
       else (if j.returncode != 0 then 1 else 0)
            + if j.isExample || (j.returncode in {0, 1, 2} && j.isCleared) then 0 else 1
  }

  /** The same of a job of the plan, by what carrying it out yields. */
  predicate ListedAsPlanned(plan: Plan, failedJobs: seq<Job>, id: nat)
    requires plan.Valid() && id < |plan.jobs|
  {
    var job, outcome := plan.jobs[id], plan.outcomes[id];
    Sum(failedJobs, Is(id))
    == if job.isSkip then 0
       else (if outcome.returncode != 0 then 1 else 0)
            + if job.isExample || (outcome.returncode in {0, 1, 2} && outcome.isCleared) then 0 else 1
  }

  lemma ListingAsPlanned(plan: Plan, s: State, id: nat)
    requires Invariant(plan, s) && Done(plan, s) && !s.threadExit && id < |plan.jobs|
    ensures ListedAsPlanned(plan, LedgerOf(s.collected).failedJobs, id)
  {
    FailedJobsUninterrupted(plan, s, id);
    EntriesByFields(plan.Reported(id));
  }

  predicate IsGood(j: Job) {
    !j.isBreak && (j.isSkip || j.returncode == 0)
  }

  /** How many of the first `n` jobs are not to be skipped and return this code when they are carried out. */
  function Planned(plan: Plan, n: nat, code: int): nat
    requires plan.Valid() && n <= |plan.jobs|
  {
    if n == 0 then 0
    else Planned(plan, n - 1, code) + if !plan.jobs[n - 1].isSkip && plan.outcomes[n - 1].returncode == code then 1 else 0
  }

  function PlannedSkips(plan: Plan, n: nat): nat
    requires plan.Valid() && n <= |plan.jobs|
  {
    if n == 0 then 0 else PlannedSkips(plan, n - 1) + if plan.jobs[n - 1].isSkip then 1 else 0
  }

  lemma {:induction false} ReportsAsPlanned(plan: Plan, n: nat, code: int)
    requires plan.Valid() && n <= |plan.jobs|
    ensures Sum(Reports(plan, n), Returned(code)) == Planned(plan, n, code)
    ensures Sum(Reports(plan, n), WasSkipped()) == PlannedSkips(plan, n)
  {
    if n > 0 {
      ReportsAsPlanned(plan, n - 1, code);
      SumAppend(Reports(plan, n - 1), Returned(code), plan.Reported(n - 1));
      SumAppend(Reports(plan, n - 1), WasSkipped(), plan.Reported(n - 1));
    }
  }

  /** What the books say at the end of a run, by the fields of the jobs and by the plan. */
  lemma BooksByFields(plan: Plan, s: State)
    requires Invariant(plan, s) && Done(plan, s)
    ensures var l := LedgerOf(s.collected);
      && l.passed == Sum(s.collected, Returned(0)) && l.failed == Sum(s.collected, Returned(1))
      && l.valgrind == Sum(s.collected, Returned(2)) && l.crashed == Sum(s.collected, ReturnedOther())
      && l.skipped == Sum(s.collected, WasSkipped())
      && (forall k :: 0 <= k < |s.collected| ==> Listed(l.failedJobs, s.collected[k]))
      && (l.passed + l.skipped == |plan.jobs| <==> forall k :: 0 <= k < |s.collected| ==> IsGood(s.collected[k]))
    ensures !s.threadExit ==> var l := LedgerOf(s.collected);
      && l.passed == Planned(plan, |plan.jobs|, 0) && l.failed == Planned(plan, |plan.jobs|, 1)
      && l.valgrind == Planned(plan, |plan.jobs|, 2) && l.skipped == PlannedSkips(plan, |plan.jobs|)
      && l.crashed == |plan.jobs| - l.passed - l.failed - l.valgrind - l.skipped
  {
    LedgerCounts(s.collected);
    CountsByFields(s.collected);
    forall k | 0 <= k < |s.collected| ensures Listed(LedgerOf(s.collected).failedJobs, s.collected[k]) {
      FailedJobsAtEnd(plan, s, k);
      EntriesByFields(s.collected[k]);
    }
    GoodByFields(s.collected);
    if !s.threadExit {
      BooksByPlan(plan, s);
    }
  }

  lemma GoodByFields(js: seq<Job>)
    ensures Sum(js, Got(Passed)) + Sum(js, Got(Skipped)) == |js| <==> forall k :: 0 <= k < |js| ==> IsGood(js[k])
  {
    AllGood(js);
    forall k | 0 <= k < |js|
      ensures IsGood(js[k]) <==> VerdictOf(js[k]) == Passed || VerdictOf(js[k]) == Skipped
    {
    }
  }

  lemma BooksByPlan(plan: Plan, s: State)
    requires Invariant(plan, s) && Done(plan, s) && !s.threadExit
    ensures var l := LedgerOf(s.collected);
      && l.passed == Planned(plan, |plan.jobs|, 0) && l.failed == Planned(plan, |plan.jobs|, 1)
      && l.valgrind == Planned(plan, |plan.jobs|, 2) && l.skipped == PlannedSkips(plan, |plan.jobs|)
      && l.crashed == |plan.jobs| - l.passed - l.failed - l.valgrind - l.skipped
  {
    LedgerCounts(s.collected);
    CountsByFields(s.collected);
    PlannedCount(plan, s, 0);
    PlannedCount(plan, s, 1);
    PlannedCount(plan, s, 2);
    VerdictsAddUp(s.collected);
    NoBreaks(plan, s);
  }

  lemma PlannedCount(plan: Plan, s: State, code: int)
    requires Invariant(plan, s) && Done(plan, s) && !s.threadExit
    ensures Sum(s.collected, Returned(code)) == Planned(plan, |plan.jobs|, code)
    ensures Sum(s.collected, WasSkipped()) == PlannedSkips(plan, |plan.jobs|)
  {
    UninterruptedRunReportsAll(plan, s, Returned(code));
    UninterruptedRunReportsAll(plan, s, WasSkipped());
    ReportsAsPlanned(plan, |plan.jobs|, code);
  }

  lemma NoBreaks(plan: Plan, s: State)
    requires Invariant(plan, s) && !s.threadExit
    ensures Sum(s.collected, Got(Interrupted)) == 0
  {
    forall k | 0 <= k < |s.collected| ensures Got(Interrupted)(s.collected[k]) == 0 {
      assert IsResult(plan, s.collected[k], s.threadExit);
    }
    SumAllZero(s.collected, Got(Interrupted));
  }

  class TestRun {
    const plan: Plan

    var workers: seq<Worker>
    var inputQueue: seq<Job>
    var outputQueue: seq<Job>
    var threadExit: bool
    var sent: nat
    var joined: nat

    var passedTests: nat
    var failedTests: nat
    var valgrindErrors: nat
    var crashedTests: nat
    var skippedTests: nat
    var received: nat
    var failedJobs: seq<Job>

    /** The jobs taken from the output queue so far. */
    ghost var collected: seq<Job>

    ghost function View(): State
      reads this
    {
      State(workers, inputQueue, outputQueue, threadExit, sent, collected, joined)
    }

    ghost function Books(): Ledger
      reads this`received, this`passedTests, this`failedTests, this`valgrindErrors, this`crashedTests,
            this`skippedTests, this`failedJobs
    {
      Ledger(received, passedTests, failedTests, valgrindErrors, crashedTests, skippedTests, failedJobs)
    }

    /** The counters and the list of failed jobs account for what was collected. */
    ghost predicate Accounted()
      reads this`received, this`passedTests, this`failedTests, this`valgrindErrors, this`crashedTests,
            this`skippedTests, this`failedJobs, this`collected
    {
      Books() == LedgerOf(collected)
    }

    ghost predicate Valid()
      reads this
    {
      Invariant(plan, View()) && Accounted()
    }

    constructor (plan: Plan)
      requires plan.Valid()
      ensures this.plan == plan && Valid() && View() == Start
    {
      this.plan := plan;
      workers, inputQueue, outputQueue, threadExit, sent, joined := [], [], [], false, 0, 0;
      passedTests, failedTests, valgrindErrors, crashedTests, skippedTests, received := 0, 0, 0, 0, 0, 0;
      failedJobs, collected := [], [];
      new;
      StartInvariant(plan);
    }

    /** The signal handler, which may be called any number of times. */
    method SigintHook()
      modifies this`threadExit
      ensures threadExit && View() == Apply(plan, old(View()), Interrupt)
    {
      threadExit := true;
    }

    method SpawnWorker()
      requires Enabled(plan, View(), Spawn)
      modifies this`workers
      ensures View() == Apply(plan, old(View()), Spawn)
    {
      workers := workers + [Waiting];
    }

    /** Sends the next job, or a stop token once every job is sent. */
    method SendNext()
      requires Enabled(plan, View(), Send)
      modifies this`inputQueue, this`sent
      ensures View() == Apply(plan, old(View()), Send)
    {
      var job := plan.Item(sent);
      inputQueue := inputQueue + [job];
      sent := sent + 1;
    }

    method JoinNext()
      requires Enabled(plan, View(), Join)
      modifies this`joined
      ensures View() == Apply(plan, old(View()), Join)
    {
      joined := joined + 1;
    }

    /** One action of worker `w`, from taking a job to handing it back. */
    method WorkerAct(w: nat, step: Step)
      requires step in {Take(w), Inspect(w), Launch(w), Finish(w), Put(w)} && Enabled(plan, View(), step)
      modifies this`workers, this`inputQueue, this`outputQueue
      ensures View() == Apply(plan, old(View()), step)
    {
      match step {
        case Take(_) =>
          var job := inputQueue[0];
          inputQueue := inputQueue[1..];
          workers := workers[w := Holding(job)];
        case Inspect(_) =>
          var job := workers[w].job;
          if job.isBreak {
            workers := workers[w := Exited(job)];
          } else if threadExit {
            job := job.(isBreak := true);
            workers := workers[w := Returning(job)];
          } else {
            workers := workers[w := Admitted(job)];
          }
        case Launch(_) =>
          var job := workers[w].job;
          if job.isSkip {
            workers := workers[w := Returning(job)];
          } else {
            workers := workers[w := Running(job)];
          }
        case Finish(_) =>
          var job := workers[w].job;
          var outcome := plan.outcomes[job.id];
          job := job.(returncode := outcome.returncode, isCleared := outcome.isCleared);
          workers := workers[w := Returning(job)];
        case Put(_) =>
          outputQueue := outputQueue + [workers[w].job];
          workers := workers[w := Waiting];
      }
    }

    /** Takes one result off the output queue. */
    method Receive() returns (job: Job)
      requires Enabled(plan, View(), Collect)
      modifies this`outputQueue, this`collected
      ensures View() == Apply(plan, old(View()), Collect)
      ensures collected == old(collected) + [job]
    {
      job := outputQueue[0];
      outputQueue := outputQueue[1..];
      collected := collected + [job];
    }

    /** Takes one result and accounts for it. */
    method CollectNext()
      requires Enabled(plan, View(), Collect) && Accounted()
      modifies this`outputQueue, this`passedTests, this`failedTests, this`valgrindErrors, this`crashedTests,
        this`skippedTests, this`received, this`failedJobs, this`collected
      ensures Accounted()
      ensures View() == Apply(plan, old(View()), Collect)
    {
      var job := Receive();
      ghost var view, books := View(), Books();
      Account(job);
      assert View() == view;
      assert Books() == LedgerOf(collected) by {
        assert Books() == Enter(books, job);
        LedgerAppend(old(collected), job);
      }
    }

    /** Counts a job, and enters it among the failed jobs as often as it is due. */
    method Account(job: Job)
      modifies this`passedTests, this`failedTests, this`valgrindErrors, this`crashedTests, this`skippedTests,
        this`received, this`failedJobs
      ensures Books() == Enter(old(Books()), job)
      // the same by the fields of the job
      ensures received == old(received) + 1
      ensures passedTests == old(passedTests) + Returned(0)(job)
      ensures failedTests == old(failedTests) + Returned(1)(job)
      ensures valgrindErrors == old(valgrindErrors) + Returned(2)(job)
      ensures crashedTests == old(crashedTests) + ReturnedOther()(job)
      ensures skippedTests == old(skippedTests) + WasSkipped()(job)
    {
      RepeatedTwice(failedJobs, job, CodeEntries(job), ResultEntries(job));
      received := received + 1;
      if job.isBreak {
        return;
      }
      CountVerdict(job);
      if !job.isExample && !job.isSkip {
        ReadResult(job);
      }
    }

    /** Counts a job that was not interrupted; pushes it among the failed jobs and pops it if it passed. */
    method CountVerdict(job: Job)
      requires !job.isBreak
      modifies this`passedTests, this`failedTests, this`valgrindErrors, this`crashedTests, this`skippedTests,
        this`failedJobs
      ensures passedTests == old(passedTests) + if VerdictOf(job) == Passed then 1 else 0
      ensures failedTests == old(failedTests) + if VerdictOf(job) == Failed then 1 else 0
      ensures valgrindErrors == old(valgrindErrors) + if VerdictOf(job) == ValgrindError then 1 else 0
      ensures crashedTests == old(crashedTests) + if VerdictOf(job) == Crashed then 1 else 0
      ensures skippedTests == old(skippedTests) + if VerdictOf(job) == Skipped then 1 else 0
      ensures failedJobs == old(failedJobs) + Repeated(job, CodeEntries(job))
    {
      if job.isSkip {
        skippedTests := skippedTests + 1;
        return;
      }
      failedJobs := failedJobs + [job];
      if job.returncode == 0 {
        passedTests := passedTests + 1;
        failedJobs := failedJobs[..|failedJobs| - 1];
      } else if job.returncode == 1 {
        failedTests := failedTests + 1;
      } else if job.returncode == 2 {
        valgrindErrors := valgrindErrors + 1;
      } else {
        crashedTests := crashedTests + 1;
      }
    }

    /** Pushes a suite among the failed jobs and pops it again if its result file clears it. */
    method ReadResult(job: Job)
      requires !job.isBreak && !job.isSkip && !job.isExample
      modifies this`failedJobs
      ensures failedJobs == old(failedJobs) + Repeated(job, ResultEntries(job))
    {
      failedJobs := failedJobs + [job];
      if job.returncode == 0 || job.returncode == 1 || job.returncode == 2 {
        if job.isCleared {
          failedJobs := failedJobs[..|failedJobs| - 1];
        }
      }
    }

    lemma ViewIsValid(s: State)
      requires View() == s && Invariant(plan, s) && Accounted()
      ensures Valid()
    {
    }

    /** One step of whichever thread it belongs to. */
    method Act(step: Step)
      requires Valid() && Enabled(plan, View(), step)
      modifies this
      ensures Valid() && View() == Apply(plan, old(View()), step)
    {
      ghost var next := Apply(plan, View(), step);
      StepKeepsInvariant(plan, View(), step);
      Advance(step);
      ViewIsValid(next);
    }

    method Advance(step: Step)
      requires Accounted() && Enabled(plan, View(), step)
      modifies this
      ensures Accounted() && View() == Apply(plan, old(View()), step)
    {
      if step.Collect? {
        CollectNext();
      } else {
        MoveOn(step);
      }
    }

    /** A step that collects nothing, and so leaves the books alone. */
    method MoveOn(step: Step)
      requires Enabled(plan, View(), step) && !step.Collect?
      modifies this`workers, this`inputQueue, this`outputQueue, this`threadExit, this`sent, this`joined
      ensures View() == Apply(plan, old(View()), step)
    {
      match step {
        case Spawn => SpawnWorker();
        case Send => SendNext();
        case Join => JoinNext();
        case Interrupt => SigintHook();
        case Take(w) => WorkerAct(w, step);
        case Inspect(w) => WorkerAct(w, step);
        case Launch(w) => WorkerAct(w, step);
        case Finish(w) => WorkerAct(w, step);
        case Put(w) => WorkerAct(w, step);
      }
    }

    /** Carries out an interleaving. */
    method Run(interleaving: seq<Step>)
      requires Valid() && View() == Start && Feasible(plan, Start, interleaving)
      modifies this
      ensures Valid() && View() == Execute(plan, Start, interleaving)
    {
      for i := 0 to |interleaving|
        invariant Valid()
        invariant Feasible(plan, View(), interleaving[i..])
        invariant Execute(plan, View(), interleaving[i..]) == Execute(plan, Start, interleaving)
      {
        assert interleaving[i..][1..] == interleaving[i + 1..];
        Act(interleaving[i]);
      }
    }

    /**
     Carries out any interleaving that runs to its end.  Every job is collected once; the counters
     add up; the exit code is 0 exactly if every job was reported as passed or skipped.
     */
    method RunTests(interleaving: seq<Step>) returns (code: int)
      requires Valid() && View() == Start
      requires Feasible(plan, Start, interleaving) && Done(plan, Execute(plan, Start, interleaving))
      modifies this
      ensures Valid() && View() == Execute(plan, Start, interleaving)
      ensures forall id: nat :: id < |plan.jobs| ==> Sum(collected, Is(id)) == 1
      ensures passedTests + failedTests + valgrindErrors + crashedTests + skippedTests
        + Sum(collected, Got(Interrupted)) == |plan.jobs|
      ensures !threadExit ==> forall v :: Sum(collected, Got(v)) == Sum(Reports(plan, |plan.jobs|), Got(v))
      ensures passedTests == Sum(collected, Got(Passed)) && skippedTests == Sum(collected, Got(Skipped))
      ensures failedTests == Sum(collected, Got(Failed)) && crashedTests == Sum(collected, Got(Crashed))
      ensures valgrindErrors == Sum(collected, Got(ValgrindError))
      ensures forall k :: 0 <= k < |collected| ==>
                Sum(failedJobs, Is(collected[k].id)) == FailureEntries(collected[k])
      ensures !threadExit ==> forall id: nat :: id < |plan.jobs| ==>
                Sum(failedJobs, Is(id)) == FailureEntries(plan.Reported(id))
      ensures code == 0 || code == 1
      ensures code == 0 <==> forall k :: 0 <= k < |collected| ==> VerdictOf(collected[k]) in {Passed, Skipped}
      // the same by the fields of the collected jobs
      ensures passedTests == Sum(collected, Returned(0)) && failedTests == Sum(collected, Returned(1))
      ensures valgrindErrors == Sum(collected, Returned(2)) && crashedTests == Sum(collected, ReturnedOther())
      ensures skippedTests == Sum(collected, WasSkipped())
      ensures forall k :: 0 <= k < |collected| ==> Listed(failedJobs, collected[k])
      ensures code == 0 <==> forall k :: 0 <= k < |collected| ==> IsGood(collected[k])
      // and, without an interrupt, by the plan
      ensures threadExit <==> Interrupt in interleaving
      ensures Interrupt !in interleaving ==>
                passedTests == Planned(plan, |plan.jobs|, 0) && failedTests == Planned(plan, |plan.jobs|, 1)
                && valgrindErrors == Planned(plan, |plan.jobs|, 2) && skippedTests == PlannedSkips(plan, |plan.jobs|)
                && crashedTests == |plan.jobs| - passedTests - failedTests - valgrindErrors - skippedTests
      ensures Interrupt !in interleaving ==>
                forall id: nat :: id < |plan.jobs| ==> ListedAsPlanned(plan, failedJobs, id)
    {
      FlagAfterRun(plan, Start, interleaving);
      Run(interleaving);
      code := if passedTests + skippedTests == |plan.jobs| then 0 else 1;
      BooksAtEnd(plan, View());
      BooksByFields(plan, View());
      if !threadExit {
        forall id: nat | id < |plan.jobs| ensures ListedAsPlanned(plan, failedJobs, id) {
          ListingAsPlanned(plan, View(), id);
        }
      }
    }
  }
}
