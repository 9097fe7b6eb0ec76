/** What a finished run has collected, and what an interrupt does to it. */
module PoolOutcome {
  import opened Sums
  import opened WorkerPool
  import opened PoolSafety
  import opened PoolRuns

  /******* At the end *******/

  /** Each job has been collected once and each stop token spent by one worker; nothing is left over. */
  lemma DoneCollectsEverything(plan: Plan, s: State)
    requires Invariant(plan, s) && Done(plan, s)
    ensures s.input == [] && s.output == []
    ensures forall w :: 0 <= w < |s.workers| ==> s.workers[w].Exited?
    ensures forall id: nat :: id < |plan.jobs| ==> Sum(s.collected, Is(id)) == 1
    ensures forall id: nat :: |plan.jobs| <= id < plan.Items() ==> Sum(s.workers, Has(id)) == 1
  {
    AllExited(s.workers);
    forall id: nat | id < |plan.jobs| ensures Sum(s.collected, Is(id)) == 1 {
      SumAllZero(s.workers, Has(id));
      assert Places(s, id) == 1;
    }
    forall id: nat | |plan.jobs| <= id < plan.Items() ensures Sum(s.workers, Has(id)) == 1 {
      SumAllZero(s.collected, Is(id));
      assert Places(s, id) == 1;
    }
  }

  lemma {:induction false} AllExited(ws: seq<Worker>)
    requires forall w :: 0 <= w < |ws| ==> ws[w].Exited?
    ensures Sum(ws, HasToken) == |ws| && Sum(ws, HasJob) == 0
  {
    if ws != [] {
      AllExited(ws[..|ws| - 1]);
    }
  }

  /******* The result does not depend on the interleaving *******/

  /** The reports of the first `n` jobs, in the order the jobs were sent. */
  function Reports(plan: Plan, n: nat): (js: seq<Job>)
    requires plan.Valid() && n <= |plan.jobs|
  {
    if n == 0 then [] else Reports(plan, n - 1) + [plan.Reported(n - 1)]
  }

  /** Counting over a list that holds each of the reports once gives what counting over the reports does. */
  lemma {:induction false} CountsAgree(plan: Plan, js: seq<Job>, n: nat, f: Job -> nat)
    requires plan.Valid() && n <= |plan.jobs|
    requires forall k :: 0 <= k < |js| ==> js[k].id < n && js[k] == plan.Reported(js[k].id)
    requires forall id: nat :: id < n ==> Sum(js, Is(id)) == 1
    ensures Sum(js, f) == Sum(Reports(plan, n), f)
    decreases n
  {
    if n == 0 {
      SumAllZero(js, f);
    } else {
      assert Sum(js, Is(n - 1)) == 1;
      var k := SumPositive(js, Is(n - 1));
      var rest := js[..k] + js[k + 1..];
      SumRemove(js, f, k);
      WithoutLast(plan, js, n, k, rest);
      CountsAgree(plan, rest, n - 1, f);
      SumAppend(Reports(plan, n - 1), f, plan.Reported(n - 1));
    }
  }

  lemma {:induction false} WithoutLast(plan: Plan, js: seq<Job>, n: nat, k: nat, rest: seq<Job>)
    requires plan.Valid() && 0 < n <= |plan.jobs| && k < |js| && js[k].id == n - 1
    requires forall i :: 0 <= i < |js| ==> js[i].id < n && js[i] == plan.Reported(js[i].id)
    requires forall id: nat :: id < n ==> Sum(js, Is(id)) == 1
    requires rest == js[..k] + js[k + 1..]
    ensures forall i :: 0 <= i < |rest| ==> rest[i].id < n - 1 && rest[i] == plan.Reported(rest[i].id)
    ensures forall id: nat :: id < n - 1 ==> Sum(rest, Is(id)) == 1
  {
    NoneLeft(js, n - 1, k, rest);
    forall i | 0 <= i < |rest| ensures rest[i].id < n - 1 && rest[i] == plan.Reported(rest[i].id) {
      assert rest[i] == js[if i < k then i else i + 1];
    }
    forall id: nat | id < n - 1 ensures Sum(rest, Is(id)) == 1 {
      OthersLeft(js, id, k, rest);
    }
  }

  lemma OthersLeft(js: seq<Job>, id: nat, k: nat, rest: seq<Job>)
    requires k < |js| && js[k].id != id && rest == js[..k] + js[k + 1..]
    ensures Sum(rest, Is(id)) == Sum(js, Is(id))
  {
    SumRemove(js, Is(id), k);
  }

  lemma NoneLeft(js: seq<Job>, id: nat, k: nat, rest: seq<Job>)
    requires k < |js| && js[k].id == id && Sum(js, Is(id)) == 1 && rest == js[..k] + js[k + 1..]
    ensures forall i :: 0 <= i < |rest| ==> rest[i].id != id
  {
    SumRemove(js, Is(id), k);
    SumZero(rest, Is(id));
    forall i | 0 <= i < |rest| ensures rest[i].id != id {
      assert Is(id)(rest[i]) == 0;
    }
  }

  /** An uninterrupted run collects, in some order, exactly the report of every job. */
  lemma UninterruptedRunReportsAll(plan: Plan, s: State, f: Job -> nat)
    requires Invariant(plan, s) && Done(plan, s) && !s.threadExit
    ensures Sum(s.collected, f) == Sum(Reports(plan, |plan.jobs|), f)
  {
    DoneCollectsEverything(plan, s);
    CountsAgree(plan, s.collected, |plan.jobs|, f);
  }

  /******* The interrupt *******/

  /** Whether the step starts a subprocess of worker `w`. */
  function Starts(s: State, step: Step, w: nat): nat {
    if step == Launch(w) && w < |s.workers| && s.workers[w].Admitted? && !s.workers[w].job.isSkip then 1 else 0
  }

  function StartsDuring(plan: Plan, s: State, run: seq<Step>, w: nat): nat
    requires Feasible(plan, s, run)
    decreases |run|
  {
    if run == [] then 0
    else Starts(s, run[0], w) + StartsDuring(plan, Apply(plan, s, run[0]), run[1..], w)
  }

  predicate IsAdmitted(s: State, w: nat) {
    w < |s.workers| && s.workers[w].Admitted?
  }

  /** To start a subprocess is to make a worker run that did not. */
  lemma StartsMeansRunning(plan: Plan, s: State, step: Step, w: nat)
    requires Enabled(plan, s, step) && w < |s.workers|
    ensures Starts(s, step, w) == (if Apply(plan, s, step).workers[w].Running? && !s.workers[w].Running? then 1 else 0)
  {
  }

  /** The flag is up after a run exactly if it was before or an interrupt came. */
  lemma {:induction false} FlagAfterRun(plan: Plan, s: State, run: seq<Step>)
    requires Feasible(plan, s, run)
    ensures Execute(plan, s, run).threadExit <==> s.threadExit || Interrupt in run
    decreases |run|
  {
    if run != [] {
      FlagAfterRun(plan, Apply(plan, s, run[0]), run[1..]);
      assert run == [run[0]] + run[1..];
    }
  }

  /** A run can be cut in two. */
  lemma {:induction false} RunSplits(plan: Plan, s: State, run: seq<Step>, k: nat)
    requires Feasible(plan, s, run) && k <= |run|
    ensures Feasible(plan, s, run[..k]) && Feasible(plan, Execute(plan, s, run[..k]), run[k..])
    ensures Execute(plan, s, run) == Execute(plan, Execute(plan, s, run[..k]), run[k..])
    decreases |run|
  {
    if k == 0 {
      assert run[..k] == [] && run[k..] == run;
    } else {
      RunSplits(plan, Apply(plan, s, run[0]), run[1..], k - 1);
      assert run[..k][1..] == run[1..][..k - 1] && run[1..][k - 1..] == run[k..];
    }
  }

  /** Once the flag is up it stays up, and each worker starts at most the one job it had admitted before. */
  lemma {:induction false} AtMostOneStart(plan: Plan, s: State, run: seq<Step>, w: nat)
    requires Feasible(plan, s, run) && s.threadExit
    ensures Execute(plan, s, run).threadExit
    ensures StartsDuring(plan, s, run, w) <= if IsAdmitted(s, w) then 1 else 0
    decreases |run|
  {
    if run != [] {
      AtMostOneStart(plan, Apply(plan, s, run[0]), run[1..], w);
    }
  }

  /** No worker has inspected job `id` yet. */
  predicate Uninspected(plan: Plan, s: State, id: nat)
    requires |s.input| <= s.sent
  {
    id < |plan.jobs| && (Taken(s) <= id || exists w :: 0 <= w < |s.workers| && s.workers[w].Holding? && s.workers[w].job.id == id)
  }

  /** Job `id` is nowhere admitted or running, and wherever it is handed back it is marked as a break. */
  predicate ComesBackAsBreak(s: State, id: nat) {
    && (forall w :: 0 <= w < |s.workers| && (s.workers[w].Admitted? || s.workers[w].Running?) ==> s.workers[w].job.id != id)
    && (forall w :: 0 <= w < |s.workers| && s.workers[w].Returning? && s.workers[w].job.id == id ==> s.workers[w].job.isBreak)
    && (forall k :: 0 <= k < |s.output| && s.output[k].id == id ==> s.output[k].isBreak)
    && (forall k :: 0 <= k < |s.collected| && s.collected[k].id == id ==> s.collected[k].isBreak)
  }

  lemma StepKeepsBreak(plan: Plan, s: State, step: Step, id: nat)
    requires Enabled(plan, s, step) && s.threadExit && ComesBackAsBreak(s, id)
    ensures ComesBackAsBreak(Apply(plan, s, step), id)
  {
  }

  lemma {:induction false} RunKeepsBreak(plan: Plan, s: State, run: seq<Step>, id: nat)
    requires Feasible(plan, s, run) && s.threadExit && ComesBackAsBreak(s, id)
    ensures ComesBackAsBreak(Execute(plan, s, run), id)
    decreases |run|
  {
    if run != [] {
      StepKeepsBreak(plan, s, run[0], id);
      RunKeepsBreak(plan, Apply(plan, s, run[0]), run[1..], id);
    }
  }

  /** What no worker has inspected is in the input queue, yet to be sent, or just taken; and nowhere else. */
  lemma UninspectedIsNowhereElse(plan: Plan, s: State, id: nat)
    requires Invariant(plan, s) && Uninspected(plan, s, id)
    ensures ComesBackAsBreak(s, id)
  {
    assert Places(s, id) <= 1;
    if Taken(s) <= id < s.sent {
      assert s.input[id - Taken(s)] == plan.Item(id);
      SumAtLeast(s.input, Is(id), id - Taken(s));
      NotHeld(s, id);
    } else if id >= s.sent {
      NotHeld(s, id);
    } else {
      var h :| 0 <= h < |s.workers| && s.workers[h].Holding? && s.workers[h].job.id == id;
      SumAtLeast(s.workers, Has(id), h);
      forall w | 0 <= w < |s.workers| && w != h ensures s.workers[w].Waiting? || s.workers[w].job.id != id {
        SumAtLeastTwo(s.workers, Has(id), if w < h then w else h, if w < h then h else w);
      }
    }
    NotHandedBack(s.output, id);
    NotHandedBack(s.collected, id);
  }

  lemma NotHeld(s: State, id: nat)
    ensures Sum(s.workers, Has(id)) == 0 ==> forall w :: 0 <= w < |s.workers| ==> s.workers[w].Waiting? || s.workers[w].job.id != id
  {
    if Sum(s.workers, Has(id)) == 0 {
      SumZero(s.workers, Has(id));
      forall w | 0 <= w < |s.workers| ensures s.workers[w].Waiting? || s.workers[w].job.id != id {
        assert Has(id)(s.workers[w]) == 0;
      }
    }
  }

  lemma NotHandedBack(js: seq<Job>, id: nat)
    ensures Sum(js, Is(id)) == 0 ==> forall k :: 0 <= k < |js| ==> js[k].id != id
  {
    if Sum(js, Is(id)) == 0 {
      SumZero(js, Is(id));
      forall k | 0 <= k < |js| ensures js[k].id != id {
        assert Is(id)(js[k]) == 0;
      }
    }
  }

  /**
   A job that no worker had inspected when the flag went up is handed back as a break, in every run
   from there; a run that finishes collects it, once, as that.
   */
  lemma {:induction false} LaterJobsComeBackAsBreaks(plan: Plan, s: State, run: seq<Step>, id: nat)
    requires Invariant(plan, s) && s.threadExit && Uninspected(plan, s, id)
    requires Feasible(plan, s, run)
    ensures var t := Execute(plan, s, run);
      && (forall k :: 0 <= k < |t.collected| && t.collected[k].id == id ==> t.collected[k].isBreak)
      && (Done(plan, t) ==> Sum(t.collected, Is(id)) == 1)
  {
    UninspectedIsNowhereElse(plan, s, id);
    RunKeepsBreak(plan, s, run, id);
    RunKeepsInvariant(plan, s, run);
    if Done(plan, Execute(plan, s, run)) {
      DoneCollectsEverything(plan, Execute(plan, s, run));
    }
  }

  /**
   If an interrupt comes during a run, every job that no worker had inspected by then is handed back as
   a break; a run that finishes collects it, once, as that.
   */
  lemma InterruptedJobsComeBackAsBreaks(plan: Plan, run: seq<Step>, k: nat, id: nat)
    requires plan.Valid() && Feasible(plan, Start, run) && k < |run| && run[k] == Interrupt
    requires Feasible(plan, Start, run[..k])
    requires var s := Execute(plan, Start, run[..k]); |s.input| <= s.sent && Uninspected(plan, s, id)
    ensures var t := Execute(plan, Start, run);
      && t.threadExit
      && (forall i :: 0 <= i < |t.collected| && t.collected[i].id == id ==> t.collected[i].isBreak)
      && (Done(plan, t) ==> Sum(t.collected, Is(id)) == 1)
  {
    var s := Execute(plan, Start, run[..k]);
    StartInvariant(plan);
    RunKeepsInvariant(plan, Start, run[..k]);
    RunSplits(plan, Start, run, k);
    var rest := run[k..];
    assert rest[0] == Interrupt;
    var u := Apply(plan, s, Interrupt);
    InterruptRaisesFlag(plan, s);
    StepKeepsInvariant(plan, s, Interrupt);
    FlagAfterRun(plan, Start, run);
    assert Interrupt in run;
    LaterJobsComeBackAsBreaks(plan, u, rest[1..], id);
  }

  /** An interrupt raises the flag and does nothing else. */
  lemma InterruptRaisesFlag(plan: Plan, s: State)
    ensures var t := Apply(plan, s, Interrupt);
      t.threadExit && t == s.(threadExit := true)
  {
  }

  /******* The order of results *******/

  /** Results are collected in the order in which they were handed back. */
  lemma StepKeepsOrder(plan: Plan, s: State, step: Step)
    requires Enabled(plan, s, step)
    ensures s.collected + s.output <= Apply(plan, s, step).collected + Apply(plan, s, step).output
    ensures s.collected <= Apply(plan, s, step).collected
  {
  }

  lemma {:induction false} ResultsInOrder(plan: Plan, s: State, run: seq<Step>)
    requires Feasible(plan, s, run)
    ensures var t := Execute(plan, s, run);
      s.collected + s.output <= t.collected + t.output && s.collected <= t.collected
    decreases |run|
  {
    if run != [] {
      StepKeepsOrder(plan, s, run[0]);
      ResultsInOrder(plan, Apply(plan, s, run[0]), run[1..]);
    }
  }
}
