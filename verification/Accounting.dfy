/** What the main thread makes of the jobs it collects. */
module Accounting {
  import opened Sums
  import opened WorkerPool
  import opened PoolSafety

  datatype Verdict = Interrupted | Skipped | Passed | Failed | ValgrindError | Crashed

  function VerdictOf(j: Job): Verdict {
    if j.isBreak then Interrupted
    else if j.isSkip then Skipped
    else if j.returncode == 0 then Passed
    else if j.returncode == 1 then Failed
    else if j.returncode == 2 then ValgrindError
    else Crashed
  }

  /** Whether a job got this verdict. */
  function Got(v: Verdict): Job -> nat {
    (j: Job) => if VerdictOf(j) == v then 1 else 0
  }

  /** Whether the result file of a suite is read and clears it. */
  predicate ClearedByResult(j: Job) {
    0 <= j.returncode <= 2 && j.isCleared
  }

  /** How often a job is left in the list of failed jobs on account of its return code. */
  function CodeEntries(j: Job): nat {
    if j.isBreak || j.isSkip || j.returncode == 0 then 0 else 1
  }

  /** How often on account of its result file, which only suites have. */
  function ResultEntries(j: Job): nat {
    if j.isBreak || j.isSkip || j.isExample || ClearedByResult(j) then 0 else 1
  }

  function FailureEntries(j: Job): nat {
    CodeEntries(j) + ResultEntries(j)
  }

  function Repeated(j: Job, n: nat): (r: seq<Job>)
    ensures |r| == n && forall k :: 0 <= k < n ==> r[k] == j
  {
    if n == 0 then [] else Repeated(j, n - 1) + [j]
  }

  lemma RepeatedTwice(l: seq<Job>, j: Job, m: nat, n: nat)
    ensures l + Repeated(j, m) + Repeated(j, n) == l + Repeated(j, m + n)
  {
  }

  /******* The counters of the main thread *******/

  datatype Ledger = Ledger(
    received: nat, passed: nat, failed: nat, valgrind: nat, crashed: nat, skipped: nat, failedJobs: seq<Job>)

  /** The counters after one more job with verdict `v`, entered `n` times among the failed jobs. */
  function Enter(l: Ledger, j: Job): Ledger {
    var v := VerdictOf(j);
    Ledger(
      l.received + 1,
      l.passed + if v == Passed then 1 else 0,
      l.failed + if v == Failed then 1 else 0,
      l.valgrind + if v == ValgrindError then 1 else 0,
      l.crashed + if v == Crashed then 1 else 0,
      l.skipped + if v == Skipped then 1 else 0,
      l.failedJobs + Repeated(j, FailureEntries(j)))
  }

  function LedgerOf(js: seq<Job>): Ledger {
    if js == [] then Ledger(0, 0, 0, 0, 0, 0, []) else Enter(LedgerOf(js[..|js| - 1]), js[|js| - 1])
  }

  lemma LedgerAppend(js: seq<Job>, j: Job)
    ensures LedgerOf(js + [j]) == Enter(LedgerOf(js), j)
  {
  }

  /** Each counter is the number of collected jobs with its verdict. */
  lemma {:induction false} LedgerCounts(js: seq<Job>)
    ensures var l := LedgerOf(js);
      && l.received == |js|
      && l.passed == Sum(js, Got(Passed)) && l.failed == Sum(js, Got(Failed))
      && l.valgrind == Sum(js, Got(ValgrindError)) && l.crashed == Sum(js, Got(Crashed))
      && l.skipped == Sum(js, Got(Skipped))
  {
    if js != [] {
      LedgerCounts(js[..|js| - 1]);
    }
  }

  function Due(id: nat): Job -> nat {
    (j: Job) => if j.id == id then FailureEntries(j) else 0
  }

  /** A job occurs among the failed jobs as often as it was due when it was collected. */
  lemma {:induction false} FailedJobsCount(js: seq<Job>, id: nat)
    ensures Sum(LedgerOf(js).failedJobs, Is(id)) == Sum(js, Due(id))
  {
    if js != [] {
      var init, last := js[..|js| - 1], js[|js| - 1];
      FailedJobsCount(init, id);
      SumRepeated(LedgerOf(init).failedJobs, id, last, FailureEntries(last));
    }
  }

  lemma {:induction false} NoneDue(js: seq<Job>, id: nat)
    requires Sum(js, Is(id)) == 0
    ensures Sum(js, Due(id)) == 0
  {
    if js != [] {
      NoneDue(js[..|js| - 1], id);
    }
  }

  /** A job that was collected once is due as often as it was found to be. */
  lemma {:induction false} DueOnce(js: seq<Job>, k: nat)
    requires k < |js| && Sum(js, Is(js[k].id)) == 1
    ensures Sum(js, Due(js[k].id)) == FailureEntries(js[k])
  {
    var init := js[..|js| - 1];
    if k == |js| - 1 {
      NoneDue(init, js[k].id);
    } else {
      SumAtLeast(init, Is(js[k].id), k);
      DueOnce(init, k);
    }
  }

  lemma {:induction false} SumRepeated(l: seq<Job>, id: nat, j: Job, n: nat)
    ensures Sum(l + Repeated(j, n), Is(id)) == Sum(l, Is(id)) + if j.id == id then n else 0
  {
    if n == 0 {
      assert l + Repeated(j, n) == l;
    } else {
      SumRepeated(l, id, j, n - 1);
      assert l + Repeated(j, n) == (l + Repeated(j, n - 1)) + [j];
      SumAppend(l + Repeated(j, n - 1), Is(id), j);
    }
  }

  /** Every collected job gets one verdict. */
  lemma {:induction false} VerdictsAddUp(js: seq<Job>)
    ensures Sum(js, Got(Passed)) + Sum(js, Got(Failed)) + Sum(js, Got(ValgrindError))
          + Sum(js, Got(Crashed)) + Sum(js, Got(Skipped)) + Sum(js, Got(Interrupted)) == |js|
  {
    if js != [] {
      VerdictsAddUp(js[..|js| - 1]);
    }
  }

  /** Those that passed and those that were skipped are all of them exactly if none did otherwise. */
  lemma {:induction false} AllGood(js: seq<Job>)
    ensures Sum(js, Got(Passed)) + Sum(js, Got(Skipped)) <= |js|
    ensures Sum(js, Got(Passed)) + Sum(js, Got(Skipped)) == |js|
       <==> forall k :: 0 <= k < |js| ==> VerdictOf(js[k]) == Passed || VerdictOf(js[k]) == Skipped
  {
    if js != [] {
      var init := js[..|js| - 1];
      AllGood(init);
      assert forall k :: 0 <= k < |init| ==> init[k] == js[k];
      assert js[|js| - 1] in js;
    }
  }

  /**
   The return code of the script and its list of failed jobs disagree on exactly these suites:
   one that exits with 0 while its result file says otherwise is counted as passed, yet listed.
   */
  lemma PassedYetListed(j: Job)
    ensures VerdictOf(j) == Passed && FailureEntries(j) > 0
       <==> !j.isBreak && !j.isSkip && !j.isExample && j.returncode == 0 && !j.isCleared
    ensures VerdictOf(j) in {Failed, ValgrindError, Crashed} ==> FailureEntries(j) > 0
    ensures VerdictOf(j) in {Skipped, Interrupted} ==> FailureEntries(j) == 0
  {
  }

  /******* The same by the fields of a job *******/

  /** Whether a job was neither interrupted nor skipped, and returned this code. */
  function Returned(code: int): Job -> nat {
    (j: Job) => if !j.isBreak && !j.isSkip && j.returncode == code then 1 else 0
  }

  /** Whether it was neither interrupted nor skipped, and returned another code than 0, 1 and 2. */
  function ReturnedOther(): Job -> nat {
    (j: Job) => if !j.isBreak && !j.isSkip && j.returncode != 0 && j.returncode != 1 && j.returncode != 2 then 1 else 0
  }

  function WasSkipped(): Job -> nat {
    (j: Job) => if !j.isBreak && j.isSkip then 1 else 0
  }

  /** Return codes 0, 1 and 2 mean passed, failed and a valgrind error, any other a crash. */
  lemma CountsByFields(js: seq<Job>)
    ensures Sum(js, Got(Passed)) == Sum(js, Returned(0)) && Sum(js, Got(Failed)) == Sum(js, Returned(1))
    ensures Sum(js, Got(ValgrindError)) == Sum(js, Returned(2)) && Sum(js, Got(Crashed)) == Sum(js, ReturnedOther())
    ensures Sum(js, Got(Skipped)) == Sum(js, WasSkipped())
  {
    SumSame(js, Got(Passed), Returned(0));
    SumSame(js, Got(Failed), Returned(1));
    SumSame(js, Got(ValgrindError), Returned(2));
    SumSame(js, Got(Crashed), ReturnedOther());
    SumSame(js, Got(Skipped), WasSkipped());
  }

  /** How often a job is listed: once for a code that is not 0, and once for a suite that nothing clears. */
  lemma EntriesByFields(j: Job)
    ensures FailureEntries(j)
         == if j.isBreak || j.isSkip then 0
            else (if j.returncode != 0 then 1 else 0)
                 + if j.isExample || (j.returncode in {0, 1, 2} && j.isCleared) then 0 else 1
  {
  }
}
