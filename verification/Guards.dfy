/** Guards that switch checking off and on, as they follow one another in a file. */
module Guards {

  datatype Guard = On | Off | NoGuard

  /** Whether checking is enabled after a line, if it was `before`. */
  function Switch(g: Guard, before: bool): bool {
    match g
    case On => true
    case Off => false
    case NoGuard => before
  }

  /** Whether checking is enabled after the first `n` lines. */
  function EnabledBy(gs: seq<Guard>, n: nat): bool
    requires n <= |gs|
  {
    n == 0 || Switch(gs[n - 1], EnabledBy(gs, n - 1))
  }

  /** Among the first `n` lines one switches checking off and none after it switches it on again. */
  ghost predicate OffBy(gs: seq<Guard>, n: nat)
    requires n <= |gs|
  {
    exists i :: 0 <= i < n && gs[i] == Off && NoneOn(gs, i + 1, n)
  }

  predicate NoneOn(gs: seq<Guard>, m: nat, n: nat)
    requires n <= |gs|
  {
    forall j :: m <= j < n ==> gs[j] != On
  }

  /** That is when checking is not enabled. */
  lemma {:induction false} EnabledUnlessOff(gs: seq<Guard>, n: nat)
    requires n <= |gs|
    ensures EnabledBy(gs, n) <==> !OffBy(gs, n)
  {
    if n > 0 {
      EnabledUnlessOff(gs, n - 1);
      if gs[n - 1] == Off {
        assert NoneOn(gs, n, n);
      } else if gs[n - 1] == NoGuard && OffBy(gs, n - 1) {
        var i :| 0 <= i < n - 1 && gs[i] == Off && NoneOn(gs, i + 1, n - 1);
        assert NoneOn(gs, i + 1, n);
      }
      if OffBy(gs, n) && gs[n - 1] != Off {
        var i :| 0 <= i < n && gs[i] == Off && NoneOn(gs, i + 1, n);
        assert NoneOn(gs, i + 1, n - 1);
      }
    }
  }

  predicate LookedAt(gs: seq<Guard>, i: nat)
    requires i < |gs|
  {
    EnabledBy(gs, i + 1) || gs[i] != NoGuard
  }

  /** In `hs` only enabled lines that are no guards in `gs` may have become guards. */
  predicate MayBecomeGuards(gs: seq<Guard>, hs: seq<Guard>) {
    |hs| == |gs| && forall i :: 0 <= i < |gs| ==> hs[i] == gs[i] || (gs[i] == NoGuard && EnabledBy(gs, i))
  }

  /** Then what is enabled after it was enabled before. */
  lemma {:induction false} EnabledShrinksBy(gs: seq<Guard>, hs: seq<Guard>, n: nat)
    requires MayBecomeGuards(gs, hs) && n <= |gs| && EnabledBy(hs, n)
    ensures EnabledBy(gs, n)
  {
    if n > 0 && EnabledBy(hs, n - 1) {
      EnabledShrinksBy(gs, hs, n - 1);
    }
  }

  lemma LookedAtShrinksBy(gs: seq<Guard>, hs: seq<Guard>, i: nat)
    requires MayBecomeGuards(gs, hs) && i < |gs| && LookedAt(hs, i)
    ensures LookedAt(gs, i)
  {
    if hs[i] == gs[i] && EnabledBy(hs, i + 1) {
      EnabledShrinksBy(gs, hs, i + 1);
    }
  }

  /** And it is the same exactly if no enabled line has become one that switches checking off. */
  lemma {:induction false} SameEnabledBy(gs: seq<Guard>, hs: seq<Guard>, n: nat)
    requires MayBecomeGuards(gs, hs) && n <= |gs|
    requires forall i :: 0 <= i < n ==> !(EnabledBy(gs, i + 1) && hs[i] == Off)
    ensures EnabledBy(hs, n) == EnabledBy(gs, n)
  {
    if n > 0 {
      SameEnabledBy(gs, hs, n - 1);
      assert !(EnabledBy(gs, n - 1 + 1) && hs[n - 1] == Off);
    }
  }
}
