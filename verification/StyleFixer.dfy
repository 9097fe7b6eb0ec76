/** Checking and fixing a file line by line, with guards that switch the checks off and on. */
module StyleFixer {
  import opened StyleText
  import opened Guards

  const GUARD_ON := "// clang-format on"
  const GUARD_OFF := "// clang-format off"

  /** Where a line is at fault, counted from 1, and what is shown of it. */
  datatype Diagnostic = Diagnostic(line: nat, column: nat, shown: string)

  datatype LineCheck = LineCheck(isCompliant: bool, lineFixed: string, infos: seq<Diagnostic>)

  type Checker = (string, nat) -> LineCheck

  /******* The line checks *******/

  function CheckWhitespaceLine(line: string, number: nat): LineCheck {
    var lineFixed := RStrip(line) + "\n";
    if lineFixed == line then LineCheck(true, lineFixed, [])
    else
      var shown := ExpandTabs(RStrip(lineFixed));
      LineCheck(false, lineFixed, [Diagnostic(number + 1, |shown| + 1, shown)])
  }

  /** The first position of `c`, or the length of the string. */
  function Find(s: string, c: char): (i: nat)
    ensures i <= |s| && c !in s[..i] && (i < |s| ==> s[i] == c)
  {
    if s == "" || s[0] == c then 0 else 1 + Find(s[1..], c)
  }

  function CheckTabsLine(line: string, number: nat): LineCheck {
    var tabIndex := Find(line, '\t');
    if tabIndex == |line| then LineCheck(true, line, [])
    else LineCheck(false, ExpandTabs(line), [Diagnostic(number + 1, tabIndex + 1, RStrip(line))])
  }

  /** A check calls a line compliant exactly if it would not change it. */
  ghost predicate Honest(check: Checker) {
    forall line, number :: check(line, number).isCompliant <==> check(line, number).lineFixed == line
  }

  /** Fixing keeps a line a line. */
  ghost predicate KeepsLines(check: Checker) {
    forall line, number :: IsEnded(line) || IsOpen(line) ==>
      IsEnded(check(line, number).lineFixed) || (IsOpen(line) && IsOpen(check(line, number).lineFixed))
  }

  /******* The guards *******/

  predicate IsGuard(line: string) {
    Strip(line) == GUARD_ON || Strip(line) == GUARD_OFF
  }

  function GuardOf(line: string): Guard {
    if Strip(line) == GUARD_ON then On else if Strip(line) == GUARD_OFF then Off else NoGuard
  }

  function GuardsOf(lines: seq<string>): (gs: seq<Guard>)
    ensures |gs| == |lines| && forall i :: 0 <= i < |lines| ==> gs[i] == GuardOf(lines[i])
  {
    seq(|lines|, i requires 0 <= i < |lines| => GuardOf(lines[i]))
  }

  /** Whether checking is enabled after the first `n` lines. */
  function EnabledAfter(lines: seq<string>, n: nat): bool
    requires n <= |lines|
  {
    EnabledBy(GuardsOf(lines), n)
  }

  /** Guard lines are always looked at; others when checking is enabled, or guards do not matter. */
  predicate Inspected(lines: seq<string>, respectGuards: bool, i: nat)
    requires i < |lines|
  {
    !respectGuards || EnabledAfter(lines, i + 1) || IsGuard(lines[i])
  }

  /******* What the check of a file amounts to *******/

  predicate Offends(lines: seq<string>, respectGuards: bool, check: Checker, i: nat)
    requires i < |lines|
  {
    Inspected(lines, respectGuards, i) && !check(lines[i], i).isCompliant
  }

  predicate Compliant(lines: seq<string>, respectGuards: bool, check: Checker) {
    forall i :: 0 <= i < |lines| ==> !Offends(lines, respectGuards, check, i)
  }

  function FixedLines(lines: seq<string>, respectGuards: bool, check: Checker): (r: seq<string>)
    ensures |r| == |lines|
    ensures forall i :: 0 <= i < |lines| ==>
      r[i] == if Offends(lines, respectGuards, check, i) then check(lines[i], i).lineFixed else lines[i]
  {
    seq(|lines|, i requires 0 <= i < |lines| =>
      if Offends(lines, respectGuards, check, i) then check(lines[i], i).lineFixed else lines[i])
  }

  /** The diagnostics of all offending lines among the first `n`. */
  function Diagnostics(lines: seq<string>, respectGuards: bool, check: Checker, n: nat): seq<Diagnostic>
    requires n <= |lines|
  {
    if n == 0 then []
    else
      Diagnostics(lines, respectGuards, check, n - 1)
      + if Offends(lines, respectGuards, check, n - 1) then check(lines[n - 1], n - 1).infos else []
  }

  /** Up to line `n` nothing offends, and line `n` does if there is one. */
  predicate FirstOffender(lines: seq<string>, respectGuards: bool, check: Checker, n: nat) {
    && n <= |lines|
    && (forall i :: 0 <= i < n ==> !Offends(lines, respectGuards, check, i))
    && (n < |lines| ==> Offends(lines, respectGuards, check, n))
  }

  /** The diagnostics of the first offending line, if there is one. */
  ghost predicate IsFirstReport(lines: seq<string>, respectGuards: bool, check: Checker, infos: seq<Diagnostic>) {
    exists n: nat :: FirstOffender(lines, respectGuards, check, n)
      && (if n < |lines| then infos == check(lines[n], n).infos else infos == [])
  }

  function FixContents(contents: string, respectGuards: bool, check: Checker): string {
    var lines := ReadLines(contents);
    if Compliant(lines, respectGuards, check) then contents else WriteLines(FixedLines(lines, respectGuards, check))
  }

  /******* How far the check of a file has come *******/

  /** The first `i` lines have been looked at, `ok` so far, and fixed in `fileLines`; the rest is as it was. */
  ghost predicate Progress(lines: seq<string>, respectGuards: bool, check: Checker,
                           i: nat, fileLines: seq<string>, ok: bool, infos: seq<Diagnostic>) {
    && i <= |lines| == |fileLines|
    && (ok <==> forall j :: 0 <= j < i ==> !Offends(lines, respectGuards, check, j))
    && infos == Diagnostics(lines, respectGuards, check, i) && (ok ==> infos == [])
    && (forall j :: 0 <= j < i ==> fileLines[j] == FixedLines(lines, respectGuards, check)[j])
    && (forall j :: i <= j < |lines| ==> fileLines[j] == lines[j])
  }

  lemma LinePasses(lines: seq<string>, respectGuards: bool, check: Checker,
                   i: nat, fileLines: seq<string>, ok: bool, infos: seq<Diagnostic>)
    requires Progress(lines, respectGuards, check, i, fileLines, ok, infos)
    requires i < |lines| && !Offends(lines, respectGuards, check, i)
    ensures Progress(lines, respectGuards, check, i + 1, fileLines, ok, infos)
  {
  }

  lemma LineIsFixed(lines: seq<string>, respectGuards: bool, check: Checker,
                    i: nat, fileLines: seq<string>, ok: bool, infos: seq<Diagnostic>)
    requires Progress(lines, respectGuards, check, i, fileLines, ok, infos)
    requires i < |lines| && Offends(lines, respectGuards, check, i)
    ensures Progress(lines, respectGuards, check, i + 1, fileLines[i := check(lines[i], i).lineFixed], false,
                     infos + check(lines[i], i).infos)
  {
  }

  /** The quick mode stops here. */
  lemma FirstIsFound(lines: seq<string>, respectGuards: bool, check: Checker,
                     i: nat, fileLines: seq<string>, infos: seq<Diagnostic>)
    requires Progress(lines, respectGuards, check, i, fileLines, true, infos)
    requires i < |lines| && Offends(lines, respectGuards, check, i)
    ensures !Compliant(lines, respectGuards, check)
    ensures IsFirstReport(lines, respectGuards, check, infos + check(lines[i], i).infos)
  {
    assert FirstOffender(lines, respectGuards, check, i);
    assert infos + check(lines[i], i).infos == check(lines[i], i).infos;
  }

  lemma AllLookedAt(lines: seq<string>, respectGuards: bool, check: Checker,
                    fileLines: seq<string>, ok: bool, infos: seq<Diagnostic>)
    requires Progress(lines, respectGuards, check, |lines|, fileLines, ok, infos)
    ensures ok <==> Compliant(lines, respectGuards, check)
    ensures fileLines == FixedLines(lines, respectGuards, check)
    ensures ok ==> IsFirstReport(lines, respectGuards, check, infos)
  {
    assert ok ==> FirstOffender(lines, respectGuards, check, |lines|);
  }

  /******* The guards, by the text *******/

  predicate IsOff(line: string) {
    Strip(line) == "// clang-format off"
  }

  predicate IsOn(line: string) {
    Strip(line) == "// clang-format on"
  }

  /** Among the first `n` lines one switches checking off and none after it switches it on again. */
  ghost predicate SwitchedOff(lines: seq<string>, n: nat)
    requires n <= |lines|
  {
    exists i :: 0 <= i < n && IsOff(lines[i]) && NoneOnFrom(lines, i + 1, n)
  }

  predicate NoneOnFrom(lines: seq<string>, m: nat, n: nat)
    requires n <= |lines|
  {
    forall j :: m <= j < n ==> !IsOn(lines[j])
  }

  lemma GuardByText(line: string)
    ensures (GuardOf(line) == On <==> IsOn(line)) && (GuardOf(line) == Off <==> IsOff(line))
  {
    assert "// clang-format off"[17] != "// clang-format on"[17];
  }

  lemma NoneOnByText(lines: seq<string>, m: nat, n: nat)
    requires n <= |lines|
    ensures NoneOn(GuardsOf(lines), m, n) <==> NoneOnFrom(lines, m, n)
  {
    var gs := GuardsOf(lines);
    forall j | m <= j < n ensures gs[j] != On <==> !IsOn(lines[j]) {
      GuardByText(lines[j]);
    }
  }

  /** Checking is enabled unless it has been switched off. */
  lemma EnabledExactly(lines: seq<string>, n: nat)
    requires n <= |lines|
    ensures EnabledAfter(lines, n) <==> !SwitchedOff(lines, n)
  {
    var gs := GuardsOf(lines);
    EnabledUnlessOff(gs, n);
    if i :| 0 <= i < n && gs[i] == Off && NoneOn(gs, i + 1, n) {
      GuardByText(lines[i]);
      NoneOnByText(lines, i + 1, n);
    }
    if i :| 0 <= i < n && IsOff(lines[i]) && NoneOnFrom(lines, i + 1, n) {
      GuardByText(lines[i]);
      NoneOnByText(lines, i + 1, n);
    }
  }

  /** A line is looked at unless guards count, it is none, and checking is switched off there. */
  ghost predicate IsChecked(lines: seq<string>, respectGuards: bool, i: nat)
    requires i < |lines|
  {
    !respectGuards || IsOn(lines[i]) || IsOff(lines[i]) || !SwitchedOff(lines, i)
  }

  lemma InspectedExactly(lines: seq<string>, respectGuards: bool, i: nat)
    requires i < |lines|
    ensures Inspected(lines, respectGuards, i) <==> IsChecked(lines, respectGuards, i)
  {
    EnabledExactly(lines, i);
    GuardByText(lines[i]);
  }

  ghost predicate CheckedLinesComply(lines: seq<string>, respectGuards: bool, check: Checker) {
    forall i :: 0 <= i < |lines| && IsChecked(lines, respectGuards, i) ==> check(lines[i], i).isCompliant
  }

  /** The verdict on a file. */
  lemma VerdictByGuards(lines: seq<string>, respectGuards: bool, check: Checker)
    ensures Compliant(lines, respectGuards, check) <==> CheckedLinesComply(lines, respectGuards, check)
  {
    forall i | 0 <= i < |lines|
      ensures Offends(lines, respectGuards, check, i)
         <==> IsChecked(lines, respectGuards, i) && !check(lines[i], i).isCompliant
    {
      InspectedExactly(lines, respectGuards, i);
    }
  }

  /** What is reported is reported of the lines that are looked at and do not comply, and all of it. */
  lemma {:induction false} DiagnosticsAre(lines: seq<string>, respectGuards: bool, check: Checker, n: nat, d: Diagnostic)
    requires n <= |lines|
    ensures d in Diagnostics(lines, respectGuards, check, n)
       <==> exists i :: 0 <= i < n && IsChecked(lines, respectGuards, i) && !check(lines[i], i).isCompliant
                        && d in check(lines[i], i).infos
  {
    if n > 0 {
      DiagnosticsAre(lines, respectGuards, check, n - 1, d);
      InspectedExactly(lines, respectGuards, n - 1);
    }
  }

  /** What fixing makes of a line. */
  lemma FixedByGuards(lines: seq<string>, respectGuards: bool, check: Checker, i: nat)
    requires i < |lines|
    ensures FixedLines(lines, respectGuards, check)[i]
         == if IsChecked(lines, respectGuards, i) && !check(lines[i], i).isCompliant
            then check(lines[i], i).lineFixed else lines[i]
  {
    InspectedExactly(lines, respectGuards, i);
  }

  /** A guard line switches checking; without it enabled any other line is to be skipped. */
  method MeetGuard(line: string, enabled: bool) returns (now: bool, skip: bool)
    ensures now == Switch(GuardOf(line), enabled)
    ensures skip <==> !now && !IsGuard(line)
  {
    var lineStripped := Strip(line);
    now := enabled;
    if lineStripped == GUARD_ON {
      now := true;
    } else if lineStripped == GUARD_OFF {
      now := false;
    }
    skip := !now && lineStripped != GUARD_ON && lineStripped != GUARD_OFF;
  }

  /** The loop over the lines; the quick mode stops at the first offending one. */
  method InspectLines(lines: seq<string>, fix: bool, verbose: bool, respectGuards: bool, check: Checker)
    returns (isFileCompliant: bool, fileLines: seq<string>, infos: seq<Diagnostic>)
    ensures isFileCompliant <==> Compliant(lines, respectGuards, check)
    ensures fix ==> fileLines == FixedLines(lines, respectGuards, check)
    ensures if fix || verbose then infos == Diagnostics(lines, respectGuards, check, |lines|)
            else IsFirstReport(lines, respectGuards, check, infos)
  {
    fileLines := lines;
    var clangFormatEnabled := true;
    isFileCompliant, infos := true, [];
    var i := 0;
    while i < |fileLines|
      invariant i <= |lines| == |fileLines|
      invariant Progress(lines, respectGuards, check, i, fileLines, isFileCompliant, infos)
      invariant clangFormatEnabled == (!respectGuards || EnabledAfter(lines, i))
      invariant isFileCompliant || fix || verbose
    {
      var line, number := fileLines[i], i;
      i := i + 1;
      if respectGuards {
        var skip;
        clangFormatEnabled, skip := MeetGuard(line, clangFormatEnabled);
        if skip {
          LinePasses(lines, respectGuards, check, number, fileLines, isFileCompliant, infos);
          continue;
        }
      }
      var result := check(line, number);
      if result.isCompliant {
        LinePasses(lines, respectGuards, check, number, fileLines, isFileCompliant, infos);
      } else {
        LineIsFixed(lines, respectGuards, check, number, fileLines, isFileCompliant, infos);
        if !fix && !verbose {
          FirstIsFound(lines, respectGuards, check, number, fileLines, infos);
        }
        isFileCompliant := false;
        fileLines := fileLines[number := result.lineFixed];
        infos := infos + result.infos;
        if !fix && !verbose {
          return;
        }
      }
    }
    AllLookedAt(lines, respectGuards, check, fileLines, isFileCompliant, infos);
  }

  /** A file is only written if there is something to fix in it. */
  lemma CompliantIsUntouched(contents: string, respectGuards: bool, check: Checker)
    requires CheckedLinesComply(ReadLines(contents), respectGuards, check)
    ensures FixContents(contents, respectGuards, check) == contents
  {
    VerdictByGuards(ReadLines(contents), respectGuards, check);
  }

  class SourceFile {
    const filename: string
    var contents: string

    constructor (filename: string, contents: string)
      ensures this.filename == filename && this.contents == contents
    {
      this.filename, this.contents := filename, contents;
    }

    /**
     The verdict is about the file as it was, and is the same whether or not it is fixed or reported
     in full, although the quick mode stops at the first offending line.
     */
    method CheckManually(fix: bool, verbose: bool, respectGuards: bool, check: Checker)
      returns (isFileCompliant: bool, infos: seq<Diagnostic>)
      modifies this
      ensures isFileCompliant <==> Compliant(ReadLines(old(contents)), respectGuards, check)
      ensures isFileCompliant <==> CheckedLinesComply(ReadLines(old(contents)), respectGuards, check)
      ensures contents == if fix then FixContents(old(contents), respectGuards, check) else old(contents)
      ensures isFileCompliant ==> contents == old(contents)
      ensures var lines := ReadLines(old(contents));
        if fix || verbose then infos == Diagnostics(lines, respectGuards, check, |lines|)
        else IsFirstReport(lines, respectGuards, check, infos)
    {
      var lines := ReadLines(contents);
      VerdictByGuards(lines, respectGuards, check);
      var fileLines;
      isFileCompliant, fileLines, infos := InspectLines(lines, fix, verbose, respectGuards, check);
      if fix && !isFileCompliant {
        contents := WriteLines(fileLines);
      }
    }
  }
}
