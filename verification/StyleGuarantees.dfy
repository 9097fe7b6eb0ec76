/** What the fixer guarantees: verdicts that mean something, and fixing that is done after one run. */
module StyleGuarantees {
  import opened StyleText
  import opened StyleFixer
  import opened Guards

  /******* The verdict *******/

  lemma WhitespaceIsHonest()
    ensures Honest(CheckWhitespaceLine) && KeepsLines(CheckWhitespaceLine)
  {
    forall line, number | IsEnded(line) || IsOpen(line)
      ensures IsEnded(CheckWhitespaceLine(line, number).lineFixed)
    {
      RStripEndsLine(line);
    }
  }

  /** A stripped line with a newline put back is an ended line. */
  lemma RStripEndsLine(line: string)
    requires IsEnded(line) || IsOpen(line)
    ensures IsEnded(RStrip(line) + "\n")
  {
  }

  lemma TabsIsHonest()
    ensures Honest(CheckTabsLine) && KeepsLines(CheckTabsLine)
  {
    forall line, number
      ensures CheckTabsLine(line, number).isCompliant <==> CheckTabsLine(line, number).lineFixed == line
    {
      FindTab(line);
      ExpandChanges(line);
    }
    forall line, number | IsEnded(line) || IsOpen(line)
      ensures var fixed := CheckTabsLine(line, number).lineFixed;
        IsEnded(fixed) || (IsOpen(line) && IsOpen(fixed))
    {
      ExpandKeepsLine(line);
    }
  }

  /** A line is compliant exactly if it has no tab. */
  lemma FindTab(line: string)
    ensures Find(line, '\t') == |line| <==> '\t' !in line
  {
  }

  lemma {:induction false} ExpandAddsNoBreaks(s: string, column: nat)
    requires '\n' !in s && '\r' !in s
    ensures '\n' !in Expand(s, column) && '\r' !in Expand(s, column) && (s != "" ==> Expand(s, column) != "")
    decreases |s|
  {
    if s != "" {
      TailLacks(s, '\n');
      TailLacks(s, '\r');
      var next := NextColumn(s[0], column);
      ExpandAddsNoBreaks(s[1..], next);
      ImageLacks(s[0], column, '\n');
      ImageLacks(s[0], column, '\r');
      ConcatLacks(Image(s[0], column), Expand(s[1..], next), '\n');
      ConcatLacks(Image(s[0], column), Expand(s[1..], next), '\r');
    }
  }

  /** The newline at the end of a line stays there under expansion. */
  lemma ExpandEndedLine(body: string)
    ensures ExpandTabs(body + "\n") == ExpandTabs(body) + "\n"
  {
    ExpandConcat(body, "\n", 0);
    ExpandWithoutTabs("\n", EndColumn(body, 0));
  }

  lemma ExpandKeepsLine(line: string)
    ensures IsEnded(line) ==> IsEnded(ExpandTabs(line))
    ensures IsOpen(line) ==> IsOpen(ExpandTabs(line))
  {
    if IsEnded(line) {
      var body := line[..|line| - 1];
      assert line == body + "\n";
      assert '\r' !in body by { assert forall c :: c in body ==> c in line; }
      ExpandEndedLine(body);
      ExpandAddsNoBreaks(body, 0);
      assert (ExpandTabs(body) + "\n")[..|ExpandTabs(body)|] == ExpandTabs(body);
    }
    if IsOpen(line) {
      ExpandAddsNoBreaks(line, 0);
    }
  }

  /** With an honest check, a file is compliant exactly if fixing would leave every line as it is. */
  lemma VerdictMeansNoChange(lines: seq<string>, respectGuards: bool, check: Checker)
    requires Honest(check)
    ensures Compliant(lines, respectGuards, check) <==> FixedLines(lines, respectGuards, check) == lines
  {
  }

  /** Reading back a fixed file yields the fixed lines. */
  lemma FixedFileReadsBack(contents: string, respectGuards: bool, check: Checker)
    requires Honest(check) && KeepsLines(check)
    ensures ReadLines(FixContents(contents, respectGuards, check))
         == FixedLines(ReadLines(contents), respectGuards, check)
  {
    var lines := ReadLines(contents);
    var fixed := FixedLines(lines, respectGuards, check);
    VerdictMeansNoChange(lines, respectGuards, check);
    ReadLinesYieldsLines(contents);
    forall i | 0 <= i < |fixed| ensures IsEnded(fixed[i]) || (i == |fixed| - 1 && IsOpen(fixed[i])) {
      assert IsEnded(lines[i]) || (i == |lines| - 1 && IsOpen(lines[i]));
    }
    ReadUndoesWrite(fixed);
  }

  /******* Trailing whitespace *******/

  /** An ended line with nothing but its newline after the last visible character. */
  predicate NoTrailingSpace(line: string) {
    line == RStrip(line) + "\n"
  }

  lemma RStripTwice(line: string)
    ensures NoTrailingSpace(RStrip(line) + "\n")
  {
  }

  lemma WhitespaceFixIsClean(lines: seq<string>)
    ensures forall i :: 0 <= i < |lines| ==> NoTrailingSpace(FixedLines(lines, false, CheckWhitespaceLine)[i])
    ensures Compliant(FixedLines(lines, false, CheckWhitespaceLine), false, CheckWhitespaceLine)
  {
    forall i | 0 <= i < |lines| ensures NoTrailingSpace(FixedLines(lines, false, CheckWhitespaceLine)[i]) {
      RStripTwice(lines[i]);
    }
  }

  /** Fixing whitespace a second time finds the file compliant and leaves it alone. */
  lemma WhitespaceFixIsIdempotent(contents: string)
    ensures var once := FixContents(contents, false, CheckWhitespaceLine);
      && Compliant(ReadLines(once), false, CheckWhitespaceLine)
      && FixContents(once, false, CheckWhitespaceLine) == once
  {
    WhitespaceIsHonest();
    FixedFileReadsBack(contents, false, CheckWhitespaceLine);
    WhitespaceFixIsClean(ReadLines(contents));
  }

  /******* Tabs and guards *******/

  /** The lines after the tabs pass. */
  function Untabbed(lines: seq<string>): (r: seq<string>)
    ensures |r| == |lines|
  {
    FixedLines(lines, true, CheckTabsLine)
  }

  /** An inspected line is expanded; any other stays as it is. */
  lemma UntabbedLine(lines: seq<string>, i: nat)
    requires i < |lines|
    ensures Untabbed(lines)[i] == if Inspected(lines, true, i) then ExpandTabs(lines[i]) else lines[i]
  {
    FindTab(lines[i]);
    ExpandChanges(lines[i]);
  }

  lemma GuardHasNoTabs(line: string)
    requires IsGuard(line)
    ensures Strip(ExpandTabs(line)) == Strip(line)
  {
    ExpandKeepsStripped(line);
  }

  /** Expansion leaves guards and lines that are not enabled as they are. */
  lemma UntabbedGuards(lines: seq<string>)
    ensures MayBecomeGuards(GuardsOf(lines), GuardsOf(Untabbed(lines)))
  {
    var gs, hs := GuardsOf(lines), GuardsOf(Untabbed(lines));
    forall i | 0 <= i < |lines| ensures hs[i] == gs[i] || (gs[i] == NoGuard && EnabledBy(gs, i)) {
      UntabbedGuard(lines, i);
    }
  }

  lemma UntabbedGuard(lines: seq<string>, i: nat)
    requires i < |lines|
    ensures GuardOf(Untabbed(lines)[i]) == GuardOf(lines[i]) || (GuardOf(lines[i]) == NoGuard && EnabledAfter(lines, i))
  {
    UntabbedLine(lines, i);
    if IsGuard(lines[i]) {
      GuardHasNoTabs(lines[i]);
    }
  }

  /**
   The lines that are enabled after expansion were enabled before it.  The converse fails: a tab
   inside a comment may be all that kept it from being a guard.
   */
  lemma EnabledShrinks(lines: seq<string>, n: nat)
    requires n <= |lines| && EnabledAfter(Untabbed(lines), n)
    ensures EnabledAfter(lines, n)
  {
    UntabbedGuards(lines);
    EnabledShrinksBy(GuardsOf(lines), GuardsOf(Untabbed(lines)), n);
  }

  lemma InspectedByGuards(lines: seq<string>, i: nat)
    requires i < |lines|
    ensures Inspected(lines, true, i) <==> LookedAt(GuardsOf(lines), i)
  {
    assert GuardOf(lines[i]) != NoGuard <==> IsGuard(lines[i]);
  }

  lemma InspectedShrinks(lines: seq<string>, i: nat)
    requires i < |lines| && Inspected(Untabbed(lines), true, i)
    ensures Inspected(lines, true, i)
  {
    UntabbedGuards(lines);
    InspectedByGuards(Untabbed(lines), i);
    LookedAtShrinksBy(GuardsOf(lines), GuardsOf(Untabbed(lines)), i);
    InspectedByGuards(lines, i);
  }

  lemma UntabbedIsCompliant(lines: seq<string>)
    ensures Compliant(Untabbed(lines), true, CheckTabsLine)
  {
    var fixed := Untabbed(lines);
    forall i | 0 <= i < |fixed| ensures !Offends(fixed, true, CheckTabsLine, i) {
      if Inspected(fixed, true, i) {
        InspectedShrinks(lines, i);
        UntabbedLine(lines, i);
        ExpandHasNoTabs(lines[i], 0);
        FindTab(fixed[i]);
      }
    }
  }

  /** Fixing tabs a second time finds the file compliant and leaves it alone. */
  lemma TabsFixIsIdempotent(contents: string)
    ensures var once := FixContents(contents, true, CheckTabsLine);
      && Compliant(ReadLines(once), true, CheckTabsLine)
      && FixContents(once, true, CheckTabsLine) == once
  {
    TabsIsHonest();
    FixedFileReadsBack(contents, true, CheckTabsLine);
    UntabbedIsCompliant(ReadLines(contents));
  }

  /** What the tabs pass leaves: guarded lines as they were, others without tabs and looking the same. */
  lemma TabsFixKeepsAppearance(lines: seq<string>, i: nat)
    requires i < |lines|
    ensures !Inspected(lines, true, i) ==> Untabbed(lines)[i] == lines[i]
    ensures Inspected(lines, true, i) ==> '\t' !in Untabbed(lines)[i]
    ensures Layout(Untabbed(lines)[i], 0) == Layout(lines[i], 0)
  {
    UntabbedLine(lines, i);
    ExpandHasNoTabs(lines[i], 0);
    ExpandKeepsLayout(lines[i], 0);
  }

  /** Expansion can switch checking off: a line after a comment with a tab may be inspected before it and not after. */
  lemma ExpansionCanMakeAGuard(next: string)
    requires !IsGuard(next) && '\t' !in next
    ensures var lines := [COMMENT_WITH_TAB, next];
      Inspected(lines, true, 1) && !Inspected(Untabbed(lines), true, 1)
  {
    var lines := [COMMENT_WITH_TAB, next];
    CommentBecomesGuard();
    assert EnabledAfter(lines, 0);
    assert EnabledAfter(lines, 1);
    UntabbedLine(lines, 0);
    UntabbedLine(lines, 1);
    ExpandWithoutTabs(next, 0);
    assert !EnabledAfter(Untabbed(lines), 1);
  }

  /** The line has checking enabled, and expansion makes it the guard that disables it. */
  predicate TurnsOff(lines: seq<string>, i: nat)
    requires i < |lines|
  {
    EnabledAfter(lines, i + 1) && Strip(ExpandTabs(lines[i])) == GUARD_OFF
  }

  ghost predicate NoneTurnsOff(lines: seq<string>) {
    forall i :: 0 <= i < |lines| ==> !TurnsOff(lines, i)
  }

  ghost predicate SameEnabled(lines: seq<string>, fixed: seq<string>)
    requires |fixed| == |lines|
  {
    forall n :: 0 <= n <= |lines| ==> EnabledAfter(fixed, n) == EnabledAfter(lines, n)
  }

  /** An enabled line turns checking off exactly if it is the guard for it after expansion. */
  lemma TurnsOffByGuards(lines: seq<string>, i: nat)
    requires i < |lines|
    ensures TurnsOff(lines, i) <==> EnabledAfter(lines, i + 1) && GuardOf(Untabbed(lines)[i]) == Off
  {
    UntabbedLine(lines, i);
    GuardByText(Untabbed(lines)[i]);
  }

  /** Checking stays enabled for the same lines exactly if expansion makes no enabled line a guard that disables. */
  lemma SameLinesEnabled(lines: seq<string>)
    ensures SameEnabled(lines, Untabbed(lines)) <==> NoneTurnsOff(lines)
  {
    var gs, hs := GuardsOf(lines), GuardsOf(Untabbed(lines));
    UntabbedGuards(lines);
    forall i | 0 <= i < |lines| ensures TurnsOff(lines, i) <==> EnabledBy(gs, i + 1) && hs[i] == Off {
      TurnsOffByGuards(lines, i);
    }
    if NoneTurnsOff(lines) {
      forall n | 0 <= n <= |lines| ensures EnabledAfter(Untabbed(lines), n) == EnabledAfter(lines, n) {
        SameEnabledBy(gs, hs, n);
      }
    } else {
      var i :| 0 <= i < |lines| && TurnsOff(lines, i);
      assert EnabledAfter(Untabbed(lines), i + 1) != EnabledAfter(lines, i + 1);
    }
  }

  const COMMENT := "// clang-format"
  const COMMENT_WITH_TAB := COMMENT + "\t" + "off" + "\n"

  lemma StripLine(core: string)
    requires Trimmed(core)
    ensures Strip(core + "\n") == core
  {
    StripOfPadded("", core, "\n");
    assert "" + core == core;
  }

  lemma GuardsHaveNoTabs()
    ensures '\t' !in GUARD_ON && '\t' !in GUARD_OFF
  {
  }

  /** With its tab the comment is not a guard yet. */
  lemma TabbedIsNoGuard(head: string, tail: string)
    requires Trimmed(head + "\t" + tail)
    ensures !IsGuard(head + "\t" + tail + "\n")
  {
    StripLine(head + "\t" + tail);
    GuardsHaveNoTabs();
    assert (head + "\t" + tail)[|head|] == '\t';
  }

  /** With a single blank in place of it, its text is what was around the tab. */
  lemma BlankInPlaceOfTab(head: string, tail: string)
    requires |head| % TAB_SIZE == TAB_SIZE - 1 && '\n' !in head && '\r' !in head && '\t' !in head
    requires '\t' !in tail && Trimmed(head + " " + tail)
    ensures Strip(ExpandTabs(head + "\t" + tail + "\n")) == head + " " + tail
  {
    OneBlank(head, tail);
    StripLine(head + " " + tail);
  }

  lemma CommentBecomesGuard()
    ensures !IsGuard(COMMENT_WITH_TAB) && Strip(ExpandTabs(COMMENT_WITH_TAB)) == GUARD_OFF
  {
    TabbedIsNoGuard(COMMENT, "off");
    BlankInPlaceOfTab(COMMENT, "off");
    assert COMMENT + " " + "off" == GUARD_OFF;
  }

  /** A tab one column before a multiple of the tab size becomes a single blank. */
  lemma OneBlank(head: string, tail: string)
    requires |head| % TAB_SIZE == TAB_SIZE - 1 && '\n' !in head && '\r' !in head && '\t' !in head
    requires '\t' !in tail
    ensures ExpandTabs(head + "\t" + tail + "\n") == head + " " + tail + "\n"
  {
    var end := tail + "\n";
    assert head + "\t" + tail + "\n" == head + ("\t" + end);
    ExpandConcat(head, "\t" + end, 0);
    ExpandWithoutTabs(head, 0);
    PlainEndColumn(head, 0);
    assert ("\t" + end)[1..] == end;
    ExpandWithoutTabs(end, |head| + 1);
    assert Spaces(1) == " ";
  }

  /******* Both passes *******/

  /** A line without trailing whitespace has none after expansion either. */
  lemma ExpandKeepsClean(line: string)
    requires NoTrailingSpace(line)
    ensures NoTrailingSpace(ExpandTabs(line))
  {
    var body := RStrip(line);
    RStripSplits(line);
    ExpandEndedLine(body);
    ExpandKeepsLast(body, 0);
    assert IsSpace('\n');
    RStripDrops(ExpandTabs(body), "\n");
  }

  lemma {:induction false} ExpandKeepsLast(s: string, column: nat)
    requires s != "" ==> !IsSpace(s[|s| - 1])
    ensures s == "" ==> Expand(s, column) == ""
    ensures s != "" ==> Expand(s, column) != "" && Expand(s, column)[|Expand(s, column)| - 1] == s[|s| - 1]
    decreases |s|
  {
    if s != "" {
      var init, last := s[..|s| - 1], s[|s| - 1];
      assert s == init + [last];
      assert IsSpace('\t') && last != '\t';
      ExpandConcat(init, [last], column);
      ExpandWithoutTabs([last], EndColumn(init, column));
    }
  }

  function FixBoth(contents: string): string {
    FixContents(FixContents(contents, false, CheckWhitespaceLine), true, CheckTabsLine)
  }

  /**
   After the whitespace pass and then the tabs pass no line has trailing whitespace and no line that
   is inspected has a tab.
   */
  lemma BothFixed(contents: string)
    ensures var lines := ReadLines(FixBoth(contents));
      && (forall i :: 0 <= i < |lines| ==> NoTrailingSpace(lines[i]))
      && (forall i :: 0 <= i < |lines| && Inspected(lines, true, i) ==> '\t' !in lines[i])
      && |lines| == |ReadLines(contents)|
  {
    var middle := FixContents(contents, false, CheckWhitespaceLine);
    var clean := FixedLines(ReadLines(contents), false, CheckWhitespaceLine);
    WhitespaceIsHonest();
    FixedFileReadsBack(contents, false, CheckWhitespaceLine);
    WhitespaceFixIsClean(ReadLines(contents));
    TabsIsHonest();
    FixedFileReadsBack(middle, true, CheckTabsLine);
    var lines := Untabbed(clean);
    forall i | 0 <= i < |lines| ensures NoTrailingSpace(lines[i]) {
      UntabbedLine(clean, i);
      ExpandKeepsClean(clean[i]);
    }
    UntabbedIsCompliant(clean);
    forall i | 0 <= i < |lines| && Inspected(lines, true, i) ensures '\t' !in lines[i] {
      assert !Offends(lines, true, CheckTabsLine, i);
      FindTab(lines[i]);
    }
  }

  /** A fixed file passes both checks, and fixing it again changes nothing. */
  lemma FixedFilePasses(contents: string)
    ensures var fixed := FixBoth(contents);
      && Compliant(ReadLines(fixed), false, CheckWhitespaceLine)
      && Compliant(ReadLines(fixed), true, CheckTabsLine)
      && FixBoth(fixed) == fixed
  {
    BothFixed(contents);
    var lines := ReadLines(FixBoth(contents));
    forall i | 0 <= i < |lines| ensures !Offends(lines, true, CheckTabsLine, i) {
      FindTab(lines[i]);
    }
    forall i | 0 <= i < |lines| ensures !Offends(lines, false, CheckWhitespaceLine, i) {
    }
  }

  /******* What a fix keeps, and what is reported *******/

  /** The whitespace fix takes whitespace off the end of a line and puts a newline there; nothing else. */
  lemma WhitespaceFixKeepsText(line: string, number: nat) returns (text: string)
    ensures CheckWhitespaceLine(line, number).lineFixed == text + "\n"
    ensures text <= line && AllSpace(line[|text|..]) && (text == "" || !IsSpace(text[|text| - 1]))
  {
    text := RStrip(line);
    RStripSplits(line);
  }

  /** Both fixes keep every visible character of a line, up to its trailing whitespace, at its column. */
  lemma BothKeepText(contents: string, i: nat)
    requires i < |ReadLines(contents)|
    ensures |ReadLines(FixBoth(contents))| == |ReadLines(contents)|
    ensures Layout(RStrip(ReadLines(FixBoth(contents))[i]), 0) == Layout(RStrip(ReadLines(contents)[i]), 0)
  {
    var once := FixContents(contents, false, CheckWhitespaceLine);
    WhitespaceFixedLine(contents, i);
    TabsIsHonest();
    FixedFileReadsBack(once, true, CheckTabsLine);
    UntabbedLine(ReadLines(once), i);
    KeepsText(RStrip(ReadLines(contents)[i]));
  }

  lemma WhitespaceFixedLine(contents: string, i: nat)
    requires i < |ReadLines(contents)|
    ensures var lines := ReadLines(FixContents(contents, false, CheckWhitespaceLine));
      |lines| == |ReadLines(contents)| && lines[i] == RStrip(ReadLines(contents)[i]) + "\n"
    ensures var text := RStrip(ReadLines(contents)[i]); text == "" || !IsSpace(text[|text| - 1])
  {
    WhitespaceIsHonest();
    FixedFileReadsBack(contents, false, CheckWhitespaceLine);
    RStripSplits(ReadLines(contents)[i]);
  }

  lemma {:induction false} KeepsText(text: string)
    requires text == "" || !IsSpace(text[|text| - 1])
    ensures RStrip(text + "\n") == text
    ensures Layout(RStrip(ExpandTabs(text + "\n")), 0) == Layout(text, 0)
  {
    RStripDrops(text, "\n");
    RStripStops(text);
    ExpandEndedLine(text);
    ExpandKeepsLast(text, 0);
    RStripDrops(ExpandTabs(text), "\n");
    RStripStops(ExpandTabs(text));
    ExpandKeepsLayout(text, 0);
  }

  lemma RStripStops(s: string)
    requires s == "" || !IsSpace(s[|s| - 1])
    ensures RStrip(s) == s
  {
  }

  /** Such a line ends in a newline, and neither a blank nor a tab nor another line ending comes before that. */
  lemma NoTrailingSpaceMeans(line: string)
    requires NoTrailingSpace(line)
    ensures line != "" && line[|line| - 1] == '\n'
    ensures |line| > 1 ==> line[|line| - 2] !in " \t\r\n"
  {
    RStripSplits(line);
    assert IsSpace(' ') && IsSpace('\t') && IsSpace('\r') && IsSpace('\n');
  }

  /** A tab is reported on its line at the column of the first tab. */
  lemma TabIsReported(line: string, number: nat)
    requires '\t' in line
    ensures var infos := CheckTabsLine(line, number).infos;
      && |infos| == 1 && infos[0].line == number + 1 && 1 <= infos[0].column <= |line|
      && line[infos[0].column - 1] == '\t' && '\t' !in line[..infos[0].column - 1]
  {
    FindTab(line);
  }

  /** Trailing whitespace is reported on its line one column behind the text as it is seen. */
  lemma WhitespaceIsReported(line: string, number: nat)
    requires !NoTrailingSpace(line)
    ensures var infos := CheckWhitespaceLine(line, number).infos;
      && |infos| == 1 && infos[0].line == number + 1 && infos[0].column == |ExpandTabs(RStrip(line))| + 1
      && infos[0].shown == ExpandTabs(RStrip(line))
  {
    RStripSplits(line);
    RStripDrops(RStrip(line), "\n");
    RStripStops(RStrip(line));
  }
}
