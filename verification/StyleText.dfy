/** The string operations the style checker relies on: stripping, tab expansion, splitting into lines. */
module StyleText {

  const TAB_SIZE := 4

  /** The characters that `str.strip` takes for whitespace. */
  predicate IsSpace(c: char) {
    var u := c as int;
    || 0x09 <= u <= 0x0D || 0x1C <= u <= 0x20 || u == 0x85 || u == 0xA0 || u == 0x1680
    || 0x2000 <= u <= 0x200A || u == 0x2028 || u == 0x2029 || u == 0x202F || u == 0x205F || u == 0x3000
  }

  predicate AllSpace(s: string) {
    forall i :: 0 <= i < |s| ==> IsSpace(s[i])
  }

  function RStrip(s: string): string {
    if s != "" && IsSpace(s[|s| - 1]) then RStrip(s[..|s| - 1]) else s
  }

  function LStrip(s: string): string {
    if s != "" && IsSpace(s[0]) then LStrip(s[1..]) else s
  }

  function Strip(s: string): string {
    LStrip(RStrip(s))
  }

  /** Neither end is whitespace. */
  predicate Trimmed(s: string) {
    s != "" ==> !IsSpace(s[0]) && !IsSpace(s[|s| - 1])
  }

  lemma {:induction false} RStripSplits(s: string)
    ensures RStrip(s) <= s && AllSpace(s[|RStrip(s)|..])
    ensures RStrip(s) == "" || !IsSpace(RStrip(s)[|RStrip(s)| - 1])
  {
    if s != "" && IsSpace(s[|s| - 1]) {
      var init := s[..|s| - 1];
      RStripSplits(init);
      assert s[|RStrip(s)|..] == init[|RStrip(s)|..] + [s[|s| - 1]];
    }
  }

  lemma {:induction false} LStripSplits(s: string) returns (lead: string)
    ensures s == lead + LStrip(s) && AllSpace(lead)
    ensures LStrip(s) == "" || !IsSpace(LStrip(s)[0])
  {
    if s != "" && IsSpace(s[0]) {
      var rest := LStripSplits(s[1..]);
      lead := [s[0]] + rest;
      assert s == [s[0]] + s[1..];
    } else {
      lead := "";
    }
  }

  /** A string is its stripped core with whitespace on either side. */
  lemma StripSplits(s: string) returns (lead: string, trail: string)
    ensures s == lead + Strip(s) + trail && AllSpace(lead) && AllSpace(trail) && Trimmed(Strip(s))
  {
    RStripSplits(s);
    var r, core := RStrip(s), Strip(s);
    lead := LStripSplits(r);
    trail := s[|r|..];
    Pieces(s, r, lead, core, trail);
    CoreIsTrimmed(r, lead, core);
  }

  lemma Pieces(s: string, r: string, lead: string, core: string, trail: string)
    requires r <= s && trail == s[|r|..] && r == lead + core
    ensures s == lead + core + trail
  {
  }

  lemma CoreIsTrimmed(r: string, lead: string, core: string)
    requires r == lead + core && (r == "" || !IsSpace(r[|r| - 1])) && (core == "" || !IsSpace(core[0]))
    ensures Trimmed(core)
  {
  }

  lemma {:induction false} RStripDrops(s: string, trail: string)
    requires AllSpace(trail)
    ensures RStrip(s + trail) == RStrip(s)
    decreases |trail|
  {
    if trail == "" {
      assert s + trail == s;
    } else {
      assert (s + trail)[..|s + trail| - 1] == s + trail[..|trail| - 1];
      RStripDrops(s, trail[..|trail| - 1]);
    }
  }

  lemma {:induction false} LStripDrops(lead: string, s: string)
    requires AllSpace(lead)
    ensures LStrip(lead + s) == LStrip(s)
    decreases |lead|
  {
    if lead == "" {
      assert lead + s == s;
    } else {
      assert (lead + s)[1..] == lead[1..] + s;
      LStripDrops(lead[1..], s);
    }
  }

  lemma {:induction false} RStripAllSpace(s: string)
    requires AllSpace(s)
    ensures RStrip(s) == ""
  {
    if s != "" {
      RStripAllSpace(s[..|s| - 1]);
    }
  }

  /** Stripping takes off whitespace on either side of a trimmed core, and nothing else. */
  lemma StripOfPadded(lead: string, core: string, trail: string)
    requires AllSpace(lead) && AllSpace(trail) && Trimmed(core)
    ensures Strip(lead + core + trail) == core
  {
    RStripDrops(lead + core, trail);
    if core == "" {
      assert lead + core == lead;
      RStripAllSpace(lead);
    } else {
      assert RStrip(lead + core) == lead + core;
      LStripDrops(lead, core);
    }
  }

  /******* Tab expansion *******/

  function Spaces(n: nat): (s: string)
    ensures |s| == n && forall i :: 0 <= i < n ==> s[i] == ' '
  {
    if n == 0 then "" else Spaces(n - 1) + " "
  }

  /** The next multiple of the tab size. */
  function TabStop(column: nat): nat {
    (column / TAB_SIZE + 1) * TAB_SIZE
  }

  /** How many blanks stand for a tab at `column`. */
  function Padding(column: nat): (n: nat)
    ensures column + n == TabStop(column)
  {
    TAB_SIZE - column % TAB_SIZE
  }

  /** The column after a character; a tab moves on to the next multiple of the tab size. */
  function NextColumn(c: char, column: nat): nat {
    if c == '\t' then TabStop(column) else if c == '\n' || c == '\r' then 0 else column + 1
  }

  /** What stands for a character at `column`. */
  function Image(c: char, column: nat): string {
    if c == '\t' then Spaces(Padding(column)) else [c]
  }

  /** `str.expandtabs` from the given column on. */
  function Expand(s: string, column: nat): string {
    if s == "" then "" else Image(s[0], column) + Expand(s[1..], NextColumn(s[0], column))
  }

  function ExpandTabs(s: string): string {
    Expand(s, 0)
  }

  /** The column reached at the end of `s`. */
  function EndColumn(s: string, column: nat): nat {
    if s == "" then column else EndColumn(s[1..], NextColumn(s[0], column))
  }

  /** What is seen of a character at `column`. */
  function Visible(c: char, column: nat): seq<(nat, char)> {
    if c == ' ' || c == '\t' then [] else [(column, c)]
  }

  /** What is seen of `s`: each character other than blanks and tabs, with its column. */
  function Layout(s: string, column: nat): seq<(nat, char)> {
    if s == "" then [] else Visible(s[0], column) + Layout(s[1..], NextColumn(s[0], column))
  }

  lemma TailLacks(s: string, c: char)
    requires s != "" && c !in s
    ensures s[0] != c && c !in s[1..]
  {
  }

  lemma ConcatLacks(s: string, t: string, c: char)
    requires c !in s && c !in t
    ensures c !in s + t
  {
  }

  lemma ImageLacks(c: char, column: nat, d: char)
    requires d == '\t' || (d != ' ' && d != c)
    ensures d !in Image(c, column)
  {
  }

  lemma {:induction false} ExpandHasNoTabs(s: string, column: nat)
    ensures '\t' !in Expand(s, column)
    decreases |s|
  {
    if s != "" {
      var next := NextColumn(s[0], column);
      ExpandHasNoTabs(s[1..], next);
      ImageLacks(s[0], column, '\t');
      ConcatLacks(Image(s[0], column), Expand(s[1..], next), '\t');
    }
  }

  lemma {:induction false} ExpandWithoutTabs(s: string, column: nat)
    requires '\t' !in s
    ensures Expand(s, column) == s
    decreases |s|
  {
    if s != "" {
      TailLacks(s, '\t');
      ExpandWithoutTabs(s[1..], NextColumn(s[0], column));
      assert Expand(s, column) == [s[0]] + s[1..];
    }
  }

  /** A line changes under expansion exactly if it has a tab. */
  lemma ExpandChanges(s: string)
    ensures ExpandTabs(s) == s <==> '\t' !in s
  {
    if '\t' in s {
      ExpandHasNoTabs(s, 0);
    } else {
      ExpandWithoutTabs(s, 0);
    }
  }

  lemma Associate(a: string, b: string, c: string)
    ensures a + (b + c) == (a + b) + c
  {
  }

  lemma {:induction false} ExpandConcat(s: string, t: string, column: nat)
    ensures Expand(s + t, column) == Expand(s, column) + Expand(t, EndColumn(s, column))
    decreases |s|
  {
    if s == "" {
      assert s + t == t;
    } else {
      assert (s + t)[1..] == s[1..] + t;
      var next := NextColumn(s[0], column);
      ExpandConcat(s[1..], t, next);
      Associate(Image(s[0], column), Expand(s[1..], next), Expand(t, EndColumn(s, column)));
    }
  }

  lemma {:induction false} LayoutOfSpaces(n: nat, s: string, column: nat)
    ensures Layout(Spaces(n) + s, column) == Layout(s, column + n)
    decreases n
  {
    if n == 0 {
      assert Spaces(n) + s == s;
    } else {
      SpacesFirst(n);
      assert (Spaces(n) + s)[1..] == Spaces(n - 1) + s;
      LayoutOfSpaces(n - 1, s, column + 1);
    }
  }

  lemma SpacesFirst(n: nat)
    requires n > 0
    ensures Spaces(n)[1..] == Spaces(n - 1)
  {
  }

  /** What stands for a character looks like it. */
  lemma LayoutImage(c: char, s: string, column: nat)
    ensures Layout(Image(c, column) + s, column) == Visible(c, column) + Layout(s, NextColumn(c, column))
  {
    if c == '\t' {
      LayoutOfSpaces(Padding(column), s, column);
    } else {
      assert ([c] + s)[1..] == s;
    }
  }

  /** Every character other than blanks and tabs keeps its column. */
  lemma {:induction false} ExpandKeepsLayout(s: string, column: nat)
    ensures Layout(Expand(s, column), column) == Layout(s, column)
    decreases |s|
  {
    if s != "" {
      var next := NextColumn(s[0], column);
      ExpandKeepsLayout(s[1..], next);
      LayoutImage(s[0], Expand(s[1..], next), column);
    }
  }

  lemma {:induction false} ExpandKeepsSpace(s: string, column: nat)
    requires AllSpace(s)
    ensures AllSpace(Expand(s, column))
    decreases |s|
  {
    if s != "" {
      ExpandKeepsSpace(s[1..], NextColumn(s[0], column));
    }
  }

  /** Expansion does not change the stripped text of a line, unless that has a tab inside. */
  lemma ExpandKeepsStripped(s: string)
    requires '\t' !in Strip(s)
    ensures Strip(ExpandTabs(s)) == Strip(s)
  {
    var lead, trail := StripSplits(s);
    var core := Strip(s);
    var c1 := EndColumn(lead, 0);
    var c2 := EndColumn(core, c1);
    calc {
      Expand(s, 0);
      { assert s == lead + (core + trail); ExpandConcat(lead, core + trail, 0); }
      Expand(lead, 0) + Expand(core + trail, c1);
      { ExpandConcat(core, trail, c1); ExpandWithoutTabs(core, c1); }
      Expand(lead, 0) + (core + Expand(trail, c2));
      Expand(lead, 0) + core + Expand(trail, c2);
    }
    ExpandKeepsSpace(lead, 0);
    ExpandKeepsSpace(trail, c2);
    StripOfPadded(Expand(lead, 0), core, Expand(trail, c2));
  }

  /******* Lines *******/

  /** Text mode reading: every line ending becomes a newline character. */
  function Universal(s: string): string {
    if s == "" then ""
    else if s[0] == '\r' then
      "\n" + Universal(if |s| > 1 && s[1] == '\n' then s[2..] else s[1..])
    else [s[0]] + Universal(s[1..])
  }

  lemma {:induction false} UniversalHasNoReturns(s: string)
    ensures '\r' !in Universal(s)
    decreases |s|
  {
    if s != "" {
      if s[0] == '\r' {
        UniversalHasNoReturns(if |s| > 1 && s[1] == '\n' then s[2..] else s[1..]);
      } else {
        UniversalHasNoReturns(s[1..]);
      }
    }
  }

  lemma {:induction false} UniversalWithoutReturns(s: string)
    requires '\r' !in s
    ensures Universal(s) == s
  {
    if s != "" {
      TailLacks(s, '\r');
      UniversalWithoutReturns(s[1..]);
    }
  }

  /** Each of the three line endings is read as one newline. */
  lemma {:induction false} UniversalEndings(a: string, b: string)
    requires '\r' !in a
    ensures Universal(a + ("\n" + b)) == a + ("\n" + Universal(b))
    ensures Universal(a + ("\r\n" + b)) == a + ("\n" + Universal(b))
    ensures b == "" || b[0] != '\n' ==> Universal(a + ("\r" + b)) == a + ("\n" + Universal(b))
  {
    if a == "" {
      assert "" + ("\n" + b) == "\n" + b && "" + ("\r\n" + b) == "\r\n" + b && "" + ("\r" + b) == "\r" + b;
      assert ("\n" + b)[1..] == b && ("\r\n" + b)[2..] == b && ("\r" + b)[1..] == b;
    } else {
      TailLacks(a, '\r');
      UniversalEndings(a[1..], b);
      UniversalStep(a, "\n" + b);
      UniversalStep(a, "\r\n" + b);
      UniversalStep(a, "\r" + b);
      assert a == [a[0]] + a[1..];
    }
  }

  lemma UniversalStep(a: string, t: string)
    requires a != "" && a[0] != '\r'
    ensures Universal(a + t) == [a[0]] + Universal(a[1..] + t)
  {
    assert (a + t)[1..] == a[1..] + t;
  }

  /** A line that is ended: its newline is its last character and its only one. */
  predicate IsEnded(line: string) {
    line != "" && line[|line| - 1] == '\n' && '\n' !in line[..|line| - 1] && '\r' !in line
  }

  /** The last line of a text need not be ended. */
  predicate IsOpen(line: string) {
    line != "" && '\n' !in line && '\r' !in line
  }

  /** What reading the lines of a text can yield. */
  predicate AreLines(lines: seq<string>) {
    forall i :: 0 <= i < |lines| ==> IsEnded(lines[i]) || (i == |lines| - 1 && IsOpen(lines[i]))
  }

  /** The lines of a text, each with its newline; `open` is what has been read of the next one. */
  function Split(s: string, open: string): seq<string> {
    if s == "" then (if open == "" then [] else [open])
    else if s[0] == '\n' then [open + "\n"] + Split(s[1..], "")
    else Split(s[1..], open + [s[0]])
  }

  function ReadLines(contents: string): seq<string> {
    Split(Universal(contents), "")
  }

  function WriteLines(lines: seq<string>): string {
    if lines == [] then "" else lines[0] + WriteLines(lines[1..])
  }

  lemma {:induction false} SplitYieldsLines(s: string, open: string)
    requires '\r' !in s && '\r' !in open && '\n' !in open
    ensures AreLines(Split(s, open))
    decreases |s|
  {
    if s != "" {
      TailLacks(s, '\r');
      if s[0] == '\n' {
        SplitYieldsLines(s[1..], "");
        assert (open + "\n")[..|open|] == open;
      } else {
        SplitYieldsLines(s[1..], open + [s[0]]);
      }
    }
  }

  lemma ReadLinesYieldsLines(contents: string)
    ensures AreLines(ReadLines(contents))
  {
    UniversalHasNoReturns(contents);
    SplitYieldsLines(Universal(contents), "");
  }

  /** Characters that do not end a line only add to it. */
  lemma {:induction false} SplitGathers(front: string, s: string, open: string)
    requires '\n' !in front
    ensures Split(front + s, open) == Split(s, open + front)
    decreases |front|
  {
    if front == "" {
      assert front + s == s && open + front == open;
    } else {
      TailLacks(front, '\n');
      assert (front + s)[1..] == front[1..] + s;
      SplitGathers(front[1..], s, open + [front[0]]);
      assert open + [front[0]] + front[1..] == open + front;
    }
  }

  lemma SplitAtEnded(line: string, rest: string)
    requires IsEnded(line)
    ensures Split(line + rest, "") == [line] + Split(rest, "")
  {
    var body := line[..|line| - 1];
    assert line + rest == body + ("\n" + rest);
    SplitGathers(body, "\n" + rest, "");
    assert "" + body == body && body + "\n" == line;
    SplitAtNewline(rest, body);
  }

  lemma SplitAtNewline(rest: string, open: string)
    ensures Split("\n" + rest, open) == [open + "\n"] + Split(rest, "")
  {
    assert ("\n" + rest)[1..] == rest;
  }

  lemma SplitOpen(line: string)
    requires IsOpen(line)
    ensures Split(line, "") == [line]
  {
    SplitGathers(line, "", "");
    assert line + "" == line && "" + line == line;
  }

  lemma {:induction false} SplitUndoesWrite(lines: seq<string>)
    requires AreLines(lines)
    ensures Split(WriteLines(lines), "") == lines
  {
    if lines != [] {
      var line, rest := lines[0], lines[1..];
      SplitUndoesWrite(rest);
      if IsEnded(line) {
        SplitAtEnded(line, WriteLines(rest));
        assert lines == [line] + rest;
      } else {
        assert rest == [];
        SplitOpen(line);
        assert WriteLines(rest) == "" && line + "" == line;
        assert lines == [line];
      }
    }
  }

  lemma {:induction false} WriteHasNoReturns(lines: seq<string>)
    requires AreLines(lines)
    ensures '\r' !in WriteLines(lines)
  {
    if lines != [] {
      WriteHasNoReturns(lines[1..]);
    }
  }

  /** Lines that are written out are read back as they are. */
  lemma ReadUndoesWrite(lines: seq<string>)
    requires AreLines(lines)
    ensures ReadLines(WriteLines(lines)) == lines
  {
    WriteHasNoReturns(lines);
    UniversalWithoutReturns(WriteLines(lines));
    SplitUndoesWrite(lines);
  }

  /** Reading a text keeps all of it but the kind of its line endings. */
  lemma ReadKeepsText(contents: string)
    ensures WriteLines(ReadLines(contents)) == Universal(contents)
  {
    SplitKeepsText(Universal(contents), "");
  }

  lemma {:induction false} SplitKeepsText(s: string, open: string)
    ensures WriteLines(Split(s, open)) == open + s
    decreases |s|
  {
    if s == "" {
      assert open != "" ==> [open][1..] == [];
    } else if s[0] == '\n' {
      SplitKeepsText(s[1..], "");
      var rest := Split(s[1..], "");
      assert ([open + "\n"] + rest)[1..] == rest;
      assert open + s == open + "\n" + s[1..];
    } else {
      SplitKeepsText(s[1..], open + [s[0]]);
      assert open + [s[0]] + s[1..] == open + s;
    }
  }

  /** A line ending starts the columns over. */
  lemma LineEndingRestarts(c: char, s: string, column: nat)
    requires c == '\n' || c == '\r'
    ensures Expand([c] + s, column) == [c] + ExpandTabs(s)
  {
    assert ([c] + s)[1..] == s;
  }

  /** A tab becomes one to four blanks, up to the next multiple of four columns. */
  lemma TabFillsToFour(head: string) returns (n: nat)
    requires '\t' !in head && '\n' !in head && '\r' !in head
    ensures 1 <= n <= 4 && (|head| + n) % 4 == 0
    ensures ExpandTabs(head + "\t") == head + Spaces(n)
  {
    n := Padding(|head|);
    ExpandConcat(head, "\t", 0);
    ExpandWithoutTabs(head, 0);
    PlainEndColumn(head, 0);
    assert Expand("\t", |head|) == Spaces(n) + "";
  }

  lemma {:induction false} PlainEndColumn(s: string, column: nat)
    requires '\t' !in s && '\n' !in s && '\r' !in s
    ensures EndColumn(s, column) == column + |s|
    decreases |s|
  {
    if s != "" {
      TailLacks(s, '\t');
      TailLacks(s, '\n');
      TailLacks(s, '\r');
      PlainEndColumn(s[1..], column + 1);
    }
  }
}
