/** The passes over a list of files, in the order they are made, and the check of include prefixes. */
module StylePasses {
  import opened StyleText
  import opened StyleFixer
  import opened StyleGuarantees

  /******* Include prefixes *******/

  const NS3_PREFIX := "ns3/"
  const HEADER_START := 14

  /** The line includes something by the `ns3/` prefix. */
  predicate IncludesNs3(s: string) {
    && |s| >= HEADER_START && s[..9] == "#include " && (s[9] == '"' || s[9] == '<')
    && s[10..HEADER_START] == NS3_PREFIX
  }

  predicate EndsHeader(s: string, e: nat) {
    HEADER_START + 2 <= e < |s| && s[e - 2..e] == ".h" && (s[e] == '"' || s[e] == '>')
  }

  /** The last position up to `e` where a header name can end, or 0. */
  function HeaderEnd(s: string, e: nat): (r: nat)
    ensures r <= e && (r == 0 || EndsHeader(s, r))
    ensures forall k :: r < k <= e ==> !EndsHeader(s, k)
  {
    if e == 0 || EndsHeader(s, e) then e else HeaderEnd(s, e - 1)
  }

  /** `str.replace`: every occurrence, from left to right. */
  function ReplaceAll(s: string, pattern: string, with_: string): string
    requires pattern != ""
  {
    if |s| < |pattern| then s
    else if s[..|pattern|] == pattern then with_ + ReplaceAll(s[|pattern|..], pattern, with_)
    else [s[0]] + ReplaceAll(s[1..], pattern, with_)
  }

  /** Both angle brackets become quotation marks. */
  function ToQuotes(s: string): (r: string)
    ensures |r| == |s|
    ensures forall i :: 0 <= i < |s| ==> r[i] == if s[i] == '<' || s[i] == '>' then '"' else s[i]
  {
    seq(|s|, i requires 0 <= i < |s| => if s[i] == '<' || s[i] == '>' then '"' else s[i])
  }

  /** The check of one line, given which headers exist beside the file. */
  function CheckIncludeLine(isLocal: string -> bool, line: string, number: nat): LineCheck {
    var s := Strip(line);
    var e := HeaderEnd(s, |s|);
    if !IncludesNs3(s) || e == 0 || !isLocal(s[HEADER_START..e]) then LineCheck(true, line, [])
    else
      var header := s[HEADER_START..e];
      LineCheck(false, ToQuotes(ReplaceAll(s, NS3_PREFIX + header, header)) + "\n", [Diagnostic(number + 1, 11, s)])
  }

  function IncludeChecker(isLocal: string -> bool): Checker {
    (line: string, number: nat) => CheckIncludeLine(isLocal, line, number)
  }

  lemma {:induction false} ReplaceShrinks(s: string, pattern: string, with_: string)
    requires |with_| <= |pattern| && pattern != ""
    ensures |ReplaceAll(s, pattern, with_)| <= |s|
    decreases |s|
  {
    if |s| >= |pattern| {
      if s[..|pattern|] == pattern {
        ReplaceShrinks(s[|pattern|..], pattern, with_);
      } else {
        ReplaceShrinks(s[1..], pattern, with_);
      }
    }
  }

  /** Where the pattern occurs, replacing it by something shorter shortens the string by as much. */
  lemma {:induction false} ReplaceShortens(s: string, pattern: string, with_: string, i: nat)
    requires |with_| <= |pattern| && pattern != ""
    requires i + |pattern| <= |s| && s[i..i + |pattern|] == pattern
    ensures |ReplaceAll(s, pattern, with_)| <= |s| - (|pattern| - |with_|)
    decreases |s|
  {
    if s[..|pattern|] == pattern {
      ReplaceShrinks(s[|pattern|..], pattern, with_);
    } else {
      assert i > 0 && s[1..][i - 1..i - 1 + |pattern|] == s[i..i + |pattern|];
      ReplaceShortens(s[1..], pattern, with_, i - 1);
    }
  }

  /** Replacing brings in no other characters than those of the replacement. */
  lemma {:induction false} ReplaceLacks(s: string, pattern: string, with_: string, c: char)
    requires pattern != "" && c !in s && c !in with_
    ensures c !in ReplaceAll(s, pattern, with_)
    decreases |s|
  {
    if |s| >= |pattern| {
      if s[..|pattern|] == pattern {
        DropLacks(s, |pattern|, c);
        ReplaceLacks(s[|pattern|..], pattern, with_, c);
      } else {
        DropLacks(s, 1, c);
        assert s[0] in s;
        ReplaceLacks(s[1..], pattern, with_, c);
      }
    }
  }

  lemma DropLacks(s: string, n: nat, c: char)
    requires n <= |s| && c !in s
    ensures c !in s[n..] && c !in s[..n]
  {
  }

  lemma StripIsShorter(line: string)
    ensures |Strip(line)| <= |line|
  {
    var lead, trail := StripSplits(line);
  }

  /** A line that is fixed comes out shorter, so it never stays the same. */
  lemma IncludeFixShortens(isLocal: string -> bool, line: string, number: nat)
    requires !CheckIncludeLine(isLocal, line, number).isCompliant
    ensures |CheckIncludeLine(isLocal, line, number).lineFixed| < |line|
  {
    var s := Strip(line);
    var e := HeaderEnd(s, |s|);
    var header := s[HEADER_START..e];
    assert s[10..10 + |NS3_PREFIX + header|] == s[10..HEADER_START] + s[HEADER_START..e];
    ReplaceShortens(s, NS3_PREFIX + header, header, 10);
    StripIsShorter(line);
  }

  lemma StripLacksBreaks(line: string)
    requires IsEnded(line) || IsOpen(line)
    ensures '\n' !in Strip(line) && '\r' !in Strip(line)
  {
    var lead, trail := StripSplits(line);
    var s := Strip(line);
    forall i | 0 <= i < |s| ensures s[i] != '\n' && s[i] != '\r' {
      assert line[|lead| + i] == s[i];
      assert line[|lead| + i] in line;
    }
  }

  lemma IncludeIsHonest(isLocal: string -> bool)
    ensures Honest(IncludeChecker(isLocal)) && KeepsLines(IncludeChecker(isLocal))
  {
    forall line, number
      ensures CheckIncludeLine(isLocal, line, number).isCompliant
         <==> CheckIncludeLine(isLocal, line, number).lineFixed == line
    {
      if !CheckIncludeLine(isLocal, line, number).isCompliant {
        IncludeFixShortens(isLocal, line, number);
      }
    }
    forall line, number | IsEnded(line) || IsOpen(line)
      ensures var fixed := CheckIncludeLine(isLocal, line, number).lineFixed;
        fixed == line || IsEnded(fixed)
    {
      var s := Strip(line);
      var e := HeaderEnd(s, |s|);
      if !CheckIncludeLine(isLocal, line, number).isCompliant {
        StripLacksBreaks(line);
        var header := s[HEADER_START..e];
        HeaderLacksBreaks(s, e);
        var body := ReplaceAll(s, NS3_PREFIX + header, header);
        ReplaceLacks(s, NS3_PREFIX + header, header, '\n');
        ReplaceLacks(s, NS3_PREFIX + header, header, '\r');
        QuotedLine(body);
      }
    }
  }

  lemma HeaderLacksBreaks(s: string, e: nat)
    requires HEADER_START <= e <= |s| && '\n' !in s && '\r' !in s
    ensures '\n' !in s[HEADER_START..e] && '\r' !in s[HEADER_START..e]
  {
  }

  lemma QuotedLine(body: string)
    requires '\n' !in body && '\r' !in body
    ensures IsEnded(ToQuotes(body) + "\n")
  {
  }

  /******* One pass *******/

  datatype Text = Text(filename: string, contents: string)

  /** A check may depend on the file it is made for. */
  type FileChecker = string -> Checker

  /** What is done with each file: line by line, or by calling the formatter. */
  datatype Pass =
    | Manual(respectGuards: bool, check: FileChecker)
    | Formatting(isFormatted: Text -> bool, format: Text -> string)

  predicate Passes(t: Text, pass: Pass) {
    match pass
    case Manual(respectGuards, check) => Compliant(ReadLines(t.contents), respectGuards, check(t.filename))
    case Formatting(isFormatted, _) => isFormatted(t)
  }

  function Fixed(t: Text, pass: Pass): Text {
    match pass
    case Manual(respectGuards, check) => t.(contents := FixContents(t.contents, respectGuards, check(t.filename)))
    case Formatting(isFormatted, format) => if isFormatted(t) then t else t.(contents := format(t))
  }

  /** A pass has its own list of files, chosen by their names, and may be switched off. */
  predicate Applies(t: Text, enabled: bool, covers: string -> bool) {
    enabled && covers(t.filename)
  }

  ghost predicate AllPass(ts: seq<Text>, enabled: bool, covers: string -> bool, pass: Pass) {
    forall i :: 0 <= i < |ts| && Applies(ts[i], enabled, covers) ==> Passes(ts[i], pass)
  }

  function FixedIf(t: Text, enabled: bool, covers: string -> bool, pass: Pass): Text {
    if Applies(t, enabled, covers) then Fixed(t, pass) else t
  }

  function AllFixed(ts: seq<Text>, enabled: bool, covers: string -> bool, pass: Pass): (r: seq<Text>)
    ensures |r| == |ts| && forall i :: 0 <= i < |ts| ==> r[i] == FixedIf(ts[i], enabled, covers, pass)
  {
    seq(|ts|, i requires 0 <= i < |ts| => FixedIf(ts[i], enabled, covers, pass))
  }

  ghost function TextOf(file: SourceFile): Text
    reads file
  {
    Text(file.filename, file.contents)
  }

  ghost function Texts(files: seq<SourceFile>): (r: seq<Text>)
    reads files
    ensures |r| == |files| && forall i :: 0 <= i < |files| ==> r[i] == TextOf(files[i])
  {
    seq(|files|, i requires 0 <= i < |files| reads files => TextOf(files[i]))
  }

  ghost predicate AllDistinct(files: seq<SourceFile>) {
    forall i, j :: 0 <= i < j < |files| ==> files[i] != files[j]
  }

  /** The files that a pass is made for. */
  method FindFiles(files: seq<SourceFile>, covers: string -> bool) returns (chosen: seq<SourceFile>, ghost at: seq<nat>)
    requires AllDistinct(files)
    ensures forall j :: 0 <= j < |chosen| ==> chosen[j] in files && covers(chosen[j].filename)
    ensures forall k :: 0 <= k < |files| && covers(files[k].filename) ==> files[k] in chosen
    ensures |at| == |chosen| && forall j :: 0 <= j < |chosen| ==> at[j] < |files| && chosen[j] == files[at[j]]
    ensures forall k: nat :: k in at <==> k < |files| && covers(files[k].filename)
    ensures AllDistinct(chosen) && forall i, j :: 0 <= i < j < |at| ==> at[i] < at[j]
  {
    chosen, at := [], [];
    for i := 0 to |files|
      invariant |at| == |chosen| && forall j :: 0 <= j < |chosen| ==> at[j] < i && chosen[j] == files[at[j]]
      invariant forall k: nat :: k in at <==> k < i && covers(files[k].filename)
      invariant AllDistinct(chosen) && forall i, j :: 0 <= i < j < |at| ==> at[i] < at[j]
    {
      if covers(files[i].filename) {
        chosen, at := chosen + [files[i]], at + [i];
      }
    }
    forall k | 0 <= k < |files| && covers(files[k].filename) ensures files[k] in chosen {
      var j :| 0 <= j < |at| && at[j] == k;
      assert chosen[j] == files[k];
    }
    assert forall j :: 0 <= j < |chosen| ==> at[j] in at;
  }

  /** A pass over a list of files: it succeeds if it finds nothing, or is to fix what it finds. */
  method CheckFiles(files: seq<SourceFile>, fix: bool, verbose: bool, pass: Pass) returns (successful: bool)
    requires AllDistinct(files)
    modifies files
    ensures successful <==> fix || forall i :: 0 <= i < |files| ==> Passes(old(TextOf(files[i])), pass)
    ensures forall i :: 0 <= i < |files| ==>
              TextOf(files[i]) == if fix then Fixed(old(TextOf(files[i])), pass) else old(TextOf(files[i]))
  {
    ghost var before := Texts(files);
    var allCompliant := true;
    for i := 0 to |files|
      invariant allCompliant <==> forall j :: 0 <= j < i ==> Passes(before[j], pass)
      invariant forall j :: 0 <= j < i ==> TextOf(files[j]) == if fix then Fixed(before[j], pass) else before[j]
      invariant forall j :: i <= j < |files| ==> TextOf(files[j]) == before[j]
    {
      assert forall j :: 0 <= j < |files| && j != i ==> files[j] != files[i];
      var isCompliant := CheckOne(files[i], fix, verbose, pass);
      allCompliant := allCompliant && isCompliant;
    }
    successful := allCompliant || fix;
  }

  method CheckOne(file: SourceFile, fix: bool, verbose: bool, pass: Pass) returns (isCompliant: bool)
    modifies file
    ensures isCompliant <==> Passes(old(TextOf(file)), pass)
    ensures TextOf(file) == if fix then Fixed(old(TextOf(file)), pass) else old(TextOf(file))
  {
    match pass {
      case Manual(respectGuards, check) =>
        var infos;
        isCompliant, infos := file.CheckManually(fix, verbose, respectGuards, check(file.filename));
      case Formatting(isFormatted, format) =>
        var text := Text(file.filename, file.contents);
        isCompliant := isFormatted(text);
        if fix && !isCompliant {
          file.contents := format(text);
        }
    }
  }

  /** A pass, if it is switched on, over those files that it is made for. */
  method MakePass(files: seq<SourceFile>, enabled: bool, covers: string -> bool, fix: bool, verbose: bool, pass: Pass)
    returns (successful: bool)
    requires AllDistinct(files)
    modifies files
    ensures successful <==> fix || AllPass(old(Texts(files)), enabled, covers, pass)
    ensures Texts(files) == if fix then AllFixed(old(Texts(files)), enabled, covers, pass) else old(Texts(files))
  {
    if !enabled {
      return true;
    }
    ghost var before := Texts(files);
    var chosen, at := FindFiles(files, covers);
    successful := CheckFiles(chosen, fix, verbose, pass);
    forall k | 0 <= k < |files|
      ensures TextOf(files[k]) == if fix then FixedIf(before[k], enabled, covers, pass) else before[k]
    {
      if k in at {
        var j :| 0 <= j < |at| && at[j] == k;
        assert chosen[j] == files[k];
      } else {
        assert files[k] !in chosen;
      }
    }
    assert forall j :: 0 <= j < |chosen| ==> at[j] in at;
    assert forall k :: 0 <= k < |files| && Applies(before[k], enabled, covers) ==> k in at;
  }

  /******* All passes *******/

  /** The header files that exist beside a given file. */
  type LocalHeaders = string -> (string -> bool)

  /** Which passes are switched on. */
  datatype Selection = Selection(includePrefixes: bool, formatting: bool, whitespace: bool, tabs: bool)

  /** Which files, by name, each pass is made for; which headers there are; and what the formatter does. */
  datatype Setting = Setting(
    includeFiles: string -> bool, formattingFiles: string -> bool,
    whitespaceFiles: string -> bool, tabsFiles: string -> bool,
    isLocal: LocalHeaders, isFormatted: Text -> bool, format: Text -> string)

  function IncludePass(isLocal: LocalHeaders): Pass {
    Manual(true, (filename: string) => IncludeChecker(isLocal(filename)))
  }

  function FormattingPass(setting: Setting): Pass {
    Formatting(setting.isFormatted, setting.format)
  }

  function WhitespacePass(): Pass {
    Manual(false, (filename: string) => CheckWhitespaceLine)
  }

  function TabsPass(): Pass {
    Manual(true, (filename: string) => CheckTabsLine)
  }

  /** The files after all selected passes, in order, have fixed them. */
  function AfterPasses(ts: seq<Text>, setting: Setting, on: Selection): seq<Text> {
    var ts1 := AllFixed(ts, on.includePrefixes, setting.includeFiles, IncludePass(setting.isLocal));
    var ts2 := AllFixed(ts1, on.formatting, setting.formattingFiles, FormattingPass(setting));
    var ts3 := AllFixed(ts2, on.whitespace, setting.whitespaceFiles, WhitespacePass());
    AllFixed(ts3, on.tabs, setting.tabsFiles, TabsPass())
  }

  /** The files are compliant with all selected checks. */
  ghost predicate AllChecksPass(ts: seq<Text>, setting: Setting, on: Selection) {
    && AllPass(ts, on.includePrefixes, setting.includeFiles, IncludePass(setting.isLocal))
    && AllPass(ts, on.formatting, setting.formattingFiles, FormattingPass(setting))
    && AllPass(ts, on.whitespace, setting.whitespaceFiles, WhitespacePass())
    && AllPass(ts, on.tabs, setting.tabsFiles, TabsPass())
  }

  /** What the selected checks that cover a file ask of it. */
  ghost predicate Complies(t: Text, setting: Setting, on: Selection) {
    var lines := ReadLines(t.contents);
    && (on.includePrefixes && setting.includeFiles(t.filename) ==>
          CheckedLinesComply(lines, true, IncludeChecker(setting.isLocal(t.filename))))
    && (on.formatting && setting.formattingFiles(t.filename) ==> setting.isFormatted(t))
    && (on.whitespace && setting.whitespaceFiles(t.filename) ==>
          forall i :: 0 <= i < |lines| ==> NoTrailingSpace(lines[i]))
    && (on.tabs && setting.tabsFiles(t.filename) ==>
          forall i :: 0 <= i < |lines| && IsChecked(lines, true, i) ==> '\t' !in lines[i])
  }

  lemma CompliesByPasses(t: Text, setting: Setting, on: Selection)
    ensures Complies(t, setting, on)
       <==> (&& (Applies(t, on.includePrefixes, setting.includeFiles) ==> Passes(t, IncludePass(setting.isLocal)))
             && (Applies(t, on.formatting, setting.formattingFiles) ==> Passes(t, FormattingPass(setting)))
             && (Applies(t, on.whitespace, setting.whitespaceFiles) ==> Passes(t, WhitespacePass()))
             && (Applies(t, on.tabs, setting.tabsFiles) ==> Passes(t, TabsPass())))
  {
    VerdictByGuards(ReadLines(t.contents), true, IncludeChecker(setting.isLocal(t.filename)));
    WhitespaceVerdict(t);
    TabsVerdict(t);
  }

  /** All selected checks pass exactly if every file is as those that cover it ask. */
  lemma ChecksByText(ts: seq<Text>, setting: Setting, on: Selection)
    ensures AllChecksPass(ts, setting, on) <==> forall i :: 0 <= i < |ts| ==> Complies(ts[i], setting, on)
  {
    forall i | 0 <= i < |ts| {
      CompliesByPasses(ts[i], setting, on);
    }
  }

  /** All selected passes: include prefixes, then formatting, then trailing whitespace, then tabs. */
  method CheckStyle(files: seq<SourceFile>, setting: Setting, on: Selection, fix: bool, verbose: bool)
    returns (successful: bool)
    requires AllDistinct(files)
    modifies files
    ensures fix ==> successful && Texts(files) == AfterPasses(old(Texts(files)), setting, on)
    ensures !fix ==> Texts(files) == old(Texts(files))
    ensures !fix ==> (successful <==> AllChecksPass(old(Texts(files)), setting, on))
    ensures !fix ==> (successful <==> forall i :: 0 <= i < |files| ==> Complies(old(TextOf(files[i])), setting, on))
  {
    ChecksByText(Texts(files), setting, on);
    var includesSuccessful := MakePass(
      files, on.includePrefixes, setting.includeFiles, fix, verbose, IncludePass(setting.isLocal));
    var formattingSuccessful := MakePass(
      files, on.formatting, setting.formattingFiles, fix, verbose, FormattingPass(setting));
    var whitespaceSuccessful := MakePass(
      files, on.whitespace, setting.whitespaceFiles, fix, verbose, WhitespacePass());
    var tabsSuccessful := MakePass(files, on.tabs, setting.tabsFiles, fix, verbose, TabsPass());
    successful := includesSuccessful && formattingSuccessful && whitespaceSuccessful && tabsSuccessful;
  }

  /** The passes over one file, one after the other, each on what the one before has left. */
  lemma PassesInOrder(ts: seq<Text>, setting: Setting, on: Selection, i: nat)
    requires i < |ts|
    ensures var name, t0 := ts[i].filename, ts[i].contents;
      var t1 := if on.includePrefixes && setting.includeFiles(name)
                then FixContents(t0, true, IncludeChecker(setting.isLocal(name))) else t0;
      var t2 := if on.formatting && setting.formattingFiles(name) && !setting.isFormatted(Text(name, t1))
                then setting.format(Text(name, t1)) else t1;
      var t3 := if on.whitespace && setting.whitespaceFiles(name)
                then FixContents(t2, false, CheckWhitespaceLine) else t2;
      var t4 := if on.tabs && setting.tabsFiles(name) then FixContents(t3, true, CheckTabsLine) else t3;
      AfterPasses(ts, setting, on)[i] == Text(name, t4)
  {
  }

  /** A file passes for whitespace if no line has any at its end, whether or not guards switch checking off. */
  lemma WhitespaceVerdict(t: Text)
    ensures Passes(t, WhitespacePass())
       <==> forall i :: 0 <= i < |ReadLines(t.contents)| ==> NoTrailingSpace(ReadLines(t.contents)[i])
  {
    VerdictByGuards(ReadLines(t.contents), false, CheckWhitespaceLine);
  }

  /** It passes for tabs if no line has any but where a guard has switched checking off. */
  lemma TabsVerdict(t: Text)
    ensures Passes(t, TabsPass())
       <==> forall i :: 0 <= i < |ReadLines(t.contents)| && IsChecked(ReadLines(t.contents), true, i) ==>
                          '\t' !in ReadLines(t.contents)[i]
  {
    var lines := ReadLines(t.contents);
    VerdictByGuards(lines, true, CheckTabsLine);
    forall i | 0 <= i < |lines| ensures CheckTabsLine(lines[i], i).isCompliant <==> '\t' !in lines[i] {
      FindTab(lines[i]);
    }
  }

  /******* What a fixing run leaves *******/

  /** A file after the whitespace pass and the tabs pass, each as far as it applies. */
  function Cleaned(t: Text, whitespace: bool, tabs: bool): Text {
    var t1 := if whitespace then Fixed(t, WhitespacePass()) else t;
    if tabs then Fixed(t1, TabsPass()) else t1
  }

  lemma CleanedPasses(t: Text, whitespace: bool, tabs: bool)
    ensures var u := Cleaned(t, whitespace, tabs);
      && u.filename == t.filename
      && (whitespace ==> Passes(u, WhitespacePass()))
      && (tabs ==> Passes(u, TabsPass()))
      && Cleaned(u, whitespace, tabs) == u
  {
    if whitespace && tabs {
      assert Cleaned(t, true, true).contents == FixBoth(t.contents);
      FixedFilePasses(t.contents);
    } else if whitespace {
      WhitespaceFixIsIdempotent(t.contents);
    } else if tabs {
      TabsFixIsIdempotent(t.contents);
    }
  }

  /**
   A check for trailing whitespace and tabs passes on whatever a fixing run with the same lists of
   files has left, and a second fixing run for them changes nothing, whatever the files were.
   */
  lemma FixThenCheckPasses(ts: seq<Text>, setting: Setting, on: Selection)
    ensures var fixed, again := AfterPasses(ts, setting, on), on.(includePrefixes := false, formatting := false);
      && AllChecksPass(fixed, setting, again)
      && AfterPasses(fixed, setting, again) == fixed
  {
    var first := AllFixed(ts, on.includePrefixes, setting.includeFiles, IncludePass(setting.isLocal));
    var second := AllFixed(first, on.formatting, setting.formattingFiles, FormattingPass(setting));
    var fixed, again := AfterPasses(ts, setting, on), on.(includePrefixes := false, formatting := false);
    forall i | 0 <= i < |fixed|
      ensures Applies(fixed[i], on.whitespace, setting.whitespaceFiles) ==> Passes(fixed[i], WhitespacePass())
      ensures Applies(fixed[i], on.tabs, setting.tabsFiles) ==> Passes(fixed[i], TabsPass())
      ensures AfterPasses(fixed, setting, again)[i] == fixed[i]
    {
      var t := second[i];
      var w, b := Applies(t, on.whitespace, setting.whitespaceFiles), Applies(t, on.tabs, setting.tabsFiles);
      assert fixed[i] == Cleaned(t, w, b);
      CleanedPasses(t, w, b);
      assert AfterPasses(fixed, setting, again)[i] == Cleaned(fixed[i], w, b);
    }
  }
}
