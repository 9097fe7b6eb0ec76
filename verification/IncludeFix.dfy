/** What the check of include prefixes looks for, what fixing leaves of a line, and when it is done. */
module IncludeFix {
  import opened StyleText
  import opened StyleFixer
  import opened StyleGuarantees
  import opened StylePasses

  const INCLUDE := "#include "

  /** The parts of the text of an include line. */
  datatype Include = Include(open: char, header: string, close: char, rest: string)
  {
    predicate Valid() {
      && (open == '"' || open == '<') && (close == '"' || close == '>')
      && |header| >= 2 && header[|header| - 2..] == ".h"
    }

    function Text(prefix: string): string {
      INCLUDE + [open] + prefix + header + [close] + rest
    }
  }

  /** The text includes a header by the `ns3/` prefix; of several ways to read it, the longest header counts. */
  ghost predicate Reads(s: string, i: Include) {
    && i.Valid() && s == i.Text(NS3_PREFIX)
    && forall j: Include :: j.Valid() && s == j.Text(NS3_PREFIX) ==> |j.header| <= |i.header|
  }

  lemma TextParts(i: Include)
    requires i.Valid()
    ensures var s, e := i.Text(NS3_PREFIX), HEADER_START + |i.header|;
            IncludesNs3(s) && EndsHeader(s, e)
            && s[9] == i.open && s[HEADER_START..e] == i.header && s[e] == i.close && s[e + 1..] == i.rest
  {
    var s, e := i.Text(NS3_PREFIX), HEADER_START + |i.header|;
    assert s[..9] == INCLUDE && s[10..HEADER_START] == NS3_PREFIX;
    assert s[HEADER_START..e] == i.header;
    assert s[e - 2..e] == i.header[|i.header| - 2..];
  }

  /** The parts that the check finds. */
  function Parts(s: string): Include
    requires IncludesNs3(s) && HeaderEnd(s, |s|) != 0
  {
    var e := HeaderEnd(s, |s|);
    Include(s[9], s[HEADER_START..e], s[e], s[e + 1..])
  }

  lemma CutInFive(s: string, a: nat, b: nat, c: nat)
    requires a < b <= c < |s|
    ensures s == s[..a] + [s[a]] + s[a + 1..b] + s[b..c] + [s[c]] + s[c + 1..]
  {
    assert s == s[..c] + [s[c]] + s[c + 1..];
    assert s[..c] == s[..b] + s[b..c];
    assert s[..b] == s[..a] + [s[a]] + s[a + 1..b];
  }

  lemma {:induction false} PartsMakeText(s: string)
    requires IncludesNs3(s) && HeaderEnd(s, |s|) != 0
    ensures Parts(s).Valid() && s == Parts(s).Text(NS3_PREFIX)
  {
    var i, e := Parts(s), HeaderEnd(s, |s|);
    assert EndsHeader(s, e);
    assert i.header[|i.header| - 2..] == s[e - 2..e];
    CutInFive(s, 9, HEADER_START, e);
  }

  lemma {:induction false} PartsAreRead(s: string)
    requires IncludesNs3(s) && HeaderEnd(s, |s|) != 0
    ensures Reads(s, Parts(s))
  {
    PartsMakeText(s);
    forall j: Include | j.Valid() && s == j.Text(NS3_PREFIX) ensures |j.header| <= |Parts(s).header| {
      TextParts(j);
    }
  }

  /** There is one way to read a text, and the check finds it if there is one. */
  lemma {:induction false} ReadingIsFound(s: string, i: Include)
    requires Reads(s, i)
    ensures IncludesNs3(s) && HeaderEnd(s, |s|) != 0 && Parts(s) == i
  {
    TextParts(i);
    PartsAreRead(s);
    TextParts(Parts(s));
  }

  /** A line offends exactly if its text includes, by the prefix, a header that lies beside the file. */
  lemma IncludeVerdict(isLocal: string -> bool, line: string, number: nat)
    ensures !CheckIncludeLine(isLocal, line, number).isCompliant
       <==> exists i :: Reads(Strip(line), i) && isLocal(i.header)
  {
    var s := Strip(line);
    if IncludesNs3(s) && HeaderEnd(s, |s|) != 0 {
      PartsAreRead(s);
    }
    if i :| Reads(s, i) && isLocal(i.header) {
      ReadingIsFound(s, i);
    }
  }

  /** An offending line is reported at the column of the prefix. */
  lemma IncludeIsReported(isLocal: string -> bool, line: string, number: nat)
    requires !CheckIncludeLine(isLocal, line, number).isCompliant
    ensures var infos := CheckIncludeLine(isLocal, line, number).infos;
      && |infos| == 1 && infos[0].line == number + 1 && infos[0].shown == Strip(line)
      && 1 <= infos[0].column <= |infos[0].shown| - 3
      && infos[0].shown[infos[0].column - 1..infos[0].column + 3] == "ns3/"
  {
  }

  /** The line includes, by the prefix, a header that lies beside the file. */
  ghost predicate IncludesLocal(isLocal: string -> bool, line: string) {
    exists inc :: Reads(Strip(line), inc) && isLocal(inc.header)
  }

  /** A file passes for include prefixes if no line offends so but where a guard has switched checking off. */
  lemma IncludePassVerdict(t: Text, isLocal: LocalHeaders)
    ensures var lines := ReadLines(t.contents);
      Passes(t, IncludePass(isLocal))
      <==> forall i :: 0 <= i < |lines| && IsChecked(lines, true, i) ==> !IncludesLocal(isLocal(t.filename), lines[i])
  {
    var lines, check := ReadLines(t.contents), IncludeChecker(isLocal(t.filename));
    VerdictByGuards(lines, true, check);
    forall i | 0 <= i < |lines|
      ensures check(lines[i], i).isCompliant <==> !IncludesLocal(isLocal(t.filename), lines[i])
    {
      IncludeVerdict(isLocal(t.filename), lines[i], i);
    }
  }

  /** Where checking is switched off include lines are left alone. */
  lemma IncludePassRespectsGuards(t: Text, isLocal: LocalHeaders, i: nat)
    requires i < |ReadLines(t.contents)| && !IsChecked(ReadLines(t.contents), true, i)
    ensures |ReadLines(Fixed(t, IncludePass(isLocal)).contents)| == |ReadLines(t.contents)|
    ensures ReadLines(Fixed(t, IncludePass(isLocal)).contents)[i] == ReadLines(t.contents)[i]
  {
    IncludeIsHonest(isLocal(t.filename));
    FixedFileReadsBack(t.contents, true, IncludeChecker(isLocal(t.filename)));
    FixedByGuards(ReadLines(t.contents), true, IncludeChecker(isLocal(t.filename)), i);
  }

  /******* What fixing leaves *******/

  predicate OccursAt(s: string, pattern: string, i: nat) {
    i + |pattern| <= |s| && s[i..i + |pattern|] == pattern
  }

  lemma ReplaceStep(s: string, pattern: string, with_: string)
    requires pattern != "" && s != "" && !OccursAt(s, pattern, 0)
    ensures ReplaceAll(s, pattern, with_) == [s[0]] + ReplaceAll(s[1..], pattern, with_)
  {
    if |s| < |pattern| {
      assert s == [s[0]] + s[1..];
    } else {
      assert s[..|pattern|] == s[0..0 + |pattern|];
    }
  }

  lemma OccursLater(s: string, pattern: string, i: nat)
    requires s != "" && OccursAt(s[1..], pattern, i)
    ensures OccursAt(s, pattern, i + 1)
  {
    assert s[1..][i..i + |pattern|] == s[i + 1..i + 1 + |pattern|];
  }

  lemma NoneInTail(s: string, pattern: string, n: nat)
    requires 0 < n <= |s|
    requires forall i: nat :: i < n ==> !OccursAt(s, pattern, i)
    ensures forall i: nat :: i < n - 1 ==> !OccursAt(s[1..], pattern, i)
  {
    forall i: nat | i < n - 1 ensures !OccursAt(s[1..], pattern, i) {
      if OccursAt(s[1..], pattern, i) {
        OccursLater(s, pattern, i);
      }
    }
  }

  lemma TailCuts(s: string, n: nat, rest: string)
    requires 0 < n <= |s|
    ensures [s[0]] + (s[1..][..n - 1] + rest) == s[..n] + rest && s[1..][n - 1..] == s[n..]
  {
    assert s[..n] == [s[0]] + s[1..][..n - 1];
  }

  /** Nothing is replaced before the first occurrence. */
  lemma {:induction false} ReplaceSkips(s: string, pattern: string, with_: string, n: nat)
    requires pattern != "" && n <= |s|
    requires forall i: nat :: i < n ==> !OccursAt(s, pattern, i)
    ensures ReplaceAll(s, pattern, with_) == s[..n] + ReplaceAll(s[n..], pattern, with_)
    decreases n
  {
    if n == 0 {
      assert s[n..] == s && s[..n] == "";
    } else {
      NoneInTail(s, pattern, n);
      ReplaceStep(s, pattern, with_);
      ReplaceSkips(s[1..], pattern, with_, n - 1);
      TailCuts(s, n, ReplaceAll(s[n..], pattern, with_));
    }
  }

  /** The first occurrence is replaced, and then whatever comes after it; without one nothing is. */
  lemma {:induction false} ReplaceFirst(front: string, back: string, pattern: string, with_: string)
    requires pattern != "" && forall i: nat :: i < |front| ==> !OccursAt(front + (pattern + back), pattern, i)
    ensures ReplaceAll(front + (pattern + back), pattern, with_) == front + (with_ + ReplaceAll(back, pattern, with_))
  {
    var s, tail := front + (pattern + back), pattern + back;
    ReplaceSkips(s, pattern, with_, |front|);
    assert s[..|front|] == front && s[|front|..] == tail;
    assert tail[..|pattern|] == pattern && tail[|pattern|..] == back;
  }

  lemma ReplaceNone(s: string, pattern: string, with_: string)
    requires pattern != "" && forall i: nat :: i < |s| ==> !OccursAt(s, pattern, i)
    ensures ReplaceAll(s, pattern, with_) == s
  {
    ReplaceSkips(s, pattern, with_, |s|);
    assert s[..|s|] == s && s[|s|..] == "";
  }

  lemma NoNs3InInclude(s: string, pattern: string)
    requires |s| >= 10 && s[..9] == INCLUDE && (s[9] == '"' || s[9] == '<') && NS3_PREFIX <= pattern
    ensures forall i: nat :: i < 10 ==> !OccursAt(s, pattern, i)
  {
    forall i: nat | i < 10 ensures !OccursAt(s, pattern, i) {
      assert i < 9 ==> s[i] == INCLUDE[i];
      assert i < 8 ==> s[i + 1] == INCLUDE[i + 1];
      assert pattern[0] == 'n' && pattern[1] == 's';
      if i + |pattern| <= |s| {
        assert s[i..i + |pattern|][0] == s[i] && s[i..i + |pattern|][1] == s[i + 1];
      }
    }
  }

  lemma ToQuotesConcat(s: string, t: string)
    ensures ToQuotes(s + t) == ToQuotes(s) + ToQuotes(t)
  {
  }

  /** What follows the header when a line has been fixed. */
  function FixedRest(i: Include): string {
    ToQuotes(ReplaceAll(i.rest, NS3_PREFIX + i.header, i.header))
  }

  function FixedText(i: Include): string {
    INCLUDE + "\"" + ToQuotes(i.header) + "\"" + FixedRest(i)
  }

  /** The prefix goes, here and where the same name is repeated in the rest, and brackets become quotation marks. */
  lemma FixLeaves(s: string, i: Include)
    requires i.Valid() && s == i.Text(NS3_PREFIX)
    ensures ToQuotes(ReplaceAll(s, NS3_PREFIX + i.header, i.header)) == FixedText(i)
  {
    TextParts(i);
    var pattern, h := NS3_PREFIX + i.header, i.header;
    NoNs3InInclude(s, pattern);
    ReplaceSkips(s, pattern, h, 10);
    FirstTen(i);
    ReplaceName(i, pattern);
    FixedPieces(i, ReplaceAll(i.rest, pattern, h));
  }

  lemma FirstTen(i: Include)
    ensures i.Text(NS3_PREFIX)[..10] == INCLUDE + [i.open]
    ensures i.Text(NS3_PREFIX)[10..] == NS3_PREFIX + i.header + ([i.close] + i.rest)
  {
  }

  lemma ReplaceName(i: Include, pattern: string)
    requires i.Valid() && pattern == NS3_PREFIX + i.header
    ensures ReplaceAll(pattern + ([i.close] + i.rest), pattern, i.header)
         == i.header + ([i.close] + ReplaceAll(i.rest, pattern, i.header))
  {
    var tail := [i.close] + i.rest;
    assert (pattern + tail)[..|pattern|] == pattern && (pattern + tail)[|pattern|..] == tail;
    ReplaceClose(i, pattern);
  }

  lemma FixedPieces(i: Include, rest: string)
    requires i.Valid()
    ensures ToQuotes(INCLUDE + [i.open] + (i.header + ([i.close] + rest)))
         == INCLUDE + "\"" + ToQuotes(i.header) + "\"" + ToQuotes(rest)
  {
    ToQuotesConcat(INCLUDE + [i.open], i.header + ([i.close] + rest));
    ToQuotesConcat(i.header, [i.close] + rest);
    ToQuotesConcat([i.close], rest);
    assert ToQuotes(INCLUDE + [i.open]) == INCLUDE + "\"" && ToQuotes([i.close]) == "\"";
  }

  lemma ReplaceClose(i: Include, pattern: string)
    requires i.Valid() && pattern == NS3_PREFIX + i.header
    ensures ReplaceAll([i.close] + i.rest, pattern, i.header) == [i.close] + ReplaceAll(i.rest, pattern, i.header)
  {
    var tail := [i.close] + i.rest;
    assert tail[1..] == i.rest && pattern[0] == 'n';
    assert |tail| >= |pattern| ==> tail[..|pattern|][0] == i.close;
  }

  /** A text that ends in a visible character still does after replacement by one that does. */
  lemma {:induction false} ReplaceKeepsEnd(s: string, pattern: string, with_: string)
    requires pattern != "" && s != "" && !IsSpace(s[|s| - 1]) && with_ != "" && !IsSpace(with_[|with_| - 1])
    ensures var r := ReplaceAll(s, pattern, with_); r != "" && !IsSpace(r[|r| - 1])
    decreases |s|
  {
    if |s| >= |pattern| {
      if s[..|pattern|] == pattern {
        if s[|pattern|..] != "" {
          ReplaceKeepsEnd(s[|pattern|..], pattern, with_);
        }
      } else if s[1..] != "" {
        ReplaceKeepsEnd(s[1..], pattern, with_);
      }
    }
  }

  lemma EndsLike(front: string, tail: string)
    requires tail != "" && !IsSpace(tail[|tail| - 1])
    ensures !IsSpace((front + tail)[|front + tail| - 1])
  {
  }

  lemma RestEndsVisibly(i: Include)
    requires i.Valid() && Trimmed(i.Text(NS3_PREFIX)) && i.rest != ""
    ensures FixedRest(i) != "" && !IsSpace(FixedRest(i)[|FixedRest(i)| - 1])
  {
    var text := i.Text(NS3_PREFIX);
    assert text[|text| - 1] == i.rest[|i.rest| - 1];
    assert i.header[|i.header| - 2..][1] == 'h';
    ReplaceKeepsEnd(i.rest, NS3_PREFIX + i.header, i.header);
  }

  lemma FixedTextIsTrimmed(i: Include)
    requires i.Valid() && Trimmed(i.Text(NS3_PREFIX))
    ensures Strip(FixedText(i) + "\n") == FixedText(i)
  {
    var front := INCLUDE + "\"" + ToQuotes(i.header);
    if i.rest != "" {
      RestEndsVisibly(i);
      EndsLike(front + "\"", FixedRest(i));
    } else {
      EndsLike(front, "\"");
      assert FixedText(i) == front + "\"";
    }
    assert FixedText(i)[0] == '#';
    StripLine(FixedText(i));
  }

  lemma QuotesKeepPrefix(h: string)
    ensures NS3_PREFIX <= ToQuotes(h) <==> NS3_PREFIX <= h
  {
    if |h| >= 4 {
      assert ToQuotes(h)[..4] == NS3_PREFIX <==> ToQuotes(h)[0] == 'n' && ToQuotes(h)[1] == 's' && ToQuotes(h)[2] == '3'
                                                 && ToQuotes(h)[3] == '/';
      assert h[..4] == NS3_PREFIX <==> h[0] == 'n' && h[1] == 's' && h[2] == '3' && h[3] == '/';
    }
  }

  lemma PrefixInText(h: string, tail: string)
    requires |h| >= 2 && h[|h| - 2] == '.'
    ensures IncludesNs3(INCLUDE + "\"" + h + tail) <==> NS3_PREFIX <= h
  {
    var text := INCLUDE + "\"" + h + tail;
    assert text[..9] == INCLUDE && text[9] == '"';
    if |h| >= 4 {
      assert text[10..HEADER_START] == h[..4];
    } else {
      assert text[10 + |h| - 2] == '.';
      assert |text| >= HEADER_START ==> text[10..HEADER_START][|h| - 2] == '.';
    }
  }

  /** A fixed text includes by the prefix again exactly if the header begins with it. */
  lemma PrefixAgain(i: Include)
    requires i.Valid()
    ensures IncludesNs3(FixedText(i)) <==> NS3_PREFIX <= i.header
  {
    var h := ToQuotes(i.header);
    assert i.header[|i.header| - 2..][0] == '.';
    PrefixInText(h, "\"" + FixedRest(i));
    assert FixedText(i) == INCLUDE + "\"" + h + ("\"" + FixedRest(i));
    QuotesKeepPrefix(i.header);
  }

  /** The header without a second prefix, as one reading of the fixed text. */
  function Shorter(i: Include): Include
    requires NS3_PREFIX <= i.header
  {
    Include('"', ToQuotes(i.header)[4..], '"', FixedRest(i))
  }

  lemma SecondPrefixGoes(h: string)
    requires |h| >= 2 && h[|h| - 2..] == ".h" && NS3_PREFIX <= h
    ensures |h| >= 6
    ensures var q := ToQuotes(h);
      q == NS3_PREFIX + q[4..] && |q[4..]| >= 2 && q[4..][|q[4..]| - 2..] == ".h"
  {
    assert h[|h| - 2] == h[|h| - 2..][0] && h[|h| - 1] == h[|h| - 2..][1];
    assert h[2] == '3' && h[3] == '/';
    var q := ToQuotes(h);
    QuotesKeepPrefix(h);
    assert q[..4] == NS3_PREFIX;
    assert q[4..][|q[4..]| - 2..] == [q[|h| - 2], q[|h| - 1]];
  }

  lemma Regroup(a: string, b: string, c: string, d: string)
    ensures a + (b + c) + d == a + b + c + d
  {
  }

  lemma ShorterIsReading(i: Include)
    requires i.Valid() && NS3_PREFIX <= i.header
    ensures Shorter(i).Valid() && FixedText(i) == Shorter(i).Text(NS3_PREFIX)
  {
    SecondPrefixGoes(i.header);
    Regroup(INCLUDE + "\"", NS3_PREFIX, Shorter(i).header, "\"");
  }

  /** The header that a line names by the prefix, if it names one. */
  function HeaderIn(line: string): string {
    var s := Strip(line);
    if IncludesNs3(s) && HeaderEnd(s, |s|) != 0 then Parts(s).header else ""
  }

  /** An offending line is read in one way, and this is what fixing makes of it. */
  lemma FixedLineIs(isLocal: string -> bool, line: string, number: nat) returns (i: Include)
    requires !CheckIncludeLine(isLocal, line, number).isCompliant
    ensures i == Parts(Strip(line)) && Reads(Strip(line), i) && HeaderIn(line) == i.header && isLocal(i.header)
    ensures CheckIncludeLine(isLocal, line, number).lineFixed == FixedText(i) + "\n"
    ensures Strip(FixedText(i) + "\n") == FixedText(i)
  {
    var s := Strip(line);
    i := Parts(s);
    var lead, trail := StripSplits(line);
    PartsAreRead(s);
    FixLeaves(s, i);
    FixedTextIsTrimmed(i);
  }

  /**
   Fixing an include prefix is not always done after one run.  A fixed line includes by the prefix
   again exactly if its header begins with the prefix once more, and then offends again exactly if the
   header that it names now lies beside the file as well.
   */
  lemma FixedIncludeOffendsAgain(isLocal: string -> bool, line: string, number: nat)
    requires !CheckIncludeLine(isLocal, line, number).isCompliant
    ensures var once := CheckIncludeLine(isLocal, line, number).lineFixed;
      && (IncludesNs3(Strip(once)) <==> NS3_PREFIX <= HeaderIn(line))
      && (!CheckIncludeLine(isLocal, once, number).isCompliant
          <==> NS3_PREFIX <= HeaderIn(line) && isLocal(HeaderIn(once)))
  {
    var i := FixedLineIs(isLocal, line, number);
    PrefixAgain(i);
    if NS3_PREFIX <= i.header {
      ShorterIsReading(i);
      TextParts(Shorter(i));
    }
  }

  /** Neither quotation marks nor brackets. */
  predicate Unquoted(s: string) {
    '"' !in s && '<' !in s && '>' !in s
  }

  /** Where neither the header nor the rest of the line is quoted, the header named next is the same without the prefix. */
  lemma NextHeader(isLocal: string -> bool, line: string, number: nat)
    requires !CheckIncludeLine(isLocal, line, number).isCompliant && NS3_PREFIX <= HeaderIn(line)
    requires Unquoted(HeaderIn(line)) && Unquoted(Parts(Strip(line)).rest)
    ensures HeaderIn(CheckIncludeLine(isLocal, line, number).lineFixed) == HeaderIn(line)[4..]
  {
    var i := FixedLineIs(isLocal, line, number);
    ShorterIsReading(i);
    RestIsUnquoted(i);
    OnlyReading(Shorter(i));
    ReadingIsFound(FixedText(i), Shorter(i));
  }

  lemma RestIsUnquoted(i: Include)
    requires i.Valid() && Unquoted(i.header) && Unquoted(i.rest)
    ensures ToQuotes(i.header) == i.header && Unquoted(FixedRest(i))
  {
    var pattern := NS3_PREFIX + i.header;
    ReplaceLacks(i.rest, pattern, i.header, '"');
    ReplaceLacks(i.rest, pattern, i.header, '<');
    ReplaceLacks(i.rest, pattern, i.header, '>');
    assert ToQuotes(ReplaceAll(i.rest, pattern, i.header)) == ReplaceAll(i.rest, pattern, i.header);
  }

  lemma NoEndInRest(i: Include)
    requires i.Valid() && Unquoted(i.rest)
    ensures forall f: nat :: HEADER_START + |i.header| < f ==> !EndsHeader(i.Text(NS3_PREFIX), f)
  {
    var s := i.Text(NS3_PREFIX);
    TextParts(i);
    forall f: nat | HEADER_START + |i.header| < f ensures !EndsHeader(s, f) {
      assert f < |s| ==> s[f] == i.rest[f - HEADER_START - |i.header| - 1];
    }
  }

  lemma OnlyReading(i: Include)
    requires i.Valid() && Unquoted(i.rest)
    ensures Reads(i.Text(NS3_PREFIX), i)
  {
    var s := i.Text(NS3_PREFIX);
    NoEndInRest(i);
    forall j: Include | j.Valid() && s == j.Text(NS3_PREFIX) ensures |j.header| <= |i.header| {
      TextParts(j);
    }
  }

  function IncludeLine(name: string): string {
    INCLUDE + "\"" + name + "\"" + "\n"
  }

  /** A plain line that names a local header by the prefix: only the prefix goes. */
  lemma SimpleInclude(isLocal: string -> bool, h: string, number: nat)
    requires |h| >= 2 && h[|h| - 2..] == ".h" && Unquoted(h) && isLocal(h)
    ensures !CheckIncludeLine(isLocal, IncludeLine(NS3_PREFIX + h), number).isCompliant
    ensures CheckIncludeLine(isLocal, IncludeLine(NS3_PREFIX + h), number).lineFixed == IncludeLine(h)
  {
    var i := Include('"', h, '"', "");
    var s := i.Text(NS3_PREFIX);
    assert s[0] == '#' && s[|s| - 1] == '"';
    StripLine(s);
    assert s + "\n" == IncludeLine(NS3_PREFIX + h);
    OnlyReading(i);
    ReadingIsFound(s, i);
    FixLeaves(s, i);
    RestIsUnquoted(i);
    assert FixedRest(i) == "";
    assert FixedText(i) + "\n" == IncludeLine(h);
  }

  /** A plain line that names a header without the prefix is left alone. */
  lemma NoPrefixIsCompliant(isLocal: string -> bool, h: string, number: nat)
    requires |h| >= 2 && h[|h| - 2..] == ".h" && !(NS3_PREFIX <= h)
    ensures CheckIncludeLine(isLocal, IncludeLine(h), number).isCompliant
  {
    var text := INCLUDE + "\"" + h + "\"";
    assert h[|h| - 2..][0] == '.';
    PrefixInText(h, "\"");
    assert text[0] == '#' && text[|text| - 1] == '"';
    StripLine(text);
  }

  /** A header below two directories of that name takes two fixes. */
  lemma TwoPrefixesTakeTwoFixes(isLocal: string -> bool, number: nat)
    requires isLocal("ns3/x.h") && isLocal("x.h")
    ensures var first := CheckIncludeLine(isLocal, IncludeLine("ns3/ns3/x.h"), number);
      !first.isCompliant && first.lineFixed == IncludeLine("ns3/x.h")
    ensures var second := CheckIncludeLine(isLocal, IncludeLine("ns3/x.h"), number);
      !second.isCompliant && second.lineFixed == IncludeLine("x.h")
    ensures CheckIncludeLine(isLocal, IncludeLine("x.h"), number).isCompliant
  {
    assert NS3_PREFIX + "ns3/x.h" == "ns3/ns3/x.h" && NS3_PREFIX + "x.h" == "ns3/x.h";
    SimpleInclude(isLocal, "ns3/x.h", number);
    SimpleInclude(isLocal, "x.h", number);
    NoPrefixIsCompliant(isLocal, "x.h", number);
  }

  /******* One fix of a file *******/

  /** Lines that are guards in neither list do not matter for what is enabled. */
  lemma GuardsDecide(lines: seq<string>, fixed: seq<string>, n: nat)
    requires |fixed| == |lines| && n <= |lines|
    requires forall i :: 0 <= i < |lines| ==> fixed[i] == lines[i] || (!IsGuard(fixed[i]) && !IsGuard(lines[i]))
    ensures EnabledAfter(fixed, n) == EnabledAfter(lines, n)
  {
    assert GuardsOf(fixed) == GuardsOf(lines);
  }

  lemma IncludeIsNoGuard(s: string)
    requires |s| > 0 && s[0] == '#'
    ensures s != GUARD_ON && s != GUARD_OFF
  {
  }

  /** Neither an offending line nor what it is fixed to is a guard. */
  lemma OffendersAreNoGuards(isLocal: string -> bool, line: string, number: nat)
    requires !CheckIncludeLine(isLocal, line, number).isCompliant
    ensures !IsGuard(line) && !IsGuard(CheckIncludeLine(isLocal, line, number).lineFixed)
  {
    var i := FixedLineIs(isLocal, line, number);
    assert Strip(line)[0] == '#' && FixedText(i)[0] == '#';
    IncludeIsNoGuard(Strip(line));
    IncludeIsNoGuard(FixedText(i));
  }

  /** The line includes by the prefix a header that begins with the prefix once more, and fixed names a local one. */
  predicate NeedsAnotherFix(isLocal: string -> bool, line: string, number: nat) {
    NS3_PREFIX <= HeaderIn(line) && isLocal(HeaderIn(CheckIncludeLine(isLocal, line, number).lineFixed))
  }

  /** After a fix the same lines are inspected, and only those that were fixed can offend, if they need another fix. */
  lemma OffendsAfterFix(isLocal: string -> bool, lines: seq<string>, fixed: seq<string>, k: nat)
    requires k < |lines| && fixed == FixedLines(lines, true, IncludeChecker(isLocal))
    ensures Offends(fixed, true, IncludeChecker(isLocal), k)
       <==> Offends(lines, true, IncludeChecker(isLocal), k) && NeedsAnotherFix(isLocal, lines[k], k)
  {
    var check := IncludeChecker(isLocal);
    forall i | 0 <= i < |lines|
      ensures fixed[i] == lines[i] || (!IsGuard(fixed[i]) && !IsGuard(lines[i]))
    {
      if Offends(lines, true, check, i) {
        OffendersAreNoGuards(isLocal, lines[i], i);
      }
    }
    GuardsDecide(lines, fixed, k + 1);
    if Offends(lines, true, check, k) {
      FixedIncludeOffendsAgain(isLocal, lines[k], k);
    }
  }

  /** One fix makes a file compliant exactly if none of the lines that offend needs another. */
  lemma OneFixIsEnough(isLocal: string -> bool, contents: string)
    ensures var lines, check := ReadLines(contents), IncludeChecker(isLocal);
      Compliant(ReadLines(FixContents(contents, true, check)), true, check)
      <==> forall k :: 0 <= k < |lines| && Offends(lines, true, check, k) ==> !NeedsAnotherFix(isLocal, lines[k], k)
  {
    var lines, check := ReadLines(contents), IncludeChecker(isLocal);
    var fixed := FixedLines(lines, true, check);
    IncludeIsHonest(isLocal);
    FixedFileReadsBack(contents, true, check);
    forall k | 0 <= k < |lines|
      ensures Offends(fixed, true, check, k) <==> Offends(lines, true, check, k) && NeedsAnotherFix(isLocal, lines[k], k)
    {
      OffendsAfterFix(isLocal, lines, fixed, k);
    }
  }

  /******* Repeated fixing ends *******/

  function Iterate<T>(step: T -> T, x: T, n: nat): T
    decreases n
  {
    if n == 0 then x else Iterate(step, step(x), n - 1)
  }

  /** Steps that make something smaller until it is done come to an end. */
  lemma {:induction false} IterationEnds<T(!new)>(step: T -> T, done: T -> bool, size: T -> nat, x: T) returns (n: nat)
    requires forall y :: !done(y) ==> size(step(y)) < size(y)
    ensures n <= size(x) && done(Iterate(step, x, n))
    decreases size(x)
  {
    if done(x) {
      n := 0;
    } else {
      n := IterationEnds(step, done, size, step(x));
      n := n + 1;
    }
  }

  lemma {:induction false} ShorterLines(fixed: seq<string>, lines: seq<string>, k: nat)
    requires |fixed| == |lines| && forall i :: 0 <= i < |lines| ==> |fixed[i]| <= |lines[i]|
    ensures |WriteLines(fixed)| <= |WriteLines(lines)|
    ensures k < |lines| && |fixed[k]| < |lines[k]| ==> |WriteLines(fixed)| < |WriteLines(lines)|
  {
    if lines != [] {
      ShorterLines(fixed[1..], lines[1..], if k > 0 then k - 1 else |lines|);
    }
  }

  function FixOnce(isLocal: string -> bool): string -> string {
    contents => FixContents(contents, true, IncludeChecker(isLocal))
  }

  function IsFixed(isLocal: string -> bool): string -> bool {
    contents => Compliant(ReadLines(contents), true, IncludeChecker(isLocal))
  }

  function Size(): string -> nat {
    contents => |WriteLines(ReadLines(contents))|
  }

  lemma {:induction false} FixShortens(isLocal: string -> bool, contents: string, k: nat)
    requires k < |ReadLines(contents)| && Offends(ReadLines(contents), true, IncludeChecker(isLocal), k)
    ensures Size()(FixOnce(isLocal)(contents)) < Size()(contents)
  {
    var check, lines := IncludeChecker(isLocal), ReadLines(contents);
    var fixed := FixedLines(lines, true, check);
    IncludeIsHonest(isLocal);
    FixedFileReadsBack(contents, true, check);
    forall i | 0 <= i < |lines|
      ensures |fixed[i]| <= |lines[i]| && (Offends(lines, true, check, i) ==> |fixed[i]| < |lines[i]|)
    {
      if Offends(lines, true, check, i) {
        IncludeFixShortens(isLocal, lines[i], i);
      }
    }
    ShorterLines(fixed, lines, k);
  }

  /** Fixed over and over, a file becomes compliant, after no more fixes than it has characters. */
  lemma FixingEnds(isLocal: string -> bool, contents: string) returns (n: nat)
    ensures n <= Size()(contents) && IsFixed(isLocal)(Iterate(FixOnce(isLocal), contents, n))
  {
    forall c | !IsFixed(isLocal)(c) ensures Size()(FixOnce(isLocal)(c)) < Size()(c) {
      var k :| 0 <= k < |ReadLines(c)| && Offends(ReadLines(c), true, IncludeChecker(isLocal), k);
      FixShortens(isLocal, c, k);
    }
    n := IterationEnds(FixOnce(isLocal), IsFixed(isLocal), Size(), contents);
  }
}
