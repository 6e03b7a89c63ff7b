/** Printing undoes parsing, and parsing undoes printing: exactly when. */
module ReleaseRoundTrip {
  import opened Wrappers
  import opened TextLines
  import opened Decimal
  import opened ReleaseNotes

  /** What the parser keeps true of its state. */
  ghost predicate StateOk(st: State) {
    && (st.issues == [] ==> st.epilog == [])
    && (forall k :: 0 <= k < |st.issues| ==> IsNumber(st.issues[k]))
    && (st.pending.Some? ==> NL !in st.pending.value)
    && (st.version.Some? ==> NL !in st.version.value)
    && (st.needline.None? ==> st.pending.None?)
    && (st.needline.Some? ==> st.needline.value != "")
  }

  /** The lines that printing the open section gives. */
  function Open(st: State): seq<string> {
    PrintSection(Last(st))
  }

  /** The lines that come out when the rest of the text is parsed and all is printed. */
  function Output(st: State, lines: seq<string>): seq<string> {
    PrintAll(ParseFrom(st, lines))
  }

  lemma OutputStep(st: State, lines: seq<string>)
    requires lines != []
    ensures var p := ParseLine(st, lines[0]);
      Output(st, lines) ==
      (if p.finished.Some? then PrintSection(p.finished.value) else []) + Output(p.state, lines[1..])
  {
    var p := ParseLine(st, lines[0]);
    var rest := ParseFrom(p.state, lines[1..]);
    if p.finished.Some? {
      assert ([p.finished.value] + rest)[1..] == rest;
    } else {
      assert [] + rest == rest;
    }
  }

  lemma OutputOfNothing(st: State)
    ensures Output(st, []) == Open(st)
  {
    assert ParseFrom(st, []) == [Last(st)] && [Last(st)][1..] == [];
    assert PrintAll([Last(st)]) == PrintSection(Last(st)) + PrintAll([]);
    assert PrintSection(Last(st)) + [] == PrintSection(Last(st));
  }

  /** A line that is not swallowed is printed again, after what came before it. */
  lemma ContentPrints(st: State, line: string)
    requires StateOk(st)
    ensures Open(Content(st, line)) == Open(st) + [line]
    ensures StateOk(Content(st, line))
    ensures Content(st, line).needline == st.needline && Content(st, line).pending == st.pending
  {
    var t := Content(st, line);
    if st.epilog == [] && IssueNumber(line).Some? {
      IssueLineOfIssueNumber(line);
      IssueLinesConcat(st.issues, [IssueNumber(line).value]);
      assert IssueLines([IssueNumber(line).value]) == [line];
    } else if st.issues == [] {
      assert IssueLines([]) == [];
    }
  }

  lemma StepKeepsStateOk(st: State, line: string)
    requires StateOk(st) && IsLine(line)
    ensures StateOk(ParseLine(st, line).state)
  {
    ContentPrints(st, line);
    ContentPrints(CancelTitle(st), line);
  }

  /** The lines that an expected title frame can still add to the output. */
  function Owed(st: State): nat {
    if !Truthy(st.needline) then 0 else if Truthy(st.pending) then 2 else 1
  }

  /** One line adds at most itself to what is open, and takes from what is owed. */
  lemma StepOpens(st: State, line: string)
    requires StateOk(st)
    ensures var p := ParseLine(st, line);
      && (p.finished.Some? ==>
            && PrintSection(p.finished.value) == Open(st)
            && |Open(p.state)| + Owed(p.state) <= 1 + Owed(st))
      && (p.finished.None? ==>
            && Open(st) <= Open(p.state)
            && |Open(p.state)| + Owed(p.state) <= |Open(st)| + 1 + Owed(st))
  {
    ContentPrints(st, line);
    ContentPrints(CancelTitle(st), line);
    assert Open(CancelTitle(st)) == Open(st);
    assert |TitleLines(st.pending)| <= 3;
  }

  /** Parsing and printing never makes a text longer. */
  lemma {:induction false} OutputBound(st: State, lines: seq<string>)
    requires StateOk(st) && forall k :: 0 <= k < |lines| ==> IsLine(lines[k])
    ensures |Output(st, lines)| <= |Open(st)| + |lines| + Owed(st)
    decreases |lines|
  {
    if lines == [] {
      OutputOfNothing(st);
    } else {
      hide Output, Open, ParseLine, Owed;
      OutputStep(st, lines);
      StepKeepsStateOk(st, lines[0]);
      StepOpens(st, lines[0]);
      OutputBound(ParseLine(st, lines[0]).state, lines[1..]);
    }
  }

  /** What is already in the open section comes out first. */
  lemma {:induction false} OutputStarts(st: State, lines: seq<string>)
    requires StateOk(st) && forall k :: 0 <= k < |lines| ==> IsLine(lines[k])
    ensures Open(st) <= Output(st, lines)
    decreases |lines|
  {
    if lines == [] {
      OutputOfNothing(st);
    } else {
      hide Output, Open, ParseLine, Owed;
      OutputStep(st, lines);
      StepKeepsStateOk(st, lines[0]);
      StepOpens(st, lines[0]);
      OutputStarts(ParseLine(st, lines[0]).state, lines[1..]);
    }
  }

  // ----- Printing after parsing -----

  /** The text starts with a title frame of exactly the width that is printed. */
  predicate ExactFrame(lines: seq<string>) {
    && |lines| >= 3
    && IsOverline(lines[0])
    && |lines[0]| >= 16
    && TitleVersion(lines[1], |lines[0]| - 15).Some?
    && |TitleVersion(lines[1], |lines[0]| - 15).value| == |lines[0]| - 15
    && lines[2] == lines[0]
  }

  /** Every line of '=' signs belongs to an exact title frame. */
  predicate FramesExact(lines: seq<string>)
    decreases |lines|
  {
    lines == [] ||
    if IsOverline(lines[0]) then ExactFrame(lines) && FramesExact(lines[3..])
    else FramesExact(lines[1..])
  }

  lemma OverlineIsBar(line: string)
    requires IsOverline(line)
    ensures line == Bar(|line| - 1) + [NL] && line[..|line| - 1] + [NL] == line && line[..|line| - 1] != ""
  {
  }

  lemma TitleVersionIsTitle(line: string, maxlen: int)
    requires TitleVersion(line, maxlen).Some?
    ensures var v := TitleVersion(line, maxlen).value;
      v + TITLE_END == line && NL !in v && (maxlen >= 0 ==> |v| <= maxlen) && !IsOverline(line)
  {
    var v := TitleVersion(line, maxlen).value;
    assert line == v + line[|line| - |TITLE_END|..];
    TitleIsNoOverline(v);
  }

  /** The frame of a title: overline, title with a version, the same line again. */
  predicate ReadsAsFrame(lines: seq<string>) {
    && |lines| >= 3
    && IsOverline(lines[0])
    && Truthy(TitleVersion(lines[1], |lines[0]| - 15))
    && lines[2] == lines[0]
  }

  /** A frame ends the open section and starts the one its title names. */
  lemma FrameSplits(st: State, lines: seq<string>)
    requires st.needline.None? && st.pending.None? && ReadsAsFrame(lines)
    ensures ParseFrom(st, lines) ==
            [Last(st)] + ParseFrom(Fresh(TitleVersion(lines[1], |lines[0]| - 15)), lines[3..])
  {
    OverlineIsBar(lines[0]);
    var v := TitleVersion(lines[1], |lines[0]| - 15);
    TitleVersionIsTitle(lines[1], |lines[0]| - 15);
    var st1 := st.(needline := Some(lines[0][..|lines[0]| - 1]));
    var st2 := st1.(pending := v);
    assert ParseLine(st, lines[0]) == Parsed(st1, None);
    assert ParseLine(st1, lines[1]) == Parsed(st2, None);
    assert ParseLine(st2, lines[2]) == Parsed(Fresh(v), Some(Last(st)));
    hide ParseLine;
    assert ParseFrom(st, lines) == [] + ParseFrom(st1, lines[1..]) == ParseFrom(st1, lines[1..]);
    assert lines[1..][0] == lines[1] && lines[1..][1..] == lines[2..];
    assert ParseFrom(st1, lines[1..]) == [] + ParseFrom(st2, lines[2..]) == ParseFrom(st2, lines[2..]);
    assert lines[2..][0] == lines[2] && lines[2..][1..] == lines[3..];
  }

  lemma FrameParses(st: State, lines: seq<string>)
    requires st.needline.None? && st.pending.None? && ReadsAsFrame(lines)
    ensures Output(st, lines) == Open(st) + Output(Fresh(TitleVersion(lines[1], |lines[0]| - 15)), lines[3..])
  {
    FrameSplits(st, lines);
    var rest := ParseFrom(Fresh(TitleVersion(lines[1], |lines[0]| - 15)), lines[3..]);
    assert ([Last(st)] + rest)[1..] == rest;
  }

  /** After an overline that starts no frame, some line is lost. */
  lemma BrokenFrameLoses(st: State, lines: seq<string>)
    requires StateOk(st) && st.needline.None? && forall k :: 0 <= k < |lines| ==> IsLine(lines[k])
    requires lines != [] && IsOverline(lines[0]) && !ReadsAsFrame(lines)
    ensures |Output(st, lines)| < |Open(st)| + |lines|
  {
    OverlineIsBar(lines[0]);
    var st1 := st.(needline := Some(lines[0][..|lines[0]| - 1]));
    OutputStep(st, lines);
    assert ParseLine(st, lines[0]) == Parsed(st1, None);
    var r := lines[1..];
    if r == [] {
      OutputOfNothing(st1);
    } else {
      var p := ParseLine(st1, r[0]);
      OutputStep(st1, r);
      StepKeepsStateOk(st1, r[0]);
      ContentPrints(CancelTitle(st1), r[0]);
      if !IsOverline(r[0]) && Truthy(TitleVersion(r[0], |lines[0]| - 15)) {
        TitleWithoutUnderline(p.state, r[1..]);
      } else {
        OutputBound(p.state, r[1..]);
      }
    }
  }

  /** A title line whose underline does not follow is lost with its overline. */
  lemma TitleWithoutUnderline(st: State, lines: seq<string>)
    requires StateOk(st) && Truthy(st.needline) && Truthy(st.pending)
    requires forall k :: 0 <= k < |lines| ==> IsLine(lines[k])
    requires lines != [] ==> lines[0] != st.needline.value + [NL]
    ensures |Output(st, lines)| <= |Open(st)| + |lines|
  {
    if lines == [] {
      OutputOfNothing(st);
    } else {
      OutputStep(st, lines);
      ContentPrints(CancelTitle(st), lines[0]);
      OutputBound(Content(CancelTitle(st), lines[0]), lines[1..]);
    }
  }

  lemma OpenOfFresh(version: Option<string>)
    ensures Open(Fresh(version)) == TitleLines(version)
  {
  }

  /** Outside a frame, a line that is no overline is content. */
  lemma PlainLine(st: State, lines: seq<string>)
    requires StateOk(st) && st.needline.None? && lines != [] && !IsOverline(lines[0])
    ensures StateOk(Content(st, lines[0])) && Content(st, lines[0]).needline.None?
    ensures Output(st, lines) == Output(Content(st, lines[0]), lines[1..])
    ensures Open(st) + lines == Open(Content(st, lines[0])) + lines[1..]
  {
    hide Output, Open;
    OutputStep(st, lines);
    ContentPrints(st, lines[0]);
    assert [] + Output(Content(st, lines[0]), lines[1..]) == Output(Content(st, lines[0]), lines[1..]);
    assert Open(st) + lines == Open(st) + [lines[0]] + lines[1..];
  }

  /** From a state outside a frame: the text comes back exactly if its frames are exact. */
  lemma {:induction false} OutputExact(st: State, lines: seq<string>)
    requires StateOk(st) && st.needline.None? && forall k :: 0 <= k < |lines| ==> IsLine(lines[k])
    ensures Output(st, lines) == Open(st) + lines <==> FramesExact(lines)
    decreases |lines|
  {
    if lines == [] {
      OutputOfNothing(st);
    } else if !IsOverline(lines[0]) {
      hide Output, Open, Content;
      PlainLine(st, lines);
      OutputExact(Content(st, lines[0]), lines[1..]);
    } else if ReadsAsFrame(lines) {
      hide Output, Open;
      var v := TitleVersion(lines[1], |lines[0]| - 15);
      FrameExact(st, lines);
      OpenOfFresh(v);
      OutputExact(Fresh(v), lines[3..]);
      SameFrame(st, lines);
    } else {
      hide Output, Open;
      BrokenFrameLoses(st, lines);
      ExactReadsAsFrame(lines);
    }
  }

  lemma ExactReadsAsFrame(lines: seq<string>)
    ensures ExactFrame(lines) ==> ReadsAsFrame(lines)
  {
  }

  /** A frame that is printed back unchanged has the exact width, and the other way round. */
  lemma FrameExact(st: State, lines: seq<string>)
    requires ReadsAsFrame(lines) && forall k :: 0 <= k < |lines| ==> IsLine(lines[k])
    ensures StateOk(Fresh(TitleVersion(lines[1], |lines[0]| - 15)))
    ensures TitleLines(TitleVersion(lines[1], |lines[0]| - 15)) == lines[..3] <==> ExactFrame(lines)
  {
    var v := TitleVersion(lines[1], |lines[0]| - 15);
    TitleVersionIsTitle(lines[1], |lines[0]| - 15);
    OverlineIsBar(lines[0]);
    assert lines[..3] == [lines[0], lines[1], lines[2]];
    assert |Bar(|v.value| + 14) + [NL]| == |v.value| + 15;
  }

  lemma SameFrame(st: State, lines: seq<string>)
    requires StateOk(st) && st.needline.None? && ReadsAsFrame(lines) && forall k :: 0 <= k < |lines| ==> IsLine(lines[k])
    ensures var v := TitleVersion(lines[1], |lines[0]| - 15);
      Output(st, lines) == Open(st) + lines <==>
      TitleLines(v) == lines[..3] && Output(Fresh(v), lines[3..]) == TitleLines(v) + lines[3..]
  {
    var v := TitleVersion(lines[1], |lines[0]| - 15);
    FrameParses(st, lines);
    FrameExact(st, lines);
    OutputStarts(Fresh(v), lines[3..]);
    var out := Output(Fresh(v), lines[3..]);
    assert |TitleLines(v)| == 3 && out[..3] == TitleLines(v);
    assert lines == lines[..3] + lines[3..];
    if Open(st) + out == Open(st) + lines {
      assert out == (Open(st) + out)[|Open(st)|..] == (Open(st) + lines)[|Open(st)|..] == lines;
    }
  }

  // ----- On whole texts -----

  /** What one line makes of the open section. */
  lemma StepOpenIs(st: State, line: string)
    requires StateOk(st) && IsLine(line)
    ensures var p := ParseLine(st, line);
      && (p.finished.Some? ==>
            PrintSection(p.finished.value) == Open(st) && Open(p.state) == TitleLines(st.pending) && Ended(line))
      && (p.finished.None? ==> Open(p.state) == Open(st) || Open(p.state) == Open(st) + [line])
  {
    ContentPrints(st, line);
    ContentPrints(CancelTitle(st), line);
    assert Open(CancelTitle(st)) == Open(st);
  }

  /** The output is again what a file yields. */
  lemma {:induction false} OutputFileLines(st: State, lines: seq<string>)
    requires StateOk(st) && EndedLines(Open(st)) && FileLines(lines)
    ensures FileLines(Output(st, lines))
    decreases |lines|
  {
    if lines == [] {
      OutputOfNothing(st);
    } else {
      var p := ParseLine(st, lines[0]);
      OutputStep(st, lines);
      StepOpenIs(st, lines[0]);
      StepKeepsStateOk(st, lines[0]);
      TitleLinesEnded(st.pending);
      hide Output, Open, ParseLine;
      if Ended(lines[0]) {
        FileLinesTail(lines);
        OutputFileLines(p.state, lines[1..]);
        if p.finished.Some? {
          FileLinesConcat(Open(st), Output(p.state, lines[1..]));
        } else {
          assert [] + Output(p.state, lines[1..]) == Output(p.state, lines[1..]);
        }
      } else {
        assert lines[1..] == [];
        OutputOfNothing(p.state);
        assert [] + Open(p.state) == Open(p.state);
        FileLinesConcat(Open(st), [lines[0]]);
        assert Open(st) + [] == Open(st);
      }
    }
  }

  lemma FreshOk(version: Option<string>)
    requires version.Some? ==> NL !in version.value
    ensures StateOk(Fresh(version)) && Open(Fresh(version)) == TitleLines(version) && EndedLines(Open(Fresh(version)))
  {
    TitleLinesEnded(version);
  }

  /** Printing the parsed text: the lines come back exactly if the text comes back. */
  lemma PrintOfParse(text: string)
    ensures Print(ParseLines(Lines(text))) == Join(Output(Fresh(None), Lines(text)))
    ensures Print(ParseLines(Lines(text))) == text <==> Output(Fresh(None), Lines(text)) == Lines(text)
  {
    var lines := Lines(text);
    JoinOfLines(text);
    JoinOfPrintAll(ParseFrom(Fresh(None), lines));
    FreshOk(None);
    OutputFileLines(Fresh(None), lines);
    if Join(Output(Fresh(None), lines)) == text {
      JoinInjective(Output(Fresh(None), lines), lines);
    }
  }

  /** Printing undoes parsing exactly on the texts whose lines of '=' all sit in exact frames. */
  lemma PrintUndoesParse(text: string)
    ensures Print(ParseLines(Lines(text))) == text <==> FramesExact(Lines(text))
  {
    JoinOfLines(text);
    PrintOfParse(text);
    FreshOk(None);
    OutputExact(Fresh(None), Lines(text));
    assert [] + Lines(text) == Lines(text);
  }

  // ----- Parsing after printing -----

  function Split(r: Release): Section {
    Section(r.version, Lines(r.description), r.issues, Lines(r.epilog))
  }

  function SplitAll(rs: seq<Release>): (ss: seq<Section>)
    ensures |ss| == |rs| && forall k :: 0 <= k < |rs| ==> ss[k] == Split(rs[k])
  {
    seq(|rs|, k requires 0 <= k < |rs| => Split(rs[k]))
  }

  predicate NoOverline(ls: seq<string>) {
    forall k :: 0 <= k < |ls| ==> !IsOverline(ls[k])
  }

  predicate NoIssue(ls: seq<string>) {
    forall k :: 0 <= k < |ls| ==> IssueNumber(ls[k]).None?
  }

  /**
   The titles, issues and line ends of a section that can be read back: only the first one has
   no title; no issue line where one would be taken for an issue; an epilog only after issues;
   and every line before another one ends with a newline.
   */
  predicate SoundSection(s: Section, first: bool, last: bool) {
    && (if first then s.version.None? else Truthy(s.version) && NL !in s.version.value)
    && (forall k :: 0 <= k < |s.issues| ==> IsNumber(s.issues[k]))
    && NoIssue(s.description)
    && (s.epilog != [] ==> s.issues != [] && IssueNumber(s.epilog[0]).None?)
    && FileLines(s.description) && FileLines(s.epilog)
    && (s.issues != [] || !last ==> EndedLines(s.description))
    && (!last ==> EndedLines(s.epilog))
  }

  /** A section that can be read back also has no line of '=' in its texts. */
  predicate GoodSection(s: Section, first: bool, last: bool) {
    SoundSection(s, first, last) && NoOverline(s.description) && NoOverline(s.epilog)
  }

  predicate GoodSections(ss: seq<Section>, first: bool) {
    ss != [] && forall k :: 0 <= k < |ss| ==> GoodSection(ss[k], first && k == 0, k == |ss| - 1)
  }

  predicate WellFormed(rs: seq<Release>) {
    GoodSections(SplitAll(rs), true)
  }

  lemma GoodSectionsCons(s: Section, ss: seq<Section>, first: bool)
    requires GoodSection(s, first, false) && GoodSections(ss, false)
    ensures GoodSections([s] + ss, first)
  {
    var all := [s] + ss;
    forall k | 0 <= k < |all|
      ensures GoodSection(all[k], first && k == 0, k == |all| - 1)
    {
      if k > 0 { assert all[k] == ss[k - 1]; }
    }
  }

  lemma GoodSectionsTail(ss: seq<Section>, first: bool)
    requires GoodSections(ss, first) && |ss| > 1
    ensures GoodSections(ss[1..], false)
  {
    forall k | 0 <= k < |ss[1..]|
      ensures GoodSection(ss[1..][k], false, k == |ss[1..]| - 1)
    {
      assert ss[1..][k] == ss[k + 1];
    }
  }

  lemma ParseOneLine(st: State, line: string, rest: seq<string>)
    requires st.needline.None? && st.pending.None? && !IsOverline(line)
    ensures ParseFrom(st, [line] + rest) == ParseFrom(Content(st, line), rest)
  {
    assert ([line] + rest)[1..] == rest;
    assert ParseLine(st, line) == Parsed(Content(st, line), None);
    assert [] + ParseFrom(Content(st, line), rest) == ParseFrom(Content(st, line), rest);
  }

  lemma {:induction false} ParseDescription(st: State, ls: seq<string>, rest: seq<string>)
    requires st.needline.None? && st.pending.None? && st.issues == [] && st.epilog == []
    requires NoOverline(ls) && NoIssue(ls)
    ensures ParseFrom(st, ls + rest) == ParseFrom(st.(description := st.description + ls), rest)
    decreases |ls|
  {
    hide ParseFrom;
    if ls == [] {
      assert ls + rest == rest && st.description + ls == st.description;
    } else {
      assert ls + rest == [ls[0]] + (ls[1..] + rest);
      ParseOneLine(st, ls[0], ls[1..] + rest);
      ParseDescription(Content(st, ls[0]), ls[1..], rest);
      assert st.description + [ls[0]] + ls[1..] == st.description + ls;
    }
  }

  lemma {:induction false} ParseIssues(st: State, issues: seq<string>, rest: seq<string>)
    requires st.needline.None? && st.pending.None? && st.epilog == []
    requires forall k :: 0 <= k < |issues| ==> IsNumber(issues[k])
    ensures ParseFrom(st, IssueLines(issues) + rest) == ParseFrom(st.(issues := st.issues + issues), rest)
    decreases |issues|
  {
    hide ParseFrom;
    if issues == [] {
      assert IssueLines(issues) + rest == rest && st.issues + issues == st.issues;
    } else {
      IssueNumberOfIssueLine(issues[0]);
      IssueLineIsLine(issues[0]);
      assert IssueLines(issues) + rest == [IssueLine(issues[0])] + (IssueLines(issues[1..]) + rest);
      ParseOneLine(st, IssueLine(issues[0]), IssueLines(issues[1..]) + rest);
      hide IssueLine, IssueNumber;
      ParseIssues(Content(st, IssueLine(issues[0])), issues[1..], rest);
      assert st.issues + [issues[0]] + issues[1..] == st.issues + issues;
    }
  }

  lemma {:induction false} ParseEpilog(st: State, ls: seq<string>, rest: seq<string>)
    requires st.needline.None? && st.pending.None? && st.issues != []
    requires NoOverline(ls) && (ls != [] && st.epilog == [] ==> IssueNumber(ls[0]).None?)
    ensures ParseFrom(st, ls + rest) == ParseFrom(st.(epilog := st.epilog + ls), rest)
    decreases |ls|
  {
    hide ParseFrom;
    if ls == [] {
      assert ls + rest == rest && st.epilog + ls == st.epilog;
    } else {
      assert ls + rest == [ls[0]] + (ls[1..] + rest);
      ParseOneLine(st, ls[0], ls[1..] + rest);
      ParseEpilog(Content(st, ls[0]), ls[1..], rest);
      assert st.epilog + [ls[0]] + ls[1..] == st.epilog + ls;
    }
  }

  function Body(s: Section): seq<string> {
    s.description + IssueLines(s.issues) + s.epilog
  }

  lemma ParseBody(s: Section, rest: seq<string>, first: bool, last: bool)
    requires GoodSection(s, first, last)
    ensures ParseFrom(Fresh(s.version), Body(s) + rest) ==
            ParseFrom(State(None, None, s.version, s.description, s.issues, s.epilog), rest)
  {
    var st := Fresh(s.version);
    assert Body(s) + rest == s.description + (IssueLines(s.issues) + (s.epilog + rest));
    assert [] + s.description == s.description && [] + s.issues == s.issues && [] + s.epilog == s.epilog;
    hide ParseFrom;
    ParseDescription(st, s.description, IssueLines(s.issues) + (s.epilog + rest));
    var st1 := st.(description := st.description + s.description);
    ParseIssues(st1, s.issues, s.epilog + rest);
    var st2 := st1.(issues := st1.issues + s.issues);
    if s.epilog == [] {
      assert s.epilog + rest == rest;
    } else {
      ParseEpilog(st2, s.epilog, rest);
    }
  }

  lemma TitleReadsAsFrame(version: Option<string>, rest: seq<string>)
    requires Truthy(version) && NL !in version.value
    ensures var lines := TitleLines(version) + rest;
      ReadsAsFrame(lines) && TitleVersion(lines[1], |lines[0]| - 15) == version && lines[3..] == rest
  {
    TitleVersionOfTitle(version.value, |version.value|);
  }

  lemma Regroup(a: seq<string>, b: seq<string>, c: seq<string>, d: seq<string>, e: seq<string>)
    ensures (a + b + c + d) + e == a + ((b + c + d) + e)
  {
  }

  lemma PrintAllSplit(ss: seq<Section>)
    requires ss != []
    ensures PrintAll(ss) == TitleLines(ss[0].version) + (Body(ss[0]) + PrintAll(ss[1..]))
  {
    var s := ss[0];
    Regroup(TitleLines(s.version), s.description, IssueLines(s.issues), s.epilog, PrintAll(ss[1..]));
  }

  /** The lines after a section are its successor's, starting with a title frame. */
  lemma NextSection(ss: seq<Section>, first: bool)
    requires GoodSections(ss, first) && |ss| > 1
    ensures var t := ss[1]; var after := Body(t) + PrintAll(ss[2..]);
      && PrintAll(ss[1..]) == TitleLines(t.version) + after
      && ReadsAsFrame(PrintAll(ss[1..]))
      && TitleVersion(PrintAll(ss[1..])[1], |PrintAll(ss[1..])[0]| - 15) == t.version
      && PrintAll(ss[1..])[3..] == after
  {
    assert GoodSection(ss[1], first && 1 == 0, 1 == |ss| - 1);
    PrintAllSplit(ss[1..]);
    assert ss[1..][1..] == ss[2..];
    TitleReadsAsFrame(ss[1].version, Body(ss[1]) + PrintAll(ss[2..]));
  }

  lemma ParseNothing(st: State)
    ensures ParseFrom(st, []) == [Last(st)]
  {
  }

  /** Sections that can be read back are read back. */
  lemma {:induction false} ParseOfPrinted(ss: seq<Section>, first: bool)
    requires GoodSections(ss, first)
    ensures ParseFrom(Fresh(ss[0].version), Body(ss[0]) + PrintAll(ss[1..])) == ss
  {
    hide ParseFrom, PrintAll, ReadsAsFrame, TitleVersion, TitleLines, Body, GoodSection;
    var s := ss[0];
    var rest := PrintAll(ss[1..]);
    assert GoodSection(s, first && 0 == 0, 0 == |ss| - 1);
    ParseBody(s, rest, first, |ss| == 1);
    var st := State(None, None, s.version, s.description, s.issues, s.epilog);
    if |ss| == 1 {
      PrintNothing(ss[1..]);
      ParseNothing(st);
      assert ss == [s];
    } else {
      GoodSectionsTail(ss, first);
      ParseOfPrinted(ss[1..], false);
      assert ss[1..][1..] == ss[2..];
      NextSection(ss, first);
      FrameSplits(st, rest);
      assert ss == [s] + ss[1..];
    }
  }

  lemma PrintNothing(ss: seq<Section>)
    requires ss == []
    ensures PrintAll(ss) == []
  {
  }

  /** A parsed text with exact frames has only sections that can be read back. */
  lemma {:induction false} ParsedIsGood(st: State, lines: seq<string>, first: bool)
    requires st.needline.None? && st.pending.None? && GoodSection(Last(st), first, false)
    requires FileLines(lines) && FramesExact(lines)
    ensures GoodSections(ParseFrom(st, lines), first)
    decreases |lines|
  {
    hide ParseFrom;
    if lines == [] {
      ParseNothing(st);
    } else if IsOverline(lines[0]) {
      hide GoodSection, GoodSections;
      var v := TitleVersion(lines[1], |lines[0]| - 15);
      ExactReadsAsFrame(lines);
      FrameSplits(st, lines);
      AfterFrame(lines);
      ParsedIsGood(Fresh(v), lines[3..], false);
      GoodSectionsCons(Last(st), ParseFrom(Fresh(v), lines[3..]), first);
    } else {
      assert lines == [lines[0]] + lines[1..];
      ParseOneLine(st, lines[0], lines[1..]);
      ContentIsGood(st, lines[0], first);
      var next := Content(st, lines[0]);
      if |lines| == 1 {
        assert lines[1..] == [];
        ParseNothing(next);
      } else {
        FileLinesTail(lines);
        ParsedIsGood(next, lines[1..], first);
      }
    }
  }

  lemma AfterFrame(lines: seq<string>)
    requires FileLines(lines) && ExactFrame(lines)
    ensures FileLines(lines[3..])
    ensures GoodSection(Last(Fresh(TitleVersion(lines[1], |lines[0]| - 15))), false, false)
  {
    TitleVersionIsTitle(lines[1], |lines[0]| - 15);
    FileLinesTail(lines);
    FileLinesTail(lines[1..]);
    FileLinesTail(lines[1..][1..]);
    assert lines[1..][1..][1..] == lines[3..];
  }

  lemma ContentIsGood(st: State, line: string, first: bool)
    requires GoodSection(Last(st), first, false) && IsLine(line) && !IsOverline(line)
    ensures GoodSection(Last(Content(st, line)), first, true)
    ensures Ended(line) ==> GoodSection(Last(Content(st, line)), first, false)
    ensures Content(st, line).needline == st.needline && Content(st, line).pending == st.pending
  {
    if st.epilog == [] && IssueNumber(line).Some? {
      IssueLineOfIssueNumber(line);
    } else if st.issues == [] {
      FileLinesConcat(st.description, [line]);
    } else {
      FileLinesConcat(st.epilog, [line]);
    }
  }

  lemma SplitOfJoined(ss: seq<Section>, first: bool)
    requires GoodSections(ss, first)
    ensures SplitAll(JoinAll(ss)) == ss
  {
    forall k | 0 <= k < |ss|
      ensures Split(Joined(ss[k])) == ss[k]
    {
      assert GoodSection(ss[k], first && k == 0, k == |ss| - 1);
      LinesOfJoin(ss[k].description);
      LinesOfJoin(ss[k].epilog);
    }
  }

  lemma JoinedOfSplit(rs: seq<Release>)
    ensures JoinAll(SplitAll(rs)) == rs
  {
    forall k | 0 <= k < |rs|
      ensures Joined(Split(rs[k])) == rs[k]
    {
      JoinOfLines(rs[k].description);
      JoinOfLines(rs[k].epilog);
    }
  }

  lemma GoodSectionPrintsLines(s: Section, first: bool, last: bool)
    requires GoodSection(s, first, last)
    ensures FileLines(PrintSection(s)) && (!last ==> EndedLines(PrintSection(s)))
  {
    TitleLinesEnded(s.version);
    IssueLinesEnded(s.issues);
    var front := TitleLines(s.version);
    if s.issues == [] {
      FileLinesConcat(front, s.description);
      assert PrintSection(s) == front + s.description;
    } else {
      FileLinesConcat(front + s.description + IssueLines(s.issues), s.epilog);
    }
  }

  lemma {:induction false} GoodSectionsPrintLines(ss: seq<Section>, first: bool)
    requires GoodSections(ss, first)
    ensures FileLines(PrintAll(ss))
  {
    assert GoodSection(ss[0], first && 0 == 0, 0 == |ss| - 1);
    GoodSectionPrintsLines(ss[0], first, |ss| == 1);
    if |ss| == 1 {
      assert ss[1..] == [] && PrintAll(ss) == PrintSection(ss[0]) + [] == PrintSection(ss[0]);
    } else {
      GoodSectionsTail(ss, first);
      GoodSectionsPrintLines(ss[1..], false);
      FileLinesConcat(PrintSection(ss[0]), PrintAll(ss[1..]));
    }
  }

  /** The lines of printed well-formed releases are the lines of their sections. */
  lemma LinesOfPrint(rs: seq<Release>)
    requires WellFormed(rs)
    ensures Lines(Print(rs)) == PrintAll(SplitAll(rs))
  {
    var ss := SplitAll(rs);
    JoinedOfSplit(rs);
    JoinOfPrintAll(ss);
    GoodSectionsPrintLines(ss, true);
    LinesOfJoin(PrintAll(ss));
  }

  lemma WellFormedParsesBack(rs: seq<Release>)
    requires WellFormed(rs)
    ensures ParseLines(Lines(Print(rs))) == rs
  {
    var ss := SplitAll(rs);
    LinesOfPrint(rs);
    JoinedOfSplit(rs);
    assert GoodSection(ss[0], true && 0 == 0, 0 == |ss| - 1);
    assert PrintAll(ss) == Body(ss[0]) + PrintAll(ss[1..]) by {
      assert TitleLines(ss[0].version) == [];
      assert [] + ss[0].description == ss[0].description;
    }
    ParseOfPrinted(ss, true);
  }

  /** What a text with exact frames parses to is well formed. */
  lemma ExactParsesWellFormed(text: string)
    requires FramesExact(Lines(text))
    ensures WellFormed(ParseLines(Lines(text)))
  {
    JoinOfLines(text);
    ParsedIsGood(Fresh(None), Lines(text), true);
    SplitOfJoined(ParseFrom(Fresh(None), Lines(text)), true);
  }

  /** Parsing undoes printing exactly on the well-formed lists of releases. */
  lemma ParseUndoesPrint(rs: seq<Release>)
    ensures ParseLines(Lines(Print(rs))) == rs <==> WellFormed(rs)
  {
    if WellFormed(rs) {
      WellFormedParsesBack(rs);
    }
    if ParseLines(Lines(Print(rs))) == rs {
      PrintUndoesParse(Print(rs));
      ExactParsesWellFormed(Print(rs));
    }
  }

  // ----- When a text parses to well-formed releases -----

  predicate SoundSections(ss: seq<Section>, first: bool) {
    ss != [] && forall k :: 0 <= k < |ss| ==> SoundSection(ss[k], first && k == 0, k == |ss| - 1)
  }

  lemma SoundSectionsCons(s: Section, ss: seq<Section>, first: bool)
    requires SoundSection(s, first, false) && SoundSections(ss, false)
    ensures SoundSections([s] + ss, first)
  {
    var all := [s] + ss;
    forall k | 0 <= k < |all|
      ensures SoundSection(all[k], first && k == 0, k == |all| - 1)
    {
      if k > 0 { assert all[k] == ss[k - 1]; }
    }
  }

  lemma ContentIsSound(st: State, line: string, first: bool)
    requires SoundSection(Last(st), first, false) && IsLine(line)
    ensures SoundSection(Last(Content(st, line)), first, true)
    ensures Ended(line) ==> SoundSection(Last(Content(st, line)), first, false)
  {
    if st.epilog == [] && IssueNumber(line).Some? {
      IssueLineOfIssueNumber(line);
    } else if st.issues == [] {
      FileLinesConcat(st.description, [line]);
    } else {
      FileLinesConcat(st.epilog, [line]);
    }
  }

  /** The expected title is a line's. */
  predicate TitleOk(st: State) {
    Truthy(st.pending) ==> NL !in st.pending.value
  }

  /** One line leaves the open section sound, and so is a section that it ends. */
  lemma StepIsSound(st: State, line: string, first: bool)
    requires SoundSection(Last(st), first, false) && TitleOk(st) && IsLine(line)
    ensures var p := ParseLine(st, line);
      && TitleOk(p.state)
      && (p.finished.Some? ==> p.finished.value == Last(st) && SoundSection(Last(p.state), false, false))
      && (p.finished.None? ==> SoundSection(Last(p.state), first, true))
      && (p.finished.None? && Ended(line) ==> SoundSection(Last(p.state), first, false))
  {
    ContentIsSound(st, line, first);
    hide SoundSection, IsOverline, IssueNumber;
    assert Last(Content(CancelTitle(st), line)) == Last(Content(st, line));
    assert Last(CancelTitle(st)) == Last(st);
    NotLast(Last(st), first);
    if Truthy(st.pending) {
      FreshIsSound(st.pending);
    }
  }

  lemma NotLast(s: Section, first: bool)
    requires SoundSection(s, first, false)
    ensures SoundSection(s, first, true)
  {
  }

  lemma FreshIsSound(version: Option<string>)
    requires Truthy(version) && NL !in version.value
    ensures SoundSection(Last(Fresh(version)), false, false)
  {
  }

  lemma {:induction false} ParsedIsSound(st: State, lines: seq<string>, first: bool)
    requires SoundSection(Last(st), first, false) && TitleOk(st) && FileLines(lines)
    ensures SoundSections(ParseFrom(st, lines), first)
    decreases |lines|
  {
    hide ParseLine, SoundSection, TitleOk;
    if lines == [] {
      NotLast(Last(st), first);
    } else {
      var p := ParseLine(st, lines[0]);
      StepIsSound(st, lines[0], first);
      if |lines| == 1 && p.finished.None? {
        assert lines[1..] == [];
      } else {
        if |lines| > 1 { FileLinesTail(lines); }
        ParsedIsSound(p.state, lines[1..], first && p.finished.None?);
        if p.finished.Some? {
          SoundSectionsCons(Last(st), ParseFrom(p.state, lines[1..]), first);
        }
      }
    }
  }

  /** No line of '=' is kept as text. */
  predicate NoBars(rs: seq<Release>) {
    forall k :: 0 <= k < |rs| ==> NoOverline(Lines(rs[k].description)) && NoOverline(Lines(rs[k].epilog))
  }

  /** What is parsed is well formed exactly if no line of '=' was kept as text, whatever else is in the text. */
  lemma ParsedWellFormedExactly(text: string)
    ensures WellFormed(ParseLines(Lines(text))) <==> NoBars(ParseLines(Lines(text)))
  {
    JoinOfLines(text);
    var ss := ParseFrom(Fresh(None), Lines(text));
    hide ParseFrom;
    ParsedIsSound(Fresh(None), Lines(text), true);
    var rs := JoinAll(ss);
    hide Lines, FramesExact, NoOverline, NoIssue, FileLines, EndedLines;
    forall k | 0 <= k < |rs|
      ensures Split(rs[k]) == ss[k]
    {
      assert SoundSection(ss[k], true && k == 0, k == |ss| - 1);
      LinesOfJoin(ss[k].description);
      LinesOfJoin(ss[k].epilog);
    }
    forall k | 0 <= k < |rs|
      ensures GoodSection(SplitAll(rs)[k], true && k == 0, k == |rs| - 1) <==>
              NoOverline(Lines(rs[k].description)) && NoOverline(Lines(rs[k].epilog))
    {
      assert SoundSection(ss[k], true && k == 0, k == |ss| - 1);
    }
  }
}
