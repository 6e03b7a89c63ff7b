/** The release-notes parser and printer of scripts/update_releasenotes.py, line by line. */
module ReleaseNotes {
  import opened Wrappers
  import opened TextLines
  import opened Decimal

  const TITLE_END := " Release Notes\n"
  const ISSUE_START := "* :rhbug:`"
  const ISSUE_END := "`\n"

  /** A release as `parse_lines` yields it and `format_release` prints it. */
  datatype Release = Release(version: Option<string>, description: string, issues: seq<string>, epilog: string)

  /** The same with the lines not joined yet. */
  datatype Section = Section(version: Option<string>, description: seq<string>, issues: seq<string>, epilog: seq<string>)

  function Joined(s: Section): Release {
    Release(s.version, Join(s.description), s.issues, Join(s.epilog))
  }

  /** Python's truth value of a string or None. */
  predicate Truthy(o: Option<string>) {
    o.Some? && o.value != ""
  }

  // ----- Lines -----

  function Bar(n: nat): (s: string)
    ensures |s| == n && forall k :: 0 <= k < n ==> s[k] == '='
  {
    seq(n, _ => '=')
  }

  /** OVERLINE_RE: one or more '=' and a newline. */
  predicate IsOverline(line: string) {
    && |line| >= 2
    && line[|line| - 1] == NL
    && forall k :: 0 <= k < |line| - 1 ==> line[k] == '='
  }

  predicate EndsWith(line: string, end: string) {
    |line| >= |end| && line[|line| - |end|..] == end
  }

  /**
   The version in a title line. TITLE_RE_PAT allows at most `maxlen` characters; where the
   overline is so short that `maxlen` is negative, `{,-k}` is no repetition but literal text.
   */
  function TitleVersion(line: string, maxlen: int): Option<string> {
    if !EndsWith(line, TITLE_END) then None
    else
      var v := line[..|line| - |TITLE_END|];
      if NL in v then None
      else if maxlen >= 0 then (if |v| <= maxlen then Some(v) else None)
      else if v != "" && v[1..] == "{,-" + Str(-maxlen) + "}" then Some(v) else None
  }

  predicate IsNumber(s: string) {
    s != "" && forall k :: 0 <= k < |s| ==> IsDigit(s[k])
  }

  function IssueLine(number: string): string {
    ISSUE_START + number + ISSUE_END
  }

  function IssueNumber(line: string): Option<string> {
    if ISSUE_START <= line && EndsWith(line, ISSUE_END) && |line| > |ISSUE_START| + |ISSUE_END|
       && IsNumber(line[|ISSUE_START|..|line| - |ISSUE_END|])
    then Some(line[|ISSUE_START|..|line| - |ISSUE_END|])
    else None
  }

  // ----- The parser as a transition function -----

  datatype State = State(needline: Option<string>, pending: Option<string>, version: Option<string>,
                         description: seq<string>, issues: seq<string>, epilog: seq<string>)

  /** Right after a section title. */
  function Fresh(version: Option<string>): State {
    State(None, None, version, [], [], [])
  }

  function Last(st: State): Section {
    Section(st.version, st.description, st.issues, st.epilog)
  }

  function CancelTitle(st: State): State {
    st.(needline := None, pending := None)
  }

  /** A line that is no part of a title frame. */
  function Content(st: State, line: string): State {
    if st.epilog == [] && IssueNumber(line).Some? then st.(issues := st.issues + [IssueNumber(line).value])
    else if st.issues == [] then st.(description := st.description + [line])
    else st.(epilog := st.epilog + [line])
  }

  datatype Parsed = Parsed(state: State, finished: Option<Section>)

  /** `_parse_line`. */
  function ParseLine(st: State, line: string): Parsed {
    if !(Truthy(st.needline) && Truthy(st.pending)) && IsOverline(line) then
      Parsed(CancelTitle(st).(needline := Some(line[..|line| - 1])), None)
    else if Truthy(st.needline) && !Truthy(st.pending) then
      var v := TitleVersion(line, |st.needline.value| - 14);
      if v.Some? then Parsed(st.(pending := v), None)
      else Parsed(Content(CancelTitle(st), line), None)
    else if Truthy(st.needline) && line == st.needline.value + [NL] then
      Parsed(Fresh(st.pending), Some(Last(st)))
    else if Truthy(st.needline) then Parsed(Content(CancelTitle(st), line), None)
    else Parsed(Content(st, line), None)
  }

  function ParseFrom(st: State, lines: seq<string>): seq<Section>
    decreases |lines|
  {
    if lines == [] then [Last(st)]
    else
      var p := ParseLine(st, lines[0]);
      (if p.finished.Some? then [p.finished.value] else []) + ParseFrom(p.state, lines[1..])
  }

  function JoinAll(ss: seq<Section>): (rs: seq<Release>)
    ensures |rs| == |ss| && forall k :: 0 <= k < |ss| ==> rs[k] == Joined(ss[k])
  {
    seq(|ss|, k requires 0 <= k < |ss| => Joined(ss[k]))
  }

  /** `parse_lines`. */
  function ParseLines(lines: seq<string>): seq<Release> {
    JoinAll(ParseFrom(Fresh(None), lines))
  }

  // ----- The printer -----

  function TitleLines(version: Option<string>): seq<string> {
    if Truthy(version) then
      [Bar(|version.value| + 14) + [NL], version.value + TITLE_END, Bar(|version.value| + 14) + [NL]]
    else []
  }

  function IssueLines(issues: seq<string>): seq<string> {
    if issues == [] then [] else [IssueLine(issues[0])] + IssueLines(issues[1..])
  }

  /** `format_release`. */
  function FormatRelease(r: Release): string {
    var title :=
      if Truthy(r.version) then
        var t := r.version.value + TITLE_END;
        Bar(|t| - 1) + [NL] + t + Bar(|t| - 1) + [NL]
      else "";
    title + r.description + Join(IssueLines(r.issues)) + r.epilog
  }

  /** What `update_notes` writes for some releases. */
  function Print(rs: seq<Release>): string {
    if rs == [] then "" else FormatRelease(rs[0]) + Print(rs[1..])
  }

  function PrintSection(s: Section): seq<string> {
    TitleLines(s.version) + s.description + IssueLines(s.issues) + s.epilog
  }

  function PrintAll(ss: seq<Section>): seq<string> {
    if ss == [] then [] else PrintSection(ss[0]) + PrintAll(ss[1..])
  }

  lemma JoinOfTitle(version: Option<string>)
    ensures Join(TitleLines(version)) ==
            if Truthy(version) then
              var t := version.value + TITLE_END;
              Bar(|t| - 1) + [NL] + t + Bar(|t| - 1) + [NL]
            else ""
  {
    if Truthy(version) {
      var t := version.value + TITLE_END;
      var a := Bar(|t| - 1) + [NL];
      assert |t| - 1 == |version.value| + 14;
      assert TitleLines(version) == [a, t, a];
      assert [a, t, a][1..] == [t, a] && [t, a][1..] == [a] && [a][1..] == [];
      assert Join([a]) == a + "" == a;
      assert a + (t + a) == a + t + Bar(|t| - 1) + [NL];
    }
  }

  lemma JoinOfSection(s: Section)
    ensures Join(PrintSection(s)) == FormatRelease(Joined(s))
  {
    JoinConcat(TitleLines(s.version) + s.description + IssueLines(s.issues), s.epilog);
    JoinConcat(TitleLines(s.version) + s.description, IssueLines(s.issues));
    JoinConcat(TitleLines(s.version), s.description);
    JoinOfTitle(s.version);
  }

  /** Printing releases is joining the lines of their sections. */
  lemma {:induction false} JoinOfPrintAll(ss: seq<Section>)
    ensures Join(PrintAll(ss)) == Print(JoinAll(ss))
  {
    if ss != [] {
      JoinOfPrintAll(ss[1..]);
      JoinOfSection(ss[0]);
      assert JoinAll(ss)[1..] == JoinAll(ss[1..]);
      hide Join, PrintSection, FormatRelease, Joined;
      JoinConcat(PrintSection(ss[0]), PrintAll(ss[1..]));
    }
  }

  // ----- Basic facts about lines -----

  lemma IssueNumberOfIssueLine(number: string)
    requires IsNumber(number)
    ensures IssueNumber(IssueLine(number)) == Some(number)
  {
    var l := IssueLine(number);
    assert l[|l| - 2..] == ISSUE_END;
    assert l[|ISSUE_START|..|l| - |ISSUE_END|] == number;
    assert ISSUE_START <= l;
  }

  lemma IssueLineOfIssueNumber(line: string)
    requires IssueNumber(line).Some?
    ensures IsNumber(IssueNumber(line).value) && IssueLine(IssueNumber(line).value) == line
  {
    var n := line[|ISSUE_START|..|line| - |ISSUE_END|];
    assert line == line[..|ISSUE_START|] + n + line[|line| - |ISSUE_END|..];
  }

  lemma IssueLineIsLine(number: string)
    requires IsNumber(number)
    ensures IsLine(IssueLine(number)) && Ended(IssueLine(number))
    ensures !IsOverline(IssueLine(number))
  {
    var l := IssueLine(number);
    assert l[0] == '*';
    assert l[..|l| - 1] == ISSUE_START + number + "`";
  }

  lemma {:induction false} IssueLinesConcat(a: seq<string>, b: seq<string>)
    ensures IssueLines(a + b) == IssueLines(a) + IssueLines(b)
  {
    if a == [] {
      assert a + b == b;
    } else {
      assert (a + b)[1..] == a[1..] + b;
      IssueLinesConcat(a[1..], b);
    }
  }

  lemma {:induction false} IssueLinesEnded(issues: seq<string>)
    requires forall k :: 0 <= k < |issues| ==> IsNumber(issues[k])
    ensures EndedLines(IssueLines(issues)) && |IssueLines(issues)| == |issues|
    ensures forall k :: 0 <= k < |issues| ==> IssueLines(issues)[k] == IssueLine(issues[k])
  {
    if issues != [] {
      IssueLineIsLine(issues[0]);
      IssueLinesEnded(issues[1..]);
    }
  }

  /** A title frame of the exact width is read as one. */
  lemma TitleVersionOfTitle(v: string, maxlen: nat)
    requires NL !in v && |v| <= maxlen
    ensures TitleVersion(v + TITLE_END, maxlen) == Some(v)
  {
    var l := v + TITLE_END;
    assert l[|l| - 15..] == TITLE_END && l[..|l| - 15] == v;
  }

  lemma TitleIsNoOverline(v: string)
    ensures !IsOverline(v + TITLE_END)
  {
    assert (v + TITLE_END)[|v|] == ' ';
  }

  lemma TitleLinesEnded(version: Option<string>)
    requires version.Some? ==> NL !in version.value
    ensures EndedLines(TitleLines(version))
  {
    if Truthy(version) {
      var t := version.value + TITLE_END;
      var a := Bar(|version.value| + 14) + [NL];
      assert a[..|a| - 1] == Bar(|version.value| + 14);
      assert t[..|t| - 1] == version.value + " Release Notes";
      assert TitleLines(version) == [a, t, a];
    }
  }
}
