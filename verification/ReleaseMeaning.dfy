/** What update_releasenotes.py reads, adds and writes, in the letters of the notes. */
module ReleaseMeaning {
  import opened Wrappers
  import opened TextLines
  import opened Decimal
  import opened ReleaseNotes
  import opened ReleaseRoundTrip
  import opened ReleaseUpdate

  // ----- Reading -----

  /** Under an overline of n signs, a title is recognised if its version has at most n - 14 characters. */
  lemma TitleRecognised(v: string, n: nat)
    requires NL !in v && n >= 14
    ensures TitleVersion(v + " Release Notes\n", n - 14) == if |v| <= n - 14 then Some(v) else None
  {
    var line := v + TITLE_END;
    assert line[|line| - |TITLE_END|..] == TITLE_END && line[..|line| - |TITLE_END|] == v;
  }

  /** A frame that is wider than its title needs starts a section like an exact one. */
  lemma {:induction false} WideFrame(st: State, v: string, n: nat, rest: seq<string>)
    requires st.needline.None? && st.pending.None? && v != "" && NL !in v && |v| <= n - 14
    ensures var bar := Bar(n) + "\n";
      ParseFrom(st, [bar, v + " Release Notes\n", bar] + rest) == [Last(st)] + ParseFrom(Fresh(Some(v)), rest)
  {
    TitleRecognised(v, n);
    var bar := Bar(n) + "\n";
    var lines := [bar, v + TITLE_END, bar] + rest;
    assert |lines[0]| == n + 1 && lines[3..] == rest;
    assert IsOverline(lines[0]);
    hide IsOverline, TitleVersion, ParseFrom;
    FrameSplits(st, lines);
  }

  // ----- Adding issues -----

  /** The issues to add: those not there yet, each where it is given last. */
  function Missing(issues: seq<string>, present: seq<string>): seq<string> {
    if issues == [] then []
    else (if issues[0] in present || issues[0] in issues[1..] then [] else [issues[0]]) + Missing(issues[1..], present)
  }

  /** The missing issues come in front of those that are there, in the order in which they are given. */
  lemma {:induction false} AddIssuesExactly(issues: seq<string>, present: seq<string>)
    ensures AddIssues(issues, present) == Missing(issues, present) + present
  {
    if issues != [] {
      AddIssuesExactly(issues[1..], present);
      AddIssuesMembers(issues[1..], present);
      var rest := Missing(issues[1..], present);
      assert AddIssues(issues, present) ==
             if issues[0] in issues[1..] || issues[0] in present then rest + present else [issues[0]] + (rest + present);
      assert Missing(issues, present) ==
             (if issues[0] in present || issues[0] in issues[1..] then [] else [issues[0]]) + rest;
      hide AddIssues, Missing;
      assert [issues[0]] + (rest + present) == [issues[0]] + rest + present && [] + rest == rest;
    }
  }

  /** Where no issue is given twice and none is there yet, all of them come first, as given. */
  lemma {:induction false} AllMissing(issues: seq<string>, present: seq<string>)
    requires NoDuplicates(issues) && forall k :: 0 <= k < |issues| ==> issues[k] !in present
    ensures Missing(issues, present) == issues
  {
    if issues != [] {
      AllMissing(issues[1..], present);
      assert issues == [issues[0]] + issues[1..];
    }
  }

  // ----- The sections that come out -----

  /** Every section of the version gets the missing issues; nothing else changes. */
  lemma SectionsExtended(rs: seq<Release>, version: string, issues: seq<string>)
    requires exists k :: 0 <= k < |rs| && rs[k].version == Some(version)
    ensures var r := ExtendReleases(rs, version, issues);
      && |r| == |rs|
      && forall k :: 0 <= k < |rs| ==>
           && r[k].version == rs[k].version && r[k].description == rs[k].description && r[k].epilog == rs[k].epilog
           && r[k].issues == if rs[k].version == Some(version) then Missing(issues, rs[k].issues) + rs[k].issues
                             else rs[k].issues
  {
    ExtendWithoutPrepend(rs, version, issues);
    forall k | 0 <= k < |rs|
      ensures AddIssues(issues, rs[k].issues) == Missing(issues, rs[k].issues) + rs[k].issues
    {
      AddIssuesExactly(issues, rs[k].issues);
    }
    hide AddIssues, Missing;
  }

  /**
   A missing section of the version is put right before the first titled one: an empty line,
   the issues as they are given, and an empty line.
   */
  lemma SectionPrepended(rs: seq<Release>, version: string, issues: seq<string>, first: nat)
    requires forall k :: 0 <= k < |rs| ==> rs[k].version != Some(version)
    requires first <= |rs| && forall k :: 0 <= k < first ==> rs[k].version.None?
    requires first < |rs| ==> rs[first].version.Some?
    ensures ExtendReleases(rs, version, issues) ==
            if first < |rs| then rs[..first] + [Release(Some(version), "\n", issues, "\n")] + rs[first..] else rs
  {
    ExtendWithPrepend(rs, version, issues, first);
  }

  // ----- The text that comes out -----

  /** The title frame of a version. */
  function FrameText(version: string): string {
    Bar(|version| + 14) + "\n" + version + " Release Notes\n" + Bar(|version| + 14) + "\n"
  }

  /** One line for each issue. */
  function IssueText(issues: seq<string>): string {
    if issues == [] then "" else "* :rhbug:`" + issues[0] + "`\n" + IssueText(issues[1..])
  }

  lemma {:induction false} IssueTextIs(issues: seq<string>)
    ensures Join(IssueLines(issues)) == IssueText(issues)
  {
    if issues != [] {
      IssueTextIs(issues[1..]);
      var line := IssueLine(issues[0]);
      assert ([line] + IssueLines(issues[1..]))[1..] == IssueLines(issues[1..]);
    }
  }

  /** How a release is printed: its frame, if it has a version, its description, its issues, its epilog. */
  lemma FormatMeaning(r: Release)
    ensures FormatRelease(r) ==
            (if r.version == None || r.version == Some("") then "" else FrameText(r.version.value))
            + r.description + IssueText(r.issues) + r.epilog
  {
    IssueTextIs(r.issues);
    hide IssueText, IssueLines;
    if Truthy(r.version) {
      var v := r.version.value;
      var bar := Bar(|v| + 14) + [NL];
      assert |v + TITLE_END| - 1 == |v| + 14;
      assert bar + (v + TITLE_END) + Bar(|v| + 14) + [NL] == FrameText(v);
    }
  }

  /** The first titled release. */
  function FirstTitled(rs: seq<Release>): (first: nat)
    requires HasTitle(rs)
    ensures first < |rs| && rs[first].version.Some? && forall k :: 0 <= k < first ==> rs[k].version.None?
  {
    if rs[0].version.Some? then 0
    else
      assert forall k :: 1 <= k < |rs| ==> rs[k] == rs[1..][k - 1];
      1 + FirstTitled(rs[1..])
  }

  lemma PrintOne(r: Release)
    ensures Print([r]) == FormatRelease(r)
  {
    assert [r][1..] == [] && FormatRelease(r) + "" == FormatRelease(r);
  }

  lemma {:induction false} FirstFrame(rs: seq<Release>)
    requires rs != [] && rs[0].version.Some? && rs[0].version.value != ""
    ensures FrameText(rs[0].version.value) <= Print(rs)
  {
    FormatMeaning(rs[0]);
  }

  lemma Associate(front: string, frame: string, lines: string, back: string)
    ensures front + (frame + "\n" + lines + "\n") + back == front + frame + "\n" + lines + "\n" + back
  {
  }

  /** No title that is read is empty. */
  lemma TitlesNotEmpty(text: string)
    requires FramesExact(Lines(text))
    ensures forall k :: 0 <= k < |ParseLines(Lines(text))| ==> ParseLines(Lines(text))[k].version != Some("")
  {
    ExactParsesWellFormed(text);
    var rs := ParseLines(Lines(text));
    hide FramesExact, ParseLines, Lines;
    forall k | 0 <= k < |rs|
      ensures rs[k].version != Some("")
    {
      assert GoodSection(SplitAll(rs)[k], true && k == 0, k == |rs| - 1);
    }
  }

  lemma {:induction false} NewSectionPrints(rs: seq<Release>, version: string, issues: seq<string>)
    returns (front: string, back: string)
    requires HasTitle(rs) && !HasVersion(rs, version) && version != ""
    requires rs[FirstTitled(rs)].version != Some("")
    ensures Print(rs) == front + back
    ensures Print(ExtendReleases(rs, version, issues)) ==
            front + FrameText(version) + "\n" + IssueText(issues) + "\n" + back
    ensures FrameText(rs[FirstTitled(rs)].version.value) <= back
  {
    var first := FirstTitled(rs);
    var section := Release(Some(version), "\n", issues, "\n");
    SectionPrepended(rs, version, issues, first);
    hide ExtendReleases, Print, IssueText, FrameText, HasVersion, HasTitle, FirstTitled, FormatRelease;
    front, back := Print(rs[..first]), Print(rs[first..]);
    assert rs == rs[..first] + rs[first..];
    PrintConcat(rs[..first], rs[first..]);
    PrintConcat(rs[..first] + [section], rs[first..]);
    PrintConcat(rs[..first], [section]);
    PrintOne(section);
    FormatMeaning(section);
    FirstFrame(rs[first..]);
    Associate(front, FrameText(version), IssueText(issues), back);
  }

  /**
   The notes, where they have titles but none for the version, become: what was before the first
   titled section; the frame of the version, an empty line, a line for each issue in its order,
   and an empty line; and what was there from that section on, which starts with its own frame.
   */
  lemma {:induction false} NewSectionText(text: string, version: string, issues: seq<string>)
    returns (front: string, back: string)
    requires FramesExact(Lines(text)) && version != ""
    requires var rs := ParseLines(Lines(text)); HasTitle(rs) && !HasVersion(rs, version)
    ensures text == front + back
    ensures Update(text, version, issues) == front + FrameText(version) + "\n" + IssueText(issues) + "\n" + back
    ensures var title := ParseLines(Lines(text))[FirstTitled(ParseLines(Lines(text)))].version.value;
      title != "" && FrameText(title) <= back
  {
    PrintUndoesParse(text);
    TitlesNotEmpty(text);
    hide FramesExact, ParseLines, Lines, Print, IssueText, FrameText, ExtendReleases, FirstTitled;
    front, back := NewSectionPrints(ParseLines(Lines(text)), version, issues);
  }
}
