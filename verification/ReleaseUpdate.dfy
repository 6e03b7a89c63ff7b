/** `update_notes`: parse the notes, add issues to a version, print them again. */
module ReleaseUpdate {
  import opened Wrappers
  import opened TextLines
  import opened Decimal
  import opened ReleaseNotes
  import opened ReleaseRoundTrip

  /** The new issues in front of the old ones, leaving out those already in the list. */
  function AddIssues(issues: seq<string>, present: seq<string>): seq<string> {
    if issues == [] then present
    else
      var rest := AddIssues(issues[1..], present);
      if issues[0] in rest then rest else [issues[0]] + rest
  }

  function Extended(r: Release, version: string, issues: seq<string>): Release {
    if r.version == Some(version) then r.(issues := AddIssues(issues, r.issues)) else r
  }

  function NewRelease(version: string, issues: seq<string>): Release {
    Release(Some(version), [NL], issues, [NL])
  }

  /** The loop of `extend_releases`; `prepend` says that the version's section is still missing. */
  function ExtendFrom(rs: seq<Release>, version: string, issues: seq<string>, prepend: bool): seq<Release> {
    if rs == [] then []
    else if prepend && rs[0].version.Some? then
      [NewRelease(version, issues), rs[0]] + ExtendFrom(rs[1..], version, issues, false)
    else [Extended(rs[0], version, issues)] + ExtendFrom(rs[1..], version, issues, prepend)
  }

  predicate HasVersion(rs: seq<Release>, version: string) {
    exists k :: 0 <= k < |rs| && rs[k].version == Some(version)
  }

  /** `extend_releases`. */
  function ExtendReleases(rs: seq<Release>, version: string, issues: seq<string>): seq<Release> {
    ExtendFrom(rs, version, issues, !HasVersion(rs, version))
  }

  /** The text that `update_notes` writes over `text`. */
  function Update(text: string, version: string, issues: seq<string>): string {
    Print(ExtendReleases(ParseLines(Lines(text)), version, issues))
  }

  /** A version from the spec file and issue numbers from the commit log. */
  predicate ValidUpdate(version: string, issues: seq<string>) {
    && version != "" && NL !in version
    && forall k :: 0 <= k < |issues| ==> IsNumber(issues[k])
  }

  // ----- The issue list -----

  predicate NoDuplicates(s: seq<string>) {
    forall i, j :: 0 <= i < j < |s| ==> s[i] != s[j]
  }

  lemma {:induction false} AddIssuesTail(issues: seq<string>, present: seq<string>)
    ensures var r := AddIssues(issues, present); |r| >= |present| && r[|r| - |present|..] == present
  {
    if issues == [] {
      assert present[0..] == present;
    } else {
      AddIssuesTail(issues[1..], present);
      var rest := AddIssues(issues[1..], present);
      var r := [issues[0]] + rest;
      assert r[|r| - |present|..] == rest[|rest| - |present|..];
    }
  }

  lemma {:induction false} AddIssuesMembers(issues: seq<string>, present: seq<string>)
    ensures forall x :: x in AddIssues(issues, present) <==> x in issues || x in present
  {
    if issues != [] {
      AddIssuesMembers(issues[1..], present);
      assert issues == [issues[0]] + issues[1..];
    }
  }

  lemma {:induction false} AddIssuesNoDuplicates(issues: seq<string>, present: seq<string>)
    requires NoDuplicates(present)
    ensures NoDuplicates(AddIssues(issues, present))
  {
    if issues != [] {
      AddIssuesNoDuplicates(issues[1..], present);
    }
  }

  /** Adding issues keeps the list as it was at its end, adds each new one once, and no others. */
  lemma {:induction false} AddIssuesMeaning(issues: seq<string>, present: seq<string>)
    ensures var r := AddIssues(issues, present);
      && |r| >= |present| && r[|r| - |present|..] == present
      && (forall x :: x in r <==> x in issues || x in present)
      && (NoDuplicates(present) <==> NoDuplicates(r))
  {
    AddIssuesTail(issues, present);
    AddIssuesMembers(issues, present);
    var r := AddIssues(issues, present);
    if NoDuplicates(present) {
      AddIssuesNoDuplicates(issues, present);
    } else {
      DuplicateInTail(r, present);
    }
  }

  lemma DuplicateInTail(s: seq<string>, tail: seq<string>)
    requires |s| >= |tail| && s[|s| - |tail|..] == tail && !NoDuplicates(tail)
    ensures !NoDuplicates(s)
  {
    var i, j :| 0 <= i < j < |tail| && tail[i] == tail[j];
    var n := |s| - |tail|;
    assert s[n + i] == tail[i] && s[n + j] == tail[j];
  }

  lemma {:induction false} AddPresentIssues(issues: seq<string>, present: seq<string>)
    requires forall k :: 0 <= k < |issues| ==> issues[k] in present
    ensures AddIssues(issues, present) == present
  {
    if issues != [] {
      AddPresentIssues(issues[1..], present);
    }
  }

  lemma {:induction false} AddIssuesNumbers(issues: seq<string>, present: seq<string>)
    requires forall k :: 0 <= k < |issues| ==> IsNumber(issues[k])
    requires forall k :: 0 <= k < |present| ==> IsNumber(present[k])
    ensures forall k :: 0 <= k < |AddIssues(issues, present)| ==> IsNumber(AddIssues(issues, present)[k])
  {
    if issues != [] {
      AddIssuesNumbers(issues[1..], present);
    }
  }

  // ----- The updated list of releases -----

  lemma {:induction false} ExtendWithoutPrepend(rs: seq<Release>, version: string, issues: seq<string>)
    ensures var r := ExtendFrom(rs, version, issues, false);
      |r| == |rs| && forall k :: 0 <= k < |rs| ==> r[k] == Extended(rs[k], version, issues)
  {
    if rs != [] {
      ExtendWithoutPrepend(rs[1..], version, issues);
    }
  }

  /** Releases without a version are passed through. */
  lemma {:induction false} ExtendUntitled(heads: seq<Release>, rest: seq<Release>, version: string,
                                          issues: seq<string>, prepend: bool)
    requires forall k :: 0 <= k < |heads| ==> heads[k].version.None?
    ensures ExtendFrom(heads + rest, version, issues, prepend) == heads + ExtendFrom(rest, version, issues, prepend)
  {
    if heads == [] {
      assert heads + rest == rest;
    } else {
      assert (heads + rest)[1..] == heads[1..] + rest;
      ExtendUntitled(heads[1..], rest, version, issues, prepend);
      assert heads == [heads[0]] + heads[1..];
    }
  }

  lemma ExtendOthers(rs: seq<Release>, version: string, issues: seq<string>)
    requires !HasVersion(rs, version)
    ensures ExtendFrom(rs, version, issues, false) == rs
  {
    ExtendWithoutPrepend(rs, version, issues);
  }

  lemma NoVersionInPart(rs: seq<Release>, version: string, from: nat)
    requires !HasVersion(rs, version) && from <= |rs|
    ensures !HasVersion(rs[from..], version)
  {
    assert forall k :: 0 <= k < |rs| - from ==> rs[from..][k] == rs[from + k];
  }

  lemma ExtendAtTitle(rs: seq<Release>, version: string, issues: seq<string>)
    requires !HasVersion(rs, version) && rs != [] && rs[0].version.Some?
    ensures ExtendFrom(rs, version, issues, true) == [NewRelease(version, issues)] + rs
  {
    NoVersionInPart(rs, version, 1);
    ExtendOthers(rs[1..], version, issues);
    hide HasVersion, NewRelease, Extended;
    assert [NewRelease(version, issues), rs[0]] + rs[1..] == [NewRelease(version, issues)] + rs;
  }

  /** Prepending puts the new release right before the first release that has a version. */
  lemma ExtendWithPrepend(rs: seq<Release>, version: string, issues: seq<string>, first: nat)
    requires !HasVersion(rs, version) && first <= |rs|
    requires forall k :: 0 <= k < first ==> rs[k].version.None?
    requires first < |rs| ==> rs[first].version.Some?
    ensures ExtendFrom(rs, version, issues, true) ==
            if first < |rs| then rs[..first] + [NewRelease(version, issues)] + rs[first..] else rs
  {
    var heads, rest := rs[..first], rs[first..];
    assert rs == heads + rest;
    ExtendUntitled(heads, rest, version, issues, true);
    NoVersionInPart(rs, version, first);
    if rest != [] {
      ExtendAtTitle(rest, version, issues);
      hide ExtendFrom, NewRelease, HasVersion;
      assert heads + ([NewRelease(version, issues)] + rest) == heads + [NewRelease(version, issues)] + rest;
    }
  }

  /** No section of the version lists an issue twice. */
  predicate DuplicateFree(rs: seq<Release>, version: string) {
    forall k :: 0 <= k < |rs| && rs[k].version == Some(version) ==> NoDuplicates(rs[k].issues)
  }

  predicate HasTitle(rs: seq<Release>) {
    exists k :: 0 <= k < |rs| && rs[k].version.Some?
  }

  /**
   After the update no section of the version lists an issue twice exactly if none did before;
   or, where the section is new, if no issue is given twice, unless there is no section to put
   the new one before.
   */
  lemma {:induction false} DuplicatesExactly(rs: seq<Release>, version: string, issues: seq<string>)
    ensures DuplicateFree(ExtendReleases(rs, version, issues), version) <==>
            if HasVersion(rs, version) then DuplicateFree(rs, version)
            else !HasTitle(rs) || NoDuplicates(issues)
  {
    var r := ExtendReleases(rs, version, issues);
    if HasVersion(rs, version) {
      ExtendWithoutPrepend(rs, version, issues);
      forall k | 0 <= k < |rs| && rs[k].version == Some(version)
        ensures NoDuplicates(rs[k].issues) <==> NoDuplicates(r[k].issues)
      {
        AddIssuesMeaning(issues, rs[k].issues);
        assert r[k] == Extended(rs[k], version, issues);
      }
      assert forall k :: 0 <= k < |rs| ==> r[k].version == rs[k].version by {
        assert forall k :: 0 <= k < |rs| ==> r[k] == Extended(rs[k], version, issues);
      }
    } else {
      var first := FirstTitle(rs);
      ExtendWithPrepend(rs, version, issues, first);
      if first < |rs| {
        assert r[first] == NewRelease(version, issues);
        assert forall k :: 0 <= k < first ==> r[k] == rs[k];
        assert forall k :: first < k < |r| ==> r[k] == rs[k - 1];
      }
    }
  }

  /** The first release that has a version. */
  lemma {:induction false} FirstTitle(rs: seq<Release>) returns (first: nat)
    ensures first <= |rs| && forall k :: 0 <= k < first ==> rs[k].version.None?
    ensures first < |rs| ==> rs[first].version.Some?
  {
    if rs == [] || rs[0].version.Some? {
      first := 0;
    } else {
      var n := FirstTitle(rs[1..]);
      first := n + 1;
      assert forall k :: 1 <= k < first ==> rs[k] == rs[1..][k - 1];
    }
  }

  /** Issue 7, given twice for a new section, is listed twice. */
  lemma IssueTwice()
    ensures ExtendReleases([Release(Some("1"), "", [], "")], "2", ["7", "7"])[0] == NewRelease("2", ["7", "7"])
    ensures !DuplicateFree(ExtendReleases([Release(Some("1"), "", [], "")], "2", ["7", "7"]), "2")
  {
    var rs := [Release(Some("1"), "", [], "")];
    assert rs[0].version.Some? && !HasVersion(rs, "2");
    ExtendWithPrepend(rs, "2", ["7", "7"], 0);
    assert ["7", "7"][0] == ["7", "7"][1];
    DuplicatesExactly(rs, "2", ["7", "7"]);
  }

  /** Every issue of the update is listed in every section of its version. */
  predicate Settled(rs: seq<Release>, version: string, issues: seq<string>) {
    && HasVersion(rs, version)
    && forall k :: 0 <= k < |rs| && rs[k].version == Some(version) ==>
         forall i :: 0 <= i < |issues| ==> issues[i] in rs[k].issues
  }

  /** Updating again changes nothing. */
  lemma SettledStays(rs: seq<Release>, version: string, issues: seq<string>)
    requires Settled(rs, version, issues)
    ensures ExtendReleases(rs, version, issues) == rs
  {
    ExtendWithoutPrepend(rs, version, issues);
    forall k | 0 <= k < |rs|
      ensures Extended(rs[k], version, issues) == rs[k]
    {
      if rs[k].version == Some(version) {
        AddPresentIssues(issues, rs[k].issues);
      }
    }
  }

  lemma ExtendSettles(rs: seq<Release>, version: string, issues: seq<string>)
    requires HasVersion(rs, version)
    ensures Settled(ExtendReleases(rs, version, issues), version, issues)
  {
    ExtendWithoutPrepend(rs, version, issues);
    var r := ExtendReleases(rs, version, issues);
    var k :| 0 <= k < |rs| && rs[k].version == Some(version);
    assert r[k].version == Some(version);
    forall j | 0 <= j < |r| && r[j].version == Some(version)
      ensures forall i :: 0 <= i < |issues| ==> issues[i] in r[j].issues
    {
      assert r[j] == Extended(rs[j], version, issues);
      AddIssuesMeaning(issues, rs[j].issues);
    }
  }

  /**
   The one case in which updating twice differs from updating once: the version's section is
   the last one, has no issues yet, and its description does not end with a newline, so that
   the first new issue is glued to the last line of the description.
   */
  predicate GluesIssue(rs: seq<Release>, version: string, issues: seq<string>) {
    && issues != [] && rs != []
    && var r := rs[|rs| - 1];
       r.version == Some(version) && r.issues == [] && r.description != "" && !Ended(r.description)
  }

  /** What comes out when some releases print the same as well-formed, settled ones. */
  lemma UpdateOfSettled(text: string, version: string, issues: seq<string>, rs: seq<Release>)
    requires Update(text, version, issues) == Print(rs)
    requires WellFormed(rs) && Settled(rs, version, issues)
    ensures Update(Update(text, version, issues), version, issues) == Update(text, version, issues)
  {
    ParseUndoesPrint(rs);
    SettledStays(rs, version, issues);
  }

  lemma {:induction false} EndedJoin(ls: seq<string>)
    requires FileLines(ls) && ls != [] && Ended(Join(ls))
    ensures EndedLines(ls)
  {
    if |ls| > 1 {
      FileLinesTail(ls);
      LinesOfJoin(ls[1..]);
      assert Join(ls)[|Join(ls)| - 1] == Join(ls[1..])[|Join(ls[1..])| - 1];
      EndedJoin(ls[1..]);
      forall k | 0 <= k < |ls|
        ensures IsLine(ls[k]) && Ended(ls[k])
      {
        if k > 0 { assert ls[k] == ls[1..][k - 1]; }
      }
    } else {
      assert Join(ls) == ls[0] + Join(ls[1..]) == ls[0];
    }
  }

  lemma LinesEnded(t: string)
    requires t == "" || Ended(t)
    ensures EndedLines(Lines(t))
  {
    JoinOfLines(t);
    if t != "" { EndedJoin(Lines(t)); }
  }

  /** The issues of a release after the update. */
  lemma {:induction false} ExtendedParts(r: Release, version: string, issues: seq<string>) returns (more: seq<string>)
    requires ValidUpdate(version, issues)
    ensures Extended(r, version, issues) == r.(issues := more)
    ensures forall x :: x in more ==> x in r.issues || IsNumber(x)
    ensures r.issues != [] ==> more != []
    ensures r.version != Some(version) || issues == [] ==> more == r.issues
  {
    hide IsNumber;
    more := if r.version == Some(version) then AddIssues(issues, r.issues) else r.issues;
    AddIssuesMeaning(issues, r.issues);
    if r.issues != [] { assert r.issues[0] in more; }
  }

  lemma {:induction false} MoreIssuesAreGood(r: Release, more: seq<string>, first: bool, last: bool)
    requires GoodSection(Split(r), first, last) && forall x :: x in more ==> x in r.issues || IsNumber(x)
    requires r.issues != [] ==> more != []
    requires last && r.issues == [] && more != [] ==> r.description == "" || Ended(r.description)
    ensures GoodSection(Split(r.(issues := more)), first, last)
  {
    if last && r.issues == [] && more != [] {
      LinesEnded(r.description);
    }
    forall k | 0 <= k < |more|
      ensures IsNumber(more[k])
    {
      assert more[k] in more;
    }
  }

  lemma ExtendedIsWellFormed(rs: seq<Release>, version: string, issues: seq<string>)
    requires WellFormed(rs) && ValidUpdate(version, issues)
    requires HasVersion(rs, version) && !GluesIssue(rs, version, issues)
    ensures WellFormed(ExtendReleases(rs, version, issues))
  {
    ExtendWithoutPrepend(rs, version, issues);
    hide GoodSection, Split, Extended, ExtendFrom, ValidUpdate;
    var q := ExtendReleases(rs, version, issues);
    forall k | 0 <= k < |q|
      ensures GoodSection(SplitAll(q)[k], true && k == 0, k == |q| - 1)
    {
      assert GoodSection(SplitAll(rs)[k], true && k == 0, k == |rs| - 1);
      var more := ExtendedParts(rs[k], version, issues);
      MoreIssuesAreGood(rs[k], more, k == 0, k == |rs| - 1);
    }
  }

  /** The new section as it is read back: without issues, all of it is description. */
  function NewReleaseRead(version: string, issues: seq<string>): Release {
    if issues == [] then Release(Some(version), [NL, NL], [], "") else NewRelease(version, issues)
  }

  lemma LinesOfNewlines()
    ensures Lines([NL]) == [[NL]] && Lines([NL, NL]) == [[NL], [NL]] && Lines("") == []
    ensures Join([[NL]]) == [NL]
  {
    assert [[NL]][1..] == [] && [[NL], [NL]][1..] == [[NL]];
    assert Join([[NL]]) == [NL] + "" == [NL];
    assert Join([[NL], [NL]]) == [NL] + [NL] == [NL, NL];
    LinesOfJoin([[NL]]);
    LinesOfJoin([[NL], [NL]]);
  }

  lemma NewReleasePrints(version: string, issues: seq<string>)
    ensures FormatRelease(NewReleaseRead(version, issues)) == FormatRelease(NewRelease(version, issues))
  {
    if issues == [] {
      var t := version + TITLE_END;
      var title := if version != "" then Bar(|t| - 1) + [NL] + t + Bar(|t| - 1) + [NL] else "";
      hide Bar;
      assert Join(IssueLines([])) == "";
      hide Join, IssueLines;
      assert title + [NL, NL] + "" + "" == title + [NL] + "" + [NL];
    }
  }

  lemma NewReleaseIsGood(version: string, issues: seq<string>)
    requires ValidUpdate(version, issues)
    ensures GoodSection(Split(NewReleaseRead(version, issues)), false, false)
  {
    LinesOfNewlines();
    hide Lines;
    var s := Split(NewReleaseRead(version, issues));
    assert !IsOverline([NL]) && IssueNumber([NL]).None?;
    hide IsOverline, IssueNumber;
    assert IsLine([NL]) && Ended([NL]);
    assert s.description == [[NL]] || s.description == [[NL], [NL]];
    assert s.epilog == [[NL]] || s.epilog == [];
  }

  lemma {:induction false} PrintConcat(a: seq<Release>, b: seq<Release>)
    ensures Print(a + b) == Print(a) + Print(b)
  {
    if a == [] {
      assert a + b == b;
    } else {
      assert (a + b)[1..] == a[1..] + b;
      PrintConcat(a[1..], b);
    }
  }

  /** The first release, the new one and the others. */
  function Prepended(rs: seq<Release>, r: Release): seq<Release>
    requires rs != []
  {
    [rs[0]] + ([r] + rs[1..])
  }

  lemma {:induction false} PrependedIsWellFormed(rs: seq<Release>, version: string, issues: seq<string>)
    requires WellFormed(rs) && ValidUpdate(version, issues) && |rs| > 1
    ensures WellFormed(Prepended(rs, NewReleaseRead(version, issues)))
  {
    NewReleaseIsGood(version, issues);
    hide GoodSection, Split, NewReleaseRead;
    var q := Prepended(rs, NewReleaseRead(version, issues));
    forall k | 0 <= k < |q|
      ensures GoodSection(SplitAll(q)[k], true && k == 0, k == |q| - 1)
    {
      if k == 0 {
        assert GoodSection(SplitAll(rs)[0], true && 0 == 0, 0 == |rs| - 1);
        assert q[0] == rs[0];
      } else if k == 1 {
        assert q[1] == NewReleaseRead(version, issues);
      } else {
        assert q[k] == rs[k - 1];
        assert GoodSection(SplitAll(rs)[k - 1], true && k - 1 == 0, k - 1 == |rs| - 1);
      }
    }
  }

  lemma PrependedPrints(rs: seq<Release>, version: string, issues: seq<string>)
    requires rs != []
    ensures Print(Prepended(rs, NewReleaseRead(version, issues))) == Print(Prepended(rs, NewRelease(version, issues)))
  {
    var r, r' := NewRelease(version, issues), NewReleaseRead(version, issues);
    NewReleasePrints(version, issues);
    hide FormatRelease, NewRelease, NewReleaseRead;
    assert ([r] + rs[1..])[1..] == rs[1..] && ([r'] + rs[1..])[1..] == rs[1..];
    PrintConcat([rs[0]], [r] + rs[1..]);
    PrintConcat([rs[0]], [r'] + rs[1..]);
  }

  lemma PrependedIsSettled(rs: seq<Release>, version: string, issues: seq<string>)
    requires rs != [] && !HasVersion(rs, version)
    ensures Settled(Prepended(rs, NewReleaseRead(version, issues)), version, issues)
  {
    var q := Prepended(rs, NewReleaseRead(version, issues));
    assert q[1].version == Some(version);
    assert forall k :: 0 <= k < |q| ==> q[k] == if k == 0 then rs[0] else if k == 1 then q[1] else rs[k - 1];
  }

  lemma FirstHasNoTitle(rs: seq<Release>)
    requires WellFormed(rs)
    ensures rs != [] && rs[0].version.None? && (|rs| > 1 ==> rs[1].version.Some?)
  {
    assert GoodSection(SplitAll(rs)[0], true && 0 == 0, 0 == |rs| - 1);
    if |rs| > 1 {
      assert GoodSection(SplitAll(rs)[1], true && 1 == 0, 1 == |rs| - 1);
    }
  }

  /** The updated text when the version has no section yet. */
  lemma UpdatePrepends(text: string, version: string, issues: seq<string>)
    requires ValidUpdate(version, issues) && WellFormed(ParseLines(Lines(text)))
    requires !HasVersion(ParseLines(Lines(text)), version)
    ensures Update(Update(text, version, issues), version, issues) == Update(text, version, issues)
  {
    hide WellFormed, Settled, Print, FormatRelease, ValidUpdate, ParseLines, Lines, ExtendFrom;
    var rs := ParseLines(Lines(text));
    FirstHasNoTitle(rs);
    ExtendWithPrepend(rs, version, issues, 1);
    if |rs| == 1 {
      WellFormedParsesBack(rs);
    } else {
      var r, r' := NewRelease(version, issues), NewReleaseRead(version, issues);
      assert rs[..1] + [r] + rs[1..] == Prepended(rs, r);
      PrependedPrints(rs, version, issues);
      PrependedIsWellFormed(rs, version, issues);
      PrependedIsSettled(rs, version, issues);
      UpdateOfSettled(text, version, issues, Prepended(rs, r'));
    }
  }

  // ----- The glued issue -----

  lemma IssueHasOneStar(line: string, k: nat)
    requires IssueNumber(line).Some? && 0 < k < |line|
    ensures line[k] != '*'
  {
    var n := IssueNumber(line).value;
    IssueLineOfIssueNumber(line);
    if |ISSUE_START| <= k < |ISSUE_START| + |n| {
      assert line[k] == n[k - |ISSUE_START|];
    }
  }

  lemma GluedLine(l: string, number: string)
    requires IsLine(l) && !Ended(l) && IsNumber(number)
    ensures var g := l + IssueLine(number);
      IsLine(g) && Ended(g) && !IsOverline(g) && IssueNumber(g).None?
  {
    var g := l + IssueLine(number);
    IssueLineIsLine(number);
    var tail := IssueLine(number);
    forall k | 0 <= k < |g| - 1
      ensures g[k] != NL
    {
      if k < |l| - 1 { assert g[k] == l[..|l| - 1][k]; }
      else if k >= |l| { assert g[k] == tail[..|tail| - 1][k - |l|]; }
    }
    assert g[|l|] == '*';
    if IssueNumber(g).Some? {
      IssueHasOneStar(g, |l|);
    }
  }

  /** The last release as it is read back after the first issue was glued to its description. */
  function Glued(r: Release, all: seq<string>): Release
    requires all != []
  {
    Release(r.version, r.description + IssueLine(all[0]), all[1..], "")
  }

  /** Text after an unfinished last line becomes part of that line. */
  lemma LinesOfGlued(t: string, tail: string)
    requires t != "" && !Ended(t) && IsLine(tail) && Ended(tail)
    ensures var ls := Lines(t);
      && ls != [] && FileLines(ls) && !Ended(ls[|ls| - 1])
      && (IsLine(ls[|ls| - 1] + tail) ==> Lines(t + tail) == ls[..|ls| - 1] + [ls[|ls| - 1] + tail])
  {
    var ls := Lines(t);
    JoinOfLines(t);
    hide Lines;
    var front, l := ls[..|ls| - 1], ls[|ls| - 1];
    assert ls == front + [l];
    JoinConcat(front, [l]);
    JoinOne(l);
    assert Join(ls)[|Join(ls)| - 1] == l[|l| - 1];
    JoinConcat(front, [l + tail]);
    JoinOne(l + tail);
    assert Join(front) + (l + tail) == Join(front) + l + tail;
    if IsLine(l + tail) {
      LinesOfJoin(front + [l + tail]);
    }
  }

  lemma JoinOne(l: string)
    ensures Join([l]) == l
  {
    assert [l][1..] == [] && l + "" == l;
  }

  lemma RegroupText(a: string, b: string, c: string, d: string)
    ensures a + b + (c + d) + "" == a + (b + c) + d + ""
  {
  }

  lemma GluedPrints(r: Release, all: seq<string>)
    requires all != [] && r.epilog == ""
    ensures FormatRelease(Glued(r, all)) == FormatRelease(r.(issues := all))
  {
    var title := if Truthy(r.version) then
                   var t := r.version.value + TITLE_END; Bar(|t| - 1) + [NL] + t + Bar(|t| - 1) + [NL]
                 else "";
    assert IssueLines(all)[1..] == IssueLines(all[1..]);
    RegroupText(title, r.description, IssueLine(all[0]), Join(IssueLines(all[1..])));
  }

  lemma {:induction false} GluedIsGood(r: Release, all: seq<string>, first: bool)
    requires GoodSection(Split(r), first, true) && r.issues == [] && r.description != "" && !Ended(r.description)
    requires all != [] && forall k :: 0 <= k < |all| ==> IsNumber(all[k])
    ensures GoodSection(Split(Glued(r, all)), first, true)
    ensures r.epilog == ""
  {
    JoinOfLines(r.epilog);
    assert r.epilog == "" && Lines("") == [];
    IssueLineIsLine(all[0]);
    LinesOfGlued(r.description, IssueLine(all[0]));
    hide Lines;
    var ls := Lines(r.description);
    var l := ls[|ls| - 1];
    GluedLine(l, all[0]);
    hide IsOverline, IssueNumber, IssueLine;
    assert IssueNumber(l).None? && !IsOverline(l);
  }

  lemma MoreIssuesPrintLonger(r: Release, more: seq<string>)
    requires |more| > |r.issues| && more[|more| - |r.issues|..] == r.issues
    ensures |FormatRelease(r.(issues := more))| > |FormatRelease(r)|
  {
    var extra := more[..|more| - |r.issues|];
    assert more == extra + r.issues;
    IssueLinesConcat(extra, r.issues);
    JoinConcat(IssueLines(extra), IssueLines(r.issues));
    assert Join(IssueLines(extra)) == IssueLine(extra[0]) + Join(IssueLines(extra)[1..]);
  }

  /** All the releases before the last one, and the last one as it is read back. */
  function GluedAll(rs: seq<Release>, version: string, issues: seq<string>): seq<Release>
    requires rs != [] && AddIssues(issues, rs[|rs| - 1].issues) != []
  {
    var n := |rs| - 1;
    ExtendFrom(rs[..n], version, issues, false) + [Glued(rs[n], AddIssues(issues, rs[n].issues))]
  }

  lemma GluedAllIsWellFormed(rs: seq<Release>, version: string, issues: seq<string>)
    requires WellFormed(rs) && ValidUpdate(version, issues) && GluesIssue(rs, version, issues)
    requires AddIssues(issues, rs[|rs| - 1].issues) != []
    ensures WellFormed(GluedAll(rs, version, issues))
    ensures rs[|rs| - 1].epilog == ""
  {
    var n := |rs| - 1;
    AddIssuesNumbers(issues, rs[n].issues);
    ExtendWithoutPrepend(rs[..n], version, issues);
    assert GoodSection(SplitAll(rs)[n], true && n == 0, n == |rs| - 1);
    GluedIsGood(rs[n], AddIssues(issues, rs[n].issues), n == 0);
    hide GoodSection, Split, Extended, ExtendFrom, Glued, AddIssues, Ended;
    var g := GluedAll(rs, version, issues);
    forall k | 0 <= k < |g|
      ensures GoodSection(SplitAll(g)[k], true && k == 0, k == |g| - 1)
    {
      if k < n {
        assert GoodSection(SplitAll(rs)[k], true && k == 0, k == |rs| - 1);
        assert rs[..n][k] == rs[k];
        var more := ExtendedParts(rs[k], version, issues);
        MoreIssuesAreGood(rs[k], more, k == 0, false);
      }
    }
  }

  /** The issues that are added to a list without any. */
  lemma NewIssues(issues: seq<string>)
    requires issues != []
    ensures var all := AddIssues(issues, []);
      all != [] && all[0] in issues && all[0] !in all[1..]
  {
    AddIssuesMeaning(issues, []);
    var all := AddIssues(issues, []);
    assert issues[0] in all;
    assert all[0] in all;
  }

  lemma GluedAllPrints(rs: seq<Release>, version: string, issues: seq<string>)
    requires rs != [] && HasVersion(rs, version)
    requires rs[|rs| - 1].version == Some(version) && rs[|rs| - 1].epilog == ""
    requires AddIssues(issues, rs[|rs| - 1].issues) != []
    ensures Print(ExtendReleases(rs, version, issues)) == Print(GluedAll(rs, version, issues))
  {
    var n := |rs| - 1;
    var r := rs[n];
    var all := AddIssues(issues, r.issues);
    GluedPrints(r, all);
    ExtendWithoutPrepend(rs, version, issues);
    ExtendWithoutPrepend(rs[..n], version, issues);
    var last := Extended(r, version, issues);
    assert last == r.(issues := all);
    hide Glued, FormatRelease, AddIssues, Extended, HasVersion;
    var front := ExtendFrom(rs[..n], version, issues, false);
    assert ExtendReleases(rs, version, issues) == front + [last];
    PrintConcat(front, [last]);
    PrintConcat(front, [Glued(r, all)]);
    assert [last][1..] == [] && [Glued(r, all)][1..] == [];
  }

  /** Releases that were extended once stay the same when extended again. */
  lemma {:induction false} ExtendTwice(rs: seq<Release>, version: string, issues: seq<string>)
    ensures var once := ExtendFrom(rs, version, issues, false); ExtendFrom(once, version, issues, false) == once
  {
    if rs != [] {
      var r := Extended(rs[0], version, issues);
      ExtendTwice(rs[1..], version, issues);
      AddIssuesMeaning(issues, rs[0].issues);
      AddPresentIssues(issues, AddIssues(issues, rs[0].issues));
      assert Extended(r, version, issues) == r;
      assert ExtendFrom(rs, version, issues, false)[1..] == ExtendFrom(rs[1..], version, issues, false);
    }
  }

  lemma {:induction false} ExtendConcat(a: seq<Release>, b: seq<Release>, version: string, issues: seq<string>)
    ensures ExtendFrom(a + b, version, issues, false) ==
            ExtendFrom(a, version, issues, false) + ExtendFrom(b, version, issues, false)
  {
    if a == [] {
      assert a + b == b;
    } else {
      assert (a + b)[1..] == a[1..] + b;
      ExtendConcat(a[1..], b, version, issues);
    }
  }

  /** Updating again adds the glued issue once more. */
  lemma GluedGrows(front: seq<Release>, r: Release, version: string, issues: seq<string>)
    requires issues != [] && r.version == Some(version)
    requires ExtendFrom(front, version, issues, false) == front
    ensures AddIssues(issues, []) != []
    ensures var g := front + [Glued(r, AddIssues(issues, []))];
      |Print(ExtendReleases(g, version, issues))| > |Print(g)|
  {
    NewIssues(issues);
    var all := AddIssues(issues, []);
    var last := Glued(r, all);
    var g := front + [last];
    AddIssuesMeaning(issues, all[1..]);
    var more := AddIssues(issues, all[1..]);
    assert all[0] in more;
    assert more != all[1..];
    assert more[|more| - |all[1..]|..] == all[1..] && more == more[0..];
    assert g[|front|].version == Some(version);
    assert HasVersion(g, version);
    ExtendConcat(front, [last], version, issues);
    assert [last][1..] == [] && [Extended(last, version, issues)] + [] == [Extended(last, version, issues)];
    assert ExtendReleases(g, version, issues) == front + [last.(issues := more)];
    MoreIssuesPrintLonger(last, more);
    hide FormatRelease, Glued, AddIssues, ExtendFrom;
    PrintConcat(front, [last]);
    PrintConcat(front, [last.(issues := more)]);
    assert [last.(issues := more)][1..] == [];
  }

  lemma UpdateGlues(text: string, version: string, issues: seq<string>)
    requires ValidUpdate(version, issues) && WellFormed(ParseLines(Lines(text)))
    requires GluesIssue(ParseLines(Lines(text)), version, issues)
    ensures |Update(Update(text, version, issues), version, issues)| > |Update(text, version, issues)|
  {
    var rs := ParseLines(Lines(text));
    NewIssues(issues);
    var n := |rs| - 1;
    assert HasVersion(rs, version);
    hide ValidUpdate, WellFormed, Lines, ParseLines, ExtendReleases, ExtendFrom, Glued, AddIssues, Print;
    GluedAllIsWellFormed(rs, version, issues);
    GluedAllPrints(rs, version, issues);
    ExtendTwice(rs[..n], version, issues);
    GluedGrows(ExtendFrom(rs[..n], version, issues, false), rs[n], version, issues);
    ParseUndoesPrint(GluedAll(rs, version, issues));
  }

  /**
   Updating twice with the same version and issues gives the text of updating once, except
   exactly when an issue is glued to an unfinished last line.
   */
  lemma UpdateIdempotent(text: string, version: string, issues: seq<string>)
    requires ValidUpdate(version, issues) && WellFormed(ParseLines(Lines(text)))
    ensures Update(Update(text, version, issues), version, issues) == Update(text, version, issues)
            <==> !GluesIssue(ParseLines(Lines(text)), version, issues)
  {
    var rs := ParseLines(Lines(text));
    if GluesIssue(rs, version, issues) {
      UpdateGlues(text, version, issues);
    } else if HasVersion(rs, version) {
      ExtendedIsWellFormed(rs, version, issues);
      ExtendSettles(rs, version, issues);
      UpdateOfSettled(text, version, issues, ExtendReleases(rs, version, issues));
    } else {
      UpdatePrepends(text, version, issues);
    }
  }

  /** Notes whose last line, the description of version 1, has no newline. */
  const UNFINISHED: seq<Release> := [Release(None, "", [], ""), Release(Some("1"), "x", [], "")]

  lemma UnfinishedIsWellFormed()
    ensures WellFormed(UNFINISHED)
  {
    assert Lines("") == [] && LineEnd("x") == 1 && Lines("x") == ["x"];
    hide Lines;
    assert !IsOverline("x") && IssueNumber("x").None?;
    hide IsOverline, IssueNumber;
    assert GoodSection(Split(UNFINISHED[0]), true, false);
    assert GoodSection(Split(UNFINISHED[1]), false, true);
  }

  /** Such a text exists: on these notes, updating twice is not updating once. */
  lemma UpdateCanGlue()
    ensures var text := Print(UNFINISHED);
      && FramesExact(Lines(text)) && WellFormed(ParseLines(Lines(text))) && ValidUpdate("1", ["7"])
      && Update(Update(text, "1", ["7"]), "1", ["7"]) != Update(text, "1", ["7"])
  {
    UnfinishedIsWellFormed();
    hide Print, Lines, ParseLines, FramesExact, WellFormed;
    assert IsNumber("7") && NL !in "1";
    ParseUndoesPrint(UNFINISHED);
    PrintUndoesParse(Print(UNFINISHED));
    UpdateIdempotent(Print(UNFINISHED), "1", ["7"]);
  }

  /** A frame whose title is followed by another line of '=': that line is kept as description. */
  const BROKEN: seq<string> := [Bar(16) + [NL], "1 Release Notes\n", "==\n"]

  lemma BrokenParses()
    ensures ParseLines(BROKEN) == [Release(None, "==\n", [], "")]
  {
    var st := Fresh(None);
    var bar := BROKEN[0];
    assert bar[..|bar| - 1] == Bar(16) && IsOverline(bar);
    var st1 := st.(needline := Some(Bar(16)));
    assert ParseLine(st, bar) == Parsed(st1, None);
    assert "1 Release Notes\n" == "1" + TITLE_END && !IsOverline("1 Release Notes\n") by { TitleIsNoOverline("1"); }
    TitleVersionOfTitle("1", 2);
    var st2 := st1.(pending := Some("1"));
    assert ParseLine(st1, "1 Release Notes\n") == Parsed(st2, None);
    assert |Bar(16) + [NL]| == 17 && "==\n" != Bar(16) + [NL];
    assert IssueNumber("==\n") == None;
    var st3 := st.(description := [] + ["==\n"]);
    assert ParseLine(st2, "==\n") == Parsed(st3, None);
    hide ParseLine;
    assert BROKEN[1..] == ["1 Release Notes\n", "==\n"] && BROKEN[1..][1..] == ["==\n"] && BROKEN[1..][1..][1..] == [];
    assert ParseFrom(st3, []) == [Last(st3)];
    assert ParseFrom(st2, ["==\n"]) == [Last(st3)] by { assert ["==\n"][1..] == []; }
    assert ParseFrom(st1, BROKEN[1..]) == [Last(st3)];
    assert ParseFrom(st, BROKEN) == [Last(st3)];
    assert Join(["==\n"]) == "==\n";
    assert JoinAll([Last(st3)]) == [Release(None, "==\n", [], "")];
  }

  /** Printed again, that line starts a frame, and the next parse swallows it. */
  lemma BarIsSwallowed()
    ensures ParseLines(Lines("==\n")) == [Release(None, "", [], "")]
    ensures Print([Release(None, "", [], "")]) == ""
  {
    assert Lines("==\n") == ["==\n"] by {
      assert FileLines(["==\n"]) && Join(["==\n"]) == "==\n";
      LinesOfJoin(["==\n"]);
    }
    var st := Fresh(None);
    assert IsOverline("==\n") && "==\n"[..2] == "==";
    var st1 := st.(needline := Some("=="));
    assert ParseLine(st, "==\n") == Parsed(st1, None);
    hide ParseLine, IsOverline, Lines;
    assert ["==\n"][1..] == [];
    assert ParseFrom(st1, []) == [Last(st1)];
    assert ParseFrom(st, ["==\n"]) == [Last(st1)];
    assert JoinAll([Last(st1)]) == [Release(None, "", [], "")];
    assert Print([Release(None, "", [], "")]) == FormatRelease(Release(None, "", [], "")) + "" by {
      assert [Release(None, "", [], "")][1..] == [];
    }
  }

  lemma BrokenLines()
    ensures Lines(Join(BROKEN)) == BROKEN
  {
    assert forall k :: 0 <= k < 3 ==> IsLine(BROKEN[k]) && Ended(BROKEN[k]) by {
      assert BROKEN[0][..16] == Bar(16);
    }
    hide Lines;
    LinesOfJoin(BROKEN);
  }

  /** Where a line of '=' is kept as text, updating twice need not be updating once. */
  lemma BrokenFrameChanges()
    ensures var text := Join(BROKEN);
      && Lines(text) == BROKEN && ValidUpdate("2", [])
      && Update(text, "2", []) == "==\n" && Update("==\n", "2", []) == ""
  {
    BrokenParses();
    BarIsSwallowed();
    BrokenLines();
    hide Join;
    var rs := [Release(None, "==\n", [], "")];
    hide ParseLines, Lines;
    ExtendWithPrepend(rs, "2", [], 1);
    assert Print(rs) == "==\n" by { assert rs[1..] == []; }
    ExtendWithPrepend([Release(None, "", [], "")], "2", [], 1);
  }
}
