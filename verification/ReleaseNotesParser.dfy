/** The parser object, and the loops of extend_releases and update_notes. */
module ReleaseNotesParser {
  import opened Wrappers
  import opened TextLines
  import opened Decimal
  import opened ReleaseNotes
  import opened ReleaseRoundTrip
  import opened ReleaseUpdate

  class ReleaseNotesParser {
    var needline: Option<string>
    var pending: Option<string>     // _version
    var version: Option<string>
    var description: seq<string>
    var issues: seq<string>
    var epilog: seq<string>

    ghost function Model(): State
      reads this
    {
      State(needline, pending, version, description, issues, epilog)
    }

    constructor ()
      ensures Model() == Fresh(None)
    {
      needline, pending, version := None, None, None;
      description, issues, epilog := [], [], [];
    }

    /** `_last_version`. */
    method LastVersion() returns (r: Release)
      ensures r == Joined(Last(Model()))
    {
      r := Release(version, Join(description), issues, Join(epilog));
    }

    /** `_parse_overline`. */
    method ParseOverline(line: string) returns (found: bool)
      modifies this
      ensures found <==> IsOverline(line)
      ensures Model() == if found then CancelTitle(old(Model())).(needline := Some(line[..|line| - 1])) else old(Model())
    {
      if !IsOverline(line) {
        return false;
      }
      needline, pending := Some(line[..|line| - 1]), None;
      return true;
    }

    /** `_parse_title`. */
    method ParseTitle(line: string) returns (found: bool)
      requires needline.Some?
      modifies this
      ensures found <==> TitleVersion(line, |old(needline).value| - 14).Some?
      ensures Model() == if found then old(Model()).(pending := TitleVersion(line, |old(needline).value| - 14))
                         else CancelTitle(old(Model()))
    {
      var match_ := TitleVersion(line, |needline.value| - 14);
      if match_ == None {
        needline, pending := None, None;
        return false;
      }
      pending := match_;
      return true;
    }

    /** `_parse_underline`. */
    method ParseUnderline(line: string) returns (previous: Option<Release>)
      requires needline.Some?
      modifies this
      ensures line == old(needline).value + [NL] ==>
                previous == Some(Joined(Last(old(Model())))) && Model() == Fresh(old(pending))
      ensures line != old(needline).value + [NL] ==> previous == None && Model() == CancelTitle(old(Model()))
    {
      var expected, title := needline.value + [NL], pending;
      needline, pending := None, None;
      if line != expected {
        return None;
      }
      var r := LastVersion();
      version := title;
      description, issues, epilog := [], [], [];
      return Some(r);
    }

    /** `_parse_issue`. */
    method ParseIssue(line: string) returns (found: bool)
      modifies this`issues
      ensures found <==> IssueNumber(line).Some?
      ensures issues == if found then old(issues) + [IssueNumber(line).value] else old(issues)
    {
      var number := IssueNumber(line);
      if number == None {
        return false;
      }
      issues := issues + [number.value];
      return true;
    }

    /** `_parse_line`. */
    method ParseNextLine(line: string) returns (previous: Option<Release>)
      modifies this
      ensures var p := ParseLine(old(Model()), line);
        && Model() == p.state
        && previous == if p.finished.Some? then Some(Joined(p.finished.value)) else None
    {
      var needtitle := Truthy(needline) && Truthy(pending);
      if !needtitle {
        var overline := ParseOverline(line);
        if overline {
          return None;
        }
      }
      if Truthy(needline) && !Truthy(pending) {
        var title := ParseTitle(line);
        if title {
          return None;
        }
      }
      if Truthy(needline) && Truthy(pending) {
        previous := ParseUnderline(line);
        if previous.Some? {
          return previous;
        }
      }
      previous := None;
      if epilog == [] {
        var issue := ParseIssue(line);
        if issue {
          return None;
        }
      }
      if issues == [] {
        description := description + [line];
        return None;
      }
      epilog := epilog + [line];
    }

    /** `parse_lines`, for a parser object in any state. */
    method ParseAll(lines: seq<string>) returns (releases: seq<Release>)
      modifies this
      ensures releases == ParseLines(lines)
    {
      hide ParseLine, ParseFrom, Joined;
      needline, pending, version := None, None, None;
      description, issues, epilog := [], [], [];
      releases := [];
      var k := 0;
      assert lines[0..] == lines;
      while k < |lines|
        invariant 0 <= k <= |lines|
        invariant ParseLines(lines) == releases + JoinAll(ParseFrom(Model(), lines[k..]))
      {
        RestParses(Model(), lines, k);
        var previous := ParseNextLine(lines[k]);
        if previous.Some? {
          releases := releases + [previous.value];
        }
        k := k + 1;
      }
      var last := LastVersion();
      assert lines[k..] == [];
      ParseNothing(Model());
      assert JoinAll([Last(Model())]) == [last];
      releases := releases + [last];
    }
  }

  /** The releases from line k on: the one that line k finishes, if any, and the rest. */
  lemma RestParses(st: State, lines: seq<string>, k: nat)
    requires k < |lines|
    ensures var p := ParseLine(st, lines[k]);
      JoinAll(ParseFrom(st, lines[k..])) ==
      (if p.finished.Some? then [Joined(p.finished.value)] else []) + JoinAll(ParseFrom(p.state, lines[k + 1..]))
  {
    assert lines[k..][1..] == lines[k + 1..];
    var p := ParseLine(st, lines[k]);
    JoinAllStep(p.finished, ParseFrom(p.state, lines[k + 1..]));
  }

  lemma JoinAllStep(finished: Option<Section>, ss: seq<Section>)
    ensures JoinAll((if finished.Some? then [finished.value] else []) + ss) ==
            (if finished.Some? then [Joined(finished.value)] else []) + JoinAll(ss)
  {
  }

  /** `extend_releases`. */
  method ExtendReleasesLoop(releases: seq<Release>, version: string, issues: seq<string>) returns (r: seq<Release>)
    ensures r == ExtendReleases(releases, version, issues)
  {
    var prepend := !HasVersion(releases, version);
    hide HasVersion, NewRelease;
    r := [];
    var k := 0;
    assert releases[0..] == releases;
    while k < |releases|
      invariant 0 <= k <= |releases|
      invariant ExtendReleases(releases, version, issues) == r + ExtendFrom(releases[k..], version, issues, prepend)
    {
      assert releases[k..][1..] == releases[k + 1..];
      var release := releases[k];
      if prepend && release.version.Some? {
        r := r + [NewRelease(version, issues)];
        prepend := false;
      } else if release.version == Some(version) {
        var added := AddIssuesLoop(issues, release.issues);
        release := release.(issues := added);
      }
      r := r + [release];
      k := k + 1;
    }
  }

  /** The inner loop of `extend_releases`, over the reversed issues. */
  method AddIssuesLoop(issues: seq<string>, present: seq<string>) returns (r: seq<string>)
    ensures r == AddIssues(issues, present)
  {
    r := present;
    var k := |issues|;
    assert issues[k..] == [];
    while k > 0
      invariant 0 <= k <= |issues|
      invariant r == AddIssues(issues[k..], present)
    {
      k := k - 1;
      assert issues[k..][1..] == issues[k + 1..];
      if issues[k] !in r {
        r := [issues[k]] + r;
      }
    }
    assert issues[0..] == issues;
  }

  /** `update_notes` from the text of the notes to the text that replaces it. */
  method UpdateNotes(text: string, version: string, issues: seq<string>) returns (result: string)
    ensures result == Update(text, version, issues)
  {
    var parser := new ReleaseNotesParser();
    var parsed := parser.ParseAll(Lines(text));
    var releases := ExtendReleasesLoop(parsed, version, issues);
    result := "";
    var k := 0;
    while k < |releases|
      invariant 0 <= k <= |releases|
      invariant result + Print(releases[k..]) == Print(releases)
    {
      assert releases[k..][1..] == releases[k + 1..];
      result := result + FormatRelease(releases[k]);
      k := k + 1;
    }
    assert releases[k..] == [];
  }
}
