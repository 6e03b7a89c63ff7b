/** Text as the lines that iterating over a file yields: each keeps its newline. */
module TextLines {

  const NL: char := '\n'

  /** The position of the first newline, or the length of the text. */
  function LineEnd(t: string): (k: nat)
    ensures k <= |t|
    ensures NL !in t[..k]
    ensures k < |t| ==> t[k] == NL
  {
    if t == "" || t[0] == NL then 0
    else
      var k := LineEnd(t[1..]);
      assert t[..k + 1] == [t[0]] + t[1..][..k];
      k + 1
  }

  function Lines(t: string): seq<string> {
    if t == "" then []
    else if LineEnd(t) == |t| then [t]
    else [t[..LineEnd(t) + 1]] + Lines(t[LineEnd(t) + 1..])
  }

  function Join(ls: seq<string>): string {
    if ls == [] then "" else ls[0] + Join(ls[1..])
  }

  predicate Ended(l: string) {
    l != "" && l[|l| - 1] == NL
  }

  /** A line: not empty, with no newline except at its end. */
  predicate IsLine(l: string) {
    l != "" && NL !in l[..|l| - 1]
  }

  /** Lines that all end with a newline. */
  predicate EndedLines(ls: seq<string>) {
    forall k :: 0 <= k < |ls| ==> IsLine(ls[k]) && Ended(ls[k])
  }

  /** Lines as a file yields them: only the last one may lack its newline. */
  predicate FileLines(ls: seq<string>) {
    && (forall k :: 0 <= k < |ls| ==> IsLine(ls[k]))
    && (forall k :: 0 <= k < |ls| - 1 ==> Ended(ls[k]))
  }

  lemma FileLinesTail(ls: seq<string>)
    requires FileLines(ls) && ls != []
    ensures FileLines(ls[1..])
  {
    forall k | 0 <= k < |ls[1..]| - 1
      ensures Ended(ls[1..][k])
    {
      assert Ended(ls[k + 1]);
    }
  }

  lemma FileLinesConcat(a: seq<string>, b: seq<string>)
    requires EndedLines(a) && FileLines(b)
    ensures FileLines(a + b)
  {
  }

  /** Splitting loses nothing. */
  lemma {:induction false} JoinOfLines(t: string)
    ensures Join(Lines(t)) == t
    ensures FileLines(Lines(t))
  {
    hide LineEnd;
    if t != "" {
      var k := LineEnd(t);
      if k < |t| {
        JoinOfLines(t[k + 1..]);
        assert t == t[..k + 1] + t[k + 1..];
        assert t[..k + 1][..k] == t[..k];
        FileLinesConcat([t[..k + 1]], Lines(t[k + 1..]));
      } else {
        assert t[..|t| - 1] <= t[..k];
      }
    }
  }

  lemma LineEndOfLine(l: string, rest: string)
    requires IsLine(l)
    requires Ended(l) || rest == ""
    ensures LineEnd(l + rest) == if Ended(l) then |l| - 1 else |l|
  {
    var t := l + rest;
    assert forall j :: 0 <= j < |l| - 1 ==> t[j] == l[..|l| - 1][j] && t[j] != NL;
    assert forall j :: 0 <= j < LineEnd(t) ==> t[j] == t[..LineEnd(t)][j] && t[j] != NL;
    assert t[|l| - 1] == l[|l| - 1];
  }

  /** The lines of a joined file are the lines it was joined from. */
  lemma {:induction false} LinesOfJoin(ls: seq<string>)
    requires FileLines(ls)
    ensures Lines(Join(ls)) == ls
  {
    if ls != [] {
      FileLinesTail(ls);
      LinesOfJoin(ls[1..]);
      var l, rest := ls[0], Join(ls[1..]);
      if |ls| == 1 {
        assert ls[1..] == [] && l + rest == l;
      }
      LineEndOfLine(l, rest);
      if Ended(l) {
        assert (l + rest)[..|l|] == l && (l + rest)[|l|..] == rest;
        if rest == "" {
          assert ls[1..] == [];
        }
      }
      assert [l] + ls[1..] == ls;
    }
  }

  lemma {:induction false} JoinConcat(a: seq<string>, b: seq<string>)
    ensures Join(a + b) == Join(a) + Join(b)
  {
    if a == [] {
      assert a + b == b;
    } else {
      assert (a + b)[1..] == a[1..] + b;
      JoinConcat(a[1..], b);
    }
  }

  lemma JoinInjective(a: seq<string>, b: seq<string>)
    requires FileLines(a) && FileLines(b) && Join(a) == Join(b)
    ensures a == b
  {
    LinesOfJoin(a);
    LinesOfJoin(b);
  }

  lemma {:induction false} JoinOfEnded(ls: seq<string>)
    requires EndedLines(ls)
    ensures Join(ls) == "" || Ended(Join(ls))
  {
    if ls != [] {
      JoinOfEnded(ls[1..]);
    }
  }
}
