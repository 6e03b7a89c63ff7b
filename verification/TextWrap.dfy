/** Wrapping of text with lists and blocks: textwrap_fill (dnf/i18n.py). */
module TextWrap {
  import opened Wrappers
  import opened TextWidth

  // ----- Strings -----

  function RStrip(s: string, c: char): (r: string)
    ensures r <= s && (r != "" ==> r[|r| - 1] != c)
    ensures forall k :: |r| <= k < |s| ==> s[k] == c
    decreases |s|
  {
    if s != "" && s[|s| - 1] == c then RStrip(s[..|s| - 1], c) else s
  }

  function LeadingSpaces(s: string): (n: nat)
    ensures n <= |s| && (forall k :: 0 <= k < n ==> s[k] == ' ') && (n < |s| ==> s[n] != ' ')
  {
    if s != "" && s[0] == ' ' then 1 + LeadingSpaces(s[1..]) else 0
  }

  /** `replace('\t', ' ' * 8)`. */
  function ExpandTabs(s: string): string {
    if s == "" then "" else (if s[0] == '\t' then Spaces(8) else [s[0]]) + ExpandTabs(s[1..])
  }

  /** `split`. */
  function Split(s: string, c: char): (r: seq<string>)
    ensures r != []
  {
    if s == "" then [""]
    else
      var rest := Split(s[1..], c);
      if s[0] == c then [""] + rest else [[s[0]] + rest[0]] + rest[1..]
  }

  lemma {:induction false} SplitParts(s: string, c: char)
    ensures forall k :: 0 <= k < |Split(s, c)| ==> c !in Split(s, c)[k]
  {
    if s != "" {
      SplitParts(s[1..], c);
    }
  }

  /** `'\n'.join`. */
  function JoinLines(ls: seq<string>): string {
    if ls == [] then "" else if |ls| == 1 then ls[0] else ls[0] + "\n" + JoinLines(ls[1..])
  }

  /** Joining undoes splitting into lines, which hold no newline. */
  lemma {:induction false} JoinOfSplit(s: string)
    ensures JoinLines(Split(s, '\n')) == s
  {
    if s != "" {
      JoinOfSplit(s[1..]);
      var rest := Split(s[1..], '\n');
      if s[0] == '\n' {
        assert ([""] + rest)[1..] == rest && "" + "\n" + s[1..] == s;
      } else {
        assert ([[s[0]] + rest[0]] + rest[1..])[1..] == rest[1..];
        assert |rest| > 1 ==> [s[0]] + rest[0] + "\n" + JoinLines(rest[1..]) == [s[0]] + (rest[0] + "\n" + JoinLines(rest[1..]));
      }
    }
  }

  /** Every tab becomes eight spaces; everything else stays. */
  lemma {:induction false} TabsExpanded(a: string, b: string)
    ensures '\t' !in a ==> ExpandTabs(a) == a
    ensures '\t' !in a ==> ExpandTabs(a + "\t" + b) == a + "        " + ExpandTabs(b)
  {
    if a == "" {
      assert a + "\t" + b == "\t" + b && ("\t" + b)[1..] == b;
      assert Spaces(8) == "        ";
      assert "" + "        " + ExpandTabs(b) == "        " + ExpandTabs(b);
    } else {
      assert (a + "\t" + b)[1..] == a[1..] + "\t" + b;
      TabsExpanded(a[1..], b);
      assert [a[0]] + (a[1..] + "        " + ExpandTabs(b)) == a + "        " + ExpandTabs(b);
    }
  }

  predicate IsBlank(c: char) {
    c == ' ' || c == '\n' || c == '\t'
  }

  /** The text without its blanks. */
  function NonBlank(s: string): string {
    if s == "" then "" else (if IsBlank(s[0]) then "" else [s[0]]) + NonBlank(s[1..])
  }

  lemma {:induction false} NonBlankAppend(a: string, b: string)
    ensures NonBlank(a + b) == NonBlank(a) + NonBlank(b)
  {
    if a == "" {
      assert a + b == b;
    } else {
      assert (a + b)[1..] == a[1..] + b;
      NonBlankAppend(a[1..], b);
    }
  }

  lemma {:induction false} AllBlank(s: string)
    requires forall k :: 0 <= k < |s| ==> IsBlank(s[k])
    ensures NonBlank(s) == ""
  {
    if s != "" {
      AllBlank(s[1..]);
    }
  }

  lemma NonBlankRStrip(s: string, c: char)
    requires IsBlank(c)
    ensures NonBlank(RStrip(s, c)) == NonBlank(s)
  {
    var r := RStrip(s, c);
    AllBlank(s[|r|..]);
    NonBlankAppend(r, s[|r|..]);
    assert s == r + s[|r|..];
  }

  lemma {:induction false} NonBlankExpandTabs(s: string)
    ensures NonBlank(ExpandTabs(s)) == NonBlank(s)
  {
    if s != "" {
      NonBlankExpandTabs(s[1..]);
      var first := if s[0] == '\t' then Spaces(8) else [s[0]];
      NonBlankAppend(first, ExpandTabs(s[1..]));
      if s[0] == '\t' {
        AllBlank(Spaces(8));
      } else {
        NonBlankAppend([s[0]], "");
      }
    }
  }

  function Concat(parts: seq<string>): string {
    if parts == [] then "" else parts[0] + Concat(parts[1..])
  }

  lemma {:induction false} ConcatSnoc(parts: seq<string>, s: string)
    ensures Concat(parts + [s]) == Concat(parts) + s
  {
    if parts == [] {
      assert [s][1..] == [] && [] + [s] == [s];
    } else {
      assert (parts + [s])[1..] == parts[1..] + [s];
      ConcatSnoc(parts[1..], s);
    }
  }

  /** Splitting loses only separators. */
  lemma {:induction false} NonBlankSplit(s: string, c: char)
    requires IsBlank(c)
    ensures NonBlank(Concat(Split(s, c))) == NonBlank(s)
  {
    if s != "" {
      var rest := Split(s[1..], c);
      NonBlankSplit(s[1..], c);
      if s[0] == c {
        assert ([""] + rest)[1..] == rest;
        assert "" + Concat(rest) == Concat(rest);
      } else {
        var first := [s[0]] + rest[0];
        assert ([first] + rest[1..])[1..] == rest[1..];
        assert first + Concat(rest[1..]) == [s[0]] + (rest[0] + Concat(rest[1..]));
        NonBlankAppend([s[0]], Concat(rest));
        assert NonBlank([s[0]]) == if IsBlank(s[0]) then "" else [s[0]];
      }
    }
  }

  // ----- List bullets -----

  const BULLET_BYTES: set<char> := {'-', '*', '.', 'o', '\U{00e2}'}

  predicate IsBullet(s: string) {
    |s| == 1 && s[0] in {'-', '*', '.', 'o', '\U{2022}', '\U{2023}', '\U{2218}'}
  }

  /** The list character, as `chop_str` gives it. */
  function ListChar(wide: set<char>, line: string, count: nat): string
    requires count < |line|
  {
    if CharWidth(wide, line[count]) <= 1 then [line[count]] else ""
  }

  /** The bullets that are recognised: four ASCII characters, where they are not wide. */
  predicate IsListBullet(wide: set<char>, c: char) {
    c in {'-', '*', '.', 'o'} && c !in wide
  }

  /** The line starts with a bullet. */
  predicate StartsItem(wide: set<char>, line: string)
    ensures StartsItem(wide, line) <==>
            LeadingSpaces(line) < |line| && IsListBullet(wide, line[LeadingSpaces(line)])
  {
    var count := LeadingSpaces(line);
    count < |line| && line[count] in BULLET_BYTES && IsBullet(ListChar(wide, line, count))
  }

  /** The result for a line with a bullet, given that for the text after it. */
  function ItemIndent(count: nat, nxt: (nat, nat)): (nat, nat) {
    var n := if nxt.1 != 0 then nxt.1 else nxt.0;
    (count, if n != 0 then count + 1 + n else 0)
  }

  /** `_indent_at_beg`: the leading spaces, and the column of a list item's text, or 0. */
  function IndentAtBeg(wide: set<char>, line: string): (r: (nat, nat))
    ensures r.0 == LeadingSpaces(line)
    ensures r.1 != 0 ==> r.0 < |line| && IsListBullet(wide, line[r.0]) && r.0 + 1 < r.1 <= |line|
    decreases |line|
  {
    if StartsItem(wide, line) then ItemIndent(LeadingSpaces(line), IndentAtBeg(wide, line[LeadingSpaces(line) + 1..]))
    else (LeadingSpaces(line), 0)
  }

  /** The three Unicode bullets are never taken for bullets, and neither is what used to be their first byte. */
  lemma UnicodeBulletsIgnored(wide: set<char>, line: string)
    requires LeadingSpaces(line) < |line| && line[LeadingSpaces(line)] in {'\U{2022}', '\U{2023}', '\U{2218}', '\U{00e2}'}
    ensures IndentAtBeg(wide, line).1 == 0
  {
  }

  /** The line, from index k on, goes on with n bullets and then a space. */
  predicate BulletsThenSpace(wide: set<char>, line: string, k: nat, n: nat) {
    k + n < |line| && line[k + n] == ' ' && forall j :: k <= j < k + n ==> IsListBullet(wide, line[j])
  }

  ghost predicate SomeBullets(wide: set<char>, line: string, k: nat) {
    exists n :: n >= 1 && BulletsThenSpace(wide, line, k, n)
  }

  /** A line is a list item exactly if, after its leading spaces, it has one bullet or more and then a space. */
  lemma {:induction false} ItemExactly(wide: set<char>, line: string)
    ensures IndentAtBeg(wide, line).1 != 0 <==>
            SomeBullets(wide, line, LeadingSpaces(line))
    decreases |line|
  {
    var c := LeadingSpaces(line);
    if StartsItem(wide, line) {
      var rest := line[c + 1..];
      ItemExactly(wide, rest);
      ItemAfterBullet(wide, line, rest, c);
    } else {
      hide IndentAtBeg;
      forall n: nat | n >= 1
        ensures !BulletsThenSpace(wide, line, c, n)
      {
        FirstBullet(wide, line, c, n);
      }
      NoItem(wide, line);
    }
  }

  lemma FirstBullet(wide: set<char>, line: string, k: nat, n: nat)
    requires n >= 1
    ensures BulletsThenSpace(wide, line, k, n) ==> k < |line| && IsListBullet(wide, line[k])
  {
  }

  lemma NoItem(wide: set<char>, line: string)
    requires !StartsItem(wide, line)
    ensures IndentAtBeg(wide, line).1 == 0
  {
  }

  lemma ItemAfterBullet(wide: set<char>, line: string, rest: string, c: nat)
    requires c == LeadingSpaces(line) && StartsItem(wide, line) && rest == line[c + 1..]
    requires IndentAtBeg(wide, rest).1 != 0 <==>
             SomeBullets(wide, rest, LeadingSpaces(rest))
    ensures IndentAtBeg(wide, line).1 != 0 <==> SomeBullets(wide, line, c)
  {
    assert IndentAtBeg(wide, line) == ItemIndent(c, IndentAtBeg(wide, rest));
    hide IndentAtBeg, StartsItem, SomeBullets, LeadingSpaces;
    if LeadingSpaces(rest) > 0 {
      BulletThenSpace(wide, line, rest, c);
      OneBullet(wide, line, c);
    } else {
      MoreBullets(wide, line, rest, c);
    }
  }

  lemma OneBullet(wide: set<char>, line: string, c: nat)
    requires BulletsThenSpace(wide, line, c, 1)
    ensures SomeBullets(wide, line, c)
  {
  }

  lemma MoreBullets(wide: set<char>, line: string, rest: string, c: nat)
    requires c < |line| && IsListBullet(wide, line[c]) && rest == line[c + 1..] && LeadingSpaces(rest) == 0
    ensures SomeBullets(wide, rest, 0) <==> SomeBullets(wide, line, c)
  {
    NoSpaceYet(wide, rest);
    hide BulletsThenSpace, IsListBullet, LeadingSpaces;
    if n :| n >= 1 && BulletsThenSpace(wide, line, c, n) {
      BulletsShift(wide, line, rest, c, n - 1);
    }
    if n :| n >= 1 && BulletsThenSpace(wide, rest, 0, n) {
      BulletsShift(wide, line, rest, c, n);
    }
  }

  lemma BulletThenSpace(wide: set<char>, line: string, rest: string, c: nat)
    requires c < |line| && IsListBullet(wide, line[c]) && rest == line[c + 1..] && LeadingSpaces(rest) > 0
    ensures BulletsThenSpace(wide, line, c, 1)
  {
    assert rest[0] == line[c + 1];
  }

  lemma NoSpaceYet(wide: set<char>, rest: string)
    requires LeadingSpaces(rest) == 0
    ensures !BulletsThenSpace(wide, rest, 0, 0)
  {
  }

  /** One bullet more in front. */
  lemma BulletsShift(wide: set<char>, line: string, rest: string, c: nat, n: nat)
    requires c < |line| && IsListBullet(wide, line[c]) && rest == line[c + 1..]
    ensures BulletsThenSpace(wide, rest, 0, n) <==> BulletsThenSpace(wide, line, c, n + 1)
  {
    hide IsListBullet;
    assert forall j :: 0 <= j < |rest| ==> rest[j] == line[c + 1 + j];
    if BulletsThenSpace(wide, line, c, n + 1) {
      forall j | 0 <= j < n
        ensures IsListBullet(wide, rest[j])
      {
        assert IsListBullet(wide, line[c + 1 + j]);
      }
    } else if BulletsThenSpace(wide, rest, 0, n) {
      forall j | c <= j < c + n + 1
        ensures IsListBullet(wide, line[j])
      {
        if j > c { assert rest[j - c - 1] == line[j]; }
      }
    }
  }

  lemma BulletsAt(wide: set<char>, line: string, d: nat, k: nat, n: nat)
    requires d <= |line|
    ensures BulletsThenSpace(wide, line[d..], k, n) <==> BulletsThenSpace(wide, line, d + k, n)
  {
    hide IsListBullet;
    var rest := line[d..];
    assert forall j :: d <= j < |line| ==> line[j] == rest[j - d];
    assert forall j :: 0 <= j < |rest| ==> rest[j] == line[d + j];
  }

  lemma {:induction false} BulletsInTail(wide: set<char>, line: string, d: nat, k: nat)
    requires d <= |line|
    ensures SomeBullets(wide, line[d..], k) <==> SomeBullets(wide, line, d + k)
  {
    hide BulletsThenSpace;
    var m := d + k;
    if n :| n >= 1 && BulletsThenSpace(wide, line[d..], k, n) {
      BulletsAt(wide, line, d, k, n);
    }
    if n :| n >= 1 && BulletsThenSpace(wide, line, m, n) {
      BulletsAt(wide, line, d, k, n);
    }
  }

  /** At c the text of an item starts: before it are only spaces and bullets, and a space last. */
  ghost predicate TextStarts(wide: set<char>, line: string, c: nat) {
    && 0 < c <= |line| && line[c - 1] == ' ' && (c < |line| ==> line[c] != ' ') && !SomeBullets(wide, line, c)
    && forall j :: 0 <= j < c ==> line[j] == ' ' || IsListBullet(wide, line[j])
  }

  lemma {:induction false} TextStartsInTail(wide: set<char>, line: string, d: nat, c: nat)
    requires d <= |line| && TextStarts(wide, line[d..], c)
    requires forall j :: 0 <= j < d ==> line[j] == ' ' || IsListBullet(wide, line[j])
    ensures TextStarts(wide, line, d + c)
  {
    BulletsInTail(wide, line, d, c);
    hide SomeBullets, IsListBullet;
    assert forall j :: d <= j < |line| ==> line[j] == line[d..][j - d];
  }

  lemma {:induction false} TextAfterSpaces(wide: set<char>, line: string)
    requires IndentAtBeg(wide, line).1 == 0 && LeadingSpaces(line) > 0
    ensures TextStarts(wide, line, LeadingSpaces(line))
  {
    ItemExactly(wide, line);
    hide SomeBullets, IndentAtBeg, LeadingSpaces;
  }

  lemma {:induction false} IndentStep(wide: set<char>, line: string)
    ensures IndentAtBeg(wide, line) ==
            if StartsItem(wide, line)
            then ItemIndent(LeadingSpaces(line), IndentAtBeg(wide, line[LeadingSpaces(line) + 1..]))
            else (LeadingSpaces(line), 0)
  {
    hide StartsItem, ItemIndent, LeadingSpaces;
  }

  lemma {:induction false} ColumnParts(wide: set<char>, line: string)
    requires IndentAtBeg(wide, line).1 != 0
    ensures LeadingSpaces(line) < |line| && IsListBullet(wide, line[LeadingSpaces(line)])
    ensures var d := LeadingSpaces(line) + 1;
      var nxt := IndentAtBeg(wide, line[d..]);
      IndentAtBeg(wide, line).1 == d + (if nxt.1 != 0 then nxt.1 else nxt.0)
      && nxt.0 == LeadingSpaces(line[d..]) && (nxt.1 == 0 ==> nxt.0 > 0)
  {
    hide IndentAtBeg, IsListBullet, LeadingSpaces, StartsItem, ListChar, IsBullet;
    IndentStep(wide, line);
  }

  /** Where an item has its text: behind all bullets and spaces, with no further item there. */
  lemma {:induction false} TextColumn(wide: set<char>, line: string)
    requires IndentAtBeg(wide, line).1 != 0
    ensures TextStarts(wide, line, IndentAtBeg(wide, line).1)
    decreases |line|
  {
    hide TextStarts, SomeBullets, IsListBullet, IndentAtBeg, LeadingSpaces;
    ColumnParts(wide, line);
    var d := LeadingSpaces(line) + 1;
    var rest := line[d..];
    if IndentAtBeg(wide, rest).1 != 0 {
      TextColumn(wide, rest);
    } else {
      TextAfterSpaces(wide, rest);
    }
    TextStartsInTail(wide, line, d, IndentAtBeg(wide, line).1 - d);
  }

  /** There is only one such place. */
  lemma TextStartsOnce(wide: set<char>, line: string, c: nat, d: nat)
    requires TextStarts(wide, line, c) && TextStarts(wide, line, d)
    ensures c == d
  {
    if c < d {
      NoTwoStarts(wide, line, c, d);
    } else if d < c {
      NoTwoStarts(wide, line, d, c);
    }
  }

  lemma {:induction false} NoTwoStarts(wide: set<char>, line: string, c: nat, d: nat)
    requires c < d <= |line| && line[c] != ' ' && line[d - 1] == ' '
    requires forall j :: 0 <= j < d ==> line[j] == ' ' || IsListBullet(wide, line[j])
    ensures SomeBullets(wide, line, c)
  {
    hide IsListBullet;
    var n := 1;
    while line[c + n] != ' '
      invariant 1 <= n < d - c
      invariant forall j :: c <= j < c + n ==> line[j] != ' '
      decreases d - c - n
    {
      n := n + 1;
    }
    assert BulletsThenSpace(wide, line, c, n);
  }

  /** The loop of `_indent_at_beg`: the leading spaces, and the character that it stopped at. */
  method SkipSpaces(line: string) returns (count: nat, byte: char)
    ensures count == LeadingSpaces(line)
    ensures byte == if count < |line| then line[count] else if line == "" then 'X' else ' '
  {
    count, byte := 0, 'X';
    assert line[0..] == line;
    while count < |line|
      invariant 0 <= count <= |line|
      invariant LeadingSpaces(line) == count + LeadingSpaces(line[count..])
      invariant byte == if count == 0 then 'X' else ' '
    {
      assert line[count..][1..] == line[count + 1..];
      byte := line[count];
      if byte != ' ' {
        break;
      }
      count := count + 1;
    }
  }

  lemma IndentCases(wide: set<char>, line: string)
    ensures LeadingSpaces(line) <= |line|
    ensures StartsItem(wide, line) <==>
            LeadingSpaces(line) < |line| && line[LeadingSpaces(line)] in BULLET_BYTES
            && IsBullet(ListChar(wide, line, LeadingSpaces(line)))
    ensures StartsItem(wide, line) ==>
              IndentAtBeg(wide, line) ==
              ItemIndent(LeadingSpaces(line), IndentAtBeg(wide, line[LeadingSpaces(line) + 1..]))
    ensures !StartsItem(wide, line) ==> IndentAtBeg(wide, line) == (LeadingSpaces(line), 0)
  {
    hide LeadingSpaces, ListChar, IsBullet, ItemIndent;
  }

  /** `_indent_at_beg`, with its loop and its recursion. */
  method IndentAtBegLoop(wide: set<char>, line: string) returns (spaces: nat, text: nat)
    ensures (spaces, text) == IndentAtBeg(wide, line)
    decreases |line|
  {
    hide IndentAtBeg, StartsItem, LeadingSpaces, ExactWidth, CharWidth, ListChar, IsBullet, IsListBullet;
    IndentCases(wide, line);
    var count, byte := SkipSpaces(line);
    NoBullet(line, count, byte);
    if byte !in BULLET_BYTES {
      return count, 0;
    }
    var width, listChr := ChopStr(wide, line[count..], Some(1));
    FirstChar(wide, line[count..]);
    FirstIsListChar(wide, line, count);
    if IsBullet(listChr) {
      BulletLength(listChr);
      var nxtSpaces, nxtText := IndentAtBegLoop(wide, line[count + |listChr|..]);
      var nxt := if nxtText != 0 then nxtText else nxtSpaces;
      if nxt != 0 {
        return count, count + 1 + nxt;
      }
    }
    return count, 0;
  }

  lemma NoBullet(line: string, count: nat, byte: char)
    requires count <= |line| && byte == if count < |line| then line[count] else if line == "" then 'X' else ' '
    ensures byte in BULLET_BYTES <==> count < |line| && line[count] in BULLET_BYTES
  {
  }

  lemma BulletLength(s: string)
    requires IsBullet(s)
    ensures |s| == 1
  {
  }

  lemma FirstIsListChar(wide: set<char>, line: string, count: nat)
    requires count < |line|
    ensures ListChar(wide, line, count) == if CharWidth(wide, line[count..][0]) <= 1 then [line[count..][0]] else ""
  {
  }

  /** Chopping to a width of 1 leaves the first character, unless it is wide. */
  lemma FirstChar(wide: set<char>, s: string)
    requires s != ""
    ensures Chopped(wide, s, Some(1)) == if CharWidth(wide, s[0]) <= 1 then [s[0]] else ""
  {
    assert Chop(wide, s[1..], 0) == "";
  }
}
