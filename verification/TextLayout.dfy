/** What textwrap_fill (dnf/i18n.py) promises about its lines. */
module TextLayout {
  import opened TextWidth
  import opened TextWrap
  import opened TextWrapFill

  // ----- Where a new line starts -----

  /** The line starts with the indent, or is only that, without spaces at its end. */
  predicate Behind(line: string, indent: string) {
    indent <= line || line == RStrip(indent, ' ')
  }

  /**
   The words of input line k start a new output line: on the lines before it stand exactly the
   words of the input lines before k, and it starts with its indent.
   */
  ghost predicate StartsLine(f: Frame, inputs: seq<string>, lines: seq<string>, outs: seq<Out>, puts: seq<Put>, k: nat)
    requires k < |puts| == |inputs| && |outs| == |lines|
  {
    var i := puts[k].at;
    && !puts[k].joined && i < |lines| && outs[i].first && outs[i].input == k
    && OutWords(outs[..i]) == PutWords(puts[..k])
    && (LineOf(inputs, k) != "" ==> Behind(lines[i], IndentOf(f, i)))
  }

  lemma {:induction false} UnjoinedStarts(f: Frame, inputs: seq<string>, lines: seq<string>, outs: seq<Out>,
                                          puts: seq<Put>, k: nat)
    requires LaidOut(f, inputs, lines, outs, puts) && k < |puts| && !puts[k].joined
    ensures StartsLine(f, inputs, lines, outs, puts, k)
  {
    hide OutWords, PutWords, GoesOn, IndentAtBeg, ExactWidth, LineOf, IndentOf, LeadingSpaces, Trail, RStrip, Breaks;
    var i := puts[k].at;
    assert PutRight(f, inputs, outs, puts, k);
    assert OutWords(outs[..i]) + [] == OutWords(outs[..i]);
    assert OutRight(f, inputs, outs, puts, i) && Written(puts, outs[i], lines[i]);
    WrittenBehind(puts, outs[i], lines[i]);
  }

  /** Whatever is written starts with its start. */
  lemma WrittenBehind(puts: seq<Put>, o: Out, l: string)
    requires Written(puts, o, l)
    ensures Behind(l, o.start)
  {
    var r := RStrip(Raw(o), ' ');
    if |o.start| > |r| {
      assert forall k :: |r| <= k < |o.start| ==> o.start[k] == Raw(o)[k];
      assert o.start[..|r|] == r;
      StripEnd(o.start, r);
    } else {
      assert r[..|o.start|] == o.start;
    }
  }

  /** Up to spaces at its end, a line is what was put on it. */
  lemma WrittenStripped(puts: seq<Put>, o: Out, l: string)
    requires Written(puts, o, l)
    ensures RStrip(l, ' ') == RStrip(Raw(o), ' ')
  {
    StripTwice(Raw(o));
    if o.words == [""] { CollapsedRaw(o); RStripAppendSpace(o.start); }
  }

  lemma {:induction false} StripEnd(s: string, r: string)
    requires r <= s && (r != "" ==> r[|r| - 1] != ' ') && forall k :: |r| <= k < |s| ==> s[k] == ' '
    ensures RStrip(s, ' ') == r
  {
    var t := RStrip(s, ' ');
    assert r != "" ==> s[|r| - 1] == r[|r| - 1];
    assert t != "" ==> s[|t| - 1] == t[|t| - 1];
    assert |r| == |t|;
  }

  /**
   An input line starts a new output line if it is a list item, if it is blank, or if it is
   indented by 4 or more, unlike the line before it, outside of a list; and also if the line
   before it fitted. Every other line is joined with what comes before it.
   */
  lemma {:induction false} NewLineExactly(f: Frame, inputs: seq<string>, lines: seq<string>, outs: seq<Out>,
                                          puts: seq<Put>, k: nat)
    requires LaidOut(f, inputs, lines, outs, puts) && k < |inputs|
    ensures var line := LineOf(inputs, k);
      StartsLine(f, inputs, lines, outs, puts, k) <==>
      || k == 0 || !puts[k - 1].wrapped
      || SomeBullets(f.wide, line, LeadingSpaces(line))
      || line == ""
      || (puts[k - 1].column == 0 && LeadingSpaces(line) >= 4
          && LeadingSpaces(line) != LeadingSpaces(LineOf(inputs, k - 1)))
  {
    hide IndentAtBeg, LeadingSpaces, ExactWidth, OutWords, PutWords, LineOf, IndentOf, Trail, OutRight, Written, SomeBullets;
    assert PutRight(f, inputs, outs, puts, k);
    if !puts[k].joined {
      UnjoinedStarts(f, inputs, lines, outs, puts, k);
    }
  }

  /** An input line that fits behind what is pending ends an output line, and is there letter by letter. */
  lemma {:induction false} FittingLine(f: Frame, inputs: seq<string>, lines: seq<string>, outs: seq<Out>,
                                       puts: seq<Put>, k: nat)
    requires LaidOut(f, inputs, lines, outs, puts) && k < |inputs|
    ensures var p := puts[k];
      && p.at < |lines| && p.offset <= |outs[p.at].words|
      && (p.wrapped <==> ExactWidth(f.wide, Before(f, outs, p) + p.text) > f.width)
      && (!p.wrapped ==> lines[p.at] == Before(f, outs, p) + p.text)
  {
    hide IndentAtBeg, LeadingSpaces, ExactWidth, OutWords, PutWords, LineOf, OutRight, Written, SomeBullets, Before;
    assert PutRight(f, inputs, outs, puts, k) && Whole(f, lines, outs, puts, k);
  }

  lemma {:induction false} OutWordsLonger(outs: seq<Out>, i: nat, j: nat)
    requires i <= j <= |outs|
    ensures |OutWords(outs[..i])| <= |OutWords(outs[..j])|
    decreases j - i
  {
    if i < j {
      OutWordsLonger(outs, i, j - 1);
      assert outs[..j][..j - 1] == outs[..j - 1];
    }
  }

  /** Lines that start a new output line do so in their order. */
  lemma {:induction false} StartsInOrder(f: Frame, inputs: seq<string>, lines: seq<string>, outs: seq<Out>,
                                         puts: seq<Put>, k: nat, m: nat)
    requires k < m < |puts| == |inputs| && |outs| == |lines|
    requires StartsLine(f, inputs, lines, outs, puts, k) && StartsLine(f, inputs, lines, outs, puts, m)
    ensures puts[k].at < puts[m].at
  {
    PutWordsLonger(puts[..m], k);
    assert puts[..m][..k] == puts[..k];
    var i, j := puts[k].at, puts[m].at;
    if j <= i { OutWordsLonger(outs, j, i); }
  }

  /** A blank line ends the paragraph before it; alone on a line, it is its indent, and another line follows. */
  lemma {:induction false} BlankLine(f: Frame, inputs: seq<string>, lines: seq<string>, outs: seq<Out>,
                                     puts: seq<Put>, k: nat)
    requires LaidOut(f, inputs, lines, outs, puts) && k < |inputs| && LineOf(inputs, k) == ""
    ensures StartsLine(f, inputs, lines, outs, puts, k)
    ensures ExactWidth(f.wide, IndentOf(f, puts[k].at)) <= f.width ==>
              && lines[puts[k].at] == IndentOf(f, puts[k].at)
              && (k + 1 < |inputs| ==>
                    StartsLine(f, inputs, lines, outs, puts, k + 1) && puts[k].at < puts[k + 1].at)
  {
    hide Body, OutWords, PutWords, ExactWidth, SomeBullets, LeadingSpaces, LineOf, IndentOf, RStrip;
    NewLineExactly(f, inputs, lines, outs, puts, k);
    FittingLine(f, inputs, lines, outs, puts, k);
    UnjoinedText(f, inputs, lines, outs, puts, k);
    if k + 1 < |inputs| && !puts[k].wrapped {
      NewLineExactly(f, inputs, lines, outs, puts, k + 1);
      StartsInOrder(f, inputs, lines, outs, puts, k, k + 1);
    }
  }

  lemma {:induction false} UnjoinedText(f: Frame, inputs: seq<string>, lines: seq<string>, outs: seq<Out>,
                                        puts: seq<Put>, k: nat)
    requires LaidOut(f, inputs, lines, outs, puts) && k < |inputs| && StartsLine(f, inputs, lines, outs, puts, k)
    ensures puts[k].at < |outs| && puts[k].offset <= |outs[puts[k].at].words|
    ensures Before(f, outs, puts[k]) == IndentOf(f, puts[k].at) && puts[k].text == LineOf(inputs, k)
    ensures LineOf(inputs, k) == "" ==> Before(f, outs, puts[k]) + puts[k].text == IndentOf(f, puts[k].at)
  {
    hide ExactWidth, SomeBullets, LeadingSpaces, LineOf, IndentOf, OutWords, PutWords, IndentAtBeg, OutRight, Written;
    assert PutRight(f, inputs, outs, puts, k);
  }

  // ----- Continuation lines -----

  /** The paragraph of input line k starts with input line `head`, and goes on without a break. */
  predicate Paragraph(puts: seq<Put>, head: nat, k: nat)
    requires head <= k < |puts|
  {
    !puts[head].joined && forall j :: head < j <= k ==> puts[j].joined
  }

  /** Every line belongs to a paragraph, and the text column of that is the one of its first line. */
  lemma {:induction false} ColumnOfHead(f: Frame, inputs: seq<string>, lines: seq<string>, outs: seq<Out>,
                                        puts: seq<Put>, k: nat)
    returns (head: nat)
    requires LaidOut(f, inputs, lines, outs, puts) && k < |inputs|
    ensures head <= k && Paragraph(puts, head, k)
    ensures puts[k].column == IndentAtBeg(f.wide, LineOf(inputs, head)).1
  {
    hide IndentAtBeg, LeadingSpaces, ExactWidth, OutWords, PutWords, LineOf, OutRight, Written, SomeBullets, Before;
    assert PutRight(f, inputs, outs, puts, k);
    if puts[k].joined {
      head := ColumnOfHead(f, inputs, lines, outs, puts, k - 1);
    } else {
      head := k;
    }
  }

  /**
   Output line i starts in the middle of a wrapped input line, of the paragraph that starts with
   input line `head`: it is behind the subsequent indent and exactly as many spaces as the text
   column of that list item, or, outside of a list, as the input line has itself, if it is a
   block. The line before it had no room for its first word, and was wider than that indent.
   */
  ghost predicate Continues(f: Frame, inputs: seq<string>, lines: seq<string>, outs: seq<Out>, puts: seq<Put>,
                            i: nat, head: nat)
    requires i < |lines| == |outs| && |puts| == |inputs|
  {
    var k := outs[i].input;
    && i > 0 && head <= k < |inputs| && Paragraph(puts, head, k) && puts[k].wrapped
    && (LineOf(inputs, k) != "" ==>
          var column, spaces := IndentAtBeg(f.wide, LineOf(inputs, head)).1, LeadingSpaces(LineOf(inputs, k));
          Behind(lines[i], f.subsequent + Spaces(if column > 0 then column else if spaces >= 4 then spaces else 0)))
    && outs[i].words != []
    && PutWords(puts[..k]) <= OutWords(outs[..i])
    && OutWords(outs[..i]) + [outs[i].words[0]] <= PutWords(puts[..k + 1])
    && ExactWidth(f.wide, Raw(outs[i - 1]) + outs[i].words[0]) > f.width
    && ExactWidth(f.wide, Raw(outs[i - 1])) > ExactWidth(f.wide, f.subsequent)
    && RStrip(lines[i - 1], ' ') == RStrip(Raw(outs[i - 1]), ' ')
  }

  /** Every output line is the first of an input line, or it continues one. */
  lemma {:induction false} FirstOrContinues(f: Frame, inputs: seq<string>, lines: seq<string>, outs: seq<Out>,
                                            puts: seq<Put>, i: nat)
    returns (head: nat)
    requires LaidOut(f, inputs, lines, outs, puts) && i < |lines|
    ensures if outs[i].first
            then outs[i].input < |inputs| && puts[outs[i].input].at == i
                 && StartsLine(f, inputs, lines, outs, puts, outs[i].input)
            else Continues(f, inputs, lines, outs, puts, i, head)
  {
    hide IndentAtBeg, LeadingSpaces, ExactWidth, OutWords, PutWords, LineOf, PutRight, SomeBullets, Raw, RStrip, Whole;
    hide StartsLine;
    head := 0;
    assert OutRight(f, inputs, outs, puts, i) && Written(puts, outs[i], lines[i]);
    if outs[i].first {
      UnjoinedStarts(f, inputs, lines, outs, puts, outs[i].input);
    } else {
      assert Written(puts, outs[i - 1], lines[i - 1]);
      WrittenBehind(puts, outs[i], lines[i]);
      head := ColumnOfHead(f, inputs, lines, outs, puts, outs[i].input);
      WrittenStripped(puts, outs[i - 1], lines[i - 1]);
    }
  }

  /**
   Up to spaces at its end, an output line is its start and its words with a space behind each;
   and each of these but the first one fitted, or the line was no wider than the subsequent indent.
   */
  lemma {:induction false} WordsOfLine(f: Frame, inputs: seq<string>, lines: seq<string>, outs: seq<Out>,
                                       puts: seq<Put>, i: nat, j: nat)
    requires LaidOut(f, inputs, lines, outs, puts) && i < |lines| && 0 < j < |outs[i].words|
    ensures RStrip(lines[i], ' ') == RStrip(outs[i].start + Trail(outs[i].words), ' ')
    ensures var before := outs[i].start + Trail(outs[i].words[..j]);
      || ExactWidth(f.wide, before + outs[i].words[j]) <= f.width
      || ExactWidth(f.wide, before) <= ExactWidth(f.wide, f.subsequent)
  {
    hide PutRight, OutWords, PutWords, LineOf, IndentOf, Whole, StartsAt, ExactWidth, RStrip, Trail;
    assert OutRight(f, inputs, outs, puts, i) && Written(puts, outs[i], lines[i]);
    WrittenStripped(puts, outs[i], lines[i]);
    BreaksMeans(f, outs[i].start + Trail(outs[i].words[..j]), outs[i].words[j]);
  }

  // ----- Nothing is lost -----

  /** The words of the input lines, one line after the other. */
  function InputWords(inputs: seq<string>): seq<string> {
    if inputs == [] then [] else InputWords(inputs[..|inputs| - 1]) + Split(inputs[|inputs| - 1], ' ')
  }

  /** The words that are not empty. */
  function Solid(words: seq<string>): seq<string> {
    if words == [] then [] else (if words[0] == "" then [] else [words[0]]) + Solid(words[1..])
  }

  lemma {:induction false} SolidAppend(a: seq<string>, b: seq<string>)
    ensures Solid(a + b) == Solid(a) + Solid(b)
  {
    if a == [] {
      assert a + b == b;
    } else {
      assert (a + b)[1..] == a[1..] + b;
      SolidAppend(a[1..], b);
    }
  }

  lemma {:induction false} SplitSpaceBehind(s: string)
    ensures Solid(Split(s + " ", ' ')) == Solid(Split(s, ' '))
  {
    if s == "" {
      assert "" + " " == " " && " "[1..] == "";
      assert [""] + [""] == ["", ""] && ["", ""][1..] == [""];
    } else {
      assert (s + " ")[1..] == s[1..] + " ";
      SplitSnocSpace(s[1..]);
      SplitSnocSpace(s);
      SolidAppend(Split(s, ' '), [""]);
    }
  }

  lemma {:induction false} SplitSnocSpace(s: string)
    ensures Split(s + " ", ' ') == Split(s, ' ') + [""]
  {
    if s == "" {
      assert "" + " " == " " && " "[1..] == "";
    } else {
      assert (s + " ")[1..] == s[1..] + " ";
      SplitSnocSpace(s[1..]);
    }
  }

  lemma {:induction false} SolidRStrip(s: string)
    ensures Solid(Split(RStrip(s, ' '), ' ')) == Solid(Split(s, ' '))
    decreases |s|
  {
    if s != "" && s[|s| - 1] == ' ' {
      var t := s[..|s| - 1];
      SolidRStrip(t);
      assert s == t + " ";
      SplitSpaceBehind(t);
    }
  }

  lemma {:induction false} SolidLStrip(s: string)
    ensures Solid(Split(s[LeadingSpaces(s)..], ' ')) == Solid(Split(s, ' '))
  {
    if s != "" && s[0] == ' ' {
      SolidLStrip(s[1..]);
      assert s[1..][LeadingSpaces(s[1..])..] == s[LeadingSpaces(s)..];
      assert ([""] + Split(s[1..], ' '))[1..] == Split(s[1..], ' ');
    } else {
      assert s[0..] == s;
    }
  }

  lemma {:induction false} TextWords(f: Frame, inputs: seq<string>, outs: seq<Out>, puts: seq<Put>, k: nat)
    requires k < |puts| <= |inputs| && PutRight(f, inputs, outs, puts, k)
    ensures Solid(Split(puts[k].text, ' ')) == Solid(Split(inputs[k], ' '))
  {
    hide Split, Solid, LeadingSpaces, RStrip, GoesOn, IndentAtBeg, OutWords, PutWords, ExactWidth, Before;
    SolidRStrip(inputs[k]);
    SolidLStrip(LineOf(inputs, k));
  }

  lemma {:induction false} PutWordsStep(puts: seq<Put>, inputs: seq<string>, k: nat)
    requires k < |puts| && k < |inputs|
    ensures PutWords(puts[..k + 1]) == PutWords(puts[..k]) + Split(puts[k].text, ' ')
    ensures InputWords(inputs[..k + 1]) == InputWords(inputs[..k]) + Split(inputs[k], ' ')
  {
    hide Split;
    assert puts[..k + 1][..k] == puts[..k] && inputs[..k + 1][..k] == inputs[..k];
  }

  lemma {:induction false} PutWordsAre(f: Frame, inputs: seq<string>, outs: seq<Out>, puts: seq<Put>, k: nat)
    requires k <= |puts| <= |inputs|
    requires forall j :: 0 <= j < |puts| ==> PutRight(f, inputs, outs, puts, j)
    ensures Solid(PutWords(puts[..k])) == Solid(InputWords(inputs[..k]))
  {
    if k > 0 {
      PutWordsAre(f, inputs, outs, puts, k - 1);
      TextWords(f, inputs, outs, puts, k - 1);
      hide Split, Solid, PutRight;
      PutWordsStep(puts, inputs, k - 1);
      hide PutWords, InputWords;
      SolidAppend(PutWords(puts[..k - 1]), Split(puts[k - 1].text, ' '));
      SolidAppend(InputWords(inputs[..k - 1]), Split(inputs[k - 1], ' '));
    }
  }

  /** The words on the output lines are the words of the text, in their order. */
  lemma {:induction false} WordsKept(f: Frame, inputs: seq<string>, lines: seq<string>, outs: seq<Out>, puts: seq<Put>)
    requires LaidOut(f, inputs, lines, outs, puts)
    ensures Solid(OutWords(outs)) == Solid(InputWords(inputs))
  {
    hide OutRight, PutRight, Written, Solid, OutWords, InputWords, PutWords;
    PutWordsAre(f, inputs, outs, puts, |puts|);
    assert puts[..|puts|] == puts && inputs[..|puts|] == inputs;
  }

  // ----- Nothing but blanks is added -----

  /** Apart from blanks, each line is its indent and its piece of the text. */
  ghost predicate Carries(f: Frame, lines: seq<string>, pieces: seq<string>) {
    && |lines| == |pieces|
    && forall k :: 0 <= k < |lines| ==> NonBlank(lines[k]) == NonBlank(IndentOf(f, k)) + pieces[k]
  }

  /** Apart from blanks, the lines are their indents and the text, piece by piece. */
  ghost predicate CarriesText(f: Frame, lines: seq<string>, text: string) {
    exists pieces :: Carries(f, lines, pieces) && Concat(pieces) == NonBlank(text)
  }

  function Pieces(outs: seq<Out>): (r: seq<string>)
    ensures |r| == |outs| && forall i :: 0 <= i < |r| ==> r[i] == NonBlank(Trail(outs[i].words))
  {
    seq(|outs|, i requires 0 <= i < |outs| => NonBlank(Trail(outs[i].words)))
  }

  lemma {:induction false} PiecesAre(outs: seq<Out>)
    ensures Concat(Pieces(outs)) == NonBlank(Trail(OutWords(outs)))
    decreases |outs|
  {
    hide NonBlank, Trail;
    if outs == [] {
      assert NonBlank(Trail([])) == "" by { TrailNone(); AllBlank(""); }
    } else {
      var n := |outs| - 1;
      PiecesAre(outs[..n]);
      assert Pieces(outs) == Pieces(outs[..n]) + [NonBlank(Trail(outs[n].words))];
      ConcatSnoc(Pieces(outs[..n]), NonBlank(Trail(outs[n].words)));
      TrailAppend(OutWords(outs[..n]), outs[n].words);
      NonBlankAppend(Trail(OutWords(outs[..n])), Trail(outs[n].words));
    }
  }

  lemma {:induction false} NonBlankSolid(words: seq<string>)
    ensures NonBlank(Trail(Solid(words))) == NonBlank(Trail(words))
  {
    if words != [] {
      NonBlankSolid(words[1..]);
      hide NonBlank, Trail;
      var w, rest := words[0], words[1..];
      assert words == [w] + rest;
      TrailCons(w, rest);
      NonBlankAppend(w + " ", Trail(rest));
      if w == "" {
        AllBlank("" + " ");
        assert [] + Solid(rest) == Solid(rest);
        assert "" + NonBlank(Trail(rest)) == NonBlank(Trail(rest));
      } else {
        TrailCons(w, Solid(rest));
        NonBlankAppend(w + " ", Trail(Solid(rest)));
      }
    }
  }

  lemma {:induction false} InputWordsKeep(inputs: seq<string>)
    ensures NonBlank(Trail(InputWords(inputs))) == NonBlank(Concat(inputs))
    decreases |inputs|
  {
    if inputs == [] {
      TrailNone();
    } else {
      var n := |inputs| - 1;
      InputWordsKeep(inputs[..n]);
      hide NonBlank, Trail, Split;
      var line := inputs[n];
      TrailAppend(InputWords(inputs[..n]), Split(line, ' '));
      TrailSplit(line);
      NonBlankAppend(Trail(InputWords(inputs[..n])), line + " ");
      NonBlankAppend(line, " ");
      AllBlank(" ");
      assert inputs == inputs[..n] + [line] && NonBlank(line) + "" == NonBlank(line);
      ConcatSnoc(inputs[..n], line);
      NonBlankAppend(Concat(inputs[..n]), line);
    }
  }

  lemma InputLinesKeep(text: string)
    ensures NonBlank(Concat(InputLines(text))) == NonBlank(text)
  {
    hide NonBlank;
    NonBlankRStrip(text, '\n');
    NonBlankExpandTabs(RStrip(text, '\n'));
    NonBlankSplit(ExpandTabs(RStrip(text, '\n')), '\n');
  }

  lemma {:induction false} LineCarries(f: Frame, inputs: seq<string>, lines: seq<string>, outs: seq<Out>,
                                       puts: seq<Put>, i: nat)
    requires LaidOut(f, inputs, lines, outs, puts) && i < |lines|
    ensures NonBlank(lines[i]) == NonBlank(IndentOf(f, i)) + NonBlank(Trail(outs[i].words))
  {
    hide PutRight, NonBlank, Trail, RStrip, OutWords, PutWords, Whole, Breaks, WordsRight, Hang, LineOf;
    assert OutRight(f, inputs, outs, puts, i) && Written(puts, outs[i], lines[i]);
    var o := outs[i];
    WrittenStripped(puts, o, lines[i]);
    NonBlankRStrip(lines[i], ' ');
    NonBlankRStrip(Raw(o), ' ');
    NonBlankAppend(o.start, Trail(o.words));
    NonBlankRStrip(IndentOf(f, i), ' ');
    var hang := Spaces(Hang(puts[o.input].column, LineOf(inputs, o.input)));
    NonBlankRStrip(f.subsequent + hang, ' ');
    NonBlankAppend(f.subsequent, hang);
    AllBlank(hang);
    assert NonBlank(f.subsequent) + "" == NonBlank(f.subsequent);
  }

  lemma {:induction false} LinesCarryText(f: Frame, text: string, lines: seq<string>, outs: seq<Out>, puts: seq<Put>)
    requires LaidOut(f, InputLines(text), lines, outs, puts)
    ensures CarriesText(f, lines, text)
  {
    hide Body, NonBlank, Trail, Concat, Pieces, InputLines, Solid, InputWords, OutWords;
    forall i | 0 <= i < |lines|
      ensures NonBlank(lines[i]) == NonBlank(IndentOf(f, i)) + NonBlank(Trail(outs[i].words))
    {
      LineCarries(f, InputLines(text), lines, outs, puts, i);
    }
    assert Carries(f, lines, Pieces(outs));
    PiecesAre(outs);
    WordsKept(f, InputLines(text), lines, outs, puts);
    NonBlankSolid(OutWords(outs));
    NonBlankSolid(InputWords(InputLines(text)));
    InputWordsKeep(InputLines(text));
    InputLinesKeep(text);
  }

  // ----- No line is needlessly wide -----

  /**
   From index k on the line is a single word without spaces, and breaking it before the word
   would not help: it is no wider there than the subsequent indent, or only that and spaces.
   */
  ghost predicate IsOneWord(f: Frame, line: string, k: nat) {
    && k <= |line| && ' ' !in line[k..]
    && (ExactWidth(f.wide, line[..k]) <= ExactWidth(f.wide, f.subsequent)
        || (|f.subsequent| <= k && line[..k] == f.subsequent + Spaces(k - |f.subsequent|)))
  }

  /** The line fits, or it is one word after an indent, or it is just the initial indent. */
  ghost predicate Snug(f: Frame, line: string) {
    || ExactWidth(f.wide, line) <= f.width
    || (exists k :: IsOneWord(f, line, k))
    || line == RStrip(f.initial, ' ')
  }

  ghost predicate AllSnug(f: Frame, ret: seq<string>) {
    forall k :: 0 <= k < |ret| ==> Snug(f, ret[k])
  }

  lemma RStripWidth(wide: set<char>, s: string)
    ensures ExactWidth(wide, RStrip(s, ' ')) <= ExactWidth(wide, s)
  {
    var r := RStrip(s, ' ');
    WidthAppend(wide, r, s[|r|..]);
    assert s == r + s[|r|..];
  }

  lemma {:induction false} RStripSpaces(s: string, n: nat)
    ensures RStrip(s + Spaces(n), ' ') == RStrip(s, ' ')
  {
    if n == 0 {
      assert s + Spaces(0) == s;
    } else {
      assert s + Spaces(n) == s + Spaces(n - 1) + " ";
      RStripAppendSpace(s + Spaces(n - 1));
      RStripSpaces(s, n - 1);
    }
  }

  /** Stripping a line that ends in a word does nothing. */
  lemma RStripWord(line: string, word: string)
    requires ' ' !in word && word != ""
    ensures RStrip(line + word, ' ') == line + word
  {
    assert (line + word)[|line + word| - 1] == word[|word| - 1];
  }

  /** What is at most as wide as the subsequent indent is snug. */
  lemma NarrowIsSnug(f: Frame, line: string)
    requires ExactWidth(f.wide, line) <= ExactWidth(f.wide, f.subsequent)
    ensures Snug(f, line)
  {
    assert line[..|line|] == line;
    assert IsOneWord(f, line, |line|);
  }

  lemma WordIsSnug(f: Frame, line: string, word: string, n: nat)
    requires ' ' !in word
    requires ExactWidth(f.wide, line) <= ExactWidth(f.wide, f.subsequent) || line == f.subsequent + Spaces(n)
    ensures Snug(f, line + word)
  {
    assert (line + word)[|line|..] == word && (line + word)[..|line|] == line;
    assert IsOneWord(f, line + word, |line|);
  }

  /** After one more word, which fits or for which breaking was no use, the line is snug. */
  lemma WordKeepsSnug(f: Frame, line: string, word: string, n: nat)
    requires ' ' !in word
    requires || ExactWidth(f.wide, line + word) <= f.width
             || ExactWidth(f.wide, line) <= ExactWidth(f.wide, f.subsequent)
             || line == f.subsequent + Spaces(n)
    ensures Snug(f, RStrip(line + word + " ", ' '))
  {
    hide Snug, ExactWidth, RStrip;
    RStripAppendSpace(line + word);
    RStripWidth(f.wide, line + word);
    if ExactWidth(f.wide, line + word) <= f.width {
      FitIsSnug(f, RStrip(line + word, ' '));
    } else if word != "" {
      RStripWord(line, word);
      WordIsSnug(f, line, word, n);
    } else {
      assert line + word == line;
      if line == f.subsequent + Spaces(n) {
        RStripSpaces(f.subsequent, n);
        RStripWidth(f.wide, f.subsequent);
      }
      NarrowIsSnug(f, RStrip(line, ' '));
    }
  }

  lemma FitIsSnug(f: Frame, line: string)
    requires ExactWidth(f.wide, line) <= f.width
    ensures Snug(f, line)
  {
  }

  lemma {:induction false} SplitWord(puts: seq<Put>, words: seq<string>, j: nat)
    requires words == PutWords(puts) && j < |words|
    ensures ' ' !in words[j]
  {
    hide Split;
    if puts != [] {
      var n := |puts| - 1;
      var front := PutWords(puts[..n]);
      SplitParts(puts[n].text, ' ');
      if j < |front| { SplitWord(puts[..n], front, j); }
    }
  }

  lemma {:induction false} OutWord(outs: seq<Out>, i: nat, j: nat) returns (k: nat)
    requires i < |outs| && j < |outs[i].words|
    ensures k < |OutWords(outs)| && OutWords(outs)[k] == outs[i].words[j]
  {
    var n := |outs| - 1;
    if i < n {
      k := OutWord(outs[..n], i, j);
    } else {
      k := |OutWords(outs[..n])| + j;
    }
  }

  /** A line with words, up to spaces at its end. */
  lemma {:induction false} WordsSnug(f: Frame, o: Out, h: nat)
    requires o.words != [] && ' ' !in o.words[|o.words| - 1] && WordsRight(f, o)
    requires !o.first ==> o.start == f.subsequent + Spaces(h) || o.start == RStrip(f.subsequent + Spaces(h), ' ')
    ensures Snug(f, RStrip(Raw(o), ' '))
  {
    hide Snug, ExactWidth, RStrip, Trail;
    var n := |o.words| - 1;
    var x, w := o.start + Trail(o.words[..n]), o.words[n];
    assert o.words == o.words[..n] + [w];
    TrailSnoc(o.words[..n], w);
    assert Raw(o) == x + w + " ";
    BreaksMeans(f, x, w);
    if n == 0 && !o.first {
      TrailNone();
      assert o.words[..0] == [] && o.start + "" == o.start;
      RStripSpaces(f.subsequent, h);
      RStripWidth(f.wide, f.subsequent);
    }
    WordKeepsSnug(f, x, w, h);
  }

  lemma {:induction false} LineSnug(f: Frame, inputs: seq<string>, lines: seq<string>, outs: seq<Out>,
                                    puts: seq<Put>, i: nat)
    requires LaidOut(f, inputs, lines, outs, puts) && i < |lines|
    ensures Snug(f, lines[i])
  {
    hide PutRight, Snug, ExactWidth, RStrip, Trail, OutWords, PutWords, Breaks, WordsRight, Whole, LineOf, Hang, IndentOf;
    assert OutRight(f, inputs, outs, puts, i) && Written(puts, outs[i], lines[i]);
    var o := outs[i];
    if o.first && o.words == [""] && !puts[o.input].wrapped {
      FitLineSnug(f, inputs, lines, outs, puts, i);
    } else if o.words == [] {
      TrailNone();
      assert Raw(o) == o.start;
      StripTwice(IndentOf(f, i));
      IndentSnug(f, i);
    } else {
      var k := OutWord(outs, i, |o.words| - 1);
      SplitWord(puts, OutWords(outs), k);
      WordsSnug(f, o, Hang(puts[o.input].column, LineOf(inputs, o.input)));
    }
  }

  lemma {:induction false} FitLineSnug(f: Frame, inputs: seq<string>, lines: seq<string>, outs: seq<Out>,
                                       puts: seq<Put>, i: nat)
    requires LaidOut(f, inputs, lines, outs, puts) && i < |lines|
    requires var o := outs[i]; o.first && o.input < |puts| && puts[o.input].at == i && !puts[o.input].wrapped
    ensures Snug(f, lines[i])
  {
    hide Body, ExactWidth, OutWords, PutWords, Before;
    FittingLine(f, inputs, lines, outs, puts, outs[i].input);
    FitIsSnug(f, lines[i]);
  }

  lemma IndentSnug(f: Frame, i: nat)
    ensures Snug(f, RStrip(IndentOf(f, i), ' '))
  {
    RStripWidth(f.wide, f.subsequent);
    if i > 0 { NarrowIsSnug(f, RStrip(f.subsequent, ' ')); }
  }

  lemma {:induction false} LinesSnug(f: Frame, inputs: seq<string>, lines: seq<string>, outs: seq<Out>, puts: seq<Put>)
    requires LaidOut(f, inputs, lines, outs, puts)
    ensures AllSnug(f, lines)
  {
    hide LaidOut, Snug;
    forall i | 0 <= i < |lines|
      ensures Snug(f, lines[i])
    {
      LineSnug(f, inputs, lines, outs, puts, i);
    }
  }

  lemma Assoc(a: string, b: string, c: string)
    ensures a + b + c == a + (b + c)
  {
  }

  // ----- The whole text -----

  lemma {:induction false} JoinLater(f: Frame, ls: seq<string>, pieces: seq<string>)
    requires |ls| == |pieces|
    requires forall k :: 0 <= k < |ls| ==> NonBlank(ls[k]) == NonBlank(f.subsequent) + pieces[k]
    ensures NonBlank(f.subsequent) == "" ==> NonBlank(JoinLines(ls)) == Concat(pieces)
    ensures |NonBlank(JoinLines(ls))| >= |Concat(pieces)| + if ls == [] then 0 else |NonBlank(f.subsequent)|
  {
    hide NonBlank;
    if ls == [] {
      AllBlank("");
    } else if |ls| == 1 {
      assert pieces == [pieces[0]] && Concat([pieces[0]]) == pieces[0] + "";
    } else {
      JoinLater(f, ls[1..], pieces[1..]);
      NonBlankAppend(ls[0] + "\n", JoinLines(ls[1..]));
      NonBlankAppend(ls[0], "\n");
      AllBlank("\n");
    }
  }

  lemma JoinKeeps(f: Frame, ret: seq<string>, text: string)
    requires ret != [] && CarriesText(f, ret, text)
    ensures NonBlank(JoinLines(ret)) == NonBlank(f.initial) + NonBlank(text) <==>
            |ret| == 1 || NonBlank(f.subsequent) == ""
  {
    hide NonBlank;
    var pieces :| Carries(f, ret, pieces) && Concat(pieces) == NonBlank(text);
    if |ret| == 1 {
      assert pieces == [pieces[0]] && Concat([pieces[0]]) == pieces[0] + "";
    } else {
      var ls, ps := ret[1..], pieces[1..];
      assert forall k :: 0 <= k < |ls| ==> ls[k] == ret[k + 1] && ps[k] == pieces[k + 1];
      JoinLater(f, ls, ps);
      NonBlankAppend(ret[0] + "\n", JoinLines(ls));
      NonBlankAppend(ret[0], "\n");
      AllBlank("\n");
      assert NonBlank(ret[0]) + "" == NonBlank(ret[0]);
      Assoc(NonBlank(f.initial), pieces[0], Concat(ps));
    }
  }

  /**
   `textwrap_fill`, and the lines that it joins, with their layout. The result's characters, apart
   from blanks, are those of the initial indent and of the text, in order, exactly if there is one
   line or the subsequent indent is blank; and every line fits, or is a single word after an indent.
   */
  method TextwrapFill(f: Frame, text: string)
    returns (r: string, lines: seq<string>, ghost outs: seq<Out>, ghost puts: seq<Put>)
    ensures r == JoinLines(lines) && lines != [] && LaidOut(f, InputLines(text), lines, outs, puts)
    ensures AllSnug(f, lines) && CarriesText(f, lines, text)
    ensures NonBlank(r) == NonBlank(f.initial) + NonBlank(text) <==>
            |lines| == 1 || NonBlank(f.subsequent) == ""
  {
    lines, outs, puts := WrapLines(f, text);
    hide LaidOut, NonBlank, Concat, AllSnug, JoinLines, CarriesText;
    LinesSnug(f, InputLines(text), lines, outs, puts);
    LinesCarryText(f, text, lines, outs, puts);
    JoinKeeps(f, lines, text);
    r := JoinLines(lines);
  }
}
