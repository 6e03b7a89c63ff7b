/**
 The loops of textwrap_fill (dnf/i18n.py): where its lines start and where they end, which
 words stand on each, that nothing is lost, and that no line is needlessly wide.
 */
module TextWrapFill {
  import opened Wrappers
  import opened TextWidth
  import opened TextWrap

  /** The width and the two indents of a call. */
  datatype Frame = Frame(wide: set<char>, width: int, initial: string, subsequent: string)

  /**
   An output line: what it starts with, the words behind that, the input line that the first of
   these words is from, and whether it is the first word of that line.
   */
  datatype Out = Out(start: string, words: seq<string>, input: nat, first: bool)

  /**
   An input line: its text as it was placed, whether it was joined with the output line that was
   pending, whether it was wrapped, the text column of the item it belongs to, and the place of
   its first word: the output line, and the number of words in front of it there.
   */
  datatype Put = Put(text: string, joined: bool, wrapped: bool, column: nat, at: nat, offset: nat)

  // ----- Where lines start and end -----

  /** The indent of the k-th line. */
  function IndentOf(f: Frame, k: nat): string {
    if k == 0 then f.initial else f.subsequent
  }

  /** The words, with a space behind each. */
  function Trail(words: seq<string>): string {
    if words == [] then "" else Trail(words[..|words| - 1]) + words[|words| - 1] + " "
  }

  /** An output line before its trailing spaces are stripped. */
  function Raw(o: Out): string {
    o.start + Trail(o.words)
  }

  function OutWords(outs: seq<Out>): seq<string> {
    if outs == [] then [] else OutWords(outs[..|outs| - 1]) + outs[|outs| - 1].words
  }

  function PutWords(puts: seq<Put>): seq<string> {
    if puts == [] then [] else PutWords(puts[..|puts| - 1]) + Split(puts[|puts| - 1].text, ' ')
  }

  /** An input line without its trailing spaces. */
  function LineOf(inputs: seq<string>, k: nat): string
    requires k < |inputs|
  {
    RStrip(inputs[k], ' ')
  }

  /** The spaces that continuation lines have after the indent. */
  function Hang(column: nat, line: string): nat {
    if column == 0 && LeadingSpaces(line) >= 4 then LeadingSpaces(line) else column
  }

  /**
   A paragraph goes on with this line: it is not blank and no list item, and, outside of a list,
   it is not indented by 4 or more unless the line before has the same indent.
   */
  ghost predicate GoesOn(wide: set<char>, line: string, before: string, column: nat) {
    && line != ""
    && !SomeBullets(wide, line, LeadingSpaces(line))
    && !(column == 0 && LeadingSpaces(line) >= 4 && LeadingSpaces(line) != LeadingSpaces(before))
  }

  /** What stood on the output line before an input line was put there. */
  function Before(f: Frame, outs: seq<Out>, p: Put): string
    requires p.at < |outs| && p.offset <= |outs[p.at].words|
  {
    if p.joined then outs[p.at].start + Trail(outs[p.at].words[..p.offset]) else IndentOf(f, p.at)
  }

  /** Input line k is treated as it should be. */
  ghost predicate PutRight(f: Frame, inputs: seq<string>, outs: seq<Out>, puts: seq<Put>, k: nat)
    requires k < |puts| <= |inputs|
  {
    var p, line := puts[k], LineOf(inputs, k);
    && (p.joined <==> k > 0 && puts[k - 1].wrapped
                      && GoesOn(f.wide, line, LineOf(inputs, k - 1), puts[k - 1].column))
    && p.column == (if p.joined then puts[k - 1].column else IndentAtBeg(f.wide, line).1)
    && p.text == (if p.joined then line[LeadingSpaces(line)..] else line)
    && p.at < |outs| && p.offset <= |outs[p.at].words|
    && OutWords(outs[..p.at]) + outs[p.at].words[..p.offset] == PutWords(puts[..k])
    && (p.joined ==> p.offset > 0)
    && (!p.joined ==> p.offset == 0 && outs[p.at].first && outs[p.at].input == k)
    && (p.wrapped <==> ExactWidth(f.wide, Before(f, outs, p) + p.text) > f.width)
  }

  /** Where a line starts; where only a blank input line was wrapped, the spaces at the end of that may be lost. */
  predicate StartsAt(start: string, s: string, line: string) {
    start == s || (line == "" && start == RStrip(s, ' '))
  }

  /** The line has to be broken before the word, and it is wider than what the next line starts with. */
  predicate Breaks(f: Frame, raw: string, word: string) {
    ExactWidth(f.wide, raw + word) > f.width && ExactWidth(f.wide, raw) > ExactWidth(f.wide, f.subsequent)
  }

  /** No word is on the line for which it should have been broken. */
  ghost predicate WordsRight(f: Frame, o: Out) {
    forall j :: (if o.first then 0 else 1) <= j < |o.words| ==> !Breaks(f, o.start + Trail(o.words[..j]), o.words[j])
  }

  /**
   Output line i starts as it should: with its indent, where it is the first of an input line;
   otherwise in the middle of a wrapped one, with the subsequent indent and the hanging spaces,
   and the line before it had to be broken.
   */
  ghost predicate OutRight(f: Frame, inputs: seq<string>, outs: seq<Out>, puts: seq<Put>, i: nat)
    requires i < |outs| && |puts| <= |inputs|
  {
    var o := outs[i];
    && o.input < |puts|
    && (o.first ==>
          && !puts[o.input].joined && puts[o.input].at == i
          && StartsAt(o.start, IndentOf(f, i), LineOf(inputs, o.input)))
    && (!o.first ==>
          && i > 0 && o.words != [] && puts[o.input].wrapped
          && StartsAt(o.start, f.subsequent + Spaces(Hang(puts[o.input].column, LineOf(inputs, o.input))),
                      LineOf(inputs, o.input))
          && Breaks(f, Raw(outs[i - 1]), o.words[0])
          && PutWords(puts[..o.input]) <= OutWords(outs[..i])
          && OutWords(outs[..i]) + [o.words[0]] <= PutWords(puts[..o.input + 1]))
    && WordsRight(f, o)
  }

  /** The line is stripped, unless it is a blank input line that fits. */
  predicate Written(puts: seq<Put>, o: Out, l: string) {
    l == if o.first && o.words == [""] && o.input < |puts| && !puts[o.input].wrapped then o.start
         else RStrip(Raw(o), ' ')
  }

  /** Input line k stands whole at the end of an output line, if it fits and that has been written. */
  ghost predicate Whole(f: Frame, ret: seq<string>, outs: seq<Out>, puts: seq<Put>, k: nat)
    requires k < |puts|
  {
    var p := puts[k];
    || p.wrapped
    || (p.at < |outs| && p.offset <= |outs[p.at].words|
        && if p.at < |ret| then ret[p.at] == Before(f, outs, p) + p.text else k == |puts| - 1)
  }

  /** The words placed so far make up `total`, and everything is right so far. */
  ghost predicate Body(f: Frame, inputs: seq<string>, ret: seq<string>, outs: seq<Out>, puts: seq<Put>,
                       total: seq<string>)
  {
    && |puts| <= |inputs| && |ret| <= |outs|
    && (forall k :: 0 <= k < |puts| ==> PutRight(f, inputs, outs, puts, k))
    && (forall i :: 0 <= i < |outs| ==> OutRight(f, inputs, outs, puts, i))
    && (forall i :: 0 <= i < |ret| ==> Written(puts, outs[i], ret[i]))
    && (forall k :: 0 <= k < |puts| ==> Whole(f, ret, outs, puts, k))
    && OutWords(outs) == total
  }

  // ----- Steps keep it right -----

  /** More words on the last line, or more lines. */
  ghost predicate Extends(a: seq<Out>, b: seq<Out>) {
    && |a| <= |b|
    && (forall i :: 0 <= i < |a| - 1 ==> b[i] == a[i])
    && (a != [] ==>
          var o, o' := a[|a| - 1], b[|a| - 1];
          o'.start == o.start && o.words <= o'.words && o'.input == o.input && o'.first == o.first)
  }

  lemma {:induction false} BeforeStays(f: Frame, outs: seq<Out>, outs': seq<Out>, p: Put)
    requires Extends(outs, outs') && p.at < |outs| && p.offset <= |outs[p.at].words|
    ensures outs'[..p.at] == outs[..p.at] && p.offset <= |outs'[p.at].words|
    ensures outs'[p.at].words[..p.offset] == outs[p.at].words[..p.offset]
    ensures outs'[p.at].first == outs[p.at].first && outs'[p.at].input == outs[p.at].input
    ensures Before(f, outs', p) == Before(f, outs, p)
  {
    hide IndentOf, Trail;
  }

  lemma {:induction false} PutStays(f: Frame, inputs: seq<string>, outs: seq<Out>, puts: seq<Put>,
                                    outs': seq<Out>, puts': seq<Put>, k: nat)
    requires k < |puts| && puts <= puts' && |puts'| <= |inputs| && Extends(outs, outs')
    requires PutRight(f, inputs, outs, puts, k)
    ensures PutRight(f, inputs, outs', puts', k)
  {
    BeforeStays(f, outs, outs', puts[k]);
    hide GoesOn, IndentAtBeg, LeadingSpaces, ExactWidth, OutWords, PutWords, LineOf, Before, Extends;
    assert puts'[..k] == puts[..k] && (k > 0 ==> puts'[k - 1] == puts[k - 1]);
  }

  lemma {:induction false} WholeStays(f: Frame, inputs: seq<string>, ret: seq<string>, outs: seq<Out>, puts: seq<Put>,
                                      outs': seq<Out>, puts': seq<Put>, k: nat)
    requires k < |puts| <= |inputs| && puts <= puts' && Extends(outs, outs') && |ret| <= |outs|
    requires PutRight(f, inputs, outs, puts, k) && Whole(f, ret, outs, puts, k)
    requires puts' == puts || |ret| == |outs| || puts[|puts| - 1].wrapped
    ensures Whole(f, ret, outs', puts', k)
  {
    var p := puts[k];
    AtIsThere(f, inputs, outs, puts, k);
    BeforeStays(f, outs, outs', p);
    hide PutRight, Before;
  }

  lemma {:induction false} AtIsThere(f: Frame, inputs: seq<string>, outs: seq<Out>, puts: seq<Put>, k: nat)
    requires k < |puts| <= |inputs| && PutRight(f, inputs, outs, puts, k)
    ensures puts[k].at < |outs| && puts[k].offset <= |outs[puts[k].at].words|
  {
  }

  lemma {:induction false} OutStays(f: Frame, inputs: seq<string>, outs: seq<Out>, puts: seq<Put>,
                                    outs': seq<Out>, puts': seq<Put>, i: nat)
    requires i < |outs| && |puts| <= |puts'| <= |inputs| && puts <= puts' && Extends(outs, outs')
    requires OutRight(f, inputs, outs, puts, i) && WordsRight(f, outs'[i])
    ensures OutRight(f, inputs, outs', puts', i)
  {
    hide LeadingSpaces, ExactWidth, OutWords, PutWords, LineOf, IndentOf, Trail, WordsRight, StartsAt, Breaks, Hang;
    var o := outs[i];
    assert outs'[..i] == outs[..i] && (i > 0 ==> outs'[i - 1] == outs[i - 1]);
    assert puts'[..o.input] == puts[..o.input] && puts'[..o.input + 1] == puts[..o.input + 1];
    assert !o.first ==> outs'[i].words[0] == o.words[0];
  }

  /** What was right stays right with more lines, and more words on the last one that are. */
  lemma {:induction false} AllStay(f: Frame, inputs: seq<string>, ret: seq<string>, outs: seq<Out>, puts: seq<Put>,
                                   total: seq<string>, outs': seq<Out>, puts': seq<Put>)
    requires Body(f, inputs, ret, outs, puts, total)
    requires puts <= puts' && |puts'| <= |inputs| && Extends(outs, outs')
    requires |ret| < |outs| ==> WordsRight(f, outs'[|outs| - 1])
    requires |ret| == |outs| ==> outs <= outs'
    requires puts' == puts || |ret| == |outs| || (puts != [] && puts[|puts| - 1].wrapped)
    ensures forall k :: 0 <= k < |puts| ==> PutRight(f, inputs, outs', puts', k)
    ensures forall i :: 0 <= i < |outs| ==> OutRight(f, inputs, outs', puts', i)
    ensures |ret| >= |outs| - 1 ==> forall i :: 0 <= i < |ret| ==> Written(puts', outs'[i], ret[i])
    ensures forall k :: 0 <= k < |puts| ==> Whole(f, ret, outs', puts', k)
  {
    hide PutRight, OutRight, WordsRight, Raw, RStrip, OutWords, Whole;
    forall k | 0 <= k < |puts|
      ensures PutRight(f, inputs, outs', puts', k) && Whole(f, ret, outs', puts', k)
    {
      PutStays(f, inputs, outs, puts, outs', puts', k);
      WholeStays(f, inputs, ret, outs, puts, outs', puts', k);
    }
    forall i | 0 <= i < |outs|
      ensures OutRight(f, inputs, outs', puts', i)
    {
      RightHasWordsRight(f, inputs, outs, puts, i);
      OutStays(f, inputs, outs, puts, outs', puts', i);
    }
    forall i | 0 <= i < |ret|
      ensures |ret| >= |outs| - 1 ==> Written(puts', outs'[i], ret[i])
    {
      RightHasWordsRight(f, inputs, outs, puts, i);
    }
  }

  lemma {:induction false} RightHasWordsRight(f: Frame, inputs: seq<string>, outs: seq<Out>, puts: seq<Put>, i: nat)
    requires i < |outs| && |puts| <= |inputs| && OutRight(f, inputs, outs, puts, i)
    ensures WordsRight(f, outs[i]) && outs[i].input < |puts|
  {
  }

  lemma OneMoreWord(f: Frame, o: Out, word: string)
    requires WordsRight(f, o) && !Breaks(f, Raw(o), word)
    ensures WordsRight(f, o.(words := o.words + [word]))
    ensures Raw(o.(words := o.words + [word])) == Raw(o) + word + " "
  {
    hide Breaks, Trail;
    var o' := o.(words := o.words + [word]);
    forall j | (if o.first then 0 else 1) <= j < |o'.words|
      ensures !Breaks(f, o'.start + Trail(o'.words[..j]), o'.words[j])
    {
      if j < |o.words| {
        assert o'.words[..j] == o.words[..j] && o'.words[j] == o.words[j];
      } else {
        assert o'.words[..j] == o.words;
      }
    }
    TrailSnoc(o.words, word);
    assert o.start + (Trail(o.words) + word + " ") == o.start + Trail(o.words) + word + " ";
  }

  lemma TrailSnoc(words: seq<string>, word: string)
    ensures Trail(words + [word]) == Trail(words) + word + " "
  {
    assert (words + [word])[..|words|] == words;
  }

  lemma {:induction false} OutWordsLast(outs: seq<Out>, o: Out)
    requires outs != []
    ensures OutWords(outs) == OutWords(outs[..|outs| - 1]) + outs[|outs| - 1].words
    ensures OutWords(outs[|outs| - 1 := o]) == OutWords(outs[..|outs| - 1]) + o.words
    ensures OutWords(outs + [o]) == OutWords(outs) + o.words
  {
    assert outs[|outs| - 1 := o][..|outs| - 1] == outs[..|outs| - 1];
    assert (outs + [o])[..|outs|] == outs;
  }

  /** One more word on the pending line, which need not be broken for it. */
  lemma {:induction false} AddWord(f: Frame, inputs: seq<string>, ret: seq<string>, outs: seq<Out>, puts: seq<Put>,
                                   total: seq<string>, word: string)
    requires Body(f, inputs, ret, outs, puts, total) && |outs| == |ret| + 1
    requires !Breaks(f, Raw(outs[|ret|]), word)
    ensures var o := outs[|ret|].(words := outs[|ret|].words + [word]);
      Body(f, inputs, ret, outs[|ret| := o], puts, total + [word]) && Raw(o) == Raw(outs[|ret|]) + word + " "
  {
    hide PutRight, OutRight, WordsRight, Raw, RStrip, OutWords, Breaks, Written, Whole;
    var n := |ret|;
    var o := outs[n].(words := outs[n].words + [word]);
    RightHasWordsRight(f, inputs, outs, puts, n);
    OneMoreWord(f, outs[n], word);
    OutWordsLast(outs, o);
    assert OutWords(outs[..n]) + (outs[n].words + [word]) == OutWords(outs[..n]) + outs[n].words + [word];
    AllStay(f, inputs, ret, outs, puts, total, outs[n := o], puts);
  }

  /** A line that continues a wrapped input line. */
  lemma {:induction false} LaterIsRight(f: Frame, inputs: seq<string>, outs: seq<Out>, puts: seq<Put>,
                                        words: seq<string>, j: nat, o: Out)
    requires outs != [] && 0 < |puts| <= |inputs|
    requires puts[|puts| - 1].wrapped && words == Split(puts[|puts| - 1].text, ' ')
    requires j < |words| && OutWords(outs) == PutWords(puts[..|puts| - 1]) + words[..j]
    requires Breaks(f, Raw(outs[|outs| - 1]), words[j])
    requires var k := |puts| - 1;
      o == Out(f.subsequent + Spaces(Hang(puts[k].column, LineOf(inputs, k))), [words[j]], k, false)
    ensures OutRight(f, inputs, outs + [o], puts, |outs|)
  {
    hide Raw, RStrip, OutWords, PutWords, Breaks, Hang, LineOf, Split, Trail;
    assert puts[..|puts| - 1 + 1] == puts && (outs + [o])[..|outs|] == outs;
    WordsSoFar(puts, words, j);
  }

  lemma {:induction false} WordsSoFar(puts: seq<Put>, words: seq<string>, j: nat)
    requires puts != [] && words == Split(puts[|puts| - 1].text, ' ') && j < |words|
    ensures PutWords(puts[..|puts| - 1]) + words[..j] + [words[j]] <= PutWords(puts)
  {
    hide Split;
    OneFurther(PutWords(puts[..|puts| - 1]), words, j);
  }

  lemma OneFurther(front: seq<string>, words: seq<string>, j: nat)
    requires j < |words|
    ensures front + words[..j] + [words[j]] <= front + words
    ensures front + words[..j] + [words[j]] == front + words[..j + 1]
  {
    assert words == words[..j] + [words[j]] + words[j + 1..];
    assert front + words == front + words[..j] + [words[j]] + words[j + 1..];
  }

  /** The last line is of a wrapped input line. */
  predicate PendingWrapped(outs: seq<Out>, puts: seq<Put>) {
    outs != [] && outs[|outs| - 1].input < |puts| && puts[outs[|outs| - 1].input].wrapped
  }

  lemma {:induction false} WrittenLast(f: Frame, inputs: seq<string>, ret: seq<string>, outs: seq<Out>, puts: seq<Put>,
                                       total: seq<string>, line: string)
    requires Body(f, inputs, ret, outs, puts, total) && |outs| > |ret|
    requires Written(puts, outs[|ret|], line)
    requires puts != [] && (puts[|puts| - 1].wrapped || EndsLine(f, outs, puts[|puts| - 1], line))
    ensures Body(f, inputs, ret + [line], outs, puts, total)
  {
    hide PutRight, OutRight, Written, OutWords, Whole;
    forall k | 0 <= k < |puts|
      ensures Whole(f, ret + [line], outs, puts, k)
    {
      WholeAfter(f, ret, outs, puts, k, line);
    }
  }

  lemma {:induction false} WholeAfter(f: Frame, ret: seq<string>, outs: seq<Out>, puts: seq<Put>, k: nat, line: string)
    requires k < |puts| && Whole(f, ret, outs, puts, k)
    requires puts[|puts| - 1].wrapped || EndsLine(f, outs, puts[|puts| - 1], line)
    ensures Whole(f, ret + [line], outs, puts, k)
  {
    hide Before;
  }

  /** An input line stands at the end of the line. */
  predicate EndsLine(f: Frame, outs: seq<Out>, p: Put, line: string) {
    p.at < |outs| && p.offset <= |outs[p.at].words| && line == Before(f, outs, p) + p.text
  }

  /** A line added behind the last one, which is written. */
  lemma {:induction false} AddLine(f: Frame, inputs: seq<string>, ret: seq<string>, outs: seq<Out>, puts: seq<Put>,
                                   total: seq<string>, o: Out)
    requires Body(f, inputs, ret, outs, puts, total) && |outs| == |ret|
    requires OutRight(f, inputs, outs + [o], puts, |outs|)
    ensures Body(f, inputs, ret, outs + [o], puts, total + o.words)
  {
    hide PutRight, WordsRight, OutWords, OutRight, Written, Whole;
    OutWordsLast2(outs, o);
    AllStay(f, inputs, ret, outs, puts, total, outs + [o], puts);
  }

  /** The pending line is broken before a word of the wrapped line that is being placed. */
  lemma {:induction false} BreakLine(f: Frame, inputs: seq<string>, ret: seq<string>, outs: seq<Out>, puts: seq<Put>,
                                     total: seq<string>, words: seq<string>, j: nat)
    requires Body(f, inputs, ret, outs, puts, total) && |outs| == |ret| + 1
    requires puts != [] && puts[|puts| - 1].wrapped && words == Split(puts[|puts| - 1].text, ' ')
    requires j < |words| && total == PutWords(puts[..|puts| - 1]) + words[..j]
    requires Breaks(f, Raw(outs[|ret|]), words[j]) && PendingWrapped(outs, puts)
    ensures var k := |puts| - 1;
      var o := Out(f.subsequent + Spaces(Hang(puts[k].column, LineOf(inputs, k))), [words[j]], k, false);
      Body(f, inputs, ret + [RStrip(Raw(outs[|ret|]), ' ')], outs + [o], puts, total + [words[j]])
  {
    hide PutRight, OutRight, Raw, RStrip, PutWords, Breaks, Hang, LineOf, Split, Whole, OutWords;
    var k := |puts| - 1;
    var o := Out(f.subsequent + Spaces(Hang(puts[k].column, LineOf(inputs, k))), [words[j]], k, false);
    LaterIsRight(f, inputs, outs, puts, words, j, o);
    hide Body;
    WrittenLast(f, inputs, ret, outs, puts, total, RStrip(Raw(outs[|ret|]), ' '));
    AddLine(f, inputs, ret + [RStrip(Raw(outs[|ret|]), ' ')], outs, puts, total, o);
  }

  /** The loop over the words of the wrapped line placed last, whose words before the loop are `front`. */
  method WrapWords(f: Frame, ret: seq<string>, words: seq<string>, indent: string, spcs: nat,
                   ghost inputs: seq<string>, ghost outs: seq<Out>, ghost puts: seq<Put>)
    returns (ret': seq<string>, line: string, ghost outs': seq<Out>)
    requires puts != [] && puts[|puts| - 1].wrapped && words == Split(puts[|puts| - 1].text, ' ')
    requires Body(f, inputs, ret, outs, puts, PutWords(puts[..|puts| - 1])) && |outs| == |ret| + 1
    requires PendingWrapped(outs, puts) && indent == Raw(outs[|ret|])
    requires spcs == Hang(puts[|puts| - 1].column, LineOf(inputs, |puts| - 1))
    ensures Body(f, inputs, ret', outs', puts, PutWords(puts)) && |outs'| == |ret'| + 1
    ensures PendingWrapped(outs', puts) && line == Raw(outs'[|ret'|])
    ensures outs'[|ret'|].input in {outs[|ret|].input, |puts| - 1}
    ensures var last := outs'[|ret'|].words;
      last != [] && last[|last| - 1] == words[|words| - 1] && |last| <= |outs[|ret|].words| + |words|
  {
    hide Body, Breaks, Split, ExactWidth, RStrip, Raw, Hang, LineOf, PutWords, Trail;
    ret', line, outs' := ret, indent, outs;
    ghost var k, front := |puts| - 1, PutWords(puts[..|puts| - 1]);
    assert front + words[..0] == front;
    var j := 0;
    while j < |words|
      invariant 0 <= j <= |words|
      invariant Body(f, inputs, ret', outs', puts, front + words[..j]) && |outs'| == |ret'| + 1
      invariant PendingWrapped(outs', puts) && line == Raw(outs'[|ret'|])
      invariant outs'[|ret'|].input in {outs[|ret|].input, k}
      invariant |outs'[|ret'|].words| <= |outs[|ret|].words| + j
      invariant j > 0 ==> outs'[|ret'|].words != []
                          && outs'[|ret'|].words[|outs'[|ret'|].words| - 1] == words[j - 1]
    {
      OneFurther(front, words, j);
      BreaksMeans(f, line, words[j]);
      if f.width < ExactWidth(f.wide, line + words[j]) && ExactWidth(f.wide, line) > ExactWidth(f.wide, f.subsequent) {
        BreakLine(f, inputs, ret', outs', puts, front + words[..j], words, j);
        ret' := ret' + [RStrip(line, ' ')];
        line := f.subsequent + Spaces(spcs);
        outs' := outs' + [Out(line, [words[j]], k, false)];
        RawOfOne(line, words[j], k);
      } else {
        AddWord(f, inputs, ret', outs', puts, front + words[..j], words[j]);
        outs' := outs'[|ret'| := outs'[|ret'|].(words := outs'[|ret'|].words + [words[j]])];
      }
      line := line + words[j] + " ";
      j := j + 1;
    }
    AllWords(puts, words);
  }

  lemma BreaksMeans(f: Frame, raw: string, word: string)
    ensures Breaks(f, raw, word) <==>
            ExactWidth(f.wide, raw + word) > f.width && ExactWidth(f.wide, raw) > ExactWidth(f.wide, f.subsequent)
  {
  }

  lemma RawOfOne(start: string, word: string, k: nat)
    ensures Raw(Out(start, [word], k, false)) == start + word + " "
  {
    TrailSnoc([], word);
    assert [] + [word] == [word] && Trail([]) + word + " " == word + " ";
    assert start + (word + " ") == start + word + " ";
  }

  lemma {:induction false} AllWords(puts: seq<Put>, words: seq<string>)
    requires puts != [] && words == Split(puts[|puts| - 1].text, ' ')
    ensures PutWords(puts[..|puts| - 1]) + words[..|words|] == PutWords(puts)
  {
    hide Split;
    assert words[..|words|] == words;
  }

  // ----- The loop over the lines -----

  lemma {:induction false} TrailAppend(a: seq<string>, b: seq<string>)
    ensures Trail(a + b) == Trail(a) + Trail(b)
    decreases |b|
  {
    if b == [] {
      assert a + b == a && Trail(a) + "" == Trail(a);
    } else {
      var n := |b| - 1;
      assert a + b == a + b[..n] + [b[n]];
      TrailAppend(a, b[..n]);
      TrailSnoc(a + b[..n], b[n]);
      assert Trail(a) + (Trail(b[..n]) + b[n] + " ") == Trail(a) + Trail(b[..n]) + b[n] + " ";
    }
  }

  lemma TrailOne(word: string)
    ensures Trail([word]) == word + " "
  {
    TrailSnoc([], word);
    assert [] + [word] == [word] && "" + word + " " == word + " ";
  }

  lemma TrailCons(word: string, words: seq<string>)
    ensures Trail([word] + words) == word + " " + Trail(words)
  {
    TrailAppend([word], words);
    TrailOne(word);
  }

  /** The words of a line, with their spaces, are the line and a space. */
  lemma {:induction false} TrailSplit(s: string)
    ensures Trail(Split(s, ' ')) == s + " "
  {
    if s == "" {
      TrailOne("");
    } else {
      TrailSplit(s[1..]);
      SplitStep(s);
      hide Trail, Split;
      var rest := Split(s[1..], ' ');
      assert s == [s[0]] + s[1..];
      if s[0] == ' ' {
        TrailCons("", rest);
        Shifted("", " ", s[1..]);
      } else {
        TrailCons([s[0]] + rest[0], rest[1..]);
        TrailCons(rest[0], rest[1..]);
        assert rest == [rest[0]] + rest[1..];
        Regrouped([s[0]], rest[0], Trail(rest[1..]), s[1..]);
      }
    }
  }

  lemma Shifted(a: string, b: string, c: string)
    ensures a + b + (c + " ") == a + b + c + " "
  {
  }

  lemma Regrouped(first: string, word: string, others: string, s: string)
    requires word + " " + others == s + " "
    ensures first + word + " " + others == first + s + " "
  {
    assert first + word + " " + others == first + (word + " " + others);
  }

  lemma SplitStep(s: string)
    requires s != ""
    ensures var rest := Split(s[1..], ' ');
      Split(s, ' ') == if s[0] == ' ' then [""] + rest else [[s[0]] + rest[0]] + rest[1..]
  {
  }

  lemma PrefixFits(wide: set<char>, a: string, b: string)
    requires a <= b
    ensures ExactWidth(wide, a) <= ExactWidth(wide, b)
  {
    WidthAppend(wide, a, b[|a|..]);
    assert b == a + b[|a|..];
  }

  /** Up to its j-th word, a text that fits has room. */
  lemma FitsUpTo(f: Frame, raw: string, text: string, j: nat)
    requires j < |Split(text, ' ')| && ExactWidth(f.wide, raw + text) <= f.width
    ensures !Breaks(f, raw + Trail(Split(text, ' ')[..j]), Split(text, ' ')[j])
  {
    hide ExactWidth, Trail, Split;
    var words := Split(text, ' ');
    TrailSplit(text);
    TrailSnoc(words[..j], words[j]);
    assert words == words[..j] + [words[j]] + words[j + 1..];
    TrailAppend(words[..j] + [words[j]], words[j + 1..]);
    var part := Trail(words[..j]) + words[j];
    assert part + " " + Trail(words[j + 1..]) == text + " ";
    FrontOf(part, Trail(words[j + 1..]), text);
    assert raw + Trail(words[..j]) + words[j] == raw + part;
    assert raw + part <= raw + text;
    PrefixFits(f.wide, raw + part, raw + text);
  }

  lemma FrontOf(a: string, b: string, text: string)
    requires a + " " + b == text + " "
    ensures a <= text
  {
    assert (text + " ")[..|a|] == text[..|a|];
    assert (a + " " + b)[..|a|] == a;
  }

  lemma FitWords(f: Frame, o: Out, text: string)
    requires WordsRight(f, o) && ExactWidth(f.wide, Raw(o) + text) <= f.width
    ensures WordsRight(f, o.(words := o.words + Split(text, ' ')))
    ensures Raw(o.(words := o.words + Split(text, ' '))) == Raw(o) + text + " "
  {
    hide Breaks, Trail, ExactWidth, Split;
    var words := Split(text, ' ');
    var o' := o.(words := o.words + words);
    forall j | (if o.first then 0 else 1) <= j < |o'.words|
      ensures !Breaks(f, o'.start + Trail(o'.words[..j]), o'.words[j])
    {
      if j < |o.words| {
        assert o'.words[..j] == o.words[..j] && o'.words[j] == o.words[j];
      } else {
        var m := j - |o.words|;
        assert o'.words[..j] == o.words + words[..m] && o'.words[j] == words[m];
        TrailAppend(o.words, words[..m]);
        FitsUpTo(f, Raw(o), text, m);
        assert o.start + (Trail(o.words) + Trail(words[..m])) == Raw(o) + Trail(words[..m]);
      }
    }
    TrailAppend(o.words, words);
    TrailSplit(text);
    assert o.start + (Trail(o.words) + (text + " ")) == o.start + Trail(o.words) + text + " ";
  }

  lemma RStripLast(s: string)
    requires s != "" && s[|s| - 1] != ' '
    ensures RStrip(s + " ", ' ') == s
  {
    assert (s + " ")[..|s|] == s;
  }

  lemma OneEmptyWord(text: string)
    ensures Split(text, ' ') == [""] <==> text == ""
  {
    TrailSplit(text);
    if Split(text, ' ') == [""] {
      TrailOne("");
      assert |text + " "| == 1;
    }
  }

  /** A text that does not end in a space. */
  predicate Ends(text: string) {
    text == "" || text[|text| - 1] != ' '
  }

  /** The words of a line that fits stay on the pending line. */
  lemma {:induction false} AddWords(f: Frame, inputs: seq<string>, ret: seq<string>, outs: seq<Out>, puts: seq<Put>,
                                    total: seq<string>, text: string)
    requires Body(f, inputs, ret, outs, puts, total) && |outs| == |ret| + 1
    requires ExactWidth(f.wide, Raw(outs[|ret|]) + text) <= f.width
    ensures var o := outs[|ret|].(words := outs[|ret|].words + Split(text, ' '));
      Body(f, inputs, ret, outs[|ret| := o], puts, total + Split(text, ' ')) && Raw(o) == Raw(outs[|ret|]) + text + " "
  {
    hide PutRight, OutRight, WordsRight, Raw, RStrip, OutWords, ExactWidth, Split, Written, Whole;
    var n := |ret|;
    var o := outs[n].(words := outs[n].words + Split(text, ' '));
    RightHasWordsRight(f, inputs, outs, puts, n);
    FitWords(f, outs[n], text);
    OutWordsLast(outs, o);
    assert OutWords(outs[..n]) + (outs[n].words + Split(text, ' '))
        == OutWords(outs[..n]) + outs[n].words + Split(text, ' ');
    AllStay(f, inputs, ret, outs, puts, total, outs[n := o], puts);
  }

  /** A line that fits goes out whole. */
  lemma {:induction false} FitLine(f: Frame, inputs: seq<string>, ret: seq<string>, outs: seq<Out>, puts: seq<Put>,
                                   text: string)
    requires puts != [] && puts[|puts| - 1].text == text && !puts[|puts| - 1].wrapped
    requires Body(f, inputs, ret, outs, puts, PutWords(puts[..|puts| - 1])) && |outs| == |ret| + 1
    requires ExactWidth(f.wide, Raw(outs[|ret|]) + text) <= f.width && Ends(text)
    requires text == "" ==> outs[|ret|].words == [] && outs[|ret|].input == |puts| - 1 && outs[|ret|].first
    requires EndsLine(f, outs, puts[|puts| - 1], Raw(outs[|ret|]) + text)
    ensures var o := outs[|ret|].(words := outs[|ret|].words + Split(text, ' '));
      Body(f, inputs, ret + [Raw(outs[|ret|]) + text], outs[|ret| := o], puts, PutWords(puts))
  {
    hide Body, Raw, RStrip, OutWords, ExactWidth, Split, Written, EndsLine;
    var n := |ret|;
    AddWords(f, inputs, ret, outs, puts, PutWords(puts[..|puts| - 1]), text);
    OneEmptyWord(text);
    FitIsWritten(puts, outs[n], Split(text, ' '), text);
    var o := outs[n].(words := outs[n].words + Split(text, ' '));
    EndsStays(f, outs, puts[|puts| - 1], Raw(outs[n]) + text, o);
    WrittenLast(f, inputs, ret, outs[n := o], puts, PutWords(puts), Raw(outs[n]) + text);
  }

  lemma EndsStays(f: Frame, outs: seq<Out>, p: Put, line: string, o: Out)
    requires outs != [] && EndsLine(f, outs, p, line)
    requires o.start == outs[|outs| - 1].start && outs[|outs| - 1].words <= o.words
    ensures EndsLine(f, outs[|outs| - 1 := o], p, line)
  {
    hide IndentOf, Trail;
    var outs' := outs[|outs| - 1 := o];
    assert outs'[p.at].words[..p.offset] == outs[p.at].words[..p.offset];
  }

  lemma {:induction false} FitIsWritten(puts: seq<Put>, o: Out, words: seq<string>, text: string)
    requires Ends(text) && puts != [] && !puts[|puts| - 1].wrapped
    requires words != [] && (words == [""] <==> text == "")
    requires Raw(o.(words := o.words + words)) == Raw(o) + text + " "
    requires text == "" ==> o.words == [] && o.input == |puts| - 1 && o.first
    ensures Written(puts, o.(words := o.words + words), Raw(o) + text)
  {
    hide RStrip, Trail;
    if text == "" {
      assert [] + words == words && Trail([]) == "" by { TrailNone(); }
      assert o.start + "" + "" == o.start;
    } else {
      RStripLast(Raw(o) + text);
      MoreThanOne(o.words, words);
    }
  }

  lemma MoreThanOne(a: seq<string>, words: seq<string>)
    requires words != [] && words != [""]
    ensures a + words != [""]
  {
    if a != [] {
      assert |a + words| > 1;
    } else {
      assert a + words == words;
    }
  }

  lemma TrailNone()
    ensures Trail([]) == ""
  {
  }

  /** How input line k is put where it starts a new output line, the i-th. */
  ghost predicate OpensWith(f: Frame, inputs: seq<string>, puts: seq<Put>, i: nat, p: Put)
    requires |puts| < |inputs|
  {
    var k := |puts|;
    var line := LineOf(inputs, k);
    && !(k > 0 && puts[k - 1].wrapped && GoesOn(f.wide, line, LineOf(inputs, k - 1), puts[k - 1].column))
    && p.text == line && !p.joined && p.column == IndentAtBeg(f.wide, line).1
    && (p.wrapped <==> ExactWidth(f.wide, IndentOf(f, i) + line) > f.width)
    && p.at == i && p.offset == 0
  }

  /** An input line starts a new output line. */
  lemma {:induction false} OpenLine(f: Frame, inputs: seq<string>, ret: seq<string>, outs: seq<Out>, puts: seq<Put>, p: Put)
    requires Body(f, inputs, ret, outs, puts, PutWords(puts)) && |outs| == |ret| && |puts| < |inputs|
    requires OpensWith(f, inputs, puts, |ret|, p)
    ensures var outs', puts' := outs + [Out(IndentOf(f, |ret|), [], |puts|, true)], puts + [p];
      && Body(f, inputs, ret, outs', puts', PutWords(puts)) && puts'[..|puts|] == puts
      && Raw(outs'[|ret|]) == IndentOf(f, |ret|)
  {
    hide PutRight, OutRight, Written, OutWords, PutWords, WordsRight, GoesOn, IndentAtBeg, ExactWidth;
    var o := Out(IndentOf(f, |ret|), [], |puts|, true);
    NewPutRight(f, inputs, outs, puts, p, o);
    NewOutRight(f, inputs, outs, puts, p, o);
    OutWordsLast2(outs, o);
    AllStay(f, inputs, ret, outs, puts, PutWords(puts), outs + [o], puts + [p]);
    assert o.start + "" == o.start;
  }

  lemma {:induction false} NewOutRight(f: Frame, inputs: seq<string>, outs: seq<Out>, puts: seq<Put>, p: Put, o: Out)
    requires |puts| < |inputs| && OpensWith(f, inputs, puts, |outs|, p)
    requires o == Out(IndentOf(f, |outs|), [], |puts|, true)
    ensures OutRight(f, inputs, outs + [o], puts + [p], |outs|)
  {
    hide GoesOn, IndentAtBeg, ExactWidth, LineOf, IndentOf, PutWords, OutWords;
  }

  lemma {:induction false} OutWordsLast2(outs: seq<Out>, o: Out)
    ensures OutWords(outs + [o]) == OutWords(outs) + o.words
  {
    assert (outs + [o])[..|outs|] == outs;
  }

  lemma {:induction false} NewPutRight(f: Frame, inputs: seq<string>, outs: seq<Out>, puts: seq<Put>, p: Put, o: Out)
    requires |puts| < |inputs| && OutWords(outs) == PutWords(puts) && OpensWith(f, inputs, puts, |outs|, p)
    requires o == Out(IndentOf(f, |outs|), [], |puts|, true)
    ensures PutRight(f, inputs, outs + [o], puts + [p], |puts|)
  {
    hide OutWords, PutWords, GoesOn, IndentAtBeg, ExactWidth, LineOf, IndentOf, LeadingSpaces;
    assert (outs + [o])[..|outs|] == outs && (puts + [p])[..|puts|] == puts;
    assert OutWords(outs) + [] == OutWords(outs);
  }

  /** How an input line is put where it is joined with the pending output line, the i-th. */
  ghost predicate JoinsWith(f: Frame, inputs: seq<string>, puts: seq<Put>, i: nat, o: Out, p: Put)
    requires |puts| < |inputs|
  {
    var k := |puts|;
    var line := LineOf(inputs, k);
    && k > 0 && puts[k - 1].wrapped && GoesOn(f.wide, line, LineOf(inputs, k - 1), puts[k - 1].column)
    && p.text == line[LeadingSpaces(line)..] && p.joined && p.column == puts[k - 1].column
    && (p.wrapped <==> ExactWidth(f.wide, Raw(o) + p.text) > f.width)
    && p.at == i && p.offset == |o.words| > 0
  }

  /** An input line is joined with the pending output line. */
  lemma {:induction false} JoinLine(f: Frame, inputs: seq<string>, ret: seq<string>, outs: seq<Out>, puts: seq<Put>, p: Put)
    requires Body(f, inputs, ret, outs, puts, PutWords(puts)) && |outs| == |ret| + 1 && |puts| < |inputs|
    requires JoinsWith(f, inputs, puts, |ret|, outs[|ret|], p)
    ensures Body(f, inputs, ret, outs, puts + [p], PutWords(puts)) && (puts + [p])[..|puts|] == puts
  {
    hide PutRight, OutRight, Written, OutWords, PutWords, WordsRight, GoesOn, ExactWidth, LeadingSpaces;
    JoinedPutRight(f, inputs, outs, puts, p);
    RightHasWordsRight(f, inputs, outs, puts, |ret|);
    AllStay(f, inputs, ret, outs, puts, PutWords(puts), outs, puts + [p]);
  }

  lemma {:induction false} JoinedPutRight(f: Frame, inputs: seq<string>, outs: seq<Out>, puts: seq<Put>, p: Put)
    requires |puts| < |inputs| && OutWords(outs) == PutWords(puts) && outs != []
    requires JoinsWith(f, inputs, puts, |outs| - 1, outs[|outs| - 1], p)
    ensures PutRight(f, inputs, outs, puts + [p], |puts|)
  {
    OutWordsLast(outs, outs[|outs| - 1]);
    hide OutWords, PutWords, GoesOn, IndentAtBeg, ExactWidth, LineOf, IndentOf, LeadingSpaces, Trail;
    assert (puts + [p])[..|puts|] == puts;
    var words := outs[|outs| - 1].words;
    assert words[..|words|] == words;
  }

  // ----- A blank line that is too wide -----

  lemma {:induction false} PutWordsLonger(puts: seq<Put>, k: nat)
    requires k < |puts|
    ensures |PutWords(puts[..k])| < |PutWords(puts)|
    decreases |puts|
  {
    hide Split;
    var n := |puts| - 1;
    if k < n {
      PutWordsLonger(puts[..n], k);
      assert puts[..n][..k] == puts[..k];
    }
  }

  /** With only a blank line on the pending line, nothing was joined with it. */
  lemma {:induction false} NoneJoined(f: Frame, inputs: seq<string>, outs: seq<Out>, puts: seq<Put>, k: nat)
    requires k < |puts| <= |inputs| && outs != [] && OutWords(outs) == PutWords(puts)
    requires PutRight(f, inputs, outs, puts, k) && puts[k].joined
    requires |outs[|outs| - 1].words| == 1
    ensures puts[k].at < |outs| - 1
  {
    PutWordsLonger(puts, k);
    OutWordsLast(outs, outs[|outs| - 1]);
    hide OutWords, PutWords, GoesOn, IndentAtBeg, ExactWidth, LineOf, IndentOf, LeadingSpaces, Trail;
    var n := |outs| - 1;
    assert outs[n].words[..1] == outs[n].words;
  }

  /** The spaces that the pending line starts with are lost if only a blank line is on it. */
  lemma {:induction false} Collapse(f: Frame, inputs: seq<string>, ret: seq<string>, outs: seq<Out>, puts: seq<Put>)
    requires Body(f, inputs, ret, outs, puts, PutWords(puts)) && |outs| == |ret| + 1
    requires outs[|ret|].words == [""] && outs[|ret|].input < |puts| && LineOf(inputs, outs[|ret|].input) == ""
    ensures var o := outs[|ret|].(start := RStrip(outs[|ret|].start, ' '));
      Body(f, inputs, ret, outs[|ret| := o], puts, PutWords(puts)) && Raw(o) == RStrip(Raw(outs[|ret|]), ' ') + " "
  {
    hide PutRight, OutRight, OutWords, PutWords, Written, RStrip, Raw, LineOf;
    var n := |ret|;
    var o := outs[n].(start := RStrip(outs[n].start, ' '));
    var outs' := outs[n := o];
    OutWordsLast(outs, o);
    CollapsedRaw(outs[n]);
    forall k | 0 <= k < |puts|
      ensures PutRight(f, inputs, outs', puts, k) && Whole(f, ret, outs', puts, k)
    {
      if puts[k].joined { NoneJoined(f, inputs, outs, puts, k); }
      CollapsedPut(f, inputs, outs, puts, k, o);
      assert Whole(f, ret, outs, puts, k);
    }
    forall i | 0 <= i <= n
      ensures OutRight(f, inputs, outs', puts, i)
    {
      CollapsedOut(f, inputs, outs, puts, i, o);
    }
  }

  lemma CollapsedRaw(o: Out)
    requires o.words == [""]
    ensures Raw(o) == o.start + " "
    ensures Raw(o.(start := RStrip(o.start, ' '))) == RStrip(Raw(o), ' ') + " "
  {
    TrailOne("");
    RStripAppendSpace(o.start);
    assert "" + " " == " ";
  }

  lemma {:induction false} RStripAppendSpace(s: string)
    ensures RStrip(s + " ", ' ') == RStrip(s, ' ')
  {
    assert (s + " ")[..|s|] == s;
  }

  lemma {:induction false} CollapsedPut(f: Frame, inputs: seq<string>, outs: seq<Out>, puts: seq<Put>, k: nat, o: Out)
    requires k < |puts| <= |inputs| && outs != [] && PutRight(f, inputs, outs, puts, k)
    requires o == outs[|outs| - 1].(start := o.start)
    requires puts[k].joined ==> puts[k].at < |outs| - 1
    ensures PutRight(f, inputs, outs[|outs| - 1 := o], puts, k)
  {
    hide GoesOn, IndentAtBeg, LeadingSpaces, ExactWidth, OutWords, PutWords, LineOf, IndentOf, Trail;
    assert outs[|outs| - 1 := o][..puts[k].at] == outs[..puts[k].at];
  }

  lemma {:induction false} CollapsedOut(f: Frame, inputs: seq<string>, outs: seq<Out>, puts: seq<Put>, i: nat, o: Out)
    requires i < |outs| && |puts| <= |inputs| && OutRight(f, inputs, outs, puts, i)
    requires var last := outs[|outs| - 1];
      && last.words == [""] && last.input < |puts| && LineOf(inputs, last.input) == ""
      && o == last.(start := RStrip(last.start, ' '))
    ensures OutRight(f, inputs, outs[|outs| - 1 := o], puts, i)
  {
    hide OutWords, PutWords, LineOf, IndentOf, Hang, Breaks, RStrip, Trail;
    assert outs[|outs| - 1 := o][..i] == outs[..i];
    if i == |outs| - 1 {
      StripTwice(outs[i].start);
      if outs[i].first {
        StripTwice(IndentOf(f, i));
        assert o.words[..0] == [] && o.words[0] == "";
        assert !Breaks(f, outs[i].start + Trail(outs[i].words[..0]), outs[i].words[0]);
        TrailNone();
        assert outs[i].start + "" == outs[i].start && o.start + "" == o.start;
        StripFits(f, outs[i].start);
      } else {
        StripTwice(f.subsequent + Spaces(Hang(puts[o.input].column, LineOf(inputs, o.input))));
      }
    }
  }

  lemma StripTwice(s: string)
    ensures RStrip(RStrip(s, ' '), ' ') == RStrip(s, ' ')
  {
  }

  lemma StripFits(f: Frame, s: string)
    requires !Breaks(f, s, "")
    ensures !Breaks(f, RStrip(s, ' '), "")
  {
    PrefixFits(f.wide, RStrip(s, ' '), s);
    assert s + "" == s && RStrip(s, ' ') + "" == RStrip(s, ' ');
  }

  // ----- The whole function -----

  /** The lines of a text, as the function splits it. */
  function InputLines(text: string): (r: seq<string>)
    ensures r != []
  {
    Split(ExpandTabs(RStrip(text, '\n')), '\n')
  }

  /** `force_nl`: the line must not be joined with what is pending. */
  predicate ForceNewLine(wrapLast: bool, line: string, lsab: nat, lspcIndent: nat, csab: nat, cspcIndent: nat) {
    wrapLast && (cspcIndent != 0 || csab == |line| || (lspcIndent == 0 && csab >= 4 && csab != lsab))
  }

  lemma ForceMeans(wide: set<char>, wrapLast: bool, line: string, before: string, column: nat)
    requires Ends(line)
    ensures ForceNewLine(wrapLast, line, LeadingSpaces(before), column, IndentAtBeg(wide, line).0, IndentAtBeg(wide, line).1)
            <==> wrapLast && !GoesOn(wide, line, before, column)
    ensures IndentAtBeg(wide, line).0 == LeadingSpaces(line) && (LeadingSpaces(line) == |line| <==> line == "")
  {
    ItemExactly(wide, line);
    hide IndentAtBeg, LeadingSpaces, SomeBullets;
  }

  /** The words that a line starts with after `indent` are those of the text placed last. */
  ghost predicate Ready(f: Frame, inputs: seq<string>, ret: seq<string>, outs: seq<Out>, puts: seq<Put>,
                        indent: string, line: string, spcs: nat)
  {
    && puts != [] && |outs| == |ret| + 1
    && Body(f, inputs, ret, outs, puts, PutWords(puts[..|puts| - 1]))
    && var k := |puts| - 1;
       && puts[k].text == line && Ends(line) && spcs == Hang(puts[k].column, LineOf(inputs, k))
       && indent == Raw(outs[|ret|]) && EndsLine(f, outs, puts[k], indent + line)
       && (puts[k].wrapped <==> ExactWidth(f.wide, indent + line) > f.width)
       && (if puts[k].joined then line != "" && PendingWrapped(outs, puts)
           else outs[|ret|] == Out(indent, [], k, true) && (line == "" ==> LineOf(inputs, k) == ""))
  }

  /** All input lines so far are placed, and the last line is pending or not. */
  ghost predicate Settled(f: Frame, inputs: seq<string>, ret: seq<string>, outs: seq<Out>, puts: seq<Put>,
                          indent: string, pending: bool)
  {
    && Body(f, inputs, ret, outs, puts, PutWords(puts))
    && if pending
       then && puts != [] && puts[|puts| - 1].wrapped && PendingWrapped(outs, puts)
            && |outs| == |ret| + 1 && indent == Raw(outs[|ret|]) && outs[|ret|].words != []
       else |outs| == |ret| && indent == IndentOf(f, |ret|)
  }

  /** The rest of the loop's body: put the line after `indent`, wrapping it if it is too long. */
  method PlaceLine(f: Frame, ret: seq<string>, indent: string, line: string, spcs: nat,
                   ghost inputs: seq<string>, ghost outs: seq<Out>, ghost puts: seq<Put>)
    returns (ret': seq<string>, indent': string, wrapLast: bool, ghost outs': seq<Out>)
    requires Ready(f, inputs, ret, outs, puts, indent, line, spcs)
    ensures Settled(f, inputs, ret', outs', puts, indent', wrapLast)
    ensures wrapLast == puts[|puts| - 1].wrapped && (ret' != [] || wrapLast)
  {
    hide Body, ExactWidth, RStrip, Split, Raw, Hang, LineOf, PutWords;
    if ExactWidth(f.wide, indent + line) <= f.width {
      FitLine(f, inputs, ret, outs, puts, line);
      outs' := outs[|ret| := outs[|ret|].(words := outs[|ret|].words + Split(line, ' '))];
      return ret + [indent + line], f.subsequent, false, outs';
    }
    wrapLast := true;
    var words := Split(line, ' ');
    var wrapped;
    ret', wrapped, outs' := WrapWords(f, ret, words, indent, spcs, inputs, outs, puts);
    indent' := RStrip(wrapped, ' ') + " ";
    OneEmptyWord(line);
    if line == "" {
      assert outs'[|ret'|].words == [""] && outs'[|ret'|].input == |puts| - 1;
      Collapse(f, inputs, ret', outs', puts);
      outs' := outs'[|ret'| := outs'[|ret'|].(start := RStrip(outs'[|ret'|].start, ' '))];
    } else {
      LastWord(line);
      RawEnds(outs'[|ret'|]);
    }
  }

  /** The last word of a line that does not end in a space is not empty. */
  lemma {:induction false} LastWord(s: string)
    requires s != "" && s[|s| - 1] != ' '
    ensures var words := Split(s, ' '); words[|words| - 1] != "" && ' ' !in words[|words| - 1]
  {
    SplitParts(s, ' ');
    if |s| > 1 {
      LastWord(s[1..]);
    } else {
      assert s[1..] == "";
    }
  }

  lemma RawEnds(o: Out)
    requires o.words != [] && o.words[|o.words| - 1] != "" && ' ' !in o.words[|o.words| - 1]
    ensures RStrip(Raw(o), ' ') + " " == Raw(o)
  {
    var word := o.words[|o.words| - 1];
    var s := o.start + Trail(o.words[..|o.words| - 1]) + word;
    assert Raw(o) == s + " ";
    assert s[|s| - 1] == word[|word| - 1];
    RStripLast(s);
  }

  /** The layout of a whole text. */
  ghost predicate LaidOut(f: Frame, inputs: seq<string>, lines: seq<string>, outs: seq<Out>, puts: seq<Put>) {
    |puts| == |inputs| && |outs| == |lines| && Body(f, inputs, lines, outs, puts, PutWords(puts))
  }

  /** Writing what is pending. */
  lemma {:induction false} Flush(f: Frame, inputs: seq<string>, ret: seq<string>, outs: seq<Out>, puts: seq<Put>,
                                 indent: string)
    requires Settled(f, inputs, ret, outs, puts, indent, true)
    ensures Settled(f, inputs, ret + [RStrip(indent, ' ')], outs, puts, f.subsequent, false)
  {
    hide Body, Raw, PutWords, RStrip;
    WrittenLast(f, inputs, ret, outs, puts, PutWords(puts), RStrip(indent, ' '));
  }

  lemma WholeOut(f: Frame, outs: seq<Out>, p: Put, line: string)
    requires outs != [] && p.at == |outs| - 1
    requires if p.joined then p.offset == |outs[p.at].words| && line == Raw(outs[p.at]) + p.text
             else p.offset == 0 && line == IndentOf(f, p.at) + p.text
    ensures EndsLine(f, outs, p, line)
  {
    hide Trail, IndentOf;
    var words := outs[p.at].words;
    assert words[..|words|] == words;
  }

  /** A line that is joined with what is pending. */
  lemma {:induction false} PutJoined(f: Frame, inputs: seq<string>, ret: seq<string>, outs: seq<Out>, puts: seq<Put>,
                                     indent: string, line: string, spcs: nat)
    returns (puts': seq<Put>)
    requires Settled(f, inputs, ret, outs, puts, indent, true) && 0 < |puts| < |inputs|
    requires var k := |puts|;
      && line == LineOf(inputs, k) && puts[k - 1].wrapped
      && GoesOn(f.wide, line, LineOf(inputs, k - 1), puts[k - 1].column)
      && spcs == Hang(puts[k - 1].column, line)
    ensures var k, text := |puts|, line[LeadingSpaces(line)..];
      && Ready(f, inputs, ret, outs, puts', indent, text, spcs)
      && |puts'| == k + 1 && puts'[..k] == puts && puts'[k].column == puts[k - 1].column
      && (puts'[k].wrapped <==> ExactWidth(f.wide, indent + text) > f.width)
  {
    hide Body, PutWords, RStrip, LeadingSpaces, Hang, ExactWidth, IndentOf, Raw, SomeBullets, LineOf;
    var text := line[LeadingSpaces(line)..];
    LineEnds(inputs, |puts|);
    var p := Put(text, true, ExactWidth(f.wide, indent + text) > f.width, puts[|puts| - 1].column,
                 |ret|, |outs[|ret|].words|);
    puts' := puts + [p];
    assert JoinsWith(f, inputs, puts, |ret|, outs[|ret|], p);
    hide JoinsWith, GoesOn;
    JoinLine(f, inputs, ret, outs, puts, p);
    WholeOut(f, outs, p, indent + text);
  }

  /** A line that starts a new output line. */
  lemma {:induction false} PutOpen(f: Frame, inputs: seq<string>, ret: seq<string>, outs: seq<Out>, puts: seq<Put>,
                                   indent: string, line: string, spcs: nat)
    returns (outs': seq<Out>, puts': seq<Put>)
    requires Settled(f, inputs, ret, outs, puts, indent, false) && |puts| < |inputs|
    requires var k := |puts|;
      && line == LineOf(inputs, k)
      && !(k > 0 && puts[k - 1].wrapped && GoesOn(f.wide, line, LineOf(inputs, k - 1), puts[k - 1].column))
      && spcs == Hang(IndentAtBeg(f.wide, line).1, line)
    ensures var k := |puts|;
      && Ready(f, inputs, ret, outs', puts', indent, line, spcs)
      && |puts'| == k + 1 && puts'[..k] == puts && puts'[k].column == IndentAtBeg(f.wide, line).1
      && (puts'[k].wrapped <==> ExactWidth(f.wide, indent + line) > f.width)
  {
    hide Body, PutWords, RStrip, IndentAtBeg, LeadingSpaces, Hang, ExactWidth, IndentOf, Raw, GoesOn, LineOf;
    LineEnds(inputs, |puts|);
    var p := Put(line, false, ExactWidth(f.wide, indent + line) > f.width, IndentAtBeg(f.wide, line).1, |ret|, 0);
    outs', puts' := outs + [Out(indent, [], |puts|, true)], puts + [p];
    OpenLine(f, inputs, ret, outs, puts, p);
    WholeOut(f, outs', p, indent + line);
  }

  lemma LineEnds(inputs: seq<string>, k: nat)
    requires k < |inputs|
    ensures Ends(LineOf(inputs, k)) && Ends(LineOf(inputs, k)[LeadingSpaces(LineOf(inputs, k))..])
    ensures LineOf(inputs, k) != "" ==> LineOf(inputs, k)[LeadingSpaces(LineOf(inputs, k))..] != ""
  {
    var line := LineOf(inputs, k);
    if line != "" {
      assert LeadingSpaces(line) < |line|;
      assert line[LeadingSpaces(line)..][|line| - LeadingSpaces(line) - 1] == line[|line| - 1];
    }
  }

  lemma StartSettled(f: Frame, inputs: seq<string>)
    ensures Settled(f, inputs, [], [], [], f.initial, false)
  {
  }

  lemma LineIs(inputs: seq<string>, k: nat)
    requires k < |inputs|
    ensures LineOf(inputs, k) == RStrip(inputs[k], ' ') && Ends(LineOf(inputs, k))
    ensures LeadingSpaces("") == 0
  {
  }

  lemma HangIs(column: nat, line: string)
    ensures Hang(column, line) == if column == 0 && LeadingSpaces(line) >= 4 then LeadingSpaces(line) else column
  {
  }

  lemma {:induction false} SettledIsLaidOut(f: Frame, inputs: seq<string>, ret: seq<string>, outs: seq<Out>,
                                            puts: seq<Put>, indent: string)
    requires Settled(f, inputs, ret, outs, puts, indent, false) && |puts| == |inputs|
    ensures LaidOut(f, inputs, ret, outs, puts)
  {
    hide Body;
  }

  /** The lines of `textwrap_fill`. */
  method WrapLines(f: Frame, text: string)
    returns (ret: seq<string>, ghost outs: seq<Out>, ghost puts: seq<Put>)
    ensures ret != [] && LaidOut(f, InputLines(text), ret, outs, puts)
  {
    hide Body, ExactWidth, RStrip, InputLines, IndentAtBeg, LeadingSpaces, LineOf, Settled, Ready, GoesOn, Hang;
    hide PutWords;
    var lines := InputLines(text);
    ret, outs, puts := [], [], [];
    var indent, wrapLast, csab, cspcIndent := f.initial, false, 0, 0;
    StartSettled(f, lines);
    var k := 0;
    while k < |lines|
      invariant 0 <= k == |puts| <= |lines|
      invariant Settled(f, lines, ret, outs, puts, indent, wrapLast)
      invariant wrapLast <==> k > 0 && puts[k - 1].wrapped
      invariant k > 0 ==> csab == LeadingSpaces(LineOf(lines, k - 1)) && cspcIndent == puts[k - 1].column
      invariant k > 0 ==> ret != [] || wrapLast
    {
      var line := RStrip(lines[k], ' ');
      LineIs(lines, k);
      ghost var stripped := line;
      var lsab, lspcIndent := csab, cspcIndent;
      csab, cspcIndent := IndentAtBegLoop(f.wide, line);
      ForceMeans(f.wide, wrapLast, line, if k > 0 then LineOf(lines, k - 1) else "", lspcIndent);
      if ForceNewLine(wrapLast, line, lsab, lspcIndent, csab, cspcIndent) {
        Flush(f, lines, ret, outs, puts, indent);
        ret, indent, wrapLast := ret + [RStrip(indent, ' ')], f.subsequent, false;
      }
      if csab == |line| {
        line := "";
      }
      if wrapLast {
        line := line[LeadingSpaces(line)..];
        cspcIndent := lspcIndent;
      }
      var spcs := if cspcIndent == 0 && csab >= 4 then csab else cspcIndent;
      HangIs(cspcIndent, stripped);
      if wrapLast {
        puts := PutJoined(f, lines, ret, outs, puts, indent, stripped, spcs);
      } else {
        outs, puts := PutOpen(f, lines, ret, outs, puts, indent, stripped, spcs);
      }
      ret, indent, wrapLast, outs := PlaceLine(f, ret, indent, line, spcs, lines, outs, puts);
      k := k + 1;
    }
    if wrapLast {
      Flush(f, lines, ret, outs, puts, indent);
      ret := ret + [RStrip(indent, ' ')];
      indent := f.subsequent;
    }
    SettledIsLaidOut(f, lines, ret, outs, puts, indent);
  }
}
