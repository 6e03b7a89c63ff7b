/** Display width of text (dnf/i18n.py); `wide` is the set of East Asian wide characters. */
module TextWidth {
  import opened Wrappers

  function CharWidth(wide: set<char>, c: char): nat {
    if c in wide then 2 else 1
  }

  /** `exact_width`. */
  function ExactWidth(wide: set<char>, s: string): nat {
    if s == "" then 0 else CharWidth(wide, s[0]) + ExactWidth(wide, s[1..])
  }

  lemma {:induction false} WidthAppend(wide: set<char>, a: string, b: string)
    ensures ExactWidth(wide, a + b) == ExactWidth(wide, a) + ExactWidth(wide, b)
    decreases |a|
  {
    if a == "" {
      assert a + b == b;
    } else {
      assert (a + b)[1..] == a[1..] + b;
      WidthAppend(wide, a[1..], b);
    }
  }

  /** One column for each character, and one more for each wide one. */
  lemma {:induction false} WidthCounts(wide: set<char>, s: string)
    ensures ExactWidth(wide, s) == |s| + |Wides(wide, s)|
  {
    if s != "" {
      WidthCounts(wide, s[1..]);
    }
  }

  /** The wide characters of a text. */
  function Wides(wide: set<char>, s: string): (r: string)
    ensures forall c :: c in r <==> c in s && c in wide
  {
    if s == "" then "" else (if s[0] in wide then [s[0]] else []) + Wides(wide, s[1..])
  }

  function Spaces(n: nat): (r: string)
    ensures |r| == n && forall k :: 0 <= k < n ==> r[k] == ' '
  {
    seq(n, _ => ' ')
  }

  lemma {:induction false} WidthOfSpaces(wide: set<char>, n: nat)
    requires ' ' !in wide
    ensures ExactWidth(wide, Spaces(n)) == n
  {
    if n > 0 {
      assert Spaces(n)[1..] == Spaces(n - 1);
      WidthOfSpaces(wide, n - 1);
    }
  }

  /** As many leading characters as fit in `room`. */
  function Chop(wide: set<char>, msg: string, room: int): string {
    if msg == "" || CharWidth(wide, msg[0]) > room then ""
    else [msg[0]] + Chop(wide, msg[1..], room - CharWidth(wide, msg[0]))
  }

  /** The message that is left when it is chopped, if it is. */
  function Chopped(wide: set<char>, msg: string, chop: Option<int>): string {
    if chop == None then msg else Chop(wide, msg, chop.value)
  }

  /** Chopping leaves the longest prefix that is not too wide. */
  lemma {:induction false} ChopMeaning(wide: set<char>, msg: string, room: int, k: nat)
    requires k <= |msg|
    ensures Chop(wide, msg, room) <= msg
    ensures k <= |Chop(wide, msg, room)| <==> k == 0 || ExactWidth(wide, msg[..k]) <= room
    decreases |msg|
  {
    if msg != "" && k > 0 {
      var w := CharWidth(wide, msg[0]);
      ChopMeaning(wide, msg[1..], room - w, k - 1);
      assert msg[..k] == [msg[0]] + msg[1..][..k - 1] && msg[..k][1..] == msg[1..][..k - 1];
      assert msg == [msg[0]] + msg[1..];
    } else if msg != "" {
      ChopIsPrefix(wide, msg, room);
    }
  }

  lemma {:induction false} ChopIsPrefix(wide: set<char>, msg: string, room: int)
    ensures Chop(wide, msg, room) <= msg
    decreases |msg|
  {
    if msg != "" {
      ChopIsPrefix(wide, msg[1..], room - CharWidth(wide, msg[0]));
      assert msg == [msg[0]] + msg[1..];
    }
  }

  /** `chop_str`: the chopped message and its width. */
  method ChopStr(wide: set<char>, msg: string, chop: Option<int>) returns (width: nat, chopped: string)
    ensures chopped == Chopped(wide, msg, chop) && width == ExactWidth(wide, chopped)
  {
    if chop == None {
      return ExactWidth(wide, msg), msg;
    }
    width, chopped := 0, "";
    var k := 0;
    assert msg[0..] == msg;
    while k < |msg|
      invariant 0 <= k <= |msg| && width == ExactWidth(wide, chopped)
      invariant Chop(wide, msg, chop.value) == chopped + Chop(wide, msg[k..], chop.value - width)
    {
      assert msg[k..][1..] == msg[k + 1..];
      var charWidth := CharWidth(wide, msg[k]);
      if width + charWidth > chop.value {
        break;
      }
      WidthAppend(wide, chopped, [msg[k]]);
      assert ExactWidth(wide, [msg[k]]) == charWidth;
      chopped := chopped + [msg[k]];
      width := width + charWidth;
      k := k + 1;
    }
  }

  /**
   `fill_exact_width`: the chopped message between prefix and suffix, and spaces on one side;
   without prefix and suffix the result is exactly as wide as `fill`, or as the chopped message
   if that is wider.
   */
  method FillExactWidth(wide: set<char>, msg: string, fill: int, chop: Option<int>, left: bool,
                        prefix: string, suffix: string)
    returns (r: string)
    requires ' ' !in wide
    ensures var text := Chopped(wide, msg, chop);
      && ExactWidth(wide, r) == ExactWidth(wide, prefix) + ExactWidth(wide, suffix)
                                + (if fill > ExactWidth(wide, text) then fill else ExactWidth(wide, text))
      && var framed := prefix + text + suffix;
         if left then framed <= r && IsSpaces(r[|framed|..])
         else |framed| <= |r| && r[|r| - |framed|..] == framed && IsSpaces(r[..|r| - |framed|])
  {
    var width, text := ChopStr(wide, msg, chop);
    hide ExactWidth, Chopped;
    var framed := prefix + text + suffix;
    WidthAppend(wide, prefix, text);
    WidthAppend(wide, prefix + text, suffix);
    if width >= fill {
      r := if prefix != "" || suffix != "" then prefix + text + suffix else text;
      assert r == framed;
    } else if left {
      r := prefix + text + suffix + Spaces(fill - width);
      WidthAppend(wide, framed, Spaces(fill - width));
      WidthOfSpaces(wide, fill - width);
    } else {
      r := Spaces(fill - width) + prefix + text + suffix;
      assert r == Spaces(fill - width) + framed;
      WidthAppend(wide, Spaces(fill - width), framed);
      WidthOfSpaces(wide, fill - width);
    }
  }

  predicate IsSpaces(s: string) {
    forall k :: 0 <= k < |s| ==> s[k] == ' '
  }
}
