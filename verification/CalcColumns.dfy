/** Output.calcColumns as a whole: its promises in terms of the total width, and its loops. */
module CalcColumns {
  import opened Wrappers
  import opened TextWidth
  import opened Columns

  /** The default starting widths: 1 for every column but the last. */
  function DefaultStart(n: nat): (r: seq<nat>)
    requires n >= 1
    ensures |r| == n && r[n - 1] == 0 && forall d :: 0 <= d < n - 1 ==> r[d] == 1
  {
    seq(n, d => if d < n - 1 then 1 else 0)
  }

  /** The spaces to hand out: without the starting widths, the separators and the indent. */
  function Slack(start: seq<nat>, total: int, indent: nat): int
    requires start != []
  {
    total - (Sum(start) + (|start| - 1) + indent) + (if start[|start| - 1] == 0 then 1 else 0)
  }

  /** Widths for when the terminal width is not known: as wide as the longest items. */
  function FullColumns(start: seq<nat>, data: seq<Items>, indentLength: nat): (r: seq<nat>)
    requires |start| == |data|
    ensures |r| == |data|
    ensures forall d :: 0 <= d < |data| ==>
              r[d] == (if data[d] == [] then start[d] + 1 else data[d][|data[d]| - 1].0)
                      + (if d == 0 then indentLength * 2 else 0)
  {
    seq(|data|, d requires 0 <= d < |data| =>
      (if data[d] == [] then start[d] + 1 else data[d][|data[d]| - 1].0) + if d == 0 then indentLength * 2 else 0)
  }

  /** The total width that counts: where it is not known, the default width does. */
  function EffectiveTotal(total: int, term: int): int {
    if total == 0 then term else total
  }

  /** The terminal width is not known, and the full widths are wider than the default width. */
  predicate UsesFull(data: seq<Items>, start: seq<nat>, total: int, indent: string, term: int)
    requires |start| == |data|
  {
    total == 0 && Sum(FullColumns(start, data, |indent|)) > term
  }

  /** The spaces to hand out for the width that counts. */
  function SlackOf(start: seq<nat>, total: int, indent: string, wide: set<char>, term: int): int
    requires start != []
  {
    Slack(start, EffectiveTotal(total, term), ExactWidth(wide, indent))
  }

  /** `calcColumns`; None is a ZeroDivisionError, which only a single column can raise. */
  function Calc(data: seq<Items>, start: seq<nat>, rc: nat, total: int, indent: string, wide: set<char>, term: int)
    : Option<seq<nat>>
    requires |start| == |data| && rc < |data|
  {
    if UsesFull(data, start, total, indent, term) then Some(FullColumns(start, data, |indent|))
    else Allocate(start, data, SlackOf(start, total, indent, wide, term), rc)
  }

  // ----- Promises -----

  function Max(a: nat, b: nat): nat {
    if a > b then a else b
  }

  /** The longest item or the starting width, whichever is larger, of each column. */
  function Needs(data: seq<Items>, start: seq<nat>): (r: seq<nat>)
    requires |start| == |data|
    ensures |r| == |data|
    ensures forall d :: 0 <= d < |data| ==>
              r[d] == Max(if data[d] == [] then 0 else data[d][|data[d]| - 1].0, start[d])
  {
    seq(|data|, d requires 0 <= d < |data| =>
      Max(if data[d] == [] then 0 else data[d][|data[d]| - 1].0, start[d]))
  }

  lemma {:induction false} LackIsDifference(need: seq<nat>, columns: seq<nat>)
    requires |need| == |columns|
    ensures Lack(need, columns) == Sum(need) - Sum(columns)
  {
    if need != [] {
      LackIsDifference(need[1..], columns[1..]);
    }
  }

  lemma {:induction false} SumOfNats(s: seq<nat>)
    ensures Sum(s) >= 0
  {
    if s != [] {
      SumOfNats(s[1..]);
    }
  }

  predicate AllCounted(data: seq<Items>) {
    forall d :: 0 <= d < |data| ==> Counted(data[d])
  }

  /** No item overflows its column. */
  predicate AllFitIn(data: seq<Items>, columns: seq<nat>)
    requires |columns| == |data|
  {
    forall d :: 0 <= d < |data| ==> FitIn(data[d], columns[d])
  }

  /** A total width covers every column's need, the separators and the indent. */
  predicate Covered(data: seq<Items>, start: seq<nat>, total: int, indent: nat)
    requires |start| == |data|
  {
    total >= Sum(Needs(data, start)) + (|data| - 1) + indent
  }

  /** No item is shorter than its column's starting width. */
  predicate NoShorter(data: seq<Items>, start: seq<nat>)
    requires |start| == |data|
  {
    forall d, k :: 0 <= d < |data| && 0 <= k < |data[d]| ==> data[d][k].0 >= start[d]
  }

  lemma {:induction false} SumMonotone(a: seq<nat>, b: seq<nat>)
    requires |a| == |b| && forall d :: 0 <= d < |a| ==> a[d] <= b[d]
    ensures Sum(a) <= Sum(b)
  {
    if a != [] {
      SumMonotone(a[1..], b[1..]);
    }
  }

  lemma NeedsCover(data: seq<Items>, start: seq<nat>)
    requires |start| == |data| && AllAscending(data)
    ensures forall d :: 0 <= d < |data| ==> start[d] <= Needs(data, start)[d] && FitIn(data[d], Needs(data, start)[d])
  {
    forall d | 0 <= d < |data|
      ensures FitIn(data[d], Needs(data, start)[d])
    {
      assert Ascending(data[d]);
    }
  }

  /** A total width that covers every column's need, the separators and the indent is enough. */
  lemma NoOverflow(data: seq<Items>, start: seq<nat>, rc: nat, total: int, indent: string, wide: set<char>, term: int)
    requires |start| == |data| >= 2 && rc < |data| && AllAscending(data) && AllCounted(data)
    requires Lengthy(data[|data| - 1])
    requires Covered(data, start, EffectiveTotal(total, term), ExactWidth(wide, indent))
    ensures Calc(data, start, rc, total, indent, wide, term).Some?
    ensures AllFitIn(data, Calc(data, start, rc, total, indent, wide, term).value)
  {
    hide Sum, Lack, ExactWidth, Allocate;
    if !UsesFull(data, start, total, indent, term) {
      var need := Needs(data, start);
      LackIsDifference(need, start);
      SumOfNats(need);
      var left := SlackOf(start, total, indent, wide, term);
      NeedsCover(data, start);
      assert Room(need, start, data, left);
      AllocateFits(need, start, data, left, rc);
    }
  }

  /** Full widths fit all items. */
  lemma FullFits(data: seq<Items>, start: seq<nat>, indent: nat)
    requires |start| == |data| && AllAscending(data)
    ensures AllFitIn(data, FullColumns(start, data, indent))
  {
    forall d | 0 <= d < |data|
      ensures FitIn(data[d], FullColumns(start, data, indent)[d])
    {
      assert Ascending(data[d]);
    }
  }

  /** Starting widths that fit all items stay enough. */
  lemma StartsStay(data: seq<Items>, start: seq<nat>, rc: nat, total: int, indent: string, wide: set<char>, term: int)
    requires |start| == |data| >= 2 && rc < |data| && AllAscending(data) && AllCounted(data)
    requires Lengthy(data[|data| - 1]) && AllFitIn(data, start)
    ensures Calc(data, start, rc, total, indent, wide, term).Some?
    ensures AllFitIn(data, Calc(data, start, rc, total, indent, wide, term).value)
  {
    hide Sum, ExactWidth, Allocate;
    if UsesFull(data, start, total, indent, term) {
      FullFits(data, start, |indent|);
    } else if SlackOf(start, total, indent, wide, term) <= 0 {
      AllocateDone(start, data, SlackOf(start, total, indent, wide, term), rc);
    } else {
      forall d | 0 <= d < |data|
        ensures Needs(data, start)[d] == start[d]
      {
        assert FitIn(data[d], start[d]);
      }
      assert Needs(data, start) == start;
      NoOverflow(data, start, rc, total, indent, wide, term);
    }
  }

  /** Without enough space some item overflows. */
  lemma OverflowNeedsSpace(data: seq<Items>, start: seq<nat>, rc: nat, total: int, indent: string, wide: set<char>, term: int)
    requires |start| == |data| >= 2 && rc < |data| && NoShorter(data, start)
    requires !UsesFull(data, start, total, indent, term) && !AllFitIn(data, start)
    requires Calc(data, start, rc, total, indent, wide, term).Some?
    requires AllFitIn(data, Calc(data, start, rc, total, indent, wide, term).value)
    ensures Covered(data, start, EffectiveTotal(total, term) + (if start[|start| - 1] == 0 then 1 else 0),
                    ExactWidth(wide, indent))
  {
    hide Sum, ExactWidth, Allocate;
    var left := SlackOf(start, total, indent, wide, term);
    var w := Calc(data, start, rc, total, indent, wide, term).value;
    if left <= 0 {
      AllocateDone(start, data, left, rc);
    } else {
      forall d | 0 <= d < |data|
        ensures Needs(data, start)[d] <= w[d]
      {
        AllocateKeepsMinimum(start, data, left, rc, d, start[d]);
        assert FitIn(data[d], w[d]);
      }
      SumMonotone(Needs(data, start), w);
      WidthConserved(data, start, rc, total, indent, wide, term);
    }
  }

  /**
   When no item overflows: if the full widths are used, if the starting widths are enough, or if
   the width that counts covers all needs. For a last column that starts positive these are the
   only cases; for one that starts at 0 there can be one space less, and then both may happen.
   */
  lemma OverflowExactly(data: seq<Items>, start: seq<nat>, rc: nat, total: int, indent: string, wide: set<char>, term: int)
    requires |start| == |data| >= 2 && rc < |data| && AllAscending(data) && AllCounted(data)
    requires Lengthy(data[|data| - 1]) && NoShorter(data, start)
    ensures Calc(data, start, rc, total, indent, wide, term).Some?
    ensures var fits := AllFitIn(data, Calc(data, start, rc, total, indent, wide, term).value);
      var width, ew := EffectiveTotal(total, term), ExactWidth(wide, indent);
      var easy := UsesFull(data, start, total, indent, term) || AllFitIn(data, start);
      && (easy || Covered(data, start, width, ew) ==> fits)
      && (fits ==> easy || Covered(data, start, width + (if start[|start| - 1] == 0 then 1 else 0), ew))
  {
    hide Sum, ExactWidth, Allocate, AllFitIn, Covered, NoShorter;
    if UsesFull(data, start, total, indent, term) {
      FullFits(data, start, |indent|);
    } else if AllFitIn(data, start) {
      StartsStay(data, start, rc, total, indent, wide, term);
    } else {
      if Covered(data, start, EffectiveTotal(total, term), ExactWidth(wide, indent)) {
        NoOverflow(data, start, rc, total, indent, wide, term);
      }
      if AllFitIn(data, Calc(data, start, rc, total, indent, wide, term).value) {
        OverflowNeedsSpace(data, start, rc, total, indent, wide, term);
      }
    }
  }

  lemma LastTakesAll(x: nat, left: int, rc: nat)
    requires 3 <= left <= 4 && rc < 2
    ensures Allocate([1, 0], [[(x, 1)], [(3, 9)]], left, rc) == Some([1, 3])
  {
    var data: seq<Items> := [[(x, 1)], [(3, 9)]];
    var h := Helps(1, data[0], left);
    HelpsOne(1, (x, 1), left);
    HelpsOne(0, (3, 9), left);
    assert data[1][1..] == [];
    assert PickFrom([1, 0], data, left, 2, 9, 1) == (9, 1);
    assert PickFrom([1, 0], data, left, 1, h, 0) == (9, 1);
    assert PickFrom([1, 0], data, left, 1, 0, 0) == (9, 1);
    assert PickFrom([1, 0], data, left, 0, 0, 0) == (9, 1);
    assert [1, 0][1 := 3] == [1, 3] && data[1 := data[1][1..]] == [[(x, 1)], []];
    AllocateDone([1, 3], [[(x, 1)], []], left - 4, rc);
  }

  lemma HelpsOne(current: nat, item: (nat, nat), left: int)
    ensures Helps(current, [item], left) == if left < item.0 - current then 0 else item.1
  {
    assert [item][1..] == [];
  }

  /** With one space less than all needs, items of 1 and 3 fit, and items of 2 and 3 do not. */
  lemma OneSpaceLess()
    ensures Calc([[(1, 1)], [(3, 9)]], DefaultStart(2), 0, 4, "", {}, 80) == Some([1, 3])
    ensures Calc([[(2, 1)], [(3, 9)]], DefaultStart(2), 0, 5, "", {}, 80) == Some([1, 3])
    ensures Sum(Needs([[(1, 1)], [(3, 9)]], DefaultStart(2))) + 1 == 4 + 1
    ensures Sum(Needs([[(2, 1)], [(3, 9)]], DefaultStart(2))) + 1 == 5 + 1
  {
    hide Allocate;
    assert DefaultStart(2) == [1, 0];
    assert Needs([[(1, 1)], [(3, 9)]], [1, 0]) == [1, 3] && Needs([[(2, 1)], [(3, 9)]], [1, 0]) == [2, 3];
    SumOfTwo(1, 0);
    SumOfTwo(1, 3);
    SumOfTwo(2, 3);
    LastTakesAll(1, 3, 0);
    LastTakesAll(2, 4, 0);
  }

  lemma SumOfTwo(a: int, b: int)
    ensures Sum([a, b]) == a + b
  {
    assert [a, b][1..] == [b] && [b][1..] == [];
    assert Sum([b]) == b && Sum([a, b]) == a + Sum([b]);
  }

  /** Where the terminal width is not known, with the default starting widths and no empty items. */
  lemma NoOverflowInPipe(data: seq<Items>, rc: nat, indent: string, wide: set<char>, term: int)
    requires |data| >= 2 && rc < |data| && AllAscending(data) && AllCounted(data)
    requires forall d :: 0 <= d < |data| ==> Lengthy(data[d])
    ensures var start := DefaultStart(|data|);
      var ew := ExactWidth(wide, indent);
      && Calc(data, start, rc, 0, indent, wide, term).Some?
      && var fits := AllFitIn(data, Calc(data, start, rc, 0, indent, wide, term).value);
         var easy := Sum(FullColumns(start, data, |indent|)) > term || AllFitIn(data, start);
         && (easy || Covered(data, start, term, ew) ==> fits)
         && (fits ==> easy || Covered(data, start, term + 1, ew))
  {
    hide Sum, ExactWidth, AllFitIn, Covered, Calc;
    var start := DefaultStart(|data|);
    forall d, k | 0 <= d < |data| && 0 <= k < |data[d]|
      ensures data[d][k].0 >= start[d]
    {
      assert Lengthy(data[d]);
    }
    OverflowExactly(data, start, rc, 0, indent, wide, term);
  }

  /** Items of 27, 27 and 26 make up the default width of 80, so that no space is left to separate them. */
  lemma OverflowInPipe()
    ensures var data: seq<Items> := [[(27, 1)], [(27, 1)], [(26, 1)]];
      && Sum(FullColumns(DefaultStart(3), data, 0)) == 80
      && Calc(data, DefaultStart(3), 0, 0, "", {}, 80).Some?
      && !AllFitIn(data, Calc(data, DefaultStart(3), 0, 0, "", {}, 80).value)
  {
    hide Calc, AllFitIn, Needs;
    var data: seq<Items> := [[(27, 1)], [(27, 1)], [(26, 1)]];
    FullOfThree(27, 27, 26);
    SumOfThree(27, 27, 26);
    DoesNotFit(data, DefaultStart(3), 0);
    NoOverflowInPipe(data, 0, "", {}, 80);
  }

  lemma FullOfThree(a: nat, b: nat, c: nat)
    ensures FullColumns(DefaultStart(3), [[(a, 1)], [(b, 1)], [(c, 1)]], 0) == [a, b, c]
    ensures a > 1 && b > 1 ==> Needs([[(a, 1)], [(b, 1)], [(c, 1)]], DefaultStart(3)) == [a, b, c]
  {
  }

  lemma DoesNotFit(data: seq<Items>, columns: seq<nat>, d: nat)
    requires |columns| == |data| && d < |data| && data[d] != [] && data[d][0].0 > columns[d]
    ensures !AllFitIn(data, columns)
  {
  }

  lemma SumOfThree(a: int, b: int, c: int)
    ensures Sum([a, b, c]) == a + b + c
  {
    assert [a, b, c][1..] == [b, c] && [b, c][1..] == [c] && [c][1..] == [];
    assert Sum([c]) == c;
    assert Sum([b, c]) == b + Sum([c]);
    assert Sum([a, b, c]) == a + Sum([b, c]);
  }

  /**
   With spaces to hand out, the widths, separators and indent take at most the total width,
   or one more if the last column started at 0; and exactly the total width if the last
   column started positive and has no empty items.
   */
  lemma WidthConserved(data: seq<Items>, start: seq<nat>, rc: nat, total: int, indent: string, wide: set<char>, term: int)
    requires |start| == |data| >= 2 && rc < |data| && !UsesFull(data, start, total, indent, term)
    requires SlackOf(start, total, indent, wide, term) > 0
    ensures Calc(data, start, rc, total, indent, wide, term).Some?
    ensures var w := Calc(data, start, rc, total, indent, wide, term).value;
      var used := Sum(w) + (|data| - 1) + ExactWidth(wide, indent);
      var width, n := EffectiveTotal(total, term), |data| - 1;
      && used <= width + 1
      && (start[n] > 0 ==> used <= width)
      && (start[n] > 0 && Lengthy(data[n]) ==> used == width)
      && (start[n] == 0 && Lengthy(data[n]) ==> used >= width)
  {
    hide Sum, Allocate;
    AllocateConserves(start, data, SlackOf(start, total, indent, wide, term), rc);
  }

  /** An error is raised exactly for a single column with spaces to hand out that no item fills exactly. */
  lemma ZeroDivisionExactly(data: seq<Items>, start: seq<nat>, rc: nat, total: int, indent: string, wide: set<char>, term: int)
    requires |start| == |data| && rc < |data| && AllAscending(data) && AllCounted(data)
    ensures Calc(data, start, rc, total, indent, wide, term) == None <==>
            && |data| == 1
            && !UsesFull(data, start, total, indent, term)
            && SlackOf(start, total, indent, wide, term) > 0
            && !FillsExactly(start[0], data[0], EffectiveTotal(total, term) - ExactWidth(wide, indent))
  {
    hide Allocate, FillsExactly, ExactWidth;
    if |data| == 1 {
      var left := SlackOf(start, total, indent, wide, term);
      assert start == [start[0]] && data == [data[0]];
      assert Sum(start) == start[0] by { assert start[1..] == []; }
      assert Available(start[0], left) == EffectiveTotal(total, term) - ExactWidth(wide, indent);
      if left > 0 {
        AllocateOne(start[0], data[0], left);
      } else {
        AllocateDone(start, data, left, rc);
      }
    } else {
      NoErrorForTwo(start, data, SlackOf(start, total, indent, wide, term), rc);
    }
  }

  lemma NoErrorForTwo(start: seq<nat>, data: seq<Items>, left: int, rc: nat)
    requires |start| == |data| > 1 && rc < |data|
    ensures Allocate(start, data, left, rc).Some?
  {
  }

  /** An item of 3 in a single column raises the error, though 80 spaces are available. */
  lemma ZeroDivisionOnRoom()
    ensures Calc([[(3, 1)]], [0], 0, 80, "", {}, 80) == None
  {
    assert Sum([0]) == 0 by { assert [0][1..] == []; }
    ZeroDivisionExactly([[(3, 1)]], [0], 0, 80, "", {}, 80);
  }

  // ----- Minimum widths -----

  /**
   No column gets narrower than the smaller of its starting width and its shortest item; and
   without spaces to hand out each keeps its starting width.
   */
  lemma MinimumKept(data: seq<Items>, start: seq<nat>, rc: nat, total: int, indent: string, wide: set<char>, term: int,
                    d: nat, m: nat)
    requires |start| == |data| && rc < |data| && d < |data|
    requires m <= start[d] && forall k :: 0 <= k < |data[d]| ==> m <= data[d][k].0
    requires Calc(data, start, rc, total, indent, wide, term).Some?
    ensures Calc(data, start, rc, total, indent, wide, term).value[d] >= m
    ensures !UsesFull(data, start, total, indent, term) && SlackOf(start, total, indent, wide, term) <= 0 ==>
              Calc(data, start, rc, total, indent, wide, term).value == start
  {
    hide Allocate, Sum, ExactWidth;
    if !UsesFull(data, start, total, indent, term) {
      AllocateKeepsMinimum(start, data, SlackOf(start, total, indent, wide, term), rc, d, m);
      if SlackOf(start, total, indent, wide, term) <= 0 {
        AllocateDone(start, data, SlackOf(start, total, indent, wide, term), rc);
      }
    }
  }

  lemma {:induction false} HelpsAtMostTotal(current: nat, items: Items, left: int)
    ensures Helps(current, items, left) <= Total(items)
  {
    if items != [] {
      HelpsAtMostTotal(current, items[1..], left);
    }
  }

  /** A last column of width 1 whose only item takes up what a shorter item of the first column frees. */
  function Taker(items: Items, s: nat): Items
    requires items != [] && items[0].0 < s
  {
    [(2 + s - items[0].0, 2 * Total(items) + 1)]
  }

  lemma TakerFirst(items: Items, s: nat, rc: nat)
    requires items != [] && items[0].0 < s && items[0].1 >= 1 && rc < 2
    ensures Allocate([s, 1], [items, Taker(items, s)], 1, rc) ==
            Allocate([items[0].0, 1], [items[1..], Taker(items, s)], 1 + s - items[0].0, rc)
  {
    var taker := Taker(items, s);
    assert Helps(1, taker, 1) == 0;
    assert Helps(s, items, 1) >= 1;
    assert PickFrom([s, 1], [items, taker], 1, 2, Helps(s, items, 1), 0) == (Helps(s, items, 1), 0);
    assert PickFrom([s, 1], [items, taker], 1, 1, Helps(s, items, 1), 0) == (Helps(s, items, 1), 0);
    assert PickFrom([s, 1], [items, taker], 1, 0, 0, 0) == (Helps(s, items, 1), 0);
    assert [s, 1][0 := items[0].0] == [items[0].0, 1] && [items, taker][0 := items[1..]] == [items[1..], taker];
  }

  lemma TakerSecond(c: nat, rest: Items, a: nat, left: int, taker: Items, rc: nat)
    requires rc < 2 && left > 0 && taker == [(1 + left, a)] && a > 2 * Total(rest)
    ensures Allocate([c, 1], [rest, taker], left, rc) == Some([c, 1 + left])
  {
    HelpsAtMostTotal(c, rest, left);
    var h := Helps(c, rest, left);
    assert taker[1..] == [] && Helps(1, taker, left) == a;
    assert PickFrom([c, 1], [rest, taker], left, 2, a, 1) == (a, 1);
    assert PickFrom([c, 1], [rest, taker], left, 1, h, 0) == (a, 1);
    assert PickFrom([c, 1], [rest, taker], left, 1, 0, 0) == (a, 1);
    assert PickFrom([c, 1], [rest, taker], left, 0, 0, 0) == (a, 1);
    assert [c, 1][1 := 1 + left] == [c, 1 + left] && [rest, taker][1 := taker[1..]] == [rest, []];
    AllocateDone([c, 1 + left], [rest, []], 0, rc);
  }

  /**
   Every column with an item shorter than its starting width s can end narrower than that, and
   as narrow as its shortest item: beside a suitable last column it does.
   */
  lemma MinimumIsTight(items: Items, s: nat, rc: nat, term: int)
    requires items != [] && items[0].0 < s && items[0].1 >= 1 && rc < 2
    ensures Calc([items, Taker(items, s)], [s, 1], rc, s + 3, "", {}, term) ==
            Some([items[0].0, 2 + s - items[0].0])
  {
    hide Allocate;
    var taker := Taker(items, s);
    assert Sum([s, 1]) == s + 1 by { assert [s, 1][1..] == [1] && [1][1..] == []; }
    assert SlackOf([s, 1], s + 3, "", {}, term) == 1;
    TakerFirst(items, s, rc);
    TakerSecond(items[0].0, items[1..], 2 * Total(items) + 1, 1 + s - items[0].0, taker, rc);
  }

  /** So starting widths are no minimum widths: 5 and 5, with items of 1 and of 9, become 2 and 9. */
  lemma MinimumNotKept()
    ensures Calc([[(1, 1)], [(9, 1)]], [5, 5], 0, 12, "", {}, 80) == Some([2, 9])
  {
    var data: seq<Items> := [[(1, 1)], [(9, 1)]];
    var start: seq<nat> := [5, 5];
    assert Sum(start) == 10 by { assert start[1..] == [5] && start[1..][1..] == []; }
    assert SlackOf(start, 12, "", {}, 80) == 1;
    FirstStep(data);
    SecondStep();
  }

  lemma FirstStep(data: seq<Items>)
    requires data == [[(1, 1)], [(9, 1)]]
    ensures Allocate([5, 5], data, 1, 0) == Allocate([1, 5], [[], [(9, 1)]], 5, 0)
  {
    assert Helps(5, [(1, 1)], 1) == 1 by { assert [(1, 1)][1..] == []; }
    assert Helps(5, [(9, 1)], 1) == 0;
    assert PickFrom([5, 5], data, 1, 2, 1, 0) == (1, 0);
    assert PickFrom([5, 5], data, 1, 1, 1, 0) == (1, 0);
    assert PickFrom([5, 5], data, 1, 0, 0, 0) == (1, 0);
    assert Pick([5, 5], data, 1) == Some(0);
    assert [5, 5][0 := 1] == [1, 5] && data[0 := data[0][1..]] == [[], [(9, 1)]];
  }

  lemma SecondStep()
    ensures Allocate([1, 5], [[], [(9, 1)]], 5, 0) == Some([2, 9])
  {
    var data: seq<Items> := [[], [(9, 1)]];
    assert Helps(5, [(9, 1)], 5) == 1 by { assert [(9, 1)][1..] == []; }
    assert PickFrom([1, 5], data, 5, 2, 1, 1) == (1, 1);
    assert PickFrom([1, 5], data, 5, 1, 0, 0) == (1, 1);
    assert PickFrom([1, 5], data, 5, 0, 0, 0) == (1, 1);
    assert Pick([1, 5], data, 5) == Some(1);
    assert [1, 5][1 := 9] == [1, 9] && data[1 := data[1][1..]] == [[], []];
    ThirdStep();
  }

  lemma ThirdStep()
    ensures Allocate([1, 9], [[], []], 1, 0) == Some([2, 9])
  {
    var data: seq<Items> := [[], []];
    assert PickFrom([1, 9], data, 1, 2, 0, 0) == (0, 0);
    assert PickFrom([1, 9], data, 1, 1, 0, 0) == (0, 0);
    assert Pick([1, 9], data, 1) == None;
    assert data[1..][1..] == [] && CountOverflowed(data) == 0;
    assert Widened([1, 9], data, 0) == [1, 9];
    assert Quotient(1, 1) == 1 && Undivided(1, 1) == 0;
    assert Spread([1, 9], 1, 0, 0) == [2, 9];
  }

  // ----- The loops -----

  /** The innermost loop of `_calc_columns_spaces_helps`. */
  method SpacesHelps(current: nat, items: Items, left: int) returns (ret: nat)
    ensures ret == Helps(current, items, left)
    ensures Ascending(items) ==> ret == Total(UpTo(items, current + left))
  {
    ret := 0;
    var k := 0;
    if Ascending(items) { HelpsCounts(current, items, left); }
    hide UpTo, Total;
    assert items[0..] == items;
    while k < |items|
      invariant 0 <= k <= |items|
      invariant Helps(current, items, left) == ret + Helps(current, items[k..], left)
    {
      assert items[k..][1..] == items[k + 1..];
      if left < items[k].0 - current {
        return;
      }
      ret := ret + items[k].1;
      k := k + 1;
    }
  }

  /** The search for the column to expand. */
  method FindColumn(columns: seq<nat>, data: seq<Items>, left: int) returns (helps: nat, val: nat)
    requires |columns| == |data|
    ensures (helps, val) == PickFrom(columns, data, left, 0, 0, 0)
  {
    helps, val := 0, 0;
    var d := 0;
    while d < |data|
      invariant 0 <= d <= |data|
      invariant PickFrom(columns, data, left, 0, 0, 0) == PickFrom(columns, data, left, d, helps, val)
    {
      var thelps := SpacesHelps(columns[d], data[d], left);
      if thelps == 0
         || (helps > 0 && d == |data| - 1 && thelps < 2 * helps)
         || thelps < helps {
      } else {
        helps, val := thelps, d;
      }
      d := d + 1;
    }
  }

  method CountOverflowedColumns(data: seq<Items>) returns (n: nat)
    ensures n == CountOverflowed(data)
  {
    n := 0;
    var d := 0;
    assert data[0..] == data;
    while d < |data|
      invariant 0 <= d <= |data|
      invariant CountOverflowed(data) == n + CountOverflowed(data[d..])
    {
      assert data[d..][1..] == data[d + 1..];
      if data[d] != [] {
        n := n + 1;
      }
      d := d + 1;
    }
  }

  /** The code after the search found no column; None is the ZeroDivisionError. */
  method DistributeRest(start: seq<nat>, data: seq<Items>, left: nat, rc: nat) returns (r: Option<seq<nat>>)
    requires |start| == |data| && rc < |start|
    ensures r == Distribute(start, data, left, rc)
  {
    var columns, total := start, left;
    var overflowed := CountOverflowedColumns(data);
    if overflowed > 0 {
      var norm := Quotient(total, overflowed);
      columns := Widened(columns, data, norm);
      total := Undivided(total, overflowed);
    } else {
      assert Widened(columns, data, 0) == columns;
    }
    var cols := |start| - 1;
    if cols == 0 {
      return None;
    }
    var norm := Quotient(total, cols);
    var d := 0;
    ghost var before := columns;
    while d < cols
      invariant 0 <= d <= cols && |columns| == |before|
      invariant forall e :: 0 <= e < |before| ==> columns[e] == before[e] + (if e < d then norm else 0)
    {
      columns := columns[d := columns[d] + norm];
      d := d + 1;
    }
    columns := columns[rc := columns[rc] + Undivided(total, cols)];
    assert columns == Spread(before, norm, rc, Undivided(total, cols));
    return Some(columns);
  }

  /** One turn of the loop. */
  lemma AllocateStep(columns: seq<nat>, data: seq<Items>, left: int, rc: nat, helps: nat, val: nat)
    requires |columns| == |data| && rc < |columns| && left > 0
    requires (helps, val) == PickFrom(columns, data, left, 0, 0, 0)
    ensures helps == 0 ==> Allocate(columns, data, left, rc) == Distribute(columns, data, left, rc)
    ensures helps > 0 ==>
              && val < |data| && data[val] != []
              && Items0(data[val := data[val][1..]]) < Items0(data)
              && Allocate(columns, data, left, rc) ==
                 Allocate(columns[val := data[val][0].0], data[val := data[val][1..]],
                          LeftAfter(columns, data, left, val), rc)
  {
    PickMeaning(columns, data, left);
    if helps > 0 {
      HelpsNeedsItem(columns[val], data[val], left);
      PopShrinks(data, val);
    }
  }

  /** `calcColumns`; `starts` is its `columns` argument. */
  method CalcColumnsLoop(pdata: seq<Items>, starts: Option<seq<nat>>, rc: nat, totalWidth: int,
                         indent: string, wide: set<char>, term: int)
    returns (r: Option<seq<nat>>)
    requires |pdata| >= 1 && rc < |pdata| && (starts.Some? ==> |starts.value| == |pdata|)
    ensures r == Calc(pdata, if starts.Some? then starts.value else DefaultStart(|pdata|), rc, totalWidth,
                      indent, wide, term)
  {
    hide Sum, ExactWidth, Allocate, Distribute, Helps, PickFrom, Pick, BestOfFirst, FullColumns;
    var columns := if starts.Some? then starts.value else DefaultStart(|pdata|);
    var data := pdata;
    var total := totalWidth;
    if total == 0 {
      var full := FullColumns(columns, data, |indent|);
      if Sum(full) > term {
        return Some(full);
      }
      total := term;
    }
    total := total - (Sum(columns) + (|columns| - 1) + ExactWidth(wide, indent));
    if columns[|columns| - 1] == 0 {
      total := total + 1;
    }
    while total > 0
      invariant |columns| == |data| == |pdata|
      invariant Calc(pdata, if starts.Some? then starts.value else DefaultStart(|pdata|), rc, totalWidth,
                     indent, wide, term)
                == Allocate(columns, data, total, rc)
      decreases Items0(data)
    {
      var helps, val := FindColumn(columns, data, total);
      AllocateStep(columns, data, total, rc, helps, val);
      if helps > 0 {
        var next := data[val][0].0;
        var left := LeftAfter(columns, data, total, val);
        data := data[val := data[val][1..]];
        columns := columns[val := next];
        total := left;
      } else {
        r := DistributeRest(columns, data, total, rc);
        return;
      }
    }
    AllocateDone(columns, data, total, rc);
    return Some(columns);
  }
}
