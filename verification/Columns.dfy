/** The greedy allocation of column widths in Output.calcColumns (dnf/cli/output.py). */
module Columns {
  import opened Wrappers
  import opened TextWidth

  /** A column's dictionary of item lengths to item counts, as its sorted list of pairs. */
  type Items = seq<(nat, nat)>

  predicate Ascending(items: Items) {
    forall i, j :: 0 <= i < j < |items| ==> items[i].0 < items[j].0
  }

  predicate AllAscending(data: seq<Items>) {
    forall d :: 0 <= d < |data| ==> Ascending(data[d])
  }

  function Sum(s: seq<int>): int {
    if s == [] then 0 else s[0] + Sum(s[1..])
  }

  /** `_calc_columns_spaces_helps`: how many items would fit with `left` more spaces. */
  function Helps(current: nat, items: Items, left: int): nat {
    if items == [] || left < items[0].0 - current then 0
    else items[0].1 + Helps(current, items[1..], left)
  }

  /** The items of at most the given length. */
  function UpTo(items: Items, length: int): Items {
    if items == [] then []
    else (if items[0].0 <= length then [items[0]] else []) + UpTo(items[1..], length)
  }

  /** How many items there are, of all listed lengths together. */
  function Total(items: Items): nat {
    if items == [] then 0 else items[0].1 + Total(items[1..])
  }

  lemma {:induction false} UpToMember(items: Items, length: int, item: (nat, nat))
    ensures item in UpTo(items, length) <==> item in items && item.0 <= length
  {
    if items != [] {
      UpToMember(items[1..], length, item);
      assert items == [items[0]] + items[1..];
    }
  }

  lemma {:induction false} UpToLonger(items: Items, length: int)
    requires forall k :: 0 <= k < |items| ==> items[k].0 > length
    ensures UpTo(items, length) == []
  {
    if items != [] {
      UpToLonger(items[1..], length);
    }
  }

  /** The spaces help exactly the items that are not longer than the column would be with all of them. */
  lemma {:induction false} HelpsCounts(current: nat, items: Items, left: int)
    requires Ascending(items)
    ensures Helps(current, items, left) == Total(UpTo(items, current + left))
  {
    if items != [] {
      if items[0].0 > current + left {
        UpToLonger(items, current + left);
      } else {
        HelpsCounts(current, items[1..], left);
        var rest := UpTo(items[1..], current + left);
        assert ([items[0]] + rest)[1..] == rest;
      }
    }
  }

  /** The search for the column that the spaces help most, from column d on. */
  function PickFrom(columns: seq<nat>, data: seq<Items>, left: int, d: nat, helps: nat, val: nat): (r: (nat, nat))
    requires |columns| == |data| && d <= |data|
    ensures (helps > 0 ==> val < d) && r.0 > 0 ==> r.1 < |data|
    decreases |data| - d
  {
    if d == |data| then (helps, val)
    else
      var thelps := Helps(columns[d], data[d], left);
      if thelps == 0 || (helps > 0 && d == |data| - 1 && thelps < 2 * helps) || thelps < helps
      then PickFrom(columns, data, left, d + 1, helps, val)
      else PickFrom(columns, data, left, d + 1, thelps, d)
  }

  /** The column to expand; None when no column can use the spaces for a whole item. */
  function Pick(columns: seq<nat>, data: seq<Items>, left: int): (r: Option<nat>)
    requires |columns| == |data|
    ensures r.Some? ==> r.value < |data|
  {
    var (helps, val) := PickFrom(columns, data, left, 0, 0, 0);
    if helps == 0 then None else Some(val)
  }

  /** What the search has found among the first d columns. */
  ghost predicate BestOfFirst(columns: seq<nat>, data: seq<Items>, left: int, d: nat, helps: nat, val: nat)
    requires |columns| == |data| && d <= |data|
  {
    && (helps == 0 ==> forall e :: 0 <= e < d ==> Helps(columns[e], data[e], left) == 0)
    && (helps > 0 ==>
          && val < d
          && helps == Helps(columns[val], data[val], left)
          && (forall e :: 0 <= e < d && (e < |data| - 1 || val == |data| - 1) ==>
                Helps(columns[e], data[e], left) <= helps)
          && (forall e :: val < e < d && e < |data| - 1 ==> Helps(columns[e], data[e], left) < helps)
          && (val == |data| - 1 ==> forall e :: 0 <= e < |data| - 1 ==> 2 * Helps(columns[e], data[e], left) <= helps)
          && (val != |data| - 1 && d == |data| ==>
                Helps(columns[|data| - 1], data[|data| - 1], left) < 2 * helps))
  }

  lemma {:induction false} PickFromBest(columns: seq<nat>, data: seq<Items>, left: int, d: nat, helps: nat, val: nat)
    requires |columns| == |data| && d <= |data|
    requires BestOfFirst(columns, data, left, d, helps, val)
    ensures var r := PickFrom(columns, data, left, d, helps, val);
      BestOfFirst(columns, data, left, |data|, r.0, r.1)
    decreases |data| - d
  {
    if d < |data| {
      var thelps := Helps(columns[d], data[d], left);
      if thelps == 0 || (helps > 0 && d == |data| - 1 && thelps < 2 * helps) || thelps < helps {
        PickFromBest(columns, data, left, d + 1, helps, val);
      } else {
        PickFromBest(columns, data, left, d + 1, thelps, d);
      }
    }
  }

  /**
   The last column is picked only if it helps at least twice as many items as every other;
   otherwise the one that helps most is, and among equals the one furthest to the right.
   */
  lemma PickMeaning(columns: seq<nat>, data: seq<Items>, left: int)
    requires |columns| == |data|
    ensures Pick(columns, data, left) == None <==>
            forall e :: 0 <= e < |data| ==> Helps(columns[e], data[e], left) == 0
    ensures Pick(columns, data, left).Some? ==>
              var val := Pick(columns, data, left).value;
              BestOfFirst(columns, data, left, |data|, Helps(columns[val], data[val], left), val)
              && Helps(columns[val], data[val], left) > 0
  {
    PickFromBest(columns, data, left, 0, 0, 0);
  }

  /** How many items of column d fit with `left` more spaces. */
  function Fitting(columns: seq<nat>, data: seq<Items>, left: int, d: nat): nat
    requires |columns| == |data| && d < |data|
  {
    Total(UpTo(data[d], columns[d] + left))
  }

  /** The same in numbers of items that fit, which decide the pick. */
  lemma PickInNumbers(columns: seq<nat>, data: seq<Items>, left: int)
    requires |columns| == |data| && AllAscending(data)
    ensures Pick(columns, data, left) == None <==>
            forall e :: 0 <= e < |data| ==> Fitting(columns, data, left, e) == 0
    ensures Pick(columns, data, left).Some? ==>
              var val, last := Pick(columns, data, left).value, |data| - 1;
              && Fitting(columns, data, left, val) > 0
              && (val < last ==>
                    && (forall e :: 0 <= e < last ==> Fitting(columns, data, left, e) <= Fitting(columns, data, left, val))
                    && (forall e :: val < e < last ==> Fitting(columns, data, left, e) < Fitting(columns, data, left, val))
                    && Fitting(columns, data, left, last) < 2 * Fitting(columns, data, left, val))
              && (val == last ==>
                    forall e :: 0 <= e < last ==>
                      2 * Fitting(columns, data, left, e) <= Fitting(columns, data, left, last))
  {
    hide Helps, Pick, Total, UpTo;
    PickMeaning(columns, data, left);
    forall e | 0 <= e < |data|
      ensures Fitting(columns, data, left, e) == Helps(columns[e], data[e], left)
    {
      HelpsCounts(columns[e], data[e], left);
    }
  }

  lemma HelpsNeedsItem(current: nat, items: Items, left: int)
    ensures Helps(current, items, left) > 0 ==> items != [] && left >= items[0].0 - current
  {
  }

  // ----- Distribution of what is left -----

  function CountOverflowed(data: seq<Items>): nat {
    if data == [] then 0 else (if data[0] == [] then 0 else 1) + CountOverflowed(data[1..])
  }

  /** Each column with items left gets `norm` more. */
  function Widened(columns: seq<nat>, data: seq<Items>, norm: nat): (r: seq<nat>)
    requires |columns| == |data|
    ensures |r| == |columns|
    ensures forall d :: 0 <= d < |columns| ==> r[d] == columns[d] + (if data[d] == [] then 0 else norm)
  {
    seq(|columns|, d requires 0 <= d < |columns| => columns[d] + if data[d] == [] then 0 else norm)
  }

  /** Each column but the last gets `norm` more, and column `rc` also gets `rest`. */
  function Spread(columns: seq<nat>, norm: nat, rc: nat, rest: nat): (r: seq<nat>)
    requires rc < |columns|
    ensures |r| == |columns|
    ensures forall d :: 0 <= d < |columns| ==>
              r[d] == columns[d] + (if d < |columns| - 1 then norm else 0) + (if d == rc then rest else 0)
  {
    seq(|columns|, d requires 0 <= d < |columns| =>
      columns[d] + (if d < |columns| - 1 then norm else 0) + if d == rc then rest else 0)
  }

  /** The end of the loop of calcColumns; None is the ZeroDivisionError of a single column. */
  function Distribute(columns: seq<nat>, data: seq<Items>, left: nat, rc: nat): (r: Option<seq<nat>>)
    requires |columns| == |data| && rc < |columns|
    ensures r == None <==> |columns| == 1
    ensures r.Some? ==> |r.value| == |columns|
  {
    var over := CountOverflowed(data);
    var norm := if over == 0 then 0 else Quotient(left, over);
    var rest := if over == 0 then left else Undivided(left, over);
    var others := |columns| - 1;
    if others == 0 then None
    else Some(Spread(Widened(columns, data, norm), Quotient(rest, others), rc, Undivided(rest, others)))
  }

  lemma {:induction false} OverflowedAreOthers(data: seq<Items>)
    ensures CountOverflowed(data) == |data| - multiset(data)[[]]
  {
    if data != [] {
      assert data == [data[0]] + data[1..];
      OverflowedAreOthers(data[1..]);
    }
  }

  /**
   The distribution gives each column with items left an equal share, then each column but the
   last an equal share of the rest, and column `rc` what remains of that.
   */
  lemma DistributeMeaning(columns: seq<nat>, data: seq<Items>, left: nat, rc: nat)
    requires |columns| == |data| >= 2 && rc < |columns|
    ensures Distribute(columns, data, left, rc).Some?
    ensures var r, over, others := Distribute(columns, data, left, rc).value, |data| - multiset(data)[[]], |columns| - 1;
      var share, rest := if over > 0 then left / over else 0, if over > 0 then left % over else left;
      forall d :: 0 <= d < |columns| ==>
        r[d] == columns[d] + (if data[d] != [] then share else 0)
                + (if d < others then rest / others else 0) + (if d == rc then rest % others else 0)
  {
    hide CountOverflowed;
    OverflowedAreOthers(data);
    var over := CountOverflowed(data);
    var rest := if over == 0 then left else Undivided(left, over);
    if over > 0 { RemainderIs(left, over); }
    RemainderIs(rest, |columns| - 1);
    hide Undivided, Quotient, Times;
    assert (if over > 0 then left % over else left) == rest;
  }

  lemma RemainderIs(a: nat, b: nat)
    requires b > 0
    ensures Undivided(a, b) == a % b && Quotient(a, b) == a / b
  {
  }

  /** What is left of a after giving a / b to each of b columns. */
  function Undivided(a: nat, b: nat): (r: nat)
    requires b > 0
    ensures r + Times(b, Quotient(a, b)) == a && r < b
  {
    a - b * Quotient(a, b)
  }

  function Quotient(a: nat, b: nat): (q: nat)
    requires b > 0
  {
    a / b
  }

  function Times(k: nat, n: nat): nat {
    k * n
  }

  function Items0(data: seq<Items>): nat {
    if data == [] then 0 else |data[0]| + Items0(data[1..])
  }

  lemma {:induction false} PopShrinks(data: seq<Items>, val: nat)
    requires val < |data| && data[val] != []
    ensures Items0(data[val := data[val][1..]]) == Items0(data) - 1
  {
    if val == 0 {
      assert data[0 := data[0][1..]][1..] == data[1..];
    } else {
      assert data[val := data[val][1..]][1..] == data[1..][val - 1 := data[1..][val - 1][1..]];
      PopShrinks(data[1..], val - 1);
    }
  }

  /** The spaces left after column val grew to its next item; the last column also pays its separator. */
  function LeftAfter(columns: seq<nat>, data: seq<Items>, left: int, val: nat): int
    requires |columns| == |data| && val < |data| && data[val] != []
  {
    var diff: int := data[val][0].0 as int - columns[val];
    left - (if columns[val] == 0 && val == |data| - 1 then 1 else 0) - diff
  }

  /** The `while total_width > 0` loop; None is a ZeroDivisionError. */
  function Allocate(columns: seq<nat>, data: seq<Items>, left: int, rc: nat): (r: Option<seq<nat>>)
    requires |columns| == |data| && rc < |columns|
    ensures r.Some? ==> |r.value| == |columns|
    ensures |columns| >= 2 ==> r.Some?
    decreases Items0(data)
  {
    if left <= 0 then Some(columns)
    else
      match Pick(columns, data, left)
      case None => Distribute(columns, data, left, rc)
      case Some(val) =>
        PickMeaning(columns, data, left);
        HelpsNeedsItem(columns[val], data[val], left);
        PopShrinks(data, val);
        Allocate(columns[val := data[val][0].0], data[val := data[val][1..]], LeftAfter(columns, data, left, val), rc)
  }

  // ----- Conservation -----

  lemma {:induction false} SumUpdate(s: seq<int>, d: nat, x: int)
    requires d < |s|
    ensures Sum(s[d := x]) == Sum(s) - s[d] + x
  {
    if d == 0 {
      assert s[0 := x][1..] == s[1..];
    } else {
      assert s[d := x][1..] == s[1..][d - 1 := x];
      SumUpdate(s[1..], d - 1, x);
    }
  }

  lemma TimesStep(c: nat, norm: nat)
    ensures Times(0, norm) == 0 && Times(1 + c, norm) == norm + Times(c, norm)
  {
  }

  lemma {:induction false} SumWidened(columns: seq<nat>, data: seq<Items>, norm: nat)
    requires |columns| == |data|
    ensures Sum(Widened(columns, data, norm)) == Sum(columns) + Times(CountOverflowed(data), norm)
  {
    TimesStep(if data == [] then 0 else CountOverflowed(data[1..]), norm);
    hide Times;
    if columns != [] {
      SumWidened(columns[1..], data[1..], norm);
      assert Widened(columns, data, norm)[1..] == Widened(columns[1..], data[1..], norm);
    }
  }

  lemma {:induction false} SumPlusNorm(columns: seq<nat>, norm: nat, wide: seq<nat>)
    requires |columns| == |wide| >= 1
    requires forall d :: 0 <= d < |columns| ==> wide[d] == columns[d] + (if d < |columns| - 1 then norm else 0)
    ensures Sum(wide) == Sum(columns) + Times(|columns| - 1, norm)
  {
    if |columns| > 1 {
      SumPlusNorm(columns[1..], norm, wide[1..]);
      assert (|columns| - 1) * norm == norm + (|columns[1..]| - 1) * norm;
    } else {
      assert wide == columns;
    }
  }

  /** All columns but the last, with `norm` more. */
  function Even(columns: seq<nat>, norm: nat): (r: seq<nat>)
    ensures |r| == |columns|
    ensures forall d :: 0 <= d < |columns| ==> r[d] == columns[d] + (if d < |columns| - 1 then norm else 0)
  {
    seq(|columns|, d requires 0 <= d < |columns| => columns[d] + if d < |columns| - 1 then norm else 0)
  }

  lemma SpreadIsEven(columns: seq<nat>, norm: nat, rc: nat, rest: nat)
    requires rc < |columns|
    ensures Spread(columns, norm, rc, rest) == Even(columns, norm)[rc := Even(columns, norm)[rc] + rest]
  {
  }

  lemma {:induction false} SumEven(columns: seq<nat>, norm: nat)
    requires columns != []
    ensures Sum(Even(columns, norm)) == Sum(columns) + Times(|columns| - 1, norm)
  {
    SumPlusNorm(columns, norm, Even(columns, norm));
  }

  lemma {:induction false} SumSpread(columns: seq<nat>, norm: nat, rc: nat, rest: nat)
    requires rc < |columns|
    ensures Sum(Spread(columns, norm, rc, rest)) == Sum(columns) + Times(|columns| - 1, norm) + rest
  {
    hide *;
    SumEven(columns, norm);
    SpreadIsEven(columns, norm, rc, rest);
    SumUpdate(Even(columns, norm), rc, Even(columns, norm)[rc] + rest);
  }

  /** The distribution uses up exactly the spaces that were left. */
  lemma {:induction false} DistributeConserves(columns: seq<nat>, data: seq<Items>, left: nat, rc: nat)
    requires |columns| == |data| && rc < |columns|
    ensures var r := Distribute(columns, data, left, rc); r.Some? ==> Sum(r.value) == Sum(columns) + left
  {
    assert Times(0, 0) == 0;
    hide Sum, Widened, Spread, CountOverflowed, Undivided, Times, Quotient;
    if |columns| > 1 {
      var over := CountOverflowed(data);
      var norm := if over == 0 then 0 else Quotient(left, over);
      var rest := if over == 0 then left else Undivided(left, over);
      var others := |columns| - 1;
      SumWidened(columns, data, norm);
      SumSpread(Widened(columns, data, norm), Quotient(rest, others), rc, Undivided(rest, others));
    }
  }

  /** The distribution shrinks no column. */
  lemma DistributeGrows(columns: seq<nat>, data: seq<Items>, left: nat, rc: nat)
    requires |columns| == |data| && rc < |columns|
    ensures var r := Distribute(columns, data, left, rc);
      r.Some? ==> forall d :: 0 <= d < |columns| ==> r.value[d] >= columns[d]
  {
    hide CountOverflowed, Widened, Spread, Undivided, Quotient, Times;
    if |columns| > 1 {
      var over := CountOverflowed(data);
      var norm := if over == 0 then 0 else Quotient(left, over);
      var rest := if over == 0 then left else Undivided(left, over);
      SpreadGrows(Widened(columns, data, norm), Quotient(rest, |columns| - 1), rc, Undivided(rest, |columns| - 1));
    }
  }

  lemma SpreadGrows(columns: seq<nat>, norm: nat, rc: nat, rest: nat)
    requires rc < |columns|
    ensures forall d :: 0 <= d < |columns| ==> Spread(columns, norm, rc, rest)[d] >= columns[d]
  {
  }

  /** Every item of the column is at least one character long. */
  predicate Lengthy(items: Items) {
    forall k :: 0 <= k < |items| ==> items[k].0 >= 1
  }

  /**
   Conservation: the widths use at most the spaces there were. They use exactly those when
   the last column started positive and has no empty items, and at most one less when it
   started at 0, for its separator.
   */
  lemma {:induction false} AllocateConserves(columns: seq<nat>, data: seq<Items>, left: int, rc: nat)
    requires |columns| == |data| && rc < |columns|
    requires left > 0 && Allocate(columns, data, left, rc).Some?
    ensures var w := Allocate(columns, data, left, rc).value;
      && Sum(w) <= Sum(columns) + left
      && (Lengthy(data[|data| - 1]) && columns[|data| - 1] > 0 ==> Sum(w) == Sum(columns) + left)
      && (Lengthy(data[|data| - 1]) && columns[|data| - 1] == 0 ==> Sum(w) >= Sum(columns) + left - 1)
    decreases Items0(data)
  {
    PickMeaning(columns, data, left);
    match Pick(columns, data, left)
    case None => DistributeConserves(columns, data, left, rc);
    case Some(val) =>
      HelpsNeedsItem(columns[val], data[val], left);
      PopShrinks(data, val);
      var columns', data' := columns[val := data[val][0].0], data[val := data[val][1..]];
      SumUpdate(columns, val, data[val][0].0);
      var left' := LeftAfter(columns, data, left, val);
      assert left' >= -1 && Sum(columns') + left' <= Sum(columns) + left;
      if left' > 0 {
        AllocateConserves(columns', data', left', rc);
      }
  }

  // ----- No overflow -----

  /** The items fit in the width. */
  predicate FitIn(items: Items, width: int) {
    forall k :: 0 <= k < |items| ==> items[k].0 <= width
  }

  /** There is at least one item of every listed length. */
  predicate Counted(items: Items) {
    forall k :: 0 <= k < |items| ==> items[k].1 >= 1
  }

  /** The spaces that the columns still lack to reach the widths in `need`. */
  function Lack(need: seq<nat>, columns: seq<nat>): int
    requires |need| == |columns|
  {
    if need == [] then 0 else need[0] - columns[0] + Lack(need[1..], columns[1..])
  }

  lemma {:induction false} LackUpdate(need: seq<nat>, columns: seq<nat>, d: nat, x: nat)
    requires |need| == |columns| && d < |columns|
    ensures Lack(need, columns[d := x]) == Lack(need, columns) + columns[d] - x
  {
    if d == 0 {
      assert columns[0 := x][1..] == columns[1..];
    } else {
      assert columns[d := x][1..] == columns[1..][d - 1 := x];
      LackUpdate(need[1..], columns[1..], d - 1, x);
    }
  }

  /** No column lacks more than all columns together, if none is wider than it needs to be. */
  lemma {:induction false} LackOfOne(need: seq<nat>, columns: seq<nat>, d: nat)
    requires |need| == |columns| && d < |columns|
    requires forall e :: 0 <= e < |need| ==> columns[e] <= need[e]
    ensures 0 <= need[d] - columns[d] <= Lack(need, columns)
  {
    LackNonNegative(need[1..], columns[1..]);
    if d > 0 {
      LackOfOne(need[1..], columns[1..], d - 1);
    }
  }

  lemma {:induction false} LackNonNegative(need: seq<nat>, columns: seq<nat>)
    requires |need| == |columns| && forall e :: 0 <= e < |need| ==> columns[e] <= need[e]
    ensures Lack(need, columns) >= 0
  {
    if need != [] {
      LackNonNegative(need[1..], columns[1..]);
    }
  }

  /** What the last column still has to pay for its separator. */
  function Separator(columns: seq<nat>): nat {
    if columns != [] && columns[|columns| - 1] == 0 then 1 else 0
  }

  /** The widths in `need` are enough for all items, and there are spaces to reach them. */
  ghost predicate Room(need: seq<nat>, columns: seq<nat>, data: seq<Items>, left: int) {
    && |need| == |columns| == |data|
    && (forall d :: 0 <= d < |data| ==>
          columns[d] <= need[d] && FitIn(data[d], need[d]) && Ascending(data[d]) && Counted(data[d]))
    && (data != [] ==> Lengthy(data[|data| - 1]))
    && left >= Lack(need, columns) + Separator(columns)
  }

  /** With room and spaces left, every column with items left can be helped. */
  lemma RoomHelps(need: seq<nat>, columns: seq<nat>, data: seq<Items>, left: int, d: nat)
    requires Room(need, columns, data, left) && d < |data| && data[d] != []
    ensures Helps(columns[d], data[d], left) > 0
  {
    LackOfOne(need, columns, d);
    assert data[d][0].0 <= need[d] && data[d][0].1 >= 1;
  }

  lemma PoppedItems(items: Items, width: nat)
    requires items != [] && FitIn(items, width) && Ascending(items) && Counted(items)
    ensures items[0].0 <= width
    ensures FitIn(items[1..], width) && Ascending(items[1..]) && Counted(items[1..])
    ensures Lengthy(items) ==> Lengthy(items[1..])
  {
    assert forall k :: 0 <= k < |items[1..]| ==> items[1..][k] == items[k + 1];
  }

  lemma RoomAfterPop(need: seq<nat>, columns: seq<nat>, data: seq<Items>, left: int, val: nat)
    requires Room(need, columns, data, left) && val < |data| && data[val] != []
    ensures Room(need, columns[val := data[val][0].0], data[val := data[val][1..]], LeftAfter(columns, data, left, val))
  {
    LackUpdate(need, columns, val, data[val][0].0);
    PoppedItems(data[val], need[val]);
    assert val == |data| - 1 ==> data[val][0].0 >= 1;
    hide Lack, FitIn, Ascending, Counted, Lengthy;
  }

  /**
   No overflow: with room for every item, the greedy choice and the preference against the
   last column still end with widths in which every item fits.
   */
  lemma {:induction false} AllocateFits(need: seq<nat>, columns: seq<nat>, data: seq<Items>, left: int, rc: nat)
    requires Room(need, columns, data, left) && rc < |columns| && Allocate(columns, data, left, rc).Some?
    ensures var w := Allocate(columns, data, left, rc).value;
      forall d :: 0 <= d < |data| ==> FitIn(data[d], w[d])
    decreases Items0(data)
  {
    hide BestOfFirst, Distribute, PickFrom, Helps;
    if left <= 0 {
      forall d | 0 <= d < |data|
        ensures FitIn(data[d], columns[d])
      {
        LackOfOne(need, columns, d);
      }
    } else {
      PickMeaning(columns, data, left);
      match Pick(columns, data, left)
      case None =>
        forall d | 0 <= d < |data|
          ensures data[d] == []
        {
          if data[d] != [] { RoomHelps(need, columns, data, left, d); }
        }
      case Some(val) =>
        HelpsNeedsItem(columns[val], data[val], left);
        PopShrinks(data, val);
        RoomAfterPop(need, columns, data, left, val);
        var columns', data' := columns[val := data[val][0].0], data[val := data[val][1..]];
        var left' := LeftAfter(columns, data, left, val);
        AllocateFits(need, columns', data', left', rc);
        assert forall k :: 1 <= k < |data[val]| ==> data[val][k] == data'[val][k - 1];
        AllocateKeepsMinimum(columns', data', left', rc, val, data[val][0].0);
        forall d | 0 <= d < |data|
          ensures FitIn(data[d], Allocate(columns, data, left, rc).value[d])
        {
          if d != val { assert data'[d] == data[d]; }
        }
    }
  }

  /** No column gets narrower than the smaller of its width and its shortest item. */
  lemma {:induction false} AllocateKeepsMinimum(columns: seq<nat>, data: seq<Items>, left: int, rc: nat, d: nat, m: nat)
    requires |columns| == |data| && rc < |columns| && d < |columns|
    requires Allocate(columns, data, left, rc).Some?
    requires m <= columns[d] && forall k :: 0 <= k < |data[d]| ==> m <= data[d][k].0
    ensures Allocate(columns, data, left, rc).value[d] >= m
    decreases Items0(data)
  {
    if left > 0 {
      PickMeaning(columns, data, left);
      match Pick(columns, data, left)
      case None => DistributeGrows(columns, data, left, rc);
      case Some(val) =>
        HelpsNeedsItem(columns[val], data[val], left);
        PopShrinks(data, val);
        var rest := data[val][1..];
        assert forall k :: 0 <= k < |rest| ==> rest[k] == data[val][k + 1];
        AllocateKeepsMinimum(columns[val := data[val][0].0], data[val := rest], LeftAfter(columns, data, left, val), rc, d, m);
    }
  }

  // ----- A single column -----

  predicate HasLength(items: Items, w: int) {
    exists k :: 0 <= k < |items| && items[k].0 == w
  }

  /** From a width of 0, the first item may also use the space that is meant for the separator. */
  predicate FillsFromZero(items: Items, w: int) {
    HasLength(items, w) || (items != [] && items[0].0 == w + 1)
  }

  /** Some item fills a single column of width c exactly, when w spaces are available. */
  predicate FillsExactly(c: nat, items: Items, w: int) {
    if items != [] && items[0].0 == 0 && w > 0 then FillsFromZero(items[1..], w - 1)
    else if c > 0 then HasLength(items, w)
    else FillsFromZero(items, w)
  }

  /** The spaces available to a single column of width c with `left` more. */
  function Available(c: nat, left: int): int {
    if c > 0 then c + left else left - 1
  }

  lemma PickOne(c: nat, items: Items, left: int)
    requires Counted(items)
    ensures Pick([c], [items], left) == if items == [] || left < items[0].0 - c then None else Some(0)
  {
    assert PickFrom([c], [items], left, 1, Helps(c, items, left), 0) == (Helps(c, items, left), 0);
    assert PickFrom([c], [items], left, 1, 0, 0) == (0, 0);
  }

  lemma AllocateOneStep(c: nat, items: Items, left: int)
    requires Counted(items) && left > 0
    ensures items == [] || left < items[0].0 - c ==> Allocate([c], [items], left, 0) == None
    ensures items != [] && left >= items[0].0 - c ==>
              Allocate([c], [items], left, 0) ==
              Allocate([items[0].0], [items[1..]], Available(c, left) - items[0].0, 0)
  {
    hide PickFrom, Helps;
    PickOne(c, items, left);
    if items != [] && left >= items[0].0 - c {
      assert [c][0 := items[0].0] == [items[0].0] && [items][0 := items[1..]] == [items[1..]];
    }
  }

  lemma RestFills(c: nat, items: Items, w: int)
    requires items != [] && Ascending(items) && items[0].0 < w
    ensures FillsExactly(c, items, w) <==>
            FillsExactly(items[0].0, items[1..], if items[0].0 > 0 then w else w - 1)
  {
    var rest := items[1..];
    assert forall k :: 0 <= k < |rest| ==> rest[k] == items[k + 1];
    assert rest != [] ==> rest[0].0 > 0;
  }

  lemma AscendingTail(items: Items)
    requires items != [] && Ascending(items) && Counted(items)
    ensures Ascending(items[1..]) && Counted(items[1..])
  {
    assert forall k :: 0 <= k < |items[1..]| ==> items[1..][k] == items[k + 1];
  }

  /** A single column ends in the ZeroDivisionError unless some item fills it exactly. */
  lemma {:induction false} AllocateOne(c: nat, items: Items, left: int)
    requires Ascending(items) && Counted(items) && left > 0
    ensures Allocate([c], [items], left, 0) == None <==> !FillsExactly(c, items, Available(c, left))
    decreases |items|
  {
    hide Allocate;
    AllocateOneStep(c, items, left);
    var w := Available(c, left);
    if items != [] && left >= items[0].0 - c {
      AscendingTail(items);
      if items[0].0 < w {
        RestFills(c, items, w);
        AllocateOne(items[0].0, items[1..], w - items[0].0);
      } else {
        AllocateDone([items[0].0], [items[1..]], w - items[0].0, 0);
      }
    }
  }

  lemma AllocateDone(columns: seq<nat>, data: seq<Items>, left: int, rc: nat)
    requires |columns| == |data| && rc < |columns| && left <= 0
    ensures Allocate(columns, data, left, rc) == Some(columns)
  {
  }
}
