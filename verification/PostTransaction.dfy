/** The columns of the post-transaction listing: Output._pto_callback (dnf/cli/output.py). */
module PostTransaction {
  import opened Wrappers

  /** The longest message, from index k on, among those that fall in column c of num. */
  function ColumnMax(msgs: seq<string>, num: nat, c: nat, k: nat): nat
    requires num > 0 && k <= |msgs|
    decreases |msgs| - k
  {
    if k == |msgs| then 0
    else
      var rest := ColumnMax(msgs, num, c, k + 1);
      if k % num == c && |msgs[k]| > rest then |msgs[k]| else rest
  }

  function ColumnSum(msgs: seq<string>, num: nat, c: nat): nat
    requires num > 0
  {
    if c == 0 then 0 else ColumnSum(msgs, num, c - 1) + ColumnMax(msgs, num, c - 1, 0)
  }

  /** Enough messages, and space for the longest ones with a gap after each and a margin of two. */
  predicate Fits(msgs: seq<string>, num: nat, term: int)
    requires num > 0
  {
    |msgs| >= num && ColumnSum(msgs, num, num) + (num - 1) + 2 < term
  }

  /** Every message fits the column that its index falls in. */
  predicate AllFit(msgs: seq<string>, cols: seq<int>) {
    cols != [] ==> forall i :: 0 <= i < |msgs| ==> |msgs[i]| <= cols[i % |cols|]
  }

  function SumTo(s: seq<nat>, n: nat): nat
    requires n <= |s|
  {
    if n == 0 then 0 else SumTo(s, n - 1) + s[n - 1]
  }

  lemma {:induction false} SumToUpdate(s: seq<nat>, n: nat, c: nat, x: nat)
    requires n <= |s| && c < |s|
    ensures SumTo(s[c := x], n) == SumTo(s, n) + if c < n then x - s[c] else 0
  {
    if n > 0 {
      SumToUpdate(s, n - 1, c, x);
    }
  }

  lemma {:induction false} ColumnMaxIsMax(msgs: seq<string>, num: nat, c: nat, k: nat)
    requires num > 0 && k <= |msgs|
    ensures forall i :: k <= i < |msgs| && i % num == c ==> |msgs[i]| <= ColumnMax(msgs, num, c, k)
    decreases |msgs| - k
  {
    if k < |msgs| {
      ColumnMaxIsMax(msgs, num, c, k + 1);
    }
  }

  /** Some message of the column is that long, if there is any. */
  lemma {:induction false} ColumnMaxIsThere(msgs: seq<string>, num: nat, c: nat, k: nat)
    requires num > 0 && k <= |msgs|
    ensures ColumnMax(msgs, num, c, k) > 0 ==>
              exists i :: k <= i < |msgs| && i % num == c && |msgs[i]| == ColumnMax(msgs, num, c, k)
    decreases |msgs| - k
  {
    if k < |msgs| {
      ColumnMaxIsThere(msgs, num, c, k + 1);
    }
  }

  /** The longest of what was seen and what is still to come. */
  predicate Covers(lens: seq<nat>, msgs: seq<string>, num: nat, k: nat)
    requires num > 0 && |lens| == num && k <= |msgs|
  {
    forall c :: 0 <= c < num ==>
      ColumnMax(msgs, num, c, 0) == if lens[c] > ColumnMax(msgs, num, c, k) then lens[c] else ColumnMax(msgs, num, c, k)
  }

  /** The widths seen so far never add up to more than the widths in the end. */
  lemma {:induction false} SumAtMostColumnSum(lens: seq<nat>, msgs: seq<string>, num: nat, k: nat, n: nat)
    requires num > 0 && |lens| == num && k <= |msgs| && n <= num && Covers(lens, msgs, num, k)
    ensures SumTo(lens, n) <= ColumnSum(msgs, num, n)
    ensures k == |msgs| ==> SumTo(lens, n) == ColumnSum(msgs, num, n)
  {
    if n > 0 {
      SumAtMostColumnSum(lens, msgs, num, k, n - 1);
    }
  }

  /** `_fits_in_cols`: the widths, or an empty list; exactly the counts that fit are accepted. */
  method FitsInCols(msgs: seq<string>, num: nat, term: int) returns (cols: seq<nat>)
    requires num > 0
    ensures cols != [] <==> Fits(msgs, num, term)
    ensures cols != [] ==>
              && |cols| == num
              && AllFit(msgs, cols)
              && term - num < SumTo(cols, num) + (num - 1) + 2 <= term
              && forall c :: 0 <= c < num ==>
                   cols[c] == ColumnMax(msgs, num, c, 0) + (term - (num - 1) - 2 - ColumnSum(msgs, num, num)) / num
  {
    hide ColumnSum, SumTo, Covers, AllFit, ColumnMax;
    if |msgs| < num {
      return [];
    }
    var left := term - ((num - 1) + 2);
    if left <= 0 {
      ColumnSumNonNegative(msgs, num, num);
      return [];
    }
    var lens: seq<nat> := seq(num, _ => 0);
    SumOfZeros(lens, num);
    CoversNothing(lens, msgs, num);
    var col, k := 0, 0;
    while k < |msgs|
      invariant 0 <= k <= |msgs| && |lens| == num
      invariant col == k % num
      invariant left > 0 && left + SumTo(lens, num) == term - ((num - 1) + 2)
      invariant Covers(lens, msgs, num, k)
    {
      CoversNext(lens, msgs, num, k);
      if |msgs[k]| > lens[col] {
        var diff := |msgs[k]| - lens[col];
        SumToUpdate(lens, num, col, |msgs[k]|);
        SumAtMostColumnSum(lens[col := |msgs[k]|], msgs, num, k + 1, num);
        if left <= diff {
          return [];
        }
        left := left - diff;
        lens := lens[col := |msgs[k]|];
      }
      ModNext(k, num);
      col := (col + 1) % num;
      k := k + 1;
    }
    SumAtMostColumnSum(lens, msgs, num, k, num);
    LensAreLongest(lens, msgs, num);
    cols := Grown(lens, left / num);
    SumShifted(lens, cols, left / num, num);
    DivMod(left, num);
    LensFit(lens, cols, msgs, num);
  }

  lemma LensAreLongest(lens: seq<nat>, msgs: seq<string>, num: nat)
    requires num > 0 && |lens| == num && Covers(lens, msgs, num, |msgs|)
    ensures forall c :: 0 <= c < num ==> lens[c] == ColumnMax(msgs, num, c, 0)
  {
    forall c | 0 <= c < num
      ensures ColumnMax(msgs, num, c, |msgs|) == 0
    {
    }
  }

  function Grown(lens: seq<nat>, x: nat): (r: seq<nat>)
    ensures |r| == |lens| && forall c :: 0 <= c < |lens| ==> r[c] == lens[c] + x
  {
    seq(|lens|, c requires 0 <= c < |lens| => lens[c] + x)
  }

  lemma DivMod(a: nat, b: nat)
    requires b > 0
    ensures 0 <= a - b * (a / b) < b
  {
  }

  lemma LensFit(lens: seq<nat>, cols: seq<nat>, msgs: seq<string>, num: nat)
    requires num > 0 && |lens| == |cols| == num && Covers(lens, msgs, num, |msgs|)
    requires forall c :: 0 <= c < num ==> lens[c] <= cols[c]
    ensures AllFit(msgs, cols)
  {
    forall i | 0 <= i < |msgs|
      ensures |msgs[i]| <= cols[i % num]
    {
      ColumnMaxIsMax(msgs, num, i % num, 0);
      assert ColumnMax(msgs, num, i % num, |msgs|) == 0;
    }
  }

  lemma CoversNothing(lens: seq<nat>, msgs: seq<string>, num: nat)
    requires num > 0 && |lens| == num && forall c :: 0 <= c < num ==> lens[c] == 0
    ensures Covers(lens, msgs, num, 0)
  {
  }

  lemma {:induction false} ColumnSumNonNegative(msgs: seq<string>, num: nat, c: nat)
    requires num > 0
    ensures ColumnSum(msgs, num, c) >= 0
  {
  }

  lemma {:induction false} SumOfZeros(s: seq<nat>, n: nat)
    requires n <= |s| && forall c :: 0 <= c < |s| ==> s[c] == 0
    ensures SumTo(s, n) == 0
  {
    if n > 0 {
      SumOfZeros(s, n - 1);
    }
  }

  lemma {:induction false} SumShifted(a: seq<nat>, b: seq<nat>, x: nat, n: nat)
    requires n <= |a| == |b| && forall c :: 0 <= c < |a| ==> b[c] == a[c] + x
    ensures SumTo(b, n) == SumTo(a, n) + n * x
  {
    if n > 0 {
      SumShifted(a, b, x, n - 1);
      assert n * x == (n - 1) * x + x;
    }
  }

  /** Seeing message k leaves the longest lengths what they are. */
  lemma CoversNext(lens: seq<nat>, msgs: seq<string>, num: nat, k: nat)
    requires num > 0 && |lens| == num && k < |msgs| && Covers(lens, msgs, num, k)
    ensures var c := k % num;
      if |msgs[k]| > lens[c] then Covers(lens[c := |msgs[k]|], msgs, num, k + 1) else Covers(lens, msgs, num, k + 1)
  {
  }

  lemma {:induction false} LargerQuotient(num: nat, q: nat, less: nat)
    requires less < q
    ensures num * q >= num * less + num
    decreases q
  {
    assert num * q == num * (q - 1) + num;
    if less < q - 1 {
      LargerQuotient(num, q - 1, less);
    }
  }

  /** The quotient and remainder of a division are the only ones. */
  lemma ModUnique(x: nat, num: nat, q: nat, r: nat)
    requires num > 0 && x == num * q + r && r < num
    ensures x % num == r
  {
    DivMod(x, num);
    if x / num < q { LargerQuotient(num, q, x / num); }
    if q < x / num { LargerQuotient(num, x / num, q); }
  }

  lemma ModNext(k: nat, num: nat)
    requires num > 0
    ensures (k % num + 1) % num == (k + 1) % num
  {
    var q, r := k / num, k % num;
    DivMod(k, num);
    if r + 1 == num {
      assert num * (q + 1) == num * q + num;
      ModUnique(k + 1, num, q + 1, 0);
      ModUnique(r + 1, num, 1, 0);
    } else {
      ModUnique(k + 1, num, q, r + 1);
      ModUnique(r + 1, num, 0, r + 1);
    }
  }

  /** The rows that the loop of `_pto_callback` prints. */
  function Flatten(rows: seq<seq<string>>): seq<string> {
    if rows == [] then [] else rows[0] + Flatten(rows[1..])
  }

  lemma {:induction false} FlattenSnoc(rows: seq<seq<string>>, row: seq<string>)
    ensures Flatten(rows + [row]) == Flatten(rows) + row
  {
    if rows == [] {
      assert [row][1..] == [] && [] + [row] == [row];
    } else {
      assert (rows + [row])[1..] == rows[1..] + [row];
      FlattenSnoc(rows[1..], row);
    }
  }

  /** The search of `_pto_callback`: the largest number of columns from 8 down to 2 that fits, or one column. */
  method ChooseColumns(all: seq<string>, term: int) returns (cols: seq<int>)
    ensures 1 <= |cols| <= 8
    ensures forall num :: 2 <= num <= 8 && Fits(all, num, term) ==> num <= |cols|
    ensures |cols| >= 2 ==> Fits(all, |cols|, term) && AllFit(all, cols)
    ensures |cols| == 1 ==> cols == [term - 2]
  {
    hide Fits, AllFit;
    var num := 8;
    cols := [];
    while num >= 2 && cols == []
      invariant 1 <= num <= 8
      invariant cols == [] ==> forall n :: num < n <= 8 ==> !Fits(all, n, term)
      invariant cols != [] ==>
                  && 1 <= num < 8 && |cols| == num + 1 && Fits(all, |cols|, term) && AllFit(all, cols)
                  && (forall n :: |cols| < n <= 8 ==> !Fits(all, n, term))
      decreases num
    {
      var widths := FitsInCols(all, num, term);
      cols := widths;
      num := num - 1;
    }
    if cols == [] {
      cols := [term - 2];
    }
  }

  /** The row loop of `_pto_callback`: every message once, in order, in full rows but for the last. */
  method Rows(all: seq<string>, columns: nat) returns (rows: seq<seq<string>>)
    requires columns >= 1
    ensures Flatten(rows) == all
    ensures forall r :: 0 <= r < |rows| ==> 1 <= |rows[r]| <= columns
    ensures forall r :: 0 <= r < |rows| - 1 ==> |rows[r]| == columns
  {
    rows := [];
    var msgs := all;
    assert Flatten([]) + all == all;
    hide Flatten;
    while msgs != []
      invariant Flatten(rows) + msgs == all
      invariant forall r :: 0 <= r < |rows| ==> 1 <= |rows[r]| <= columns
      invariant forall r :: 0 <= r < |rows| ==> |rows[r]| == columns || (r == |rows| - 1 && msgs == [])
      decreases |msgs|
    {
      var n := if |msgs| < columns then |msgs| else columns;
      FlattenSnoc(rows, msgs[..n]);
      assert msgs == msgs[..n] + msgs[n..];
      rows := rows + [msgs[..n]];
      msgs := msgs[n..];
    }
    assert Flatten(rows) + [] == Flatten(rows);
  }

  /** Both loops of `_pto_callback`, which returns before them if there is nothing to print. */
  method PtoRows(all: seq<string>, term: int) returns (cols: seq<int>, rows: seq<seq<string>>)
    ensures 1 <= |cols| <= 8
    ensures forall num :: 2 <= num <= 8 && Fits(all, num, term) ==> num <= |cols|
    ensures |cols| >= 2 ==> Fits(all, |cols|, term) && AllFit(all, cols)
    ensures |cols| == 1 ==> cols == [term - 2]
    ensures Flatten(rows) == all
    ensures forall r :: 0 <= r < |rows| ==> 1 <= |rows[r]| <= |cols|
    ensures forall r :: 0 <= r < |rows| - 1 ==> |rows[r]| == |cols|
  {
    hide Fits, AllFit, Flatten;
    cols := ChooseColumns(all, term);
    rows := Rows(all, |cols|);
  }
}
