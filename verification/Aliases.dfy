/** The alias resolver of dnf/cli/aliases.py. */
module Aliases {
  import opened Wrappers

  type Args = seq<string>
  type AliasMap = map<string, Args>

  /** Empty words count as options, as in `store_prefix`. */
  predicate IsOption(word: string) {
    word == "" || word[0] == '-'
  }

  /** The number of leading options. */
  function PrefixLength(args: Args): (n: nat)
    ensures n <= |args|
    ensures forall k :: 0 <= k < n ==> args[k] == "" || args[k][0] == '-'
    ensures n < |args| ==> args[n] != "" && args[n][0] != '-'
  {
    if args == [] || !IsOption(args[0]) then 0 else 1 + PrefixLength(args[1..])
  }

  function Prefix(args: Args): Args {
    args[..PrefixLength(args)]
  }

  /** The arguments from the first one that is no option. */
  function Suffix(args: Args): Args {
    args[PrefixLength(args)..]
  }

  predicate Escaped(word: string) {
    word != "" && word[0] == '\\'
  }

  /** Resolution stops at these arguments, which start with no option. */
  predicate Stops(m: AliasMap, suffix: Args) {
    suffix == [] || suffix[0] !in m || Escaped(suffix[0])
  }

  function Unescaped(suffix: Args): Args {
    if suffix != [] && Escaped(suffix[0]) then [suffix[0][1..]] + suffix[1..] else suffix
  }

  // ----- What the program computes -----

  /** Options hoisted by a call, the arguments it returns and the stack it leaves. */
  datatype Outcome = Recursion | Resolved(options: Args, rest: Args, stack: seq<string>)

  function Top(stack: seq<string>): seq<string> {
    if stack == [] then [] else stack[..|stack| - 1]
  }

  ghost function OffStack(m: AliasMap, stack: seq<string>): nat {
    |m.Keys - (set x | x in stack)|
  }

  lemma PushShrinks(m: AliasMap, stack: seq<string>, x: string)
    requires x in m && x !in stack
    ensures OffStack(m, stack + [x]) < OffStack(m, stack)
  {
    var a := set y | y in stack;
    assert (set y | y in stack + [x]) == a + {x};
    assert m.Keys - (a + {x}) == (m.Keys - a) - {x};
  }

  /**
   `subresolve`. Its termination rests on its stack effect: an empty result takes exactly one
   entry off the stack, so the rest of the arguments is resolved under the caller's stack.
   */
  function Sub(m: AliasMap, args: Args, stack: seq<string>): (o: Outcome)
    ensures o.Resolved? && o.rest == [] ==> o.stack == Top(stack)
    decreases OffStack(m, stack), |args|
  {
    var prefix, suffix := Prefix(args), Suffix(args);
    if Stops(m, suffix) then
      Resolved(prefix, if stack == [] then suffix else Unescaped(suffix), Top(stack))
    else if suffix[0] in stack then Recursion
    else
      PushShrinks(m, stack, suffix[0]);
      var inner := Sub(m, m[suffix[0]], stack + [suffix[0]]);
      if inner.Recursion? then Recursion
      else if inner.rest != [] then
        Resolved(prefix + inner.options, inner.rest + suffix[1..], inner.stack)
      else
        assert inner.stack == stack;
        var after := Sub(m, suffix[1..], stack);
        if after.Recursion? then Recursion
        else Resolved(prefix + inner.options + after.options, after.rest, after.stack)
  }

  /** What `subresolve` returns for an alias, from the outcomes of its recursive calls. */
  function Joined(args: Args, inner: Outcome, after: Outcome): Outcome {
    if inner.Recursion? then Recursion
    else if inner.rest != [] then
      Resolved(Prefix(args) + inner.options, inner.rest + (if Suffix(args) == [] then [] else Suffix(args)[1..]), inner.stack)
    else if after.Recursion? then Recursion
    else Resolved(Prefix(args) + inner.options + after.options, after.rest, after.stack)
  }

  lemma SubOfAlias(m: AliasMap, args: Args, stack: seq<string>)
    requires !Stops(m, Suffix(args)) && Suffix(args)[0] !in stack
    ensures Sub(m, args, stack) ==
            Joined(args, Sub(m, m[Suffix(args)[0]], stack + [Suffix(args)[0]]), Sub(m, Suffix(args)[1..], stack))
  {
    PushShrinks(m, stack, Suffix(args)[0]);
  }

  lemma SubAtStop(m: AliasMap, args: Args, stack: seq<string>)
    requires Stops(m, Suffix(args))
    ensures Sub(m, args, stack) ==
            Resolved(Prefix(args), if stack == [] then Suffix(args) else Unescaped(Suffix(args)), Top(stack))
  {
  }

  lemma SubOnStack(m: AliasMap, args: Args, stack: seq<string>)
    requires !Stops(m, Suffix(args)) && Suffix(args)[0] in stack
    ensures Sub(m, args, stack) == Recursion
  {
  }

  /** An empty result takes one entry off the stack. */
  lemma EmptyPopsOne(m: AliasMap, args: Args, stack: seq<string>)
    requires Sub(m, args, stack).Resolved? && Sub(m, args, stack).rest == []
    ensures Sub(m, args, stack).stack == Top(stack)
  {
  }

  /** `_resolve`; None is the "infinite recursion" error. */
  function Resolve(m: AliasMap, args: Args): Option<Args> {
    var o := Sub(m, args, []);
    if o.Recursion? then None else Some(o.options + o.rest)
  }

  // ----- Naive expansion -----

  datatype Expansion = OutOfFuel | Done(options: Args, rest: Args)

  /** Expansion with no stack and no cycle check; `nested` says the words come from an alias. */
  function Expand(m: AliasMap, args: Args, nested: bool, fuel: nat): Expansion
    decreases fuel
  {
    if fuel == 0 then OutOfFuel
    else
      var prefix, suffix := Prefix(args), Suffix(args);
      if Stops(m, suffix) then Done(prefix, if nested then Unescaped(suffix) else suffix)
      else
        match Expand(m, m[suffix[0]], true, fuel - 1)
        case OutOfFuel => OutOfFuel
        case Done(o, r) =>
          if r != [] then Done(prefix + o, r + suffix[1..])
          else
            match Expand(m, suffix[1..], nested, fuel - 1)
            case OutOfFuel => OutOfFuel
            case Done(o', r') => Done(prefix + o + o', r')
  }

  lemma {:induction false} ExpandMonotone(m: AliasMap, args: Args, nested: bool, fuel: nat, more: nat)
    requires fuel <= more && Expand(m, args, nested, fuel).Done?
    ensures Expand(m, args, nested, more) == Expand(m, args, nested, fuel)
    decreases fuel
  {
    hide Prefix, Suffix, Unescaped;
    var suffix := Suffix(args);
    if !Stops(m, suffix) {
      ExpandMonotone(m, m[suffix[0]], true, fuel - 1, more - 1);
      if Expand(m, m[suffix[0]], true, fuel - 1).rest == [] {
        ExpandMonotone(m, suffix[1..], nested, fuel - 1, more - 1);
      }
    }
  }

  /** The expansion holds what the outcome says. */
  predicate Agree(o: Outcome, e: Expansion) {
    o.Resolved? && e == Done(o.options, o.rest)
  }

  /** One level of `subresolve` and of expansion, for an alias whose body leaves a word. */
  lemma AliasWithWords(m: AliasMap, args: Args, stack: seq<string>, nested: bool, fuel: nat)
    requires !Stops(m, Suffix(args)) && Suffix(args)[0] !in stack
    requires var x := Suffix(args)[0];
      var inner := Sub(m, m[x], stack + [x]);
      Agree(inner, Expand(m, m[x], true, fuel)) && inner.rest != []
    ensures Agree(Sub(m, args, stack), Expand(m, args, nested, fuel + 1))
  {
    var x := Suffix(args)[0];
    var inner := Sub(m, m[x], stack + [x]);
    PushShrinks(m, stack, x);
    assert Sub(m, args, stack) == Resolved(Prefix(args) + inner.options, inner.rest + Suffix(args)[1..], inner.stack);
  }

  /** One level of both, for an alias whose body holds nothing but options. */
  lemma AliasOfOptions(m: AliasMap, args: Args, stack: seq<string>, nested: bool, fuel: nat)
    requires !Stops(m, Suffix(args)) && Suffix(args)[0] !in stack
    requires var x := Suffix(args)[0];
      var inner := Sub(m, m[x], stack + [x]);
      Agree(inner, Expand(m, m[x], true, fuel)) && inner.rest == []
    requires Agree(Sub(m, Suffix(args)[1..], stack), Expand(m, Suffix(args)[1..], nested, fuel))
    ensures Agree(Sub(m, args, stack), Expand(m, args, nested, fuel + 1))
  {
    var x := Suffix(args)[0];
    var inner := Sub(m, m[x], stack + [x]);
    var after := Sub(m, Suffix(args)[1..], stack);
    PushShrinks(m, stack, x);
    assert Sub(m, args, stack) == Resolved(Prefix(args) + inner.options + after.options, after.rest, after.stack);
  }

  lemma AgreeAfterOptions(m: AliasMap, args: Args, stack: seq<string>, nested: bool, f: nat, g: nat)
    returns (fuel: nat)
    requires !Stops(m, Suffix(args)) && Suffix(args)[0] !in stack
    requires var x := Suffix(args)[0];
      var inner := Sub(m, m[x], stack + [x]);
      Agree(inner, Expand(m, m[x], true, f)) && inner.rest == []
    requires Agree(Sub(m, Suffix(args)[1..], stack), Expand(m, Suffix(args)[1..], nested, g))
    ensures Agree(Sub(m, args, stack), Expand(m, args, nested, fuel))
  {
    hide Sub, Expand, PrefixLength;
    var h: nat := f + g;
    ExpandMonotone(m, m[Suffix(args)[0]], true, f, h);
    ExpandMonotone(m, Suffix(args)[1..], nested, g, h);
    AliasOfOptions(m, args, stack, nested, h);
    fuel := h + 1;
  }

  /** A successful resolution is what naive expansion computes, given enough fuel. */
  lemma {:induction false} SubAgrees(m: AliasMap, args: Args, stack: seq<string>, nested: bool)
    returns (fuel: nat)
    requires Sub(m, args, stack).Resolved? && nested == (stack != [])
    ensures Agree(Sub(m, args, stack), Expand(m, args, nested, fuel))
    decreases OffStack(m, stack), |args|
  {
    if Stops(m, Suffix(args)) {
      fuel := 1;
    } else {
      var x := Suffix(args)[0];
      PushShrinks(m, stack, x);
      var f := SubAgrees(m, m[x], stack + [x], true);
      if Sub(m, m[x], stack + [x]).rest != [] {
        AliasWithWords(m, args, stack, nested, f);
        fuel := f + 1;
      } else {
        var g := SubAgrees(m, Suffix(args)[1..], stack, nested);
        fuel := AgreeAfterOptions(m, args, stack, nested, f, g);
      }
    }
  }

  /** Expansion ends with this much fuel. */
  predicate Ends(m: AliasMap, args: Args, nested: bool, fuel: nat) {
    Expand(m, args, nested, fuel).Done?
  }

  /** Expanding the body of x ends with less fuel than `fuel`. */
  ghost predicate BodyEndsBelow(m: AliasMap, x: string, fuel: nat) {
    x in m && exists f: nat :: f < fuel && Ends(m, m[x], true, f)
  }

  lemma BodyEndsBelowMore(m: AliasMap, x: string, fuel: nat, more: nat)
    requires BodyEndsBelow(m, x, fuel) && fuel <= more
    ensures BodyEndsBelow(m, x, more)
  {
    var f: nat :| f < fuel && Ends(m, m[x], true, f);
    assert f < more;
  }

  /** Expansion that ends also ends on the alias body. */
  lemma ExpansionOfBody(m: AliasMap, args: Args, nested: bool, fuel: nat)
    requires !Stops(m, Suffix(args)) && Ends(m, args, nested, fuel)
    ensures fuel >= 1 && Ends(m, m[Suffix(args)[0]], true, fuel - 1)
    ensures BodyEndsBelow(m, Suffix(args)[0], fuel)
  {
    assert Ends(m, m[Suffix(args)[0]], true, fuel - 1);
  }

  /** Where the body leaves no word, it ends on the rest as well. */
  lemma ExpansionOfRest(m: AliasMap, args: Args, nested: bool, fuel: nat, inner: Outcome)
    requires !Stops(m, Suffix(args)) && Ends(m, args, nested, fuel) && fuel >= 1
    requires Agree(inner, Expand(m, m[Suffix(args)[0]], true, fuel - 1)) && inner.rest == []
    ensures Ends(m, Suffix(args)[1..], nested, fuel - 1)
  {
  }

  /** Where a reported cycle comes from. */
  lemma RecursionParts(m: AliasMap, args: Args, stack: seq<string>)
    requires Sub(m, args, stack) == Recursion
    ensures !Stops(m, Suffix(args))
    ensures var x := Suffix(args)[0];
      || x in stack
      || Sub(m, m[x], stack + [x]) == Recursion
      || (Sub(m, m[x], stack + [x]).rest == [] && Sub(m, Suffix(args)[1..], stack) == Recursion)
  {
    assert !Stops(m, Suffix(args));
  }

  /** A cycle found after an alias of options only. */
  lemma {:induction false} CycleInRest(m: AliasMap, args: Args, stack: seq<string>, nested: bool, fuel: nat)
    requires nested == (stack != []) && !Stops(m, Suffix(args)) && Suffix(args)[0] !in stack
    requires var o := Sub(m, m[Suffix(args)[0]], stack + [Suffix(args)[0]]); o.Resolved? && o.rest == []
    requires Sub(m, Suffix(args)[1..], stack) == Recursion
    requires Ends(m, args, nested, fuel)
    ensures exists x :: x in stack && BodyEndsBelow(m, x, fuel)
    decreases OffStack(m, stack), |args|, fuel, 0
  {
    hide Sub, Expand, PrefixLength;
    var x := Suffix(args)[0];
    ExpansionOfBody(m, args, nested, fuel);
    SameExpansion(m, m[x], stack + [x], true, fuel - 1);
    ExpansionOfRest(m, args, nested, fuel, Sub(m, m[x], stack + [x]));
    CycleRecurs(m, Suffix(args)[1..], stack, nested, fuel - 1);
    var y :| y in stack && BodyEndsBelow(m, y, fuel - 1);
    BodyEndsBelowMore(m, y, fuel - 1, fuel);
  }

  /**
   If the resolver reports a cycle but naive expansion ends, then the body of some alias on
   the stack is expanded on the way, with less fuel.
   */
  lemma {:induction false} CycleRecurs(m: AliasMap, args: Args, stack: seq<string>, nested: bool, fuel: nat)
    requires nested == (stack != [])
    requires Sub(m, args, stack) == Recursion
    requires Ends(m, args, nested, fuel)
    ensures exists x :: x in stack && BodyEndsBelow(m, x, fuel)
    decreases OffStack(m, stack), |args|, fuel, 1
  {
    RecursionParts(m, args, stack);
    ExpansionOfBody(m, args, nested, fuel);
    var x := Suffix(args)[0];
    if x in stack {
    } else if Sub(m, m[x], stack + [x]) == Recursion {
      PushShrinks(m, stack, x);
      CycleLeavesBody(m, x, stack, fuel - 1);
    } else {
      CycleInRest(m, args, stack, nested, fuel);
    }
  }

  lemma SameExpansion(m: AliasMap, args: Args, stack: seq<string>, nested: bool, fuel: nat)
    requires nested == (stack != [])
    requires Sub(m, args, stack).Resolved? && Ends(m, args, nested, fuel)
    ensures Agree(Sub(m, args, stack), Expand(m, args, nested, fuel))
  {
    var f := SubAgrees(m, args, stack, nested);
    ExpandMonotone(m, args, nested, f, f + fuel);
    ExpandMonotone(m, args, nested, fuel, f + fuel);
  }

  /** The alias found can be one from below x: expanding x inside x only uses up fuel. */
  lemma {:induction false} CycleLeavesBody(m: AliasMap, x: string, stack: seq<string>, fuel: nat)
    requires x in m && x !in stack && Sub(m, m[x], stack + [x]) == Recursion
    requires Ends(m, m[x], true, fuel)
    ensures exists y :: y in stack && BodyEndsBelow(m, y, fuel + 1)
    decreases OffStack(m, stack + [x]), |m[x]| + 1, fuel, 0
  {
    CycleRecurs(m, m[x], stack + [x], true, fuel);
    var y :| y in stack + [x] && BodyEndsBelow(m, y, fuel);
    if y == x {
      var f: nat :| f < fuel && Ends(m, m[x], true, f);
      CycleLeavesBody(m, x, stack, f);
      var z :| z in stack && BodyEndsBelow(m, z, f + 1);
      BodyEndsBelowMore(m, z, f + 1, fuel + 1);
    } else {
      BodyEndsBelowMore(m, y, fuel, fuel + 1);
    }
  }

  /** The error is raised exactly when naive expansion runs out of every amount of fuel. */
  lemma RecursionIffDiverges(m: AliasMap, args: Args)
    ensures Resolve(m, args) == None <==> forall fuel: nat :: Expand(m, args, false, fuel) == OutOfFuel
  {
    if Sub(m, args, []) == Recursion {
      forall fuel: nat
        ensures Expand(m, args, false, fuel) == OutOfFuel
      {
        if Expand(m, args, false, fuel).Done? {
          CycleRecurs(m, args, [], false, fuel);
        }
      }
    } else {
      var fuel := SubAgrees(m, args, [], false);
      assert Expand(m, args, false, fuel).Done?;
    }
  }

  /** Otherwise both give the same hoisted options, followed by the same arguments. */
  lemma ResolveIsNaiveExpansion(m: AliasMap, args: Args, fuel: nat)
    requires Expand(m, args, false, fuel).Done?
    ensures var e := Expand(m, args, false, fuel); Resolve(m, args) == Some(e.options + e.rest)
  {
    RecursionIffDiverges(m, args);
    assert Ends(m, args, false, fuel);
    SameExpansion(m, args, [], false, fuel);
  }

  // ----- Resolving the result again -----

  /** The resolution ends at an escaped word inside an alias body, and strips its backslash. */
  predicate Strips(m: AliasMap, args: Args, stack: seq<string>)
    decreases OffStack(m, stack), |args|
  {
    var suffix := Suffix(args);
    if Stops(m, suffix) then stack != [] && suffix != [] && Escaped(suffix[0])
    else if suffix[0] in stack then false
    else
      PushShrinks(m, stack, suffix[0]);
      var inner := Sub(m, m[suffix[0]], stack + [suffix[0]]);
      if inner.Recursion? then false
      else if inner.rest != [] then Strips(m, m[suffix[0]], stack + [suffix[0]])
      else Strips(m, suffix[1..], stack)
  }

  /** Options first, then arguments at which resolution stops. */
  predicate Final(m: AliasMap, options: Args, rest: Args) {
    && (forall k :: 0 <= k < |options| ==> IsOption(options[k]))
    && (rest != [] ==> !IsOption(rest[0]))
    && Stops(m, rest)
  }

  lemma {:induction false} SubIsFinal(m: AliasMap, args: Args, stack: seq<string>)
    requires Sub(m, args, stack).Resolved? && !Strips(m, args, stack)
    ensures Final(m, Sub(m, args, stack).options, Sub(m, args, stack).rest)
    decreases OffStack(m, stack), |args|
  {
    var suffix := Suffix(args);
    if !Stops(m, suffix) {
      PushShrinks(m, stack, suffix[0]);
      if Sub(m, m[suffix[0]], stack + [suffix[0]]).rest != [] {
        SubIsFinal(m, m[suffix[0]], stack + [suffix[0]]);
      } else {
        SubOptions(m, m[suffix[0]], stack + [suffix[0]]);
        SubIsFinal(m, suffix[1..], stack);
      }
    }
  }

  /** Only options are hoisted. */
  lemma {:induction false} SubOptions(m: AliasMap, args: Args, stack: seq<string>)
    requires Sub(m, args, stack).Resolved?
    ensures forall k :: 0 <= k < |Sub(m, args, stack).options| ==> IsOption(Sub(m, args, stack).options[k])
    decreases OffStack(m, stack), |args|
  {
    var suffix := Suffix(args);
    if !Stops(m, suffix) {
      PushShrinks(m, stack, suffix[0]);
      SubOptions(m, m[suffix[0]], stack + [suffix[0]]);
      if Sub(m, m[suffix[0]], stack + [suffix[0]]).rest == [] {
        SubOptions(m, suffix[1..], stack);
      }
    }
  }

  lemma {:induction false} PrefixOfOptions(options: Args, rest: Args)
    requires forall k :: 0 <= k < |options| ==> IsOption(options[k])
    requires rest != [] ==> !IsOption(rest[0])
    ensures Prefix(options + rest) == options && Suffix(options + rest) == rest
  {
    if options != [] {
      assert (options + rest)[1..] == options[1..] + rest;
      PrefixOfOptions(options[1..], rest);
    }
  }

  /** A result for which no backslash was stripped resolves to itself. */
  lemma ResolvedIsFixedPoint(m: AliasMap, args: Args)
    requires Resolve(m, args).Some? && !Strips(m, args, [])
    ensures Resolve(m, Resolve(m, args).value) == Resolve(m, args)
  {
    var o := Sub(m, args, []);
    SubIsFinal(m, args, []);
    PrefixOfOptions(o.options, o.rest);
  }

  /** The words that the body of the first alias leaves, and its options, for arguments that go on to resolve. */
  function FirstBody(m: AliasMap, args: Args): Outcome
    requires !Stops(m, Suffix(args))
  {
    Sub(m, m[Suffix(args)[0]], [Suffix(args)[0]])
  }

  /**
   The alias gives back its own name: as the only word of its body, from behind a backslash, or
   because its body is empty and the rest of the arguments resolves to the alias and itself.
   */
  predicate GivesItself(m: AliasMap, args: Args)
    requires !Stops(m, Suffix(args))
  {
    var suffix, body := Suffix(args), FirstBody(m, args);
    && body.Resolved? && body.options == []
    && if body.rest != [] then body.rest == [suffix[0]]
       else var after := Sub(m, suffix[1..], []);
         after.Resolved? && after.options == [] && after.rest == suffix
  }

  /** Arguments resolve to themselves exactly if resolution stops at once, or their alias gives back itself. */
  lemma FixedPointExactly(m: AliasMap, args: Args)
    ensures Resolve(m, args) == Some(args) <==> Stops(m, Suffix(args)) || GivesItself(m, args)
  {
    assert args == Prefix(args) + Suffix(args);
    if Stops(m, Suffix(args)) {
      SubAtStop(m, args, []);
    } else {
      SubOfAlias(m, args, []);
      assert [] + [Suffix(args)[0]] == [Suffix(args)[0]];
      hide Sub, PrefixLength, Prefix, Suffix, Stops;
      JoinedIsArgs(m, args);
    }
  }

  /** When the parts that an alias resolves to are the arguments themselves. */
  lemma JoinedIsArgs(m: AliasMap, args: Args)
    requires !Stops(m, Suffix(args))
    ensures var o := Joined(args, FirstBody(m, args), Sub(m, Suffix(args)[1..], []));
      o.Resolved? && o.options + o.rest == args <==> GivesItself(m, args)
  {
    hide Sub, PrefixLength, Prefix;
    var inner, after := FirstBody(m, args), Sub(m, Suffix(args)[1..], []);
    if inner.Resolved? {
      SubOptions(m, m[Suffix(args)[0]], [Suffix(args)[0]]);
      if inner.rest != [] {
        SameParts(args, inner.options, inner.rest + Suffix(args)[1..]);
        SameHead(inner.rest, Suffix(args)[1..], Suffix(args));
      } else if after.Resolved? {
        SubOptions(m, Suffix(args)[1..], []);
        SameParts(args, inner.options + after.options, after.rest);
        Associates(Prefix(args), inner.options, after.options);
      }
    }
  }

  /** The same word in front of the same words. */
  lemma SameHead(head: Args, tail: Args, suffix: Args)
    requires suffix != [] && tail == suffix[1..]
    ensures head + tail == suffix <==> head == [suffix[0]]
  {
    assert suffix == [suffix[0]] + tail;
    if head + tail == suffix {
      assert |head| == 1 && head[0] == (head + tail)[0];
    }
  }

  /** Hoisted options do not come back as the arguments they were in front of. */
  lemma SameParts(args: Args, options: Args, rest: Args)
    requires Suffix(args) != [] && forall k :: 0 <= k < |options| ==> IsOption(options[k])
    ensures Prefix(args) + options + rest == args <==> options == [] && rest == Suffix(args)
  {
    var n := PrefixLength(args);
    var all := Prefix(args) + options + rest;
    assert args[n..][0] == args[n];
    if options != [] {
      assert all[n] == options[0];
    } else {
      assert all == args[..n] + rest;
      if all == args {
        assert rest == all[n..];
      } else {
        assert args == args[..n] + args[n..];
      }
    }
  }

  /** An alias for one word at which resolution stops. */
  lemma ResolveOneWord(m: AliasMap, x: string, w: string)
    requires !IsOption(x) && !Escaped(x) && x in m && m[x] == [w]
    requires !IsOption(w) && (w !in m || Escaped(w))
    ensures Resolve(m, [x]) == Some(Unescaped([w]))
  {
    assert Prefix([x]) == [] && Suffix([x]) == [x];
    assert Prefix([w]) == [] && Suffix([w]) == [w];
    SubAtStop(m, [w], [x]);
    SubOfAlias(m, [x], []);
    hide Sub, PrefixLength;
    assert [] + [x] == [x];
    assert Sub(m, [x], []).rest == Unescaped([w]) + [x][1..] == Unescaped([w]);
    assert Sub(m, [x], []).options == [] + Sub(m, [w], [x]).options == [];
    assert [] + Unescaped([w]) == Unescaped([w]);
  }

  /** With a stripped backslash the result can be an alias, and resolve further. */
  lemma StrippedIsNotFixed()
    ensures var m: AliasMap := map["a" := ["\\b"], "b" := ["c"]];
      Resolve(m, ["a"]) == Some(["b"]) && Resolve(m, ["b"]) == Some(["c"])
  {
    hide Resolve;
    var m: AliasMap := map["a" := ["\\b"], "b" := ["c"]];
    ResolveOneWord(m, "a", "\\b");
    ResolveOneWord(m, "b", "c");
    assert Unescaped(["\\b"]) == ["b"];
  }

  lemma Associates(a: Args, b: Args, c: Args)
    ensures a + b + c == a + (b + c)
  {
  }

  // ----- Resolution in words -----

  /** Empty words, and words that start with a dash. */
  predicate OnlyOptions(words: Args) {
    forall k :: 0 <= k < |words| ==> words[k] == "" || words[k][0] == '-'
  }

  /** A command: a word that is no option. */
  predicate StartsWithCommand(words: Args) {
    words != [] && words[0] != "" && words[0][0] != '-'
  }

  /** Options, and then nothing, a word that is no alias or a word with a backslash, stay as they are. */
  lemma {:induction false} ResolveNothing(m: AliasMap, options: Args, rest: Args)
    requires OnlyOptions(options) && (rest == [] || StartsWithCommand(rest))
    requires rest == [] || rest[0] !in m || rest[0][0] == '\\'
    ensures Resolve(m, options + rest) == Some(options + rest)
  {
    PrefixOfOptions(options, rest);
    SubAtStop(m, options + rest, []);
  }

  /** An alias whose body leaves words. */
  lemma {:induction false} ResolveBody(m: AliasMap, args: Args, inner: Outcome)
    requires !Stops(m, Suffix(args)) && inner == Sub(m, m[Suffix(args)[0]], [Suffix(args)[0]])
    requires inner.Resolved? && inner.rest != []
    ensures Resolve(m, args) == Some(Prefix(args) + inner.options + (inner.rest + Suffix(args)[1..]))
  {
    hide PrefixLength, Prefix, Suffix, Sub;
    SubOfAlias(m, args, []);
    assert [] + [Suffix(args)[0]] == [Suffix(args)[0]];
  }

  /** An alias whose body is options and then words that are no alias again, or escaped with a backslash. */
  lemma {:induction false} ResolveAlias(m: AliasMap, options: Args, x: string, tail: Args, bodyOptions: Args, words: Args)
    requires OnlyOptions(options) && StartsWithCommand([x]) && x[0] != '\\' && x in m
    requires m[x] == bodyOptions + words && OnlyOptions(bodyOptions) && StartsWithCommand(words)
    requires words[0] !in m || words[0][0] == '\\'
    ensures Resolve(m, options + ([x] + tail)) ==
            Some(options + bodyOptions
                 + ((if words[0][0] == '\\' then [words[0][1..]] + words[1..] else words) + tail))
  {
    var args := options + ([x] + tail);
    PrefixOfOptions(options, [x] + tail);
    PrefixOfOptions(bodyOptions, words);
    hide PrefixLength, Prefix, Suffix, Sub, Resolve;
    assert Suffix(args)[0] == x && Suffix(args)[1..] == tail;
    SubAtStop(m, m[x], [x]);
    ResolveBody(m, args, Sub(m, m[x], [x]));
  }

  /** An alias whose body holds options only: they are hoisted, and resolution goes on behind it. */
  lemma {:induction false} ResolveOptionsAlias(m: AliasMap, options: Args, x: string, tail: Args)
    requires OnlyOptions(options) && StartsWithCommand([x]) && x[0] != '\\' && x in m
    requires OnlyOptions(m[x])
    ensures var rest := Sub(m, tail, []);
      Resolve(m, options + [x] + tail) ==
      if rest == Recursion then None else Some(options + m[x] + rest.options + rest.rest)
  {
    var args := options + ([x] + tail);
    assert args == options + [x] + tail && ([x] + tail)[1..] == tail;
    PrefixOfOptions(options, [x] + tail);
    PrefixOfOptions(m[x], []);
    assert m[x] + [] == m[x];
    SubOfAlias(m, args, []);
    SubAtStop(m, m[x], [x]);
    assert [] + [x] == [x];
  }

  // ----- The resolver object -----

  class Resolver {
    var aliases: AliasMap
    var enabled: bool
    var prefixOptions: Args
    var stack: Args

    constructor (aliases: AliasMap, enabled: bool)
      ensures this.aliases == aliases && this.enabled == enabled
    {
      this.aliases, this.enabled := aliases, enabled;
      prefixOptions, stack := [], [];
    }

    /** `store_prefix`. */
    method StorePrefix(args: Args) returns (rest: Args)
      modifies this`prefixOptions
      ensures rest == Suffix(args) && prefixOptions == old(prefixOptions) + Prefix(args)
    {
      var num := 0;
      while num < |args| && IsOption(args[num])
        invariant 0 <= num <= |args|
        invariant PrefixLength(args) == num + PrefixLength(args[num..])
      {
        num := num + 1;
      }
      prefixOptions := prefixOptions + args[..num];
      return args[num..];
    }

    /** `subresolve`; None is the infinite-recursion error. */
    method SubResolve(args: Args) returns (r: Option<Args>)
      modifies this`prefixOptions, this`stack
      ensures var o := Sub(aliases, args, old(stack));
        && (o == Recursion <==> r == None)
        && (o.Resolved? ==>
              && r == Some(o.rest)
              && prefixOptions == old(prefixOptions) + o.options
              && stack == o.stack)
      decreases OffStack(aliases, stack), |args|
    {
      hide Sub, PrefixLength;
      ghost var hoisted := prefixOptions;
      var suffix := StorePrefix(args);
      if suffix == [] || suffix[0] !in aliases || Escaped(suffix[0]) {
        SubAtStop(aliases, args, stack);
        if stack != [] {
          stack := stack[..|stack| - 1];
          if suffix != [] && Escaped(suffix[0]) {
            suffix := suffix[0 := suffix[0][1..]];
            assert suffix == Unescaped(Suffix(args));
          }
        }
        return Some(suffix);
      }
      if suffix[0] in stack {
        SubOnStack(aliases, args, stack);
        return None;
      }
      PushShrinks(aliases, stack, suffix[0]);
      SubOfAlias(aliases, args, stack);
      ghost var inner := Sub(aliases, aliases[suffix[0]], stack + [suffix[0]]);
      stack := stack + [suffix[0]];
      var current := SubResolve(aliases[suffix[0]]);
      if current == None {
        return None;
      }
      Associates(hoisted, Prefix(args), inner.options);
      if current.value != [] {
        return Some(current.value + suffix[1..]);
      }
      EmptyPopsOne(aliases, aliases[suffix[0]], old(stack) + [suffix[0]]);
      assert stack == old(stack);
      ghost var after := Sub(aliases, suffix[1..], stack);
      r := SubResolve(suffix[1..]);
      if after.Resolved? {
        Associates(hoisted, Prefix(args) + inner.options, after.options);
      }
    }

    /** `resolve`: the arguments stay as they are when resolution fails or is disabled. */
    method ResolveArgs(args: Args) returns (r: Args)
      modifies this`prefixOptions, this`stack
      ensures r == if enabled && Resolve(aliases, args).Some? then Resolve(aliases, args).value else args
    {
      hide Sub;
      r := args;
      if enabled {
        stack, prefixOptions := [], [];
        var suffix := SubResolve(args);
        if suffix.Some? {
          r := prefixOptions + suffix.value;
        }
      }
    }
  }
}
