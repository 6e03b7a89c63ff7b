/** From a goal to settled history items: what state sync finds after rpm has run. */
module EndToEnd {
  import opened Wrappers
  import opened TransactionItems
  import opened StateSync
  import opened RpmTransaction
  import opened GoalTransaction

  /** The items as state sync sees them. */
  function Slots(items: seq<HistoryItem>): (r: seq<Slot>)
    ensures |r| == |items|
    ensures forall i :: 0 <= i < |items| ==> r[i] == Slot(items[i].action, items[i].pkg.nevra, items[i].state)
  {
    seq(|items|, i requires 0 <= i < |items| => Slot(items[i].action, items[i].pkg.nevra, items[i].state))
  }

  /** rpm handed back one element for each command, in any order and with any failures. */
  ghost predicate Ran(items: seq<HistoryItem>, els: seq<Element>) {
    multiset(Labels(els)) == multiset(CommandLabels(Commands(items)))
  }

  predicate AllUntouched(items: seq<HistoryItem>) {
    forall i :: 0 <= i < |items| ==> Untouched(items[i])
  }

  lemma {:induction false} KeylessAppend(a: seq<Label>, b: seq<Label>)
    ensures KeylessNevras(a + b) == KeylessNevras(a) + KeylessNevras(b)
  {
    if a == [] {
      assert a + b == b;
    } else {
      assert (a + b)[1..] == a[1..] + b;
      KeylessAppend(a[1..], b);
    }
  }

  lemma {:induction false} OpenAppend(a: seq<Slot>, b: seq<Slot>)
    ensures OpenNevras(a + b) == OpenNevras(a) + OpenNevras(b)
  {
    if a == [] {
      assert a + b == b;
    } else {
      assert (a + b)[1..] == a[1..] + b;
      OpenAppend(a[1..], b);
    }
  }

  lemma LabelsSnoc(items: seq<HistoryItem>)
    requires items != []
    ensures var k := |items| - 1;
      CommandLabels(Commands(items)) == CommandLabels(Commands(items[..k])) + CommandLabels(CommandFor(items[k], k))
  {
    hide LabelOf, CommandFor, CommandLabels;
    var k := |items| - 1;
    LabelsAppend(Commands(items[..k]), CommandFor(items[k], k));
  }

  lemma LabelsAppend(a: seq<Command>, b: seq<Command>)
    ensures CommandLabels(a + b) == CommandLabels(a) + CommandLabels(b)
  {
    hide LabelOf;
  }

  /** The label of an item's element, if there is one. */
  lemma LabelsForItem(item: HistoryItem, k: nat)
    ensures CommandLabels(CommandFor(item, k)) ==
            if Forward(item.action) then [Label(Some(k), item.pkg.nevra)]
            else if Backward(item.action) then [Label(None, item.pkg.nevra)]
            else []
  {
  }

  lemma OneItem(item: HistoryItem, k: nat)
    requires Untouched(item)
    ensures KeylessNevras(CommandLabels(CommandFor(item, k))) == OpenNevras([Slot(item.action, item.pkg.nevra, item.state)])
  {
    var slot := Slot(item.action, item.pkg.nevra, item.state);
    LabelsForItem(item, k);
    hide CommandLabels, CommandFor;
    assert [slot][1..] == [];
    if Backward(item.action) {
      var own := [Label(None, item.pkg.nevra)];
      assert own[1..] == [] && KeylessNevras(own) == Own(own[0]) + multiset{};
    } else if Forward(item.action) {
      var own := [Label(Some(k), item.pkg.nevra)];
      assert own[1..] == [] && KeylessNevras(own) == Own(own[0]) + multiset{};
    }
  }

  /** One keyless erase for every backward item. */
  lemma {:induction false} OneErasePerItem(items: seq<HistoryItem>)
    requires AllUntouched(items)
    ensures KeylessNevras(CommandLabels(Commands(items))) == OpenNevras(Slots(items))
    decreases |items|
  {
    hide CommandLabels, CommandFor, LabelOf, OpenNevras, KeylessNevras, Untouched;
    if items == [] {
      NoCommands();
      assert Slots(items) == [];
    } else {
      var k := |items| - 1;
      OneErasePerItem(items[..k]);
      LabelsSnoc(items);
      OneItem(items[k], k);
      KeylessAppend(CommandLabels(Commands(items[..k])), CommandLabels(CommandFor(items[k], k)));
      OpenAppend(Slots(items[..k]), [Slots(items)[k]]);
      assert Slots(items) == Slots(items[..k]) + [Slots(items)[k]];
    }
  }

  lemma NoCommands()
    ensures CommandLabels(Commands([])) == [] && KeylessNevras([]) == multiset{} && OpenNevras([]) == multiset{}
  {
  }

  /** The label that item k gets, if it is a forward item. */
  predicate OwnLabel(items: seq<HistoryItem>, x: Label) {
    x.key.Some? && x.key.value < |items| && Forward(items[x.key.value].action)
    && x.nevra == items[x.key.value].pkg.nevra
  }

  /** One install, with its own key, for every forward item. */
  lemma {:induction false} OneInstallPerItem(items: seq<HistoryItem>, x: Label)
    requires x.key.Some?
    ensures multiset(CommandLabels(Commands(items)))[x] == if OwnLabel(items, x) then 1 else 0
    decreases |items|
  {
    hide CommandLabels, CommandFor, LabelOf;
    if items == [] {
      NoCommands();
    } else {
      var k := |items| - 1;
      OneInstallPerItem(items[..k], x);
      LabelsSnoc(items);
      OneLabel(items[k], k, x);
      hide Commands;
      Both(CommandLabels(Commands(items[..k])), CommandLabels(CommandFor(items[k], k)), x);
    }
  }

  lemma Both(a: seq<Label>, b: seq<Label>, x: Label)
    ensures multiset(a + b)[x] == multiset(a)[x] + multiset(b)[x]
  {
  }

  lemma OneLabel(item: HistoryItem, k: nat, x: Label)
    requires x.key.Some?
    ensures multiset(CommandLabels(CommandFor(item, k)))[x] ==
            if Forward(item.action) && x == Label(Some(k), item.pkg.nevra) then 1 else 0
  {
    LabelsForItem(item, k);
    hide CommandLabels, CommandFor;
  }

  lemma {:induction false} CountOfMember(s: seq<Label>, e: nat)
    requires e < |s|
    ensures multiset(s)[s[e]] >= 1
  {
    assert s[e] in s;
  }

  lemma CountOfTwo(s: seq<Label>, e: nat, f: nat)
    requires e < f < |s| && s[e] == s[f]
    ensures multiset(s)[s[e]] >= 2
  {
    assert s == s[..f] + s[f..];
    assert s[e] in s[..f] && s[f] in s[f..];
    Both(s[..f], s[f..], s[e]);
    assert s[..f][e] == s[e] && s[f..][0] == s[f];
    CountOfMember(s[..f], e);
    CountOfMember(s[f..], 0);
  }

  lemma KeysAreRight(items: seq<HistoryItem>, els: seq<Element>, e: nat)
    requires Ran(items, els) && e < |els| && els[e].tag.key.Some?
    ensures OwnLabel(items, els[e].tag)
  {
    OneInstallPerItem(items, els[e].tag);
    CountOfMember(Labels(els), e);
  }

  lemma RanIsWellKeyed(items: seq<HistoryItem>, els: seq<Element>)
    requires Ran(items, els)
    ensures WellKeyed(Slots(items), els)
  {
    hide Ran, Forward, Backward;
    forall e | 0 <= e < |els| && els[e].tag.key.Some?
      ensures OwnLabel(items, els[e].tag) && !Backward(items[els[e].tag.key.value].action)
    {
      KeysAreRight(items, els, e);
      ForwardIsNotBackward(items[els[e].tag.key.value].action);
    }
    forall e, f | 0 <= e < f < |els| && els[e].tag.key.Some?
      ensures els[e].tag.key != els[f].tag.key
    {
      KeysDiffer(items, els, e, f);
    }
  }

  lemma KeysDiffer(items: seq<HistoryItem>, els: seq<Element>, e: nat, f: nat)
    requires Ran(items, els) && e < f < |els| && els[e].tag.key.Some?
    ensures els[e].tag.key != els[f].tag.key
  {
    if els[e].tag.key == els[f].tag.key {
      KeysAreRight(items, els, e);
      KeysAreRight(items, els, f);
      OneInstallPerItem(items, els[e].tag);
      CountOfTwo(Labels(els), e, f);
    }
  }

  lemma ForwardIsNotBackward(a: Action)
    requires Forward(a)
    ensures !Backward(a)
  {
  }

  lemma RanKeysForward(items: seq<HistoryItem>, els: seq<Element>)
    requires Ran(items, els) && AllUntouched(items)
    ensures ForwardKeyed(Slots(items), els)
  {
    forall i | 0 <= i < |items| && Slots(items)[i].state == Unknown && !Backward(Slots(items)[i].action)
      ensures exists e :: 0 <= e < |els| && els[e].tag.key == Some(i)
    {
      var x := Label(Some(i), items[i].pkg.nevra);
      OneInstallPerItem(items, x);
      assert x in multiset(Labels(els));
      assert x in Labels(els);
      var e :| 0 <= e < |els| && Labels(els)[e] == x;
    }
  }

  function FailedCount(els: seq<Element>): nat {
    if els == [] then 0 else (if els[0].failed then 1 else 0) + FailedCount(els[1..])
  }

  lemma {:induction false} AllFailuresCount(claims: seq<Option<nat>>, els: seq<Element>)
    requires |claims| == |els| && None !in claims
    ensures Failures(claims, els) == FailedCount(els)
  {
    if els != [] {
      AllFailuresCount(claims[1..], els[1..]);
    }
  }

  lemma {:induction false} NoErrorsYet(slots: seq<Slot>)
    requires forall i :: 0 <= i < |slots| ==> slots[i].state != Error
    ensures Errors(slots) == 0
  {
    if slots != [] {
      NoErrorsYet(slots[1..]);
    }
  }

  /** After rpm has run, sync settles every item and reports nothing, and the errors are the failures. */
  lemma SyncSettles(items: seq<HistoryItem>, els: seq<Element>)
    requires AllUntouched(items) && Ran(items, els)
    ensures WellKeyed(Slots(items), els) && Complete(Slots(items), els)
    ensures Errors(After(Slots(items), els)) == FailedCount(els)
  {
    RanIsWellKeyed(items, els);
    RanKeysForward(items, els);
    OneErasePerItem(items);
    KeylessPermuted(Labels(els), CommandLabels(Commands(items)));
    Completeness(Slots(items), els);
    forall e | 0 <= e < |els| && els[e].tag.key.Some?
      ensures Slots(items)[els[e].tag.key.value].state == Unknown
    {
      KeysAreRight(items, els, e);
    }
    hide Ran, After, Claims, Errors, Failures, WellKeyed, ForwardKeyed, OpenNevras, KeylessNevras, FailedCount;
    ErrorsAreFailures(Slots(items), els);
    NoErrorsYet(Slots(items));
    AllFailuresCount(Claims(Slots(items), els), els);
  }

  /**
   End to end: translate a goal, let rpm run the commands in any order and with any failures,
   and sync. Every item is then done or an error, as many are errors as elements failed, and
   no two elements were taken for the same item.
   */
  lemma GoalIsSettled(g: Goal, w: World, els: seq<Element>)
    requires Translate(g, w, AllJobs(g)).1
    requires Ran(GoalItems(g, w), els)
    ensures WellKeyed(Slots(GoalItems(g, w)), els) && Complete(Slots(GoalItems(g, w)), els)
    ensures Errors(After(Slots(GoalItems(g, w)), els)) == FailedCount(els)
    ensures var claims := Claims(Slots(GoalItems(g, w)), els);
      && None !in claims
      && forall e, f :: 0 <= e < f < |claims| ==> claims[e] != claims[f]
  {
    hide Translate, AllJobs, Ran, Perform, Claims, After, Errors, FailedCount;
    var items := GoalItems(g, w);
    GoalItemsMeaning(g, w, {});
    SyncSettles(items, els);
    var claims := Claims(Slots(items), els);
    forall e, f | 0 <= e < f < |claims|
      ensures claims[e] != claims[f]
    {
      assert claims[e] in claims;
      ClaimsInjective(Slots(items), els, e, f);
    }
  }
}
