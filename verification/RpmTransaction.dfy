/** The RPMTransaction of dnf/db/group.py: its add_* calls and what it hands to rpm. */
module RpmTransaction {
  import opened Wrappers
  import opened TransactionItems

  /** `idx` stands for everything that tells packages of the same NEVRA apart. */
  datatype Package = Package(name: string, arch: string, nevra: string, idx: nat)

  /** A reason's number; 0, the unknown reason, counts as false. */
  type Reason = nat

  /** An item of the transaction; `replacedBy` lists other items of it, by index. */
  datatype HistoryItem = HistoryItem(pkg: Package, action: Action, reason: Reason, replacedBy: seq<nat>, state: State)

  /** FORWARD_ACTIONS (dnf/transaction.py). */
  predicate Forward(a: Action) {
    a in {Install, Downgrade, Obsolete, Upgrade, Reinstall}
  }

  /** The actions of items that some forward item replaces. */
  predicate ReplacedAction(a: Action) {
    a in {Downgraded, Reinstalled, Upgraded, Obsoleted}
  }

  datatype Old = Old(pkg: Package, action: Action)

  /** A call that adds to the transaction: one of add_downgrade, add_reinstall, add_install and add_upgrade; add_erase; history.set_reason. */
  datatype Call =
    | Replace(pkg: Package, action: Action, reason: Reason, olds: seq<Old>)
    | Erase(pkg: Package, reason: Reason)
    | SetReason(pkg: Package, reason: Reason)

  predicate GoodCall(c: Call) {
    c.Replace? ==> Forward(c.action) && forall k :: 0 <= k < |c.olds| ==> ReplacedAction(c.olds[k].action)
  }

  predicate GoodCalls(calls: seq<Call>) {
    forall k :: 0 <= k < |calls| ==> GoodCall(calls[k])
  }

  function OldItems(recorded: Package -> Reason, owner: nat, olds: seq<Old>): (r: seq<HistoryItem>)
    ensures |r| == |olds|
    ensures forall k :: 0 <= k < |olds| ==>
              r[k] == HistoryItem(olds[k].pkg, olds[k].action, recorded(olds[k].pkg), [owner], Unknown)
  {
    seq(|olds|, k requires 0 <= k < |olds| =>
      HistoryItem(olds[k].pkg, olds[k].action, recorded(olds[k].pkg), [owner], Unknown))
  }

  /** The items that a call adds after the first `base` items. */
  function Added(recorded: Package -> Reason, base: nat, c: Call): seq<HistoryItem> {
    match c
    case Replace(pkg, action, reason, olds) =>
      [HistoryItem(pkg, action, reason, [], Unknown)] + OldItems(recorded, base, olds)
    case Erase(pkg, reason) => [HistoryItem(pkg, Remove, reason, [], Unknown)]
    case SetReason(pkg, reason) => [HistoryItem(pkg, ReasonChange, reason, [], Done)]
  }

  /** The items after the calls. */
  function Perform(recorded: Package -> Reason, calls: seq<Call>): seq<HistoryItem>
    decreases |calls|
  {
    if calls == [] then []
    else
      var before := Perform(recorded, calls[..|calls| - 1]);
      before + Added(recorded, |before|, calls[|calls| - 1])
  }

  lemma PerformSnoc(recorded: Package -> Reason, calls: seq<Call>, c: Call)
    ensures Perform(recorded, calls + [c]) ==
            Perform(recorded, calls) + Added(recorded, |Perform(recorded, calls)|, c)
  {
    assert (calls + [c])[..|calls|] == calls;
  }

  // ----- What the items of a transaction look like -----

  /** The last forward item up to and including item i. */
  function Owner(items: seq<HistoryItem>, i: nat): (r: Option<nat>)
    requires i < |items|
    ensures r.Some? ==> r.value <= i && Forward(items[r.value].action)
    ensures r.Some? ==> forall j :: r.value < j <= i ==> !Forward(items[j].action)
  {
    if Forward(items[i].action) then Some(i)
    else if i == 0 then None
    else Owner(items, i - 1)
  }

  /** Item i is replaced by the forward item of its own call, and by no other, if by any. */
  predicate ReplacedRightly(items: seq<HistoryItem>, i: nat)
    requires i < |items|
  {
    if ReplacedAction(items[i].action) then
      Owner(items, i).Some? && items[i].replacedBy == [Owner(items, i).value]
    else items[i].replacedBy == []
  }

  predicate Untouched(item: HistoryItem) {
    item.state == if item.action == ReasonChange then Done else Unknown
  }

  /** The items after some calls, before rpm has run. */
  predicate Initial(items: seq<HistoryItem>) {
    forall i :: 0 <= i < |items| ==> ReplacedRightly(items, i) && Untouched(items[i])
  }

  lemma {:induction false} OwnerPrefix(a: seq<HistoryItem>, b: seq<HistoryItem>, i: nat)
    requires i < |a|
    ensures Owner(a + b, i) == Owner(a, i)
  {
    assert forall j :: 0 <= j <= i ==> (a + b)[j] == a[j];
    if !Forward(a[i].action) && i > 0 {
      OwnerPrefix(a, b, i - 1);
    }
  }

  /** The items of one call all belong to its forward item. */
  lemma {:induction false} OwnerInCall(items: seq<HistoryItem>, base: nat, i: nat)
    requires base <= i < |items| && Forward(items[base].action)
    requires forall j :: base < j <= i ==> !Forward(items[j].action)
    ensures Owner(items, i) == Some(base)
  {
    if i > base {
      OwnerInCall(items, base, i - 1);
    }
  }

  lemma AddedIsRight(recorded: Package -> Reason, before: seq<HistoryItem>, c: Call, i: nat)
    requires GoodCall(c) && |before| <= i < |before| + |Added(recorded, |before|, c)|
    ensures var items := before + Added(recorded, |before|, c); ReplacedRightly(items, i) && Untouched(items[i])
  {
    var items := before + Added(recorded, |before|, c);
    if c.Replace? {
      assert forall j :: |before| < j < |items| ==> items[j] == OldItems(recorded, |before|, c.olds)[j - |before| - 1];
      OwnerInCall(items, |before|, i);
    }
  }

  lemma {:induction false} PerformInitial(recorded: Package -> Reason, calls: seq<Call>)
    requires GoodCalls(calls)
    ensures Initial(Perform(recorded, calls))
    decreases |calls|
  {
    hide ReplacedRightly, Added, Owner, Untouched;
    if calls != [] {
      var init := calls[..|calls| - 1];
      PerformInitial(recorded, init);
      var before := Perform(recorded, init);
      var c := calls[|calls| - 1];
      var items := before + Added(recorded, |before|, c);
      forall i | 0 <= i < |items|
        ensures ReplacedRightly(items, i) && Untouched(items[i])
      {
        if i < |before| {
          RightInPrefix(before, Added(recorded, |before|, c), i);
        } else {
          AddedIsRight(recorded, before, c, i);
        }
      }
    }
  }

  lemma RightInPrefix(before: seq<HistoryItem>, more: seq<HistoryItem>, i: nat)
    requires i < |before| && ReplacedRightly(before, i) && Untouched(before[i])
    ensures ReplacedRightly(before + more, i) && Untouched((before + more)[i])
  {
    OwnerPrefix(before, more, i);
  }

  /** The packages of the items with one of some actions, in order. */
  function PackagesOf(items: seq<HistoryItem>, actions: set<Action>): seq<Package> {
    if items == [] then []
    else (if items[0].action in actions then [items[0].pkg] else []) + PackagesOf(items[1..], actions)
  }

  lemma {:induction false} PackagesOfAppend(a: seq<HistoryItem>, b: seq<HistoryItem>, actions: set<Action>)
    ensures PackagesOf(a + b, actions) == PackagesOf(a, actions) + PackagesOf(b, actions)
  {
    if a == [] {
      assert a + b == b;
    } else {
      hide PackagesOf;
      PackagesOfAppend(a[1..], b, actions);
      PackagesOfCons(a, b, actions);
      PackagesOfCons(a, [], actions);
      assert a + [] == a && a[1..] + [] == a[1..];
    }
  }

  lemma PackagesOfCons(a: seq<HistoryItem>, b: seq<HistoryItem>, actions: set<Action>)
    requires a != []
    ensures PackagesOf(a + b, actions) ==
            (if a[0].action in actions then [a[0].pkg] else []) + PackagesOf(a[1..] + b, actions)
  {
    assert (a + b)[1..] == a[1..] + b;
  }

  function CallAction(c: Call): Action {
    match c
    case Replace(_, action, _, _) => action
    case Erase(_, _) => Remove
    case SetReason(_, _) => ReasonChange
  }

  /** The packages of the calls with one of some actions, in order. */
  function CallPackages(calls: seq<Call>, actions: set<Action>): seq<Package>
    decreases |calls|
  {
    if calls == [] then []
    else
      var c := calls[|calls| - 1];
      CallPackages(calls[..|calls| - 1], actions) + if CallAction(c) in actions then [c.pkg] else []
  }

  lemma {:induction false} NoneOf(items: seq<HistoryItem>, actions: set<Action>)
    requires forall i :: 0 <= i < |items| ==> items[i].action !in actions
    ensures PackagesOf(items, actions) == []
  {
    if items != [] {
      NoneOf(items[1..], actions);
    }
  }

  /** None of the actions is that of a replaced item. */
  predicate OwnActions(actions: set<Action>) {
    actions !! {Downgraded, Reinstalled, Upgraded, Obsoleted}
  }

  lemma AddedPackages(recorded: Package -> Reason, base: nat, c: Call, actions: set<Action>)
    requires GoodCall(c) && OwnActions(actions)
    ensures PackagesOf(Added(recorded, base, c), actions) == if CallAction(c) in actions then [c.pkg] else []
  {
    var added := Added(recorded, base, c);
    if c.Replace? {
      NoneOf(OldItems(recorded, base, c.olds), actions);
      assert added[1..] == OldItems(recorded, base, c.olds);
    } else {
      assert added[1..] == [];
    }
  }

  /** The items' packages are the calls' packages, action by action, in the order of the calls. */
  lemma {:induction false} PerformPackages(recorded: Package -> Reason, calls: seq<Call>, actions: set<Action>)
    requires GoodCalls(calls) && OwnActions(actions)
    ensures PackagesOf(Perform(recorded, calls), actions) == CallPackages(calls, actions)
    decreases |calls|
  {
    hide PackagesOf, Added, OwnActions, CallAction;
    if calls == [] {
      NoneOf([], actions);
    } else {
      var init := calls[..|calls| - 1];
      PerformPackages(recorded, init, actions);
      var before := Perform(recorded, init);
      var c := calls[|calls| - 1];
      PackagesOfAppend(before, Added(recorded, |before|, c), actions);
      AddedPackages(recorded, |before|, c, actions);
    }
  }

  // ----- The rpm transaction set -----

  datatype Command =
    | AddInstall(pkg: Package, key: nat, upgrade: bool)
    | AddReinstall(pkg: Package, key: nat)
    | AddErase(pkg: Package)

  /** What `_populate_rpm_ts` asks of rpm for item k. */
  function CommandFor(item: HistoryItem, k: nat): seq<Command> {
    match item.action
    case Downgrade => [AddInstall(item.pkg, k, true)]
    case Install => [AddInstall(item.pkg, k, false)]
    case Obsolete => [AddInstall(item.pkg, k, true)]
    case Upgrade => [AddInstall(item.pkg, k, true)]
    case Reinstall => [AddReinstall(item.pkg, k)]
    case ReasonChange => []
    case _ => [AddErase(item.pkg)]
  }

  function Commands(items: seq<HistoryItem>): seq<Command>
    decreases |items|
  {
    if items == [] then []
    else Commands(items[..|items| - 1]) + CommandFor(items[|items| - 1], |items| - 1)
  }

  /** The number of items that rpm is asked something for: all but reason changes. */
  function Asked(items: seq<HistoryItem>): nat
    decreases |items|
  {
    if items == [] then 0
    else Asked(items[..|items| - 1]) + if items[|items| - 1].action == ReasonChange then 0 else 1
  }

  /** What rpm is to be told about item k. */
  predicate ToldFor(c: Command, item: HistoryItem, k: nat) {
    && (item.action in {Downgrade, Obsolete, Upgrade} ==> c == AddInstall(item.pkg, k, true))
    && (item.action == Install ==> c == AddInstall(item.pkg, k, false))
    && (item.action == Reinstall ==> c == AddReinstall(item.pkg, k))
    && (item.action in {Downgraded, Obsoleted, Reinstalled, Remove, Upgraded} ==> c == AddErase(item.pkg))
  }

  /**
   In the order of the items, rpm gets one command for each but reason changes: an upgrade for
   downgrades, obsoletes and upgrades, a plain install, a reinstall, or an erase.
   */
  lemma {:induction false} CommandAt(items: seq<HistoryItem>, k: nat)
    requires k < |items|
    ensures |Commands(items)| == Asked(items)
    ensures items[k].action != ReasonChange ==>
              Asked(items[..k]) < |Commands(items)| && ToldFor(Commands(items)[Asked(items[..k])], items[k], k)
    decreases |items|
  {
    hide ToldFor;
    var init, n := items[..|items| - 1], |items| - 1;
    OneCommand(items[n], n);
    if init == [] {
      assert Commands(init) == [] && items[..0] == [];
    } else if k < n {
      CommandAt(init, k);
      assert init[..k] == items[..k];
      hide CommandFor;
      if items[k].action != ReasonChange {
        assert Commands(items)[Asked(items[..k])] == Commands(init)[Asked(items[..k])];
      }
    } else {
      CommandAt(init, 0);
    }
  }

  lemma OneCommand(item: HistoryItem, k: nat)
    ensures |CommandFor(item, k)| == if item.action == ReasonChange then 0 else 1
    ensures item.action != ReasonChange ==> ToldFor(CommandFor(item, k)[0], item, k)
  {
  }

  lemma {:induction false} CommandsMembers(items: seq<HistoryItem>, c: Command)
    ensures c in Commands(items) <==>
            exists i :: 0 <= i < |items| && items[i].action != ReasonChange && ToldFor(c, items[i], i)
    decreases |items|
  {
    hide ToldFor;
    if items != [] {
      var init, n := items[..|items| - 1], |items| - 1;
      CommandsMembers(init, c);
      CommandIsToldFor(items[n], n, c);
      assert forall i :: 0 <= i < n ==> init[i] == items[i];
      hide CommandFor;
    }
  }

  lemma CommandIsToldFor(item: HistoryItem, k: nat, c: Command)
    ensures c in CommandFor(item, k) <==> item.action != ReasonChange && ToldFor(c, item, k)
  {
  }

  /** Exactly which commands there are, kind by kind. */
  lemma CommandsExactly(items: seq<HistoryItem>, p: Package, k: nat)
    ensures AddInstall(p, k, true) in Commands(items) <==>
            k < |items| && items[k].pkg == p && items[k].action in {Downgrade, Obsolete, Upgrade}
    ensures AddInstall(p, k, false) in Commands(items) <==> k < |items| && items[k].pkg == p && items[k].action == Install
    ensures AddReinstall(p, k) in Commands(items) <==> k < |items| && items[k].pkg == p && items[k].action == Reinstall
    ensures AddErase(p) in Commands(items) <==>
            exists i :: 0 <= i < |items| && items[i].pkg == p
                        && items[i].action in {Downgraded, Obsoleted, Reinstalled, Remove, Upgraded}
  {
    hide Commands;
    CommandsMembers(items, AddInstall(p, k, true));
    CommandsMembers(items, AddInstall(p, k, false));
    CommandsMembers(items, AddReinstall(p, k));
    CommandsMembers(items, AddErase(p));
    forall i | 0 <= i < |items| && items[i].action != ReasonChange
      ensures ToldFor(AddErase(p), items[i], i) <==>
              items[i].pkg == p && items[i].action in {Downgraded, Obsoleted, Reinstalled, Remove, Upgraded}
    {
    }
  }

  /** The element that rpm hands back for a command. */
  function LabelOf(c: Command): Label {
    match c
    case AddInstall(pkg, key, _) => Label(Some(key), pkg.nevra)
    case AddReinstall(pkg, key) => Label(Some(key), pkg.nevra)
    case AddErase(pkg) => Label(None, pkg.nevra)
  }

  function CommandLabels(cs: seq<Command>): (r: seq<Label>)
    ensures |r| == |cs| && forall k :: 0 <= k < |cs| ==> r[k] == LabelOf(cs[k])
  {
    seq(|cs|, k requires 0 <= k < |cs| => LabelOf(cs[k]))
  }

  function InstallSet(items: seq<HistoryItem>): set<Package> {
    set i | 0 <= i < |items| && Forward(items[i].action) :: items[i].pkg
  }

  function RemoveSet(items: seq<HistoryItem>): set<Package> {
    set i | 0 <= i < |items| && Backward(items[i].action) :: items[i].pkg
  }

  function InstallPackages(cs: seq<Command>): set<Package> {
    set k | 0 <= k < |cs| && !cs[k].AddErase? :: cs[k].pkg
  }

  function ErasePackages(cs: seq<Command>): set<Package> {
    set k | 0 <= k < |cs| && cs[k].AddErase? :: cs[k].pkg
  }

  /** rpm is asked to install exactly the packages of `install_set` and to erase those of `remove_set`. */
  lemma {:induction false} CommandsAreSets(items: seq<HistoryItem>)
    ensures InstallSet(items) == InstallPackages(Commands(items))
    ensures RemoveSet(items) == ErasePackages(Commands(items))
    decreases |items|
  {
    if items != [] {
      var init, item, k := items[..|items| - 1], items[|items| - 1], |items| - 1;
      CommandsAreSets(init);
      assert items == init + [item];
      SetsSnoc(init, item);
      hide InstallSet, RemoveSet;
      CommandSets(Commands(init), item, k);
    }
  }

  lemma CommandSets(cs: seq<Command>, item: HistoryItem, k: nat)
    ensures InstallPackages(cs + CommandFor(item, k)) == InstallPackages(cs) + if Forward(item.action) then {item.pkg} else {}
    ensures ErasePackages(cs + CommandFor(item, k)) == ErasePackages(cs) + if Backward(item.action) then {item.pkg} else {}
  {
    var more := CommandFor(item, k);
    var all := cs + more;
    assert forall j :: 0 <= j < |cs| ==> all[j] == cs[j];
    if more != [] {
      assert all[|cs|] == more[0];
    }
  }

  lemma SetsSnoc(init: seq<HistoryItem>, item: HistoryItem)
    ensures InstallSet(init + [item]) == InstallSet(init) + if Forward(item.action) then {item.pkg} else {}
    ensures RemoveSet(init + [item]) == RemoveSet(init) + if Backward(item.action) then {item.pkg} else {}
  {
    var items := init + [item];
    assert forall i :: 0 <= i < |init| ==> items[i] == init[i];
    assert items[|init|] == item;
  }

  /** `_populate_rpm_ts`; None is the error about packages without modular metadata, here the set `failing`. */
  method PopulateRpmTs(items: seq<HistoryItem>, failing: set<Package>) returns (r: Option<seq<Command>>)
    ensures r == None <==> InstallSet(items) * failing != {}
    ensures r.Some? ==> r.value == Commands(items)
  {
    var ts: seq<Command> := [];
    var modularProblems := 0;
    assert items[..0] == [];
    hide InstallSet, Commands, CommandFor;
    NothingToInstall();
    for k := 0 to |items|
      invariant ts == Commands(items[..k])
      invariant modularProblems > 0 <==> InstallSet(items[..k]) * failing != {}
    {
      CommandsSnoc(items, k, failing);
      ts := ts + CommandFor(items[k], k);
      if Forward(items[k].action) && items[k].pkg in failing {
        modularProblems := modularProblems + 1;
      }
    }
    assert items[..|items|] == items;
    return if modularProblems > 0 then None else Some(ts);
  }

  lemma NothingToInstall()
    ensures InstallSet([]) == {} && Commands([]) == []
  {
  }

  lemma UnionMeets(a: set<Package>, x: Package, b: set<Package>)
    ensures (a + {x}) * b != {} <==> a * b != {} || x in b
  {
    assert (a + {x}) * b == a * b + {x} * b;
    if x in b {
      assert x in {x} * b;
    } else {
      assert {x} * b == {};
    }
  }

  lemma CommandsSnoc(items: seq<HistoryItem>, k: nat, failing: set<Package>)
    requires k < |items|
    ensures Commands(items[..k + 1]) == Commands(items[..k]) + CommandFor(items[k], k)
    ensures InstallSet(items[..k + 1]) * failing != {} <==>
            InstallSet(items[..k]) * failing != {} || (Forward(items[k].action) && items[k].pkg in failing)
  {
    assert items[..k + 1][..k] == items[..k] && items[..k + 1] == items[..k] + [items[k]];
    SetsSnoc(items[..k], items[k]);
    hide InstallSet, CommandFor;
    var before := InstallSet(items[..k]);
    if Forward(items[k].action) {
      UnionMeets(before, items[k].pkg, failing);
    } else {
      assert before + {} == before;
    }
  }

  method ComputeInstallSet(items: seq<HistoryItem>) returns (r: set<Package>)
    ensures r == InstallSet(items)
  {
    r := {};
    for k := 0 to |items|
      invariant r == InstallSet(items[..k])
    {
      assert items[..k + 1] == items[..k] + [items[k]];
      SetsSnoc(items[..k], items[k]);
      if Forward(items[k].action) {
        r := r + {items[k].pkg};
      }
    }
    assert items[..|items|] == items;
  }

  method ComputeRemoveSet(items: seq<HistoryItem>) returns (r: set<Package>)
    ensures r == RemoveSet(items)
  {
    r := {};
    for k := 0 to |items|
      invariant r == RemoveSet(items[..k])
    {
      assert items[..k + 1] == items[..k] + [items[k]];
      SetsSnoc(items[..k], items[k]);
      if Backward(items[k].action) {
        r := r + {items[k].pkg};
      }
    }
    assert items[..|items|] == items;
  }

  // ----- The class -----

  function AsOld(pkgs: seq<Package>, action: Action): (r: seq<Old>)
    ensures |r| == |pkgs| && forall k :: 0 <= k < |pkgs| ==> r[k] == Old(pkgs[k], action)
  {
    seq(|pkgs|, k requires 0 <= k < |pkgs| => Old(pkgs[k], action))
  }

  /** The call of add_downgrade, add_reinstall or add_upgrade. */
  function Replacing(pkg: Package, action: Action, reason: Reason, gone: Package, goneAction: Action,
                     obsoleted: seq<Package>): Call {
    Replace(pkg, action, reason, [Old(gone, goneAction)] + AsOld(obsoleted, Obsoleted))
  }

  lemma AddedReplacing(recorded: Package -> Reason, before: seq<HistoryItem>, pkg: Package, action: Action, gone: Package,
                       goneAction: Action, obsoleted: seq<Package>)
    ensures before + Added(recorded, |before|, Replacing(pkg, action, recorded(pkg), gone, goneAction, obsoleted)) ==
            before + [HistoryItem(pkg, action, recorded(pkg), [], Unknown)]
            + [HistoryItem(gone, goneAction, recorded(gone), [|before|], Unknown)]
            + OldItems(recorded, |before|, AsOld(obsoleted, Obsoleted))
  {
    var olds := [Old(gone, goneAction)] + AsOld(obsoleted, Obsoleted);
    assert OldItems(recorded, |before|, olds) ==
           [HistoryItem(gone, goneAction, recorded(gone), [|before|], Unknown)]
           + OldItems(recorded, |before|, AsOld(obsoleted, Obsoleted));
  }

  lemma AddedInstall(recorded: Package -> Reason, before: seq<HistoryItem>, pkg: Package, reason: Reason,
                     obsoleted: seq<Package>)
    ensures before + Added(recorded, |before|, Replace(pkg, Install, reason, AsOld(obsoleted, Obsoleted))) ==
            before + [HistoryItem(pkg, Install, reason, [], Unknown)]
            + OldItems(recorded, |before|, AsOld(obsoleted, Obsoleted))
  {
  }

  /** `recorded` stands for `get_reason`, which asks the history database. */
  class RPMTransaction {
    const recorded: Package -> Reason
    const user: Reason
    var items: seq<HistoryItem>

    constructor (recorded: Package -> Reason, user: Reason)
      ensures this.recorded == recorded && this.user == user && items == []
    {
      this.recorded, this.user, items := recorded, user, [];
    }

    method AddReplacedBy(ti: nat, other: nat)
      requires ti < |items|
      modifies this
      ensures items == old(items)[ti := old(items)[ti].(replacedBy := old(items)[ti].replacedBy + [other])]
    {
      items := items[ti := items[ti].(replacedBy := items[ti].replacedBy + [other])];
    }

    /** `new`: a fresh item at the end. */
    method New(pkg: Package, action: Action, reason: Option<Reason>, replacedBy: Option<nat>) returns (ti: nat)
      modifies this
      ensures ti == |old(items)|
      ensures items == old(items) + [HistoryItem(pkg, action, if reason == None then recorded(pkg) else reason.value,
                                                 if replacedBy == None then [] else [replacedBy.value], Unknown)]
    {
      ti := |items|;
      items := items + [HistoryItem(pkg, action, if reason == None then recorded(pkg) else reason.value, [], Unknown)];
      if replacedBy.Some? {
        AddReplacedBy(ti, replacedBy.value);
        assert [] + [replacedBy.value] == [replacedBy.value];
      }
    }

    method AddObsoleted(obsoleted: seq<Package>, owner: nat)
      modifies this
      ensures items == old(items) + OldItems(recorded, owner, AsOld(obsoleted, Obsoleted))
    {
      var k := 0;
      ghost var added := OldItems(recorded, owner, AsOld(obsoleted, Obsoleted));
      hide OldItems, AsOld;
      while k < |obsoleted|
        invariant 0 <= k <= |obsoleted|
        invariant items == old(items) + added[..k]
      {
        assert added[..k + 1] == added[..k] + [added[k]];
        var ti := New(obsoleted[k], Obsoleted, None, None);
        AddReplacedBy(ti, owner);
        assert [] + [owner] == [owner];
        k := k + 1;
      }
    }

    method AddReplacing(pkg: Package, action: Action, gone: Package, goneAction: Action, obsoleted: seq<Package>)
      modifies this
      ensures items == old(items) + Added(recorded, |old(items)|,
                                          Replacing(pkg, action, recorded(pkg), gone, goneAction, obsoleted))
    {
      hide OldItems, AsOld, Added, Replacing;
      AddedReplacing(recorded, items, pkg, action, gone, goneAction, obsoleted);
      var tiNew := New(pkg, action, None, None);
      var tiOld := New(gone, goneAction, None, Some(tiNew));
      AddObsoleted(obsoleted, tiNew);
    }

    method AddDowngrade(pkg: Package, gone: Package, obsoleted: seq<Package>)
      modifies this
      ensures items == old(items) + Added(recorded, |old(items)|,
                                          Replacing(pkg, Downgrade, recorded(pkg), gone, Downgraded, obsoleted))
    {
      AddReplacing(pkg, Downgrade, gone, Downgraded, obsoleted);
    }

    method AddReinstall(pkg: Package, gone: Package, obsoleted: seq<Package>)
      modifies this
      ensures items == old(items) + Added(recorded, |old(items)|,
                                          Replacing(pkg, Reinstall, recorded(pkg), gone, Reinstalled, obsoleted))
    {
      AddReplacing(pkg, Reinstall, gone, Reinstalled, obsoleted);
    }

    method AddUpgrade(pkg: Package, gone: Package, obsoleted: seq<Package>)
      modifies this
      ensures items == old(items) + Added(recorded, |old(items)|,
                                          Replacing(pkg, Upgrade, recorded(pkg), gone, Upgraded, obsoleted))
    {
      AddReplacing(pkg, Upgrade, gone, Upgraded, obsoleted);
    }

    method AddInstall(pkg: Package, obsoleted: seq<Package>, reason: Option<Reason>)
      modifies this
      ensures items == old(items) + Added(recorded, |old(items)|,
                                          Replace(pkg, Install, if reason == None then user else reason.value,
                                                  AsOld(obsoleted, Obsoleted)))
    {
      hide OldItems, AsOld, Added;
      AddedInstall(recorded, items, pkg, if reason == None then user else reason.value, obsoleted);
      var tiNew := New(pkg, Install, Some(if reason == None then user else reason.value), None);
      AddObsoleted(obsoleted, tiNew);
    }

    /** An unknown reason becomes the user's. */
    method AddErase(pkg: Package, reason: Reason)
      modifies this
      ensures items == old(items) + Added(recorded, |old(items)|, Erase(pkg, if reason == 0 then user else reason))
    {
      var tiOld := New(pkg, Remove, Some(if reason == 0 then user else reason), None);
    }

    /** `history.set_reason` (dnf/db/history.py): an item that is done already. */
    method AddReasonChange(pkg: Package, reason: Reason)
      modifies this
      ensures items == old(items) + Added(recorded, |old(items)|, SetReason(pkg, reason))
    {
      items := items + [HistoryItem(pkg, ReasonChange, reason, [], Done)];
    }
  }
}
