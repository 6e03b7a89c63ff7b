/** What the transaction built from a goal holds for each package, and what rpm is told for it. */
module GoalMeaning {
  import opened Wrappers
  import opened TransactionItems
  import opened RpmTransaction
  import opened GoalTransaction

  // ----- Which packages are obsoleted -----

  /** The packages that have the NEVRA, or those that have not. */
  function OfNevra(obs: seq<Package>, nevra: string, same: bool): seq<Package>
    decreases |obs|
  {
    if obs == [] then []
    else OfNevra(obs[..|obs| - 1], nevra, same)
         + (if (obs[|obs| - 1].nevra == nevra) == same then [obs[|obs| - 1]] else [])
  }

  function Reversed(s: seq<Package>): seq<Package> {
    if s == [] then [] else Reversed(s[1..]) + [s[0]]
  }

  lemma {:induction false} ReversedSnoc(s: seq<Package>, x: Package)
    ensures Reversed(s + [x]) == [x] + Reversed(s)
  {
    if s == [] {
      assert [] + [x] == [x] && [x][1..] == [];
    } else {
      assert (s + [x])[1..] == s[1..] + [x];
      ReversedSnoc(s[1..], x);
    }
  }

  /** For a reinstall, the packages of its NEVRA come first, the last one before the others; then the rest in order. */
  lemma {:induction false} ArrangeExactly(obs: seq<Package>, nevra: string)
    ensures Arrange(obs, nevra) == Reversed(OfNevra(obs, nevra, true)) + OfNevra(obs, nevra, false)
    decreases |obs|
  {
    if obs != [] {
      var front, last := obs[..|obs| - 1], obs[|obs| - 1];
      ArrangeExactly(front, nevra);
      var same, others := OfNevra(front, nevra, true), OfNevra(front, nevra, false);
      assert same + [] == same && others + [] == others;
      ReversedSnoc(same, last);
      hide Reversed;
      if last.nevra == nevra {
        assert [last] + (Reversed(same) + others) == [last] + Reversed(same) + others;
      } else {
        assert Reversed(same) + others + [last] == Reversed(same) + (others + [last]);
      }
    } else {
      assert Reversed([]) == [];
    }
  }

  /** A package is kept where it stands if it is obsoleted in the whole goal, or has the name. */
  lemma {:induction false} KeptExactly(a: seq<Package>, p: Package, b: seq<Package>, all: set<Package>, name: string)
    ensures Kept(a + [p] + b, all, name) ==
            Kept(a, all, name) + (if p in all || p.name == name then [p] else []) + Kept(b, all, name)
    ensures Kept([], all, name) == []
  {
    if a == [] {
      assert a + [p] + b == [p] + b && ([p] + b)[1..] == b;
    } else {
      assert (a + [p] + b)[1..] == a[1..] + [p] + b;
      KeptExactly(a[1..], p, b, all, name);
    }
  }

  /** An install inherits the first of the best reasons on record, if that is better than its own. */
  lemma {:induction false} BestReasonFirst(w: World, reason: Reason, obs: seq<Package>) returns (k: nat)
    ensures k <= |obs|
    ensures k == |obs| ==> BestReason(w, reason, obs) == reason
                           && forall j :: 0 <= j < |obs| ==> w.rank(w.recorded(obs[j])) <= w.rank(reason)
    ensures k < |obs| ==>
              && BestReason(w, reason, obs) == w.recorded(obs[k]) && w.rank(reason) < w.rank(w.recorded(obs[k]))
              && (forall j :: 0 <= j < k ==> w.rank(w.recorded(obs[j])) < w.rank(w.recorded(obs[k])))
              && (forall j :: k < j < |obs| ==> w.rank(w.recorded(obs[j])) <= w.rank(w.recorded(obs[k])))
    decreases |obs|
  {
    if obs == [] {
      k := 0;
    } else {
      var r := w.recorded(obs[0]);
      var better := w.rank(reason) < w.rank(r);
      var n := BestReasonFirst(w, if better then r else reason, obs[1..]);
      assert forall j :: 1 <= j < |obs| ==> obs[j] == obs[1..][j - 1];
      k := if n == |obs| - 1 && better then 0 else n + 1;
    }
  }

  /** Of the packages that stay, the first installed one of the name and architecture is taken. */
  lemma {:induction false} RemainingFirst(installed: seq<Package>, erasures: seq<Package>, pkg: Package) returns (k: nat)
    requires Remaining(installed, erasures, pkg).Some?
    ensures k < |installed| && Remaining(installed, erasures, pkg) == Some(installed[k])
    ensures forall j :: 0 <= j < k ==>
              installed[j] in erasures || installed[j].name != pkg.name || installed[j].arch != pkg.arch
  {
    var p := installed[0];
    if p !in erasures && p.name == pkg.name && p.arch == pkg.arch {
      k := 0;
    } else {
      var n := RemainingFirst(installed[1..], erasures, pkg);
      k := n + 1;
      assert forall j :: 1 <= j < |installed| ==> installed[j] == installed[1..][j - 1];
    }
  }

  // ----- What becomes of each package -----

  /** The items of call c stand together in the transaction, from item `base` on. */
  ghost predicate CallAdded(items: seq<HistoryItem>, recorded: Package -> Reason, c: Call, base: nat) {
    && base + |Added(recorded, base, c)| <= |items|
    && items[base..base + |Added(recorded, base, c)|] == Added(recorded, base, c)
  }

  lemma {:induction false} CallIsAdded(recorded: Package -> Reason, calls: seq<Call>, j: nat) returns (base: nat)
    requires j < |calls|
    ensures CallAdded(Perform(recorded, calls), recorded, calls[j], base)
    ensures base == |Perform(recorded, calls[..j])|
    decreases |calls|
  {
    hide Added;
    var n := |calls| - 1;
    var before := Perform(recorded, calls[..n]);
    if j == n {
      base := |before|;
    } else {
      base := CallIsAdded(recorded, calls[..n], j);
      assert calls[..n][..j] == calls[..j];
      InLonger(before, Added(recorded, |before|, calls[n]), recorded, calls[j], base);
    }
  }

  lemma InLonger(before: seq<HistoryItem>, more: seq<HistoryItem>, recorded: Package -> Reason, c: Call, base: nat)
    requires CallAdded(before, recorded, c, base)
    ensures CallAdded(before + more, recorded, c, base)
  {
    hide Added;
    var n := base + |Added(recorded, base, c)|;
    assert (before + more)[base..n] == before[base..n];
  }

  /** The calls of a job are made one after the other. */
  lemma {:induction false} JobIsTranslated(g: Goal, w: World, jobs: seq<Job>, n: nat) returns (j: nat)
    requires n < |jobs| && Translate(g, w, jobs).1
    ensures JobCalls(g, w, jobs[n]).Some?
    ensures var cs := JobCalls(g, w, jobs[n]).value;
      j + |cs| <= |Translate(g, w, jobs).0| && Translate(g, w, jobs).0[j..j + |cs|] == cs
    decreases |jobs|
  {
    hide JobCalls;
    var first := JobCalls(g, w, jobs[0]).value;
    if n == 0 {
      j := 0;
    } else {
      var i := JobIsTranslated(g, w, jobs[1..], n - 1);
      j := |first| + i;
      var cs := JobCalls(g, w, jobs[n]).value;
      assert Translate(g, w, jobs).0 == first + Translate(g, w, jobs[1..]).0;
      Shifted(first, Translate(g, w, jobs[1..]).0, i, i + |cs|);
    }
  }

  lemma Shifted(a: seq<Call>, b: seq<Call>, i: nat, j: nat)
    requires i <= j <= |b|
    ensures (a + b)[|a| + i..|a| + j] == b[i..j]
  {
  }

  /** The calls at j make up a job, the items of the last one start at the base returned. */
  lemma CallsAreAdded(recorded: Package -> Reason, calls: seq<Call>, j: nat, cs: seq<Call>) returns (base: nat)
    requires 1 <= |cs| <= 2 && j + |cs| <= |calls| && calls[j..j + |cs|] == cs
    requires |cs| == 2 ==> cs[0].SetReason?
    ensures CallAdded(Perform(recorded, calls), recorded, cs[|cs| - 1], base)
    ensures |cs| == 2 ==> base >= 1 && CallAdded(Perform(recorded, calls), recorded, cs[0], base - 1)
  {
    hide CallAdded, Perform;
    assert calls[j..j + |cs|][0] == calls[j] == cs[0];
    if |cs| == 2 {
      assert calls[j..j + |cs|][1] == calls[j + 1] == cs[1];
      base := CallIsAdded(recorded, calls, j + 1);
      var before := CallIsAdded(recorded, calls, j);
      assert calls[..j + 1] == calls[..j] + [calls[j]];
      PerformSnoc(recorded, calls[..j], calls[j]);
      OneAdded(recorded, |Perform(recorded, calls[..j])|, calls[j]);
    } else {
      base := CallIsAdded(recorded, calls, j);
    }
  }

  /** The items of the last call of a job, and those of a call before it right in front of them. */
  lemma JobIsAdded(g: Goal, w: World, job: Job) returns (base: nat)
    requires Translate(g, w, AllJobs(g)).1 && job in AllJobs(g)
    ensures JobCalls(g, w, job).Some?
    ensures var cs := JobCalls(g, w, job).value;
      && 1 <= |cs| <= 2
      && CallAdded(GoalItems(g, w), w.recorded, cs[|cs| - 1], base)
      && (|cs| == 2 ==> base >= 1 && CallAdded(GoalItems(g, w), w.recorded, cs[0], base - 1))
  {
    hide Translate, AllJobs, CallAdded, JobCalls, Perform;
    var n :| 0 <= n < |AllJobs(g)| && AllJobs(g)[n] == job;
    var j := JobIsTranslated(g, w, AllJobs(g), n);
    JobShape(g, w, job);
    base := CallsAreAdded(w.recorded, Translate(g, w, AllJobs(g)).0, j, JobCalls(g, w, job).value);
  }

  lemma OneAdded(recorded: Package -> Reason, base: nat, c: Call)
    requires c.SetReason?
    ensures |Added(recorded, base, c)| == 1
  {
  }

  /** The item next to a forward item: the package that goes, replaced by it. */
  predicate GoesFor(items: seq<HistoryItem>, i: nat, p: Package, action: Action, gone: Package, goneAction: Action) {
    && i + 1 < |items|
    && items[i].pkg == p && items[i].action == action && items[i].replacedBy == []
    && items[i + 1].pkg == gone && items[i + 1].action == goneAction && items[i + 1].replacedBy == [i]
  }

  lemma ReplacingGoesFor(items: seq<HistoryItem>, recorded: Package -> Reason, base: nat, p: Package, action: Action,
                         reason: Reason, gone: Package, goneAction: Action, obsoleted: seq<Package>)
    requires CallAdded(items, recorded, Replacing(p, action, reason, gone, goneAction, obsoleted), base)
    ensures GoesFor(items, base, p, action, gone, goneAction)
    ensures base + 2 + |obsoleted| <= |items|
    ensures forall j :: base + 2 <= j < base + 2 + |obsoleted| ==>
              items[j].pkg == obsoleted[j - base - 2] && items[j].action == Obsoleted && items[j].replacedBy == [base]
  {
    var c := Replacing(p, action, reason, gone, goneAction, obsoleted);
    var added := Added(recorded, base, c);
    assert |added| == |obsoleted| + 2;
    assert forall j :: base <= j < base + |added| ==> items[base..base + |added|][j - base] == items[j];
    assert added[1] == HistoryItem(gone, goneAction, recorded(gone), [base], Unknown);
    forall k | 2 <= k < |added|
      ensures added[k] == HistoryItem(obsoleted[k - 2], Obsoleted, recorded(obsoleted[k - 2]), [base], Unknown)
    {
      assert c.olds[k - 1] == Old(obsoleted[k - 2], Obsoleted);
    }
    forall j | base + 2 <= j < base + 2 + |obsoleted|
      ensures items[j] == HistoryItem(obsoleted[j - base - 2], Obsoleted, recorded(obsoleted[j - base - 2]), [base], Unknown)
    {
      assert items[j] == added[j - base];
    }
  }

  /** A downgrade is followed by the first package it obsoletes as downgraded, and by the others as obsoleted. */
  lemma DowngradeItems(g: Goal, w: World, p: Package) returns (i: nat)
    requires Translate(g, w, AllJobs(g)).1 && p in g.downgrades
    ensures g.obsoletedBy(p) != []
    ensures var items, obs := GoalItems(g, w), g.obsoletedBy(p);
      && GoesFor(items, i, p, Downgrade, obs[0], Downgraded)
      && i + |obs| < |items|
      && forall j :: i + 1 < j <= i + |obs| ==> items[j].pkg == obs[j - i - 1] && items[j].action == Obsoleted
  {
    AllJobsMembers(g);
    assert Job(Downgrading, p) in AllJobs(g);
    hide Translate, AllJobs, GoalItems, CallAdded, JobCalls, Replacing, GoesFor;
    i := JobIsAdded(g, w, Job(Downgrading, p));
    DowngradeCall(g, w, p);
    var obs := g.obsoletedBy(p);
    ReplacingGoesFor(GoalItems(g, w), w.recorded, i, p, Downgrade, w.recorded(p), obs[0], Downgraded, obs[1..]);
  }

  lemma DowngradeCall(g: Goal, w: World, p: Package)
    requires JobCalls(g, w, Job(Downgrading, p)).Some?
    ensures var obs := g.obsoletedBy(p);
      obs != [] && JobCalls(g, w, Job(Downgrading, p)).value ==
      [Replacing(p, Downgrade, w.recorded(p), obs[0], Downgraded, obs[1..])]
  {
    hide Replacing;
  }

  /** A reinstall is followed by one of the packages it obsoletes, of the same NEVRA if there is one, as reinstalled. */
  lemma ReinstallItems(g: Goal, w: World, p: Package) returns (i: nat)
    requires Translate(g, w, AllJobs(g)).1 && p in g.reinstalls
    ensures var items, obs := GoalItems(g, w), g.obsoletedBy(p);
      && i + 1 < |items| && GoesFor(items, i, p, Reinstall, items[i + 1].pkg, Reinstalled)
      && items[i + 1].pkg in obs
      && (items[i + 1].pkg.nevra == p.nevra <==> exists k :: 0 <= k < |obs| && obs[k].nevra == p.nevra)
  {
    AllJobsMembers(g);
    assert Job(Reinstalling, p) in AllJobs(g);
    hide Translate, AllJobs, GoalItems, CallAdded, Arrange, JobCalls, Replacing;
    i := JobIsAdded(g, w, Job(Reinstalling, p));
    ReinstallCall(g, w, p);
    var obs, arranged := g.obsoletedBy(p), Arrange(g.obsoletedBy(p), p.nevra);
    ReplacingGoesFor(GoalItems(g, w), w.recorded, i, p, Reinstall, w.recorded(p), arranged[0], Reinstalled, arranged[1..]);
    ArrangeKeeps(obs, p.nevra);
    ArrangeFirst(obs, p.nevra);
    assert arranged[0] in multiset(arranged);
  }

  lemma ReinstallCall(g: Goal, w: World, p: Package)
    requires JobCalls(g, w, Job(Reinstalling, p)).Some?
    ensures var arranged := Arrange(g.obsoletedBy(p), p.nevra);
      arranged != [] && JobCalls(g, w, Job(Reinstalling, p)).value ==
      [Replacing(p, Reinstall, w.recorded(p), arranged[0], Reinstalled, arranged[1..])]
  {
    hide Replacing, Arrange;
  }

  /**
   An upgrade of a package that is not install-only is followed by the first package of its name
   that it obsoletes, or else by the first one, as upgraded.
   */
  lemma UpgradeItems(g: Goal, w: World, p: Package) returns (i: nat, k: nat)
    requires Translate(g, w, AllJobs(g)).1 && p in g.upgrades && p !in w.installOnly
    ensures k < |g.obsoletedBy(p)| && GoesFor(GoalItems(g, w), i, p, Upgrade, g.obsoletedBy(p)[k], Upgraded)
    ensures forall j :: 0 <= j < k ==> g.obsoletedBy(p)[j].name != p.name
    ensures g.obsoletedBy(p)[k].name != p.name ==>
              k == 0 && forall j :: 0 <= j < |g.obsoletedBy(p)| ==> g.obsoletedBy(p)[j].name != p.name
  {
    AllJobsMembers(g);
    assert Job(Upgrading, p) in AllJobs(g);
    hide Translate, AllJobs, GoalItems, CallAdded, Kept, Upgradee, JobCalls, Replacing, GoesFor;
    i := JobIsAdded(g, w, Job(Upgrading, p));
    UpgradeCall(g, w, p);
    var obs := g.obsoletedBy(p);
    k := Upgradee(obs, p.name).value;
    ReplacingGoesFor(GoalItems(g, w), w.recorded, i, p, Upgrade, w.recorded(p), obs[k], Upgraded,
                     Kept(obs[..k] + obs[k + 1..], g.allObsoleted, p.name));
  }

  lemma UpgradeCall(g: Goal, w: World, p: Package)
    requires p !in w.installOnly && JobCalls(g, w, Job(Upgrading, p)).Some?
    ensures Upgradee(g.obsoletedBy(p), p.name).Some?
    ensures var obs := g.obsoletedBy(p);
      var k := Upgradee(obs, p.name).value;
      JobCalls(g, w, Job(Upgrading, p)) ==
      Some([Replacing(p, Upgrade, w.recorded(p), obs[k], Upgraded,
                      Kept(obs[..k] + obs[k + 1..], g.allObsoleted, p.name))])
  {
    hide Kept, Upgradee, Replacing;
  }

  lemma ReplaceGoesFor(items: seq<HistoryItem>, recorded: Package -> Reason, base: nat, p: Package,
                       reason: Reason, obsoleted: seq<Package>)
    requires CallAdded(items, recorded, Replace(p, Install, reason, AsOld(obsoleted, Obsoleted)), base)
    ensures InstallsFor(items, base, p, reason, obsoleted)
  {
    var c := Replace(p, Install, reason, AsOld(obsoleted, Obsoleted));
    var added := Added(recorded, base, c);
    assert |added| == |obsoleted| + 1;
    assert forall j :: base <= j < base + |added| ==> items[base..base + |added|][j - base] == items[j];
    forall j | base < j <= base + |obsoleted|
      ensures items[j] == HistoryItem(obsoleted[j - base - 1], Obsoleted, recorded(obsoleted[j - base - 1]), [base], Unknown)
    {
      assert items[j] == added[j - base];
      assert c.olds[j - base - 1] == Old(obsoleted[j - base - 1], Obsoleted);
    }
  }

  /** Item i installs p for a reason, and the packages that it obsoletes follow. */
  predicate InstallsFor(items: seq<HistoryItem>, i: nat, p: Package, reason: Reason, obsoleted: seq<Package>) {
    && i + |obsoleted| < |items|
    && items[i].pkg == p && items[i].action == Install && items[i].reason == reason && items[i].replacedBy == []
    && forall j :: i < j <= i + |obsoleted| ==>
         items[j].pkg == obsoleted[j - i - 1] && items[j].action == Obsoleted && items[j].replacedBy == [i]
  }

  /**
   An install is followed by the packages that it obsoletes and that are kept. Its reason is the
   goal's, or for an install-only package of an installed name the one on record, or a better one
   of a package that it obsoletes.
   */
  lemma InstallItems(g: Goal, w: World, p: Package) returns (i: nat)
    requires Translate(g, w, AllJobs(g)).1 && p in g.installs
    ensures var own := if p in w.installOnly && p.name in w.installOnlyNames then w.recorded(p) else g.reason(p);
      var obsoleted := Kept(g.obsoletedBy(p), g.allObsoleted, p.name);
      InstallsFor(GoalItems(g, w), i, p, BestReason(w, own, obsoleted), obsoleted)
  {
    AllJobsMembers(g);
    assert Job(Installing, p) in AllJobs(g);
    var own := if p in w.installOnly && p.name in w.installOnlyNames then w.recorded(p) else g.reason(p);
    var obsoleted := Kept(g.obsoletedBy(p), g.allObsoleted, p.name);
    InstallCall(g, w, p);
    hide Translate, AllJobs, GoalItems, CallAdded, Kept, BestReason, JobCalls, InstallsFor, AsOld;
    i := JobIsAdded(g, w, Job(Installing, p));
    ReplaceGoesFor(GoalItems(g, w), w.recorded, i, p, BestReason(w, own, obsoleted), obsoleted);
  }

  lemma InstallCall(g: Goal, w: World, p: Package)
    ensures var own := if p in w.installOnly && p.name in w.installOnlyNames then w.recorded(p) else g.reason(p);
      var obsoleted := Kept(g.obsoletedBy(p), g.allObsoleted, p.name);
      JobCalls(g, w, Job(Installing, p)) ==
      Some([Replace(p, Install, BestReason(w, own, obsoleted), AsOld(obsoleted, Obsoleted))])
  {
    hide Kept, BestReason, AsOld;
  }

  /** An erasure comes right after the reason change of the first package of its name and architecture that stays. */
  lemma EraseItems(g: Goal, w: World, p: Package) returns (i: nat)
    requires Translate(g, w, AllJobs(g)).1 && p in g.erasures
    ensures i < |GoalItems(g, w)| && GoalItems(g, w)[i].pkg == p && GoalItems(g, w)[i].action == Remove
    ensures var stays := Remaining(w.installed, g.erasures, p);
      stays.Some? ==>
        && i >= 1 && GoalItems(g, w)[i - 1].action == ReasonChange && GoalItems(g, w)[i - 1].pkg == stays.value
        && GoalItems(g, w)[i - 1].reason == w.recorded(stays.value) && GoalItems(g, w)[i - 1].state == Done
  {
    AllJobsMembers(g);
    assert Job(Erasing, p) in AllJobs(g);
    hide Translate, AllJobs, GoalItems, Remaining, CallAdded;
    i := JobIsAdded(g, w, Job(Erasing, p));
    EraseCalls(g, w, p);
    hide JobCalls;
    var reason := g.reason(p);
    EraseAdded(GoalItems(g, w), w.recorded, p, if reason == 0 then w.user else reason, i);
    match Remaining(w.installed, g.erasures, p)
    case Some(q) => ChangeAdded(GoalItems(g, w), w.recorded, q, w.recorded(q), i - 1);
    case None =>
  }

  lemma EraseCalls(g: Goal, w: World, p: Package)
    ensures var reason := g.reason(p);
      var last := Erase(p, if reason == 0 then w.user else reason);
      JobCalls(g, w, Job(Erasing, p)) ==
      match Remaining(w.installed, g.erasures, p)
      case Some(q) => Some([SetReason(q, w.recorded(q)), last])
      case None => Some([last])
  {
    hide Remaining;
    var reason := g.reason(p);
    var last := Erase(p, if reason == 0 then w.user else reason);
    match Remaining(w.installed, g.erasures, p)
    case Some(q) => assert [SetReason(q, w.recorded(q))] + [last] == [SetReason(q, w.recorded(q)), last];
    case None => assert [] + [last] == [last];
  }

  lemma EraseAdded(items: seq<HistoryItem>, recorded: Package -> Reason, p: Package, reason: Reason, base: nat)
    requires CallAdded(items, recorded, Erase(p, reason), base)
    ensures base < |items| && items[base] == HistoryItem(p, Remove, reason, [], Unknown)
  {
    assert items[base..base + 1][0] == items[base];
  }

  lemma ChangeAdded(items: seq<HistoryItem>, recorded: Package -> Reason, p: Package, reason: Reason, base: nat)
    requires CallAdded(items, recorded, SetReason(p, reason), base)
    ensures base < |items| && items[base] == HistoryItem(p, ReasonChange, reason, [], Done)
  {
    assert items[base..base + 1][0] == items[base];
  }

  // ----- What rpm is told -----

  lemma {:induction false} PackagesOfMember(items: seq<HistoryItem>, actions: set<Action>, p: Package)
    ensures p in PackagesOf(items, actions) <==>
            exists k :: 0 <= k < |items| && items[k].pkg == p && items[k].action in actions
  {
    if items != [] {
      PackagesOfMember(items[1..], actions, p);
      assert forall k :: 1 <= k < |items| ==> items[k] == items[1..][k - 1];
      if k :| 0 <= k < |items| && items[k].pkg == p && items[k].action in actions {
        assert k > 0 ==> items[1..][k - 1].pkg == p;
      }
    }
  }

  lemma {:induction false} UpgradesMember(w: World, pkgs: seq<Package>, installOnly: bool, p: Package)
    ensures p in Upgrades(w, pkgs, installOnly) <==> p in pkgs && (p in w.installOnly) == installOnly
  {
    if pkgs != [] {
      UpgradesMember(w, pkgs[1..], installOnly, p);
      assert pkgs == [pkgs[0]] + pkgs[1..];
    }
  }

  /**
   For a goal, rpm is told of an upgrade for its downgrades and for upgrades that are not of
   install-only packages, of an install for its installs and for the other upgrades, of a
   reinstall for its reinstalls, and of nothing else; and it is told to erase its erasures.
   */
  lemma GoalCommands(g: Goal, w: World, p: Package)
    requires Translate(g, w, AllJobs(g)).1
    ensures var cs := Commands(GoalItems(g, w));
      && ((exists k :: AddInstall(p, k, true) in cs) <==> p in g.downgrades || (p in g.upgrades && p !in w.installOnly))
      && ((exists k :: AddInstall(p, k, false) in cs) <==> p in g.installs || (p in g.upgrades && p in w.installOnly))
      && ((exists k :: AddReinstall(p, k) in cs) <==> p in g.reinstalls)
      && (p in g.erasures ==> AddErase(p) in cs)
  {
    var items := GoalItems(g, w);
    hide Translate, AllJobs, GoalItems, Commands, PackagesOf, Upgrades;
    ActionPackages(g, w, p);
    forall k: nat
      ensures AddInstall(p, k, true) in Commands(items) <==>
              k < |items| && items[k].pkg == p && items[k].action in {Downgrade, Obsolete, Upgrade}
      ensures AddInstall(p, k, false) in Commands(items) <==> k < |items| && items[k].pkg == p && items[k].action == Install
      ensures AddReinstall(p, k) in Commands(items) <==> k < |items| && items[k].pkg == p && items[k].action == Reinstall
    {
      CommandsExactly(items, p, k);
    }
    CommandsExactly(items, p, 0);
  }

  /** Which actions there are items of a package for. */
  lemma ActionPackages(g: Goal, w: World, p: Package)
    requires Translate(g, w, AllJobs(g)).1
    ensures var items := GoalItems(g, w);
      && ((exists k :: 0 <= k < |items| && items[k].pkg == p && items[k].action in {Downgrade, Obsolete, Upgrade}) <==>
            p in g.downgrades || (p in g.upgrades && p !in w.installOnly))
      && ((exists k :: 0 <= k < |items| && items[k].pkg == p && items[k].action == Install) <==>
            p in g.installs || (p in g.upgrades && p in w.installOnly))
      && ((exists k :: 0 <= k < |items| && items[k].pkg == p && items[k].action == Reinstall) <==> p in g.reinstalls)
      && ((exists k :: 0 <= k < |items| && items[k].pkg == p && items[k].action == Remove) <==> p in g.erasures)
  {
    var items := GoalItems(g, w);
    hide Translate, AllJobs, GoalItems, PackagesOf, Upgrades;
    GoalItemsMeaning(g, w, {Downgrade, Obsolete, Upgrade});
    GoalItemsMeaning(g, w, {Install});
    GoalItemsMeaning(g, w, {Reinstall});
    GoalItemsMeaning(g, w, {Remove});
    PackagesOfMember(items, {Downgrade, Obsolete, Upgrade}, p);
    PackagesOfMember(items, {Install}, p);
    PackagesOfMember(items, {Reinstall}, p);
    PackagesOfMember(items, {Remove}, p);
    UpgradesMember(w, g.upgrades, true, p);
    UpgradesMember(w, g.upgrades, false, p);
  }
}
