/** The loops of Base._goal2transaction (dnf/base.py), which call ts.add_* for each package. */
module GoalLoops {
  import opened Wrappers
  import opened TransactionItems
  import opened RpmTransaction
  import opened GoalTransaction

  method ArrangeObsoleted(obs: seq<Package>, nevra: string) returns (obsoletes: seq<Package>)
    ensures obsoletes == Arrange(obs, nevra)
  {
    obsoletes := [];
    assert obs[..0] == [];
    for k := 0 to |obs|
      invariant obsoletes == Arrange(obs[..k], nevra)
    {
      assert obs[..k + 1][..k] == obs[..k];
      if obs[k].nevra == nevra {
        obsoletes := [obs[k]] + obsoletes;
      } else {
        obsoletes := obsoletes + [obs[k]];
      }
    }
    assert obs[..|obs|] == obs;
  }

  method FilterObsoleted(obs: seq<Package>, all: set<Package>, name: string) returns (kept: seq<Package>)
    ensures kept == Kept(obs, all, name)
  {
    hide Kept;
    kept := [];
    assert obs[0..] == obs;
    for k := 0 to |obs|
      invariant Kept(obs, all, name) == kept + Kept(obs[k..], all, name)
    {
      KeptNext(obs, all, name, k);
      if obs[k] in all || obs[k].name == name {
        kept := kept + [obs[k]];
      }
    }
    KeptNothing(obs[|obs|..], all, name);
  }

  lemma KeptNext(obs: seq<Package>, all: set<Package>, name: string, k: nat)
    requires k < |obs|
    ensures Kept(obs[k..], all, name) ==
            (if obs[k] in all || obs[k].name == name then [obs[k]] else []) + Kept(obs[k + 1..], all, name)
  {
    assert obs[k..][1..] == obs[k + 1..];
  }

  lemma KeptNothing(obs: seq<Package>, all: set<Package>, name: string)
    requires obs == []
    ensures Kept(obs, all, name) == []
  {
  }

  method InheritReason(w: World, first: Reason, obs: seq<Package>) returns (reason: Reason)
    ensures reason == BestReason(w, first, obs)
  {
    reason := first;
    assert obs[0..] == obs;
    for k := 0 to |obs|
      invariant BestReason(w, first, obs) == BestReason(w, reason, obs[k..])
    {
      assert obs[k..][1..] == obs[k + 1..];
      if w.rank(reason) < w.rank(w.recorded(obs[k])) {
        reason := w.recorded(obs[k]);
      }
    }
  }

  /** The search for the upgraded package; None where `obs.pop(0)` fails. */
  method PickUpgraded(obs: seq<Package>, name: string) returns (r: Option<nat>)
    ensures r == Upgradee(obs, name)
  {
    var k := 0;
    while k < |obs|
      invariant 0 <= k <= |obs| && FirstNamed(obs, name, 0) == FirstNamed(obs, name, k)
    {
      if obs[k].name == name {
        return Some(k);
      }
      k := k + 1;
    }
    return if obs == [] then None else Some(0);
  }

  // ----- Progress of a loop -----

  /** The jobs before k have become the calls in `calls`, after those in `done`. */
  ghost predicate Underway(g: Goal, w: World, jobs: seq<Job>, done: seq<Call>, calls: seq<Call>, k: nat) {
    && k <= |jobs|
    && done + Translate(g, w, jobs).0 == calls + Translate(g, w, jobs[k..]).0
    && Translate(g, w, jobs).1 == Translate(g, w, jobs[k..]).1
  }

  lemma Start(g: Goal, w: World, jobs: seq<Job>, done: seq<Call>)
    ensures Underway(g, w, jobs, done, done, 0)
  {
    assert jobs[0..] == jobs;
  }

  lemma Advance(g: Goal, w: World, jobs: seq<Job>, done: seq<Call>, calls: seq<Call>, k: nat)
    requires Underway(g, w, jobs, done, calls, k) && k < |jobs| && JobCalls(g, w, jobs[k]).Some?
    ensures Underway(g, w, jobs, done, calls + JobCalls(g, w, jobs[k]).value, k + 1)
  {
    hide JobCalls;
    assert jobs[k..][1..] == jobs[k + 1..];
    var more := JobCalls(g, w, jobs[k]).value;
    assert calls + (more + Translate(g, w, jobs[k + 1..]).0) == calls + more + Translate(g, w, jobs[k + 1..]).0;
  }

  /** The loop ended, by its end or by an IndexError. */
  lemma Ended(g: Goal, w: World, jobs: seq<Job>, done: seq<Call>, calls: seq<Call>, k: nat)
    requires Underway(g, w, jobs, done, calls, k)
    requires k == |jobs| || JobCalls(g, w, jobs[k]) == None
    ensures calls == done + Translate(g, w, jobs).0
    ensures Translate(g, w, jobs).1 == (k == |jobs|)
  {
    hide JobCalls;
    assert calls + [] == calls;
    if k < |jobs| {
      assert jobs[k..][0] == jobs[k];
    }
  }

  /** The transaction holds the items of these calls. */
  ghost predicate Holds(ts: RPMTransaction, w: World, calls: seq<Call>)
    reads ts
  {
    ts.recorded == w.recorded && ts.user == w.user && ts.items == Perform(w.recorded, calls)
  }

  method DowngradeLoop(ts: RPMTransaction, g: Goal, w: World, ghost done: seq<Call>) returns (ok: bool)
    requires Holds(ts, w, done)
    modifies ts
    ensures Holds(ts, w, done + Translate(g, w, Jobs(Downgrading, g.downgrades)).0)
    ensures ok == Translate(g, w, Jobs(Downgrading, g.downgrades)).1
  {
    hide Translate, Underway, Perform, Added, Replacing, Jobs;
    ghost var jobs, calls := Jobs(Downgrading, g.downgrades), done;
    Start(g, w, jobs, done);
    var k := 0;
    while k < |g.downgrades|
      invariant 0 <= k <= |jobs| == |g.downgrades|
      invariant Holds(ts, w, calls) && Underway(g, w, jobs, done, calls, k)
    {
      var pkg := g.downgrades[k];
      var obs := g.obsoletedBy(pkg);
      if obs == [] {
        Ended(g, w, jobs, done, calls, k);
        return false;
      }
      ts.AddDowngrade(pkg, obs[0], obs[1..]);
      PerformSnoc(w.recorded, calls, JobCalls(g, w, jobs[k]).value[0]);
      Advance(g, w, jobs, done, calls, k);
      calls := calls + [JobCalls(g, w, jobs[k]).value[0]];
      k := k + 1;
    }
    Ended(g, w, jobs, done, calls, k);
    return true;
  }

  method ReinstallLoop(ts: RPMTransaction, g: Goal, w: World, ghost done: seq<Call>) returns (ok: bool)
    requires Holds(ts, w, done)
    modifies ts
    ensures Holds(ts, w, done + Translate(g, w, Jobs(Reinstalling, g.reinstalls)).0)
    ensures ok == Translate(g, w, Jobs(Reinstalling, g.reinstalls)).1
  {
    hide Translate, Underway, Perform, Added, Replacing, Jobs, Arrange;
    ghost var jobs, calls := Jobs(Reinstalling, g.reinstalls), done;
    Start(g, w, jobs, done);
    var k := 0;
    while k < |g.reinstalls|
      invariant 0 <= k <= |jobs| == |g.reinstalls|
      invariant Holds(ts, w, calls) && Underway(g, w, jobs, done, calls, k)
    {
      var pkg := g.reinstalls[k];
      var obs := g.obsoletedBy(pkg);
      var obsoletes := ArrangeObsoleted(obs, pkg.nevra);
      if obsoletes == [] {
        Ended(g, w, jobs, done, calls, k);
        return false;
      }
      ts.AddReinstall(pkg, obsoletes[0], obsoletes[1..]);
      PerformSnoc(w.recorded, calls, JobCalls(g, w, jobs[k]).value[0]);
      Advance(g, w, jobs, done, calls, k);
      calls := calls + [JobCalls(g, w, jobs[k]).value[0]];
      k := k + 1;
    }
    Ended(g, w, jobs, done, calls, k);
    return true;
  }

  method InstallLoop(ts: RPMTransaction, g: Goal, w: World, ghost done: seq<Call>)
    requires Holds(ts, w, done)
    modifies ts
    ensures Holds(ts, w, done + Translate(g, w, Jobs(Installing, g.installs)).0)
    ensures Translate(g, w, Jobs(Installing, g.installs)).1
  {
    hide Translate, Underway, Perform, Added, Jobs, Kept, BestReason;
    ghost var jobs, calls := Jobs(Installing, g.installs), done;
    Start(g, w, jobs, done);
    var k := 0;
    while k < |g.installs|
      invariant 0 <= k <= |jobs| == |g.installs|
      invariant Holds(ts, w, calls) && Underway(g, w, jobs, done, calls, k)
    {
      var pkg := g.installs[k];
      var obs := FilterObsoleted(g.obsoletedBy(pkg), g.allObsoleted, pkg.name);
      var reason := g.reason(pkg);
      if pkg in w.installOnly && pkg.name in w.installOnlyNames {
        reason := w.recorded(pkg);
      }
      reason := InheritReason(w, reason, obs);
      ts.AddInstall(pkg, obs, Some(reason));
      PerformSnoc(w.recorded, calls, JobCalls(g, w, jobs[k]).value[0]);
      Advance(g, w, jobs, done, calls, k);
      calls := calls + [JobCalls(g, w, jobs[k]).value[0]];
      k := k + 1;
    }
    Ended(g, w, jobs, done, calls, k);
  }

  method UpgradeLoop(ts: RPMTransaction, g: Goal, w: World, ghost done: seq<Call>) returns (ok: bool)
    requires Holds(ts, w, done)
    modifies ts
    ensures Holds(ts, w, done + Translate(g, w, Jobs(Upgrading, g.upgrades)).0)
    ensures ok == Translate(g, w, Jobs(Upgrading, g.upgrades)).1
  {
    hide Translate, Underway, Perform, Added, Replacing, Jobs, Kept, Upgradee;
    ghost var jobs, calls := Jobs(Upgrading, g.upgrades), done;
    Start(g, w, jobs, done);
    var i := 0;
    while i < |g.upgrades|
      invariant 0 <= i <= |jobs| == |g.upgrades|
      invariant Holds(ts, w, calls) && Underway(g, w, jobs, done, calls, i)
    {
      var pkg := g.upgrades[i];
      var obs := g.obsoletedBy(pkg);
      var upgraded := PickUpgraded(obs, pkg.name);
      if upgraded == None {
        Ended(g, w, jobs, done, calls, i);
        return false;
      }
      var k := upgraded.value;
      var kept := FilterObsoleted(obs[..k] + obs[k + 1..], g.allObsoleted, pkg.name);
      if pkg in w.installOnly {
        ts.AddInstall(pkg, kept, None);
      } else {
        ts.AddUpgrade(pkg, obs[k], kept);
      }
      PerformSnoc(w.recorded, calls, JobCalls(g, w, jobs[i]).value[0]);
      Advance(g, w, jobs, done, calls, i);
      calls := calls + [JobCalls(g, w, jobs[i]).value[0]];
      i := i + 1;
    }
    Ended(g, w, jobs, done, calls, i);
    return true;
  }

  method FindRemaining(installed: seq<Package>, erasures: seq<Package>, pkg: Package) returns (r: Option<Package>)
    ensures r == Remaining(installed, erasures, pkg)
  {
    var k := 0;
    assert installed[0..] == installed;
    while k < |installed|
      invariant 0 <= k <= |installed|
      invariant Remaining(installed, erasures, pkg) == Remaining(installed[k..], erasures, pkg)
    {
      assert installed[k..][1..] == installed[k + 1..];
      var p := installed[k];
      if p !in erasures && p.name == pkg.name && p.arch == pkg.arch {
        return Some(p);
      }
      k := k + 1;
    }
    return None;
  }

  method EraseLoop(ts: RPMTransaction, g: Goal, w: World, ghost done: seq<Call>)
    requires Holds(ts, w, done)
    modifies ts
    ensures Holds(ts, w, done + Translate(g, w, Jobs(Erasing, g.erasures)).0)
    ensures Translate(g, w, Jobs(Erasing, g.erasures)).1
  {
    hide Translate, Underway, Perform, Added, Jobs, Remaining;
    ghost var jobs, calls := Jobs(Erasing, g.erasures), done;
    Start(g, w, jobs, done);
    var k := 0;
    while k < |g.erasures|
      invariant 0 <= k <= |jobs| == |g.erasures|
      invariant Holds(ts, w, calls) && Underway(g, w, jobs, done, calls, k)
    {
      var pkg := g.erasures[k];
      var remaining := FindRemaining(w.installed, g.erasures, pkg);
      ghost var before := calls;
      if remaining.Some? {
        ts.AddReasonChange(remaining.value, w.recorded(remaining.value));
        PerformSnoc(w.recorded, calls, SetReason(remaining.value, w.recorded(remaining.value)));
        calls := calls + [SetReason(remaining.value, w.recorded(remaining.value))];
      }
      var reason := g.reason(pkg);
      ts.AddErase(pkg, reason);
      ghost var last := Erase(pkg, if reason == 0 then w.user else reason);
      PerformSnoc(w.recorded, calls, last);
      calls := calls + [last];
      assert calls == before + JobCalls(g, w, jobs[k]).value;
      Advance(g, w, jobs, done, before, k);
      k := k + 1;
    }
    Ended(g, w, jobs, done, calls, k);
  }

  lemma Split(g: Goal, w: World)
    ensures var d, r, i := Jobs(Downgrading, g.downgrades), Jobs(Reinstalling, g.reinstalls), Jobs(Installing, g.installs);
      var u, e := Jobs(Upgrading, g.upgrades), Jobs(Erasing, g.erasures);
      && Translate(g, w, AllJobs(g)) == Then(g, w, d, r + i + u + e)
      && Translate(g, w, r + i + u + e) == Then(g, w, r, i + u + e)
      && Translate(g, w, i + u + e) == Then(g, w, i, u + e)
      && Translate(g, w, u + e) == Then(g, w, u, e)
  {
    hide Translate, Jobs;
    var d, r, i := Jobs(Downgrading, g.downgrades), Jobs(Reinstalling, g.reinstalls), Jobs(Installing, g.installs);
    var u, e := Jobs(Upgrading, g.upgrades), Jobs(Erasing, g.erasures);
    assert d + r + i + u + e == d + (r + i + u + e);
    assert r + i + u + e == r + (i + u + e);
    assert i + u + e == i + (u + e);
    TranslateAppend(g, w, d, r + i + u + e);
    TranslateAppend(g, w, r, i + u + e);
    TranslateAppend(g, w, i, u + e);
    TranslateAppend(g, w, u, e);
  }

  /** What a list of jobs gives when others follow. */
  function Then(g: Goal, w: World, a: seq<Job>, b: seq<Job>): (seq<Call>, bool) {
    var (calls, ok) := Translate(g, w, a);
    if ok then (calls + Translate(g, w, b).0, Translate(g, w, b).1) else (calls, false)
  }

  /** The whole function, on an empty transaction; false is the IndexError. */
  method GoalToTransaction(ts: RPMTransaction, g: Goal, w: World) returns (ok: bool)
    requires ts.recorded == w.recorded && ts.user == w.user && ts.items == []
    modifies ts
    ensures ts.items == GoalItems(g, w)
    ensures ok == Translate(g, w, AllJobs(g)).1
  {
    hide Translate, Jobs, AllJobs, Perform;
    ghost var d, r, i := Jobs(Downgrading, g.downgrades), Jobs(Reinstalling, g.reinstalls), Jobs(Installing, g.installs);
    ghost var u, e := Jobs(Upgrading, g.upgrades), Jobs(Erasing, g.erasures);
    Split(g, w);
    NoItems(w);
    ghost var c1 := [] + Translate(g, w, d).0;
    assert c1 == Translate(g, w, d).0;
    ok := DowngradeLoop(ts, g, w, []);
    if !ok { return; }
    ghost var c2 := Translate(g, w, r).0;
    ok := ReinstallLoop(ts, g, w, c1);
    if !ok { return; }
    ghost var c3 := Translate(g, w, i).0;
    InstallLoop(ts, g, w, c1 + c2);
    ghost var c4, c5 := Translate(g, w, u).0, Translate(g, w, e).0;
    assert c1 + (c2 + (c3 + c4)) == c1 + c2 + c3 + c4;
    ok := UpgradeLoop(ts, g, w, c1 + c2 + c3);
    if !ok { return; }
    assert c1 + (c2 + (c3 + (c4 + c5))) == c1 + c2 + c3 + c4 + c5;
    EraseLoop(ts, g, w, c1 + c2 + c3 + c4);
  }

  lemma NoItems(w: World)
    ensures Perform(w.recorded, []) == []
  {
  }
}
