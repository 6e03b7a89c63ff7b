/** From the solver's goal to a transaction: Base._goal2transaction (dnf/base.py). */
module GoalTransaction {
  import opened Wrappers
  import opened TransactionItems
  import opened RpmTransaction

  datatype Goal = Goal(
    downgrades: seq<Package>,
    reinstalls: seq<Package>,
    installs: seq<Package>,
    upgrades: seq<Package>,
    erasures: seq<Package>,
    obsoletedBy: Package -> seq<Package>,
    allObsoleted: set<Package>,
    reason: Package -> Reason)

  /**
   What else decides: the reasons on record, the user's reason, the order of reasons, the
   install-only packages, the names among them that are installed, and what is installed.
   */
  datatype World = World(
    recorded: Package -> Reason,
    user: Reason,
    rank: Reason -> int,
    installOnly: set<Package>,
    installOnlyNames: set<string>,
    installed: seq<Package>)

  // ----- One package -----

  /** The loop over `obs` of a reinstall: packages of the same NEVRA go to the front. */
  function Arrange(obs: seq<Package>, nevra: string): seq<Package>
    decreases |obs|
  {
    if obs == [] then []
    else
      var before := Arrange(obs[..|obs| - 1], nevra);
      var last := obs[|obs| - 1];
      if last.nevra == nevra then [last] + before else before + [last]
  }

  /** The obsoleted packages that are not handled as upgrades or downgrades. */
  function Kept(obs: seq<Package>, all: set<Package>, name: string): seq<Package> {
    if obs == [] then []
    else (if obs[0] in all || obs[0].name == name then [obs[0]] else []) + Kept(obs[1..], all, name)
  }

  /** The best reason among `reason` and those of the obsoleted packages; the first one among equals. */
  function BestReason(w: World, reason: Reason, obs: seq<Package>): Reason
    decreases |obs|
  {
    if obs == [] then reason
    else
      var r := w.recorded(obs[0]);
      BestReason(w, if w.rank(reason) < w.rank(r) then r else reason, obs[1..])
  }

  /** The result is best, and it comes from somewhere. */
  lemma {:induction false} BestReasonIsBest(w: World, reason: Reason, obs: seq<Package>)
    ensures w.rank(BestReason(w, reason, obs)) >= w.rank(reason)
    ensures forall k :: 0 <= k < |obs| ==> w.rank(BestReason(w, reason, obs)) >= w.rank(w.recorded(obs[k]))
    ensures BestReason(w, reason, obs) == reason
            || exists k :: 0 <= k < |obs| && BestReason(w, reason, obs) == w.recorded(obs[k])
    decreases |obs|
  {
    if obs != [] {
      var r := w.recorded(obs[0]);
      BestReasonIsBest(w, if w.rank(reason) < w.rank(r) then r else reason, obs[1..]);
      assert forall k :: 1 <= k < |obs| ==> obs[k] == obs[1..][k - 1];
    }
  }

  /** The first package of the name, from index k on. */
  function FirstNamed(obs: seq<Package>, name: string, k: nat): (r: Option<nat>)
    requires k <= |obs|
    ensures r.Some? ==> k <= r.value < |obs| && obs[r.value].name == name
    ensures r.Some? ==> forall j :: k <= j < r.value ==> obs[j].name != name
    ensures r == None ==> forall j :: k <= j < |obs| ==> obs[j].name != name
    decreases |obs| - k
  {
    if k == |obs| then None
    else if obs[k].name == name then Some(k)
    else FirstNamed(obs, name, k + 1)
  }

  /** The index of the package that counts as upgraded; None is the IndexError of an empty list. */
  function Upgradee(obs: seq<Package>, name: string): (r: Option<nat>)
    ensures r == None <==> obs == []
    ensures r.Some? ==> r.value < |obs|
    ensures r.Some? && (exists j :: 0 <= j < |obs| && obs[j].name == name) ==> obs[r.value].name == name
    ensures r.Some? ==> forall j :: 0 <= j < r.value ==> obs[j].name != name
    ensures r.Some? && obs[r.value].name != name ==> r.value == 0
  {
    match FirstNamed(obs, name, 0)
    case Some(k) => Some(k)
    case None => if obs == [] then None else Some(0)
  }

  /** The first package still installed with the name and architecture. */
  function Remaining(installed: seq<Package>, erasures: seq<Package>, pkg: Package): (r: Option<Package>)
    ensures r.Some? ==> r.value in installed && r.value !in erasures && r.value.name == pkg.name && r.value.arch == pkg.arch
    ensures r == None ==> forall p :: p in installed && p !in erasures ==> p.name != pkg.name || p.arch != pkg.arch
  {
    if installed == [] then None
    else
      var p := installed[0];
      if p !in erasures && p.name == pkg.name && p.arch == pkg.arch then Some(p)
      else Remaining(installed[1..], erasures, pkg)
  }

  datatype Kind = Downgrading | Reinstalling | Installing | Upgrading | Erasing

  datatype Job = Job(kind: Kind, pkg: Package)

  /** The calls for one package of the goal; None is an IndexError. */
  function JobCalls(g: Goal, w: World, job: Job): Option<seq<Call>> {
    var pkg := job.pkg;
    var obs := g.obsoletedBy(pkg);
    match job.kind
    case Downgrading =>
      if obs == [] then None
      else Some([Replacing(pkg, Downgrade, w.recorded(pkg), obs[0], Downgraded, obs[1..])])
    case Reinstalling =>
      var arranged := Arrange(obs, pkg.nevra);
      if arranged == [] then None
      else Some([Replacing(pkg, Reinstall, w.recorded(pkg), arranged[0], Reinstalled, arranged[1..])])
    case Installing =>
      var kept := Kept(obs, g.allObsoleted, pkg.name);
      var reason := if pkg in w.installOnly && pkg.name in w.installOnlyNames then w.recorded(pkg) else g.reason(pkg);
      Some([Replace(pkg, Install, BestReason(w, reason, kept), AsOld(kept, Obsoleted))])
    case Upgrading =>
      (match Upgradee(obs, pkg.name)
       case None => None
       case Some(k) =>
         var kept := Kept(obs[..k] + obs[k + 1..], g.allObsoleted, pkg.name);
         if pkg in w.installOnly then Some([Replace(pkg, Install, w.user, AsOld(kept, Obsoleted))])
         else Some([Replacing(pkg, Upgrade, w.recorded(pkg), obs[k], Upgraded, kept)]))
    case Erasing =>
      var reason := g.reason(pkg);
      Some((match Remaining(w.installed, g.erasures, pkg)
            case Some(p) => [SetReason(p, w.recorded(p))]
            case None => [])
           + [Erase(pkg, if reason == 0 then w.user else reason)])
  }

  // ----- The whole goal -----

  function Jobs(kind: Kind, pkgs: seq<Package>): (r: seq<Job>)
    ensures |r| == |pkgs| && forall k :: 0 <= k < |pkgs| ==> r[k] == Job(kind, pkgs[k])
  {
    seq(|pkgs|, k requires 0 <= k < |pkgs| => Job(kind, pkgs[k]))
  }

  function AllJobs(g: Goal): seq<Job> {
    Jobs(Downgrading, g.downgrades) + Jobs(Reinstalling, g.reinstalls) + Jobs(Installing, g.installs)
    + Jobs(Upgrading, g.upgrades) + Jobs(Erasing, g.erasures)
  }

  /** The calls made for the jobs, up to the first IndexError, and whether there was none. */
  function Translate(g: Goal, w: World, jobs: seq<Job>): (seq<Call>, bool)
    decreases |jobs|
  {
    if jobs == [] then ([], true)
    else
      match JobCalls(g, w, jobs[0])
      case None => ([], false)
      case Some(calls) =>
        var (rest, ok) := Translate(g, w, jobs[1..]);
        (calls + rest, ok)
  }

  lemma {:induction false} TranslateAppend(g: Goal, w: World, a: seq<Job>, b: seq<Job>)
    ensures var (calls, ok) := Translate(g, w, a);
      Translate(g, w, a + b) ==
      if ok then (calls + Translate(g, w, b).0, Translate(g, w, b).1) else (calls, false)
    decreases |a|
  {
    hide JobCalls;
    if a == [] {
      assert a + b == b && [] + Translate(g, w, b).0 == Translate(g, w, b).0;
    } else {
      assert (a + b)[1..] == a[1..] + b;
      TranslateAppend(g, w, a[1..], b);
      if JobCalls(g, w, a[0]).Some? {
        var calls := JobCalls(g, w, a[0]).value;
        assert calls + (Translate(g, w, a[1..]).0 + Translate(g, w, b).0)
            == calls + Translate(g, w, a[1..]).0 + Translate(g, w, b).0;
      }
    }
  }

  // ----- What is translated -----

  predicate Translatable(g: Goal, job: Job) {
    job.kind in {Downgrading, Reinstalling, Upgrading} ==> g.obsoletedBy(job.pkg) != []
  }

  lemma {:induction false} ArrangeKeeps(obs: seq<Package>, nevra: string)
    ensures multiset(Arrange(obs, nevra)) == multiset(obs) && |Arrange(obs, nevra)| == |obs|
  {
    if obs != [] {
      ArrangeKeeps(obs[..|obs| - 1], nevra);
      assert obs == obs[..|obs| - 1] + [obs[|obs| - 1]];
    }
  }

  /** A package of the same NEVRA comes first if there is one. */
  lemma {:induction false} ArrangeFirst(obs: seq<Package>, nevra: string)
    requires obs != []
    ensures |Arrange(obs, nevra)| == |obs|
    ensures Arrange(obs, nevra)[0].nevra == nevra <==> exists k :: 0 <= k < |obs| && obs[k].nevra == nevra
  {
    ArrangeKeeps(obs, nevra);
    var init := obs[..|obs| - 1];
    ArrangeKeeps(init, nevra);
    if init != [] {
      ArrangeFirst(init, nevra);
      assert forall k :: 0 <= k < |init| ==> init[k] == obs[k];
    }
  }

  /** The packages that are kept are all of those it is about, as often as they were there. */
  lemma {:induction false} KeptCount(obs: seq<Package>, all: set<Package>, name: string, p: Package)
    ensures multiset(Kept(obs, all, name))[p] == if p in all || p.name == name then multiset(obs)[p] else 0
    decreases |obs|
  {
    if obs != [] {
      KeptCount(obs[1..], all, name, p);
      assert obs == [obs[0]] + obs[1..];
      hide Kept;
      KeptCons(obs, all, name);
    }
  }

  lemma KeptCons(obs: seq<Package>, all: set<Package>, name: string)
    requires obs != []
    ensures Kept(obs, all, name) ==
            (if obs[0] in all || obs[0].name == name then [obs[0]] else []) + Kept(obs[1..], all, name)
  {
  }

  function OldPackages(c: Call): (r: seq<Package>)
    requires c.Replace?
    ensures |r| == |c.olds| && forall k :: 0 <= k < |c.olds| ==> r[k] == c.olds[k].pkg
  {
    seq(|c.olds|, k requires 0 <= k < |c.olds| => c.olds[k].pkg)
  }

  /** How often package p is due to be replaced by a job's forward item. */
  function TimesReplaced(g: Goal, w: World, job: Job, p: Package): nat {
    var obs := multiset(g.obsoletedBy(job.pkg));
    var kept := p in g.allObsoleted || p.name == job.pkg.name;
    match job.kind
    case Downgrading => obs[p]
    case Reinstalling => obs[p]
    case Installing => if kept then obs[p] else 0
    case Upgrading =>
      (match Upgradee(g.obsoletedBy(job.pkg), job.pkg.name)
       case None => 0
       case Some(k) =>
         if p != g.obsoletedBy(job.pkg)[k] then (if kept then obs[p] else 0)
         else (if kept && obs[p] > 0 then obs[p] - 1 else 0) + (if job.pkg in w.installOnly then 0 else 1))
    case Erasing => 0
  }

  /**
   Nothing else is replaced: downgrades and reinstalls replace all that they obsolete, the
   others the upgraded package, unless install-only, and what no other forward item handles.
   */
  lemma ReplacedPackages(g: Goal, w: World, job: Job, p: Package)
    requires JobCalls(g, w, job).Some? && job.kind != Erasing
    ensures |JobCalls(g, w, job).value| == 1 && JobCalls(g, w, job).value[0].Replace?
    ensures multiset(OldPackages(JobCalls(g, w, job).value[0]))[p] == TimesReplaced(g, w, job, p)
  {
    var c := JobCalls(g, w, job).value[0];
    var obs, name := g.obsoletedBy(job.pkg), job.pkg.name;
    hide Kept, Arrange, Upgradee;
    match job.kind
    case Downgrading =>
      assert OldPackages(c) == [obs[0]] + obs[1..] == obs;
    case Reinstalling =>
      var arranged := Arrange(obs, job.pkg.nevra);
      assert OldPackages(c) == [arranged[0]] + arranged[1..] == arranged;
      ArrangeKeeps(obs, job.pkg.nevra);
    case Installing =>
      assert OldPackages(c) == Kept(obs, g.allObsoleted, name);
      KeptCount(obs, g.allObsoleted, name, p);
    case Upgrading =>
      UpgradeReplaces(g, w, job.pkg, p);
  }

  lemma UpgradeReplaces(g: Goal, w: World, pkg: Package, p: Package)
    requires JobCalls(g, w, Job(Upgrading, pkg)).Some?
    ensures |JobCalls(g, w, Job(Upgrading, pkg)).value| == 1 && JobCalls(g, w, Job(Upgrading, pkg)).value[0].Replace?
    ensures multiset(OldPackages(JobCalls(g, w, Job(Upgrading, pkg)).value[0]))[p] ==
            TimesReplaced(g, w, Job(Upgrading, pkg), p)
  {
    hide Kept, Upgradee;
    var c := JobCalls(g, w, Job(Upgrading, pkg)).value[0];
    var obs := g.obsoletedBy(pkg);
    var k := Upgradee(obs, pkg.name).value;
    var kept := Kept(obs[..k] + obs[k + 1..], g.allObsoleted, pkg.name);
    if pkg in w.installOnly {
      assert OldPackages(c) == kept;
    } else {
      assert OldPackages(c) == [obs[k]] + kept;
    }
    hide JobCalls, OldPackages;
    Prepended(obs[k], kept, p);
    Without(obs, k, p);
    KeptCount(obs[..k] + obs[k + 1..], g.allObsoleted, pkg.name, p);
  }

  lemma Prepended(x: Package, s: seq<Package>, p: Package)
    ensures multiset([x] + s)[p] == multiset(s)[p] + if x == p then 1 else 0
  {
  }

  lemma Without(s: seq<Package>, k: nat, p: Package)
    requires k < |s|
    ensures multiset(s[..k] + s[k + 1..])[p] == multiset(s)[p] - if s[k] == p then 1 else 0
  {
    assert s == s[..k] + [s[k]] + s[k + 1..];
  }

  lemma JobFails(g: Goal, w: World, job: Job)
    ensures JobCalls(g, w, job) == None <==> !Translatable(g, job)
  {
    ArrangeKeeps(g.obsoletedBy(job.pkg), job.pkg.nevra);
  }

  /** The translation fails exactly when a downgrade, reinstall or upgrade obsoletes nothing. */
  lemma {:induction false} TranslateFails(g: Goal, w: World, jobs: seq<Job>)
    ensures Translate(g, w, jobs).1 <==> forall k :: 0 <= k < |jobs| ==> Translatable(g, jobs[k])
    decreases |jobs|
  {
    hide JobCalls, Translatable;
    if jobs != [] {
      JobFails(g, w, jobs[0]);
      TranslateFails(g, w, jobs[1..]);
      assert forall k :: 1 <= k < |jobs| ==> jobs[k] == jobs[1..][k - 1];
    }
  }

  lemma {:induction false} TranslateGood(g: Goal, w: World, jobs: seq<Job>)
    ensures GoodCalls(Translate(g, w, jobs).0)
    decreases |jobs|
  {
    if jobs != [] {
      TranslateGood(g, w, jobs[1..]);
    }
  }

  /** The action of the item for a job's own package. */
  function ActionOf(w: World, job: Job): Action {
    match job.kind
    case Downgrading => Downgrade
    case Reinstalling => Reinstall
    case Installing => Install
    case Upgrading => if job.pkg in w.installOnly then Install else Upgrade
    case Erasing => Remove
  }

  function PackagesOfJobs(w: World, jobs: seq<Job>, actions: set<Action>): seq<Package>
    decreases |jobs|
  {
    if jobs == [] then []
    else (if ActionOf(w, jobs[0]) in actions then [jobs[0].pkg] else []) + PackagesOfJobs(w, jobs[1..], actions)
  }

  lemma {:induction false} CallsAppend(a: seq<Call>, b: seq<Call>, actions: set<Action>)
    ensures CallPackages(a + b, actions) == CallPackages(a, actions) + CallPackages(b, actions)
    decreases |b|
  {
    if b == [] {
      assert a + b == a;
    } else {
      var init := b[..|b| - 1];
      assert (a + b)[..|a + b| - 1] == a + init && (a + b)[|a + b| - 1] == b[|b| - 1];
      CallsAppend(a, init, actions);
    }
  }

  lemma JobPackages(g: Goal, w: World, job: Job, actions: set<Action>)
    requires JobCalls(g, w, job).Some? && ReasonChange !in actions
    ensures CallPackages(JobCalls(g, w, job).value, actions) == if ActionOf(w, job) in actions then [job.pkg] else []
  {
    JobShape(g, w, job);
    hide JobCalls, CallPackages, ActionOf;
    var calls := JobCalls(g, w, job).value;
    if |calls| == 1 {
      OneCall(calls[0], actions);
      assert calls == [calls[0]];
    } else {
      OneCall(calls[0], actions);
      OneCall(calls[1], actions);
      CallsAppend([calls[0]], [calls[1]], actions);
      assert calls == [calls[0]] + [calls[1]];
    }
  }

  lemma OneCall(c: Call, actions: set<Action>)
    ensures CallPackages([c], actions) == if CallAction(c) in actions then [c.pkg] else []
  {
    assert [c][..0] == [];
  }

  lemma JobShape(g: Goal, w: World, job: Job)
    requires JobCalls(g, w, job).Some?
    ensures var calls := JobCalls(g, w, job).value;
      && 1 <= |calls| <= 2
      && (|calls| == 2 ==> calls[0].SetReason?)
      && calls[|calls| - 1].pkg == job.pkg
      && CallAction(calls[|calls| - 1]) == ActionOf(w, job)
  {
  }

  lemma {:induction false} TranslatePackages(g: Goal, w: World, jobs: seq<Job>, actions: set<Action>)
    requires Translate(g, w, jobs).1 && ReasonChange !in actions
    ensures CallPackages(Translate(g, w, jobs).0, actions) == PackagesOfJobs(w, jobs, actions)
    decreases |jobs|
  {
    hide JobCalls, CallPackages, ActionOf;
    if jobs == [] {
      NoCalls(actions);
    } else {
      TranslatePackages(g, w, jobs[1..], actions);
      JobPackages(g, w, jobs[0], actions);
      CallsAppend(JobCalls(g, w, jobs[0]).value, Translate(g, w, jobs[1..]).0, actions);
    }
  }

  lemma NoCalls(actions: set<Action>)
    ensures CallPackages([], actions) == []
  {
  }

  /** Upgrades that are, or are not, of install-only packages. */
  function Upgrades(w: World, pkgs: seq<Package>, installOnly: bool): seq<Package> {
    if pkgs == [] then []
    else (if (pkgs[0] in w.installOnly) == installOnly then [pkgs[0]] else []) + Upgrades(w, pkgs[1..], installOnly)
  }

  lemma {:induction false} PackagesOfKind(w: World, kind: Kind, pkgs: seq<Package>, actions: set<Action>)
    requires kind != Upgrading
    ensures PackagesOfJobs(w, Jobs(kind, pkgs), actions) ==
            if ActionOf(w, Job(kind, Package("", "", "", 0))) in actions then pkgs else []
    decreases |pkgs|
  {
    if pkgs != [] {
      assert Jobs(kind, pkgs)[1..] == Jobs(kind, pkgs[1..]);
      PackagesOfKind(w, kind, pkgs[1..], actions);
    }
  }

  lemma {:induction false} PackagesOfUpgrades(w: World, pkgs: seq<Package>, actions: set<Action>)
    ensures PackagesOfJobs(w, Jobs(Upgrading, pkgs), actions) ==
            if Install in actions && Upgrade in actions then pkgs
            else if Install in actions then Upgrades(w, pkgs, true)
            else if Upgrade in actions then Upgrades(w, pkgs, false)
            else []
    decreases |pkgs|
  {
    if pkgs != [] {
      assert Jobs(Upgrading, pkgs)[1..] == Jobs(Upgrading, pkgs[1..]);
      assert pkgs == [pkgs[0]] + pkgs[1..];
      hide Jobs;
      PackagesOfUpgrades(w, pkgs[1..], actions);
    }
  }

  lemma {:induction false} PackagesOfJobsAppend(w: World, a: seq<Job>, b: seq<Job>, actions: set<Action>)
    ensures PackagesOfJobs(w, a + b, actions) == PackagesOfJobs(w, a, actions) + PackagesOfJobs(w, b, actions)
    decreases |a|
  {
    if a == [] {
      assert a + b == b;
    } else {
      PackagesOfJobsAppend(w, a[1..], b, actions);
      hide PackagesOfJobs;
      PackagesOfJobsCons(w, a, b, actions);
      PackagesOfJobsCons(w, a, [], actions);
      assert a + [] == a && a[1..] + [] == a[1..];
    }
  }

  lemma PackagesOfJobsCons(w: World, a: seq<Job>, b: seq<Job>, actions: set<Action>)
    requires a != []
    ensures PackagesOfJobs(w, a + b, actions) ==
            (if ActionOf(w, a[0]) in actions then [a[0].pkg] else []) + PackagesOfJobs(w, a[1..] + b, actions)
  {
    assert (a + b)[1..] == a[1..] + b;
  }

  /** The packages of the goal that get an item with one of some actions. */
  function GoalPackages(g: Goal, w: World, actions: set<Action>): seq<Package> {
    (if Downgrade in actions then g.downgrades else [])
    + (if Reinstall in actions then g.reinstalls else [])
    + (if Install in actions then g.installs else [])
    + (if Install in actions && Upgrade in actions then g.upgrades
       else if Install in actions then Upgrades(w, g.upgrades, true)
       else if Upgrade in actions then Upgrades(w, g.upgrades, false)
       else [])
    + (if Remove in actions then g.erasures else [])
  }

  lemma PackagesOfAllJobs(g: Goal, w: World, actions: set<Action>)
    ensures PackagesOfJobs(w, AllJobs(g), actions) == GoalPackages(g, w, actions)
  {
    hide PackagesOfJobs, Upgrades;
    var d, r, i := Jobs(Downgrading, g.downgrades), Jobs(Reinstalling, g.reinstalls), Jobs(Installing, g.installs);
    var u, e := Jobs(Upgrading, g.upgrades), Jobs(Erasing, g.erasures);
    PackagesOfJobsAppend(w, d, r, actions);
    PackagesOfJobsAppend(w, d + r, i, actions);
    PackagesOfJobsAppend(w, d + r + i, u, actions);
    PackagesOfJobsAppend(w, d + r + i + u, e, actions);
    PackagesOfKind(w, Downgrading, g.downgrades, actions);
    PackagesOfKind(w, Reinstalling, g.reinstalls, actions);
    PackagesOfKind(w, Installing, g.installs, actions);
    PackagesOfUpgrades(w, g.upgrades, actions);
    PackagesOfKind(w, Erasing, g.erasures, actions);
  }

  // ----- Reasons -----

  /** The reason of an install: the package's own, or recorded if install-only, or a better one it inherits. */
  function InstallReason(g: Goal, w: World, pkg: Package): Reason {
    BestReason(w,
               if pkg in w.installOnly && pkg.name in w.installOnlyNames then w.recorded(pkg) else g.reason(pkg),
               Kept(g.obsoletedBy(pkg), g.allObsoleted, pkg.name))
  }

  /** Installs get their reason, removals the goal's, and all other items the one on record. */
  predicate ReasonRight(g: Goal, w: World, action: Action, pkg: Package, reason: Reason) {
    if action == Install then reason == InstallReason(g, w, pkg) || (pkg in w.installOnly && reason == w.user)
    else if action == Remove then reason == (if g.reason(pkg) == 0 then w.user else g.reason(pkg))
    else reason == w.recorded(pkg)
  }

  predicate CallReasonRight(g: Goal, w: World, c: Call) {
    ReasonRight(g, w, CallAction(c), c.pkg, c.reason)
  }

  lemma {:induction false} TranslateReasons(g: Goal, w: World, jobs: seq<Job>)
    ensures forall k :: 0 <= k < |Translate(g, w, jobs).0| ==> CallReasonRight(g, w, Translate(g, w, jobs).0[k])
    decreases |jobs|
  {
    hide JobCalls, CallReasonRight;
    if jobs != [] && JobCalls(g, w, jobs[0]).Some? {
      JobReasons(g, w, jobs[0]);
      TranslateReasons(g, w, jobs[1..]);
    }
  }

  lemma JobReasons(g: Goal, w: World, job: Job)
    requires JobCalls(g, w, job).Some?
    ensures forall k :: 0 <= k < |JobCalls(g, w, job).value| ==> CallReasonRight(g, w, JobCalls(g, w, job).value[k])
  {
    hide Arrange, Kept, BestReason, Upgradee, Remaining;
  }

  lemma {:induction false} PerformReasons(g: Goal, w: World, calls: seq<Call>)
    requires GoodCalls(calls) && forall k :: 0 <= k < |calls| ==> CallReasonRight(g, w, calls[k])
    ensures forall i :: 0 <= i < |Perform(w.recorded, calls)| ==>
              var item := Perform(w.recorded, calls)[i]; ReasonRight(g, w, item.action, item.pkg, item.reason)
    decreases |calls|
  {
    hide ReasonRight, CallReasonRight, Added;
    if calls != [] {
      PerformReasons(g, w, calls[..|calls| - 1]);
      AddedReasons(g, w, |Perform(w.recorded, calls[..|calls| - 1])|, calls[|calls| - 1]);
    }
  }

  lemma AddedReasons(g: Goal, w: World, base: nat, c: Call)
    requires GoodCall(c) && CallReasonRight(g, w, c)
    ensures forall i :: 0 <= i < |Added(w.recorded, base, c)| ==>
              var item := Added(w.recorded, base, c)[i]; ReasonRight(g, w, item.action, item.pkg, item.reason)
  {
    hide InstallReason;
  }

  /** The items of the transaction built from a goal. */
  function GoalItems(g: Goal, w: World): seq<HistoryItem> {
    Perform(w.recorded, Translate(g, w, AllJobs(g)).0)
  }

  /**
   Action by action, the transaction's forward items and removals are the goal's packages in the
   goal's order, where upgrades of install-only packages are installs; every other package's
   item is replaced by exactly the forward item before it.
   */
  lemma GoalItemsMeaning(g: Goal, w: World, actions: set<Action>)
    requires Translate(g, w, AllJobs(g)).1
    ensures Initial(GoalItems(g, w))
    ensures OwnActions(actions) && ReasonChange !in actions ==>
              PackagesOf(GoalItems(g, w), actions) == GoalPackages(g, w, actions)
  {
    hide Translate, AllJobs, GoalPackages;
    var calls := Translate(g, w, AllJobs(g)).0;
    TranslateGood(g, w, AllJobs(g));
    PerformInitial(w.recorded, calls);
    if OwnActions(actions) && ReasonChange !in actions {
      PerformPackages(w.recorded, calls, actions);
      TranslatePackages(g, w, AllJobs(g), actions);
      PackagesOfAllJobs(g, w, actions);
    }
  }

  /** Every item of the transaction has the right reason. */
  lemma GoalReasons(g: Goal, w: World, i: nat)
    requires i < |GoalItems(g, w)|
    ensures var item := GoalItems(g, w)[i]; ReasonRight(g, w, item.action, item.pkg, item.reason)
  {
    hide Translate, AllJobs, ReasonRight, CallReasonRight;
    TranslateGood(g, w, AllJobs(g));
    TranslateReasons(g, w, AllJobs(g));
    PerformReasons(g, w, Translate(g, w, AllJobs(g)).0);
  }

  /** It fails exactly when the solver names nothing that some downgrade, reinstall or upgrade obsoletes. */
  lemma GoalFails(g: Goal, w: World)
    ensures Translate(g, w, AllJobs(g)).1 <==>
            forall p :: p in g.downgrades + g.reinstalls + g.upgrades ==> g.obsoletedBy(p) != []
  {
    hide Translate, AllJobs;
    var jobs := AllJobs(g);
    TranslateFails(g, w, jobs);
    AllJobsMembers(g);
    assert forall k :: 0 <= k < |jobs| ==> jobs[k] in jobs;
    if p :| p in g.downgrades + g.reinstalls + g.upgrades && g.obsoletedBy(p) == [] {
      assert Job(Downgrading, p) in jobs || Job(Reinstalling, p) in jobs || Job(Upgrading, p) in jobs;
    }
  }

  lemma AllJobsMembers(g: Goal)
    ensures forall j :: j in AllJobs(g) <==> j.pkg in PackagesFor(g, j.kind)
  {
    forall j: Job
      ensures j in AllJobs(g) <==> j.pkg in PackagesFor(g, j.kind)
    {
      hide Jobs;
      InJobs(j, Downgrading, g.downgrades);
      InJobs(j, Reinstalling, g.reinstalls);
      InJobs(j, Installing, g.installs);
      InJobs(j, Upgrading, g.upgrades);
      InJobs(j, Erasing, g.erasures);
    }
  }

  function PackagesFor(g: Goal, kind: Kind): seq<Package> {
    match kind
    case Downgrading => g.downgrades
    case Reinstalling => g.reinstalls
    case Installing => g.installs
    case Upgrading => g.upgrades
    case Erasing => g.erasures
  }

  lemma InJobs(j: Job, kind: Kind, pkgs: seq<Package>)
    ensures j in Jobs(kind, pkgs) <==> j.kind == kind && j.pkg in pkgs
  {
    if j.kind == kind && j.pkg in pkgs {
      var k :| 0 <= k < |pkgs| && pkgs[k] == j.pkg;
      assert Jobs(kind, pkgs)[k] == j;
    }
  }
}
