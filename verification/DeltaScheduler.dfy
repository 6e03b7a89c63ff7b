/** Rebuilding rpms from deltas with a bounded number of jobs: DeltaInfo (dnf/drpm.py). */
module DeltaScheduler {
  import opened Wrappers
  import opened Payloads

  /** A process that ended, its exit code, and whether the package it built passes its check. */
  datatype Exit = Exit(pid: nat, code: int, verified: bool)

  /** A payload whose rebuild ended, and how. */
  datatype Done = Done(payload: Payload, exit: Exit)

  /** `queue`, `jobs` and the keys of `err`; and what came in, was started and is done so far. */
  datatype Scheduler = Scheduler(
    queue: seq<Payload>,
    jobs: map<nat, Payload>,
    err: set<Package>,
    arrived: seq<Payload>,
    started: seq<Payload>,
    finished: seq<Done>)

  const EMPTY: Scheduler := Scheduler([], map[], {}, [], [], [])

  /** The operating system's choices: the next pid, what `wait` returns, and what a `waitpid` with WNOHANG does. */
  datatype Os = Os(spawn: Scheduler -> nat, wait: Scheduler -> Exit, waitNoHang: Scheduler -> Option<Exit>)

  /** Pids of running jobs are not given out again, and the process has no other children. */
  ghost predicate Sane(os: Os) {
    && (forall s: Scheduler :: os.spawn(s) !in s.jobs)
    && (forall s: Scheduler :: s.jobs != map[] ==> os.wait(s).pid in s.jobs)
    && (forall s: Scheduler :: os.waitNoHang(s).Some? ==> os.waitNoHang(s).value.pid in s.jobs)
  }

  /** `job_done`. */
  function JobDone(s: Scheduler, e: Exit): (r: Scheduler)
    requires e.pid in s.jobs
    ensures |r.jobs| == |s.jobs| - 1
  {
    var ok := e.code == 0 && e.verified;
    assert (s.jobs - {e.pid}).Keys == s.jobs.Keys - {e.pid};
    s.(jobs := s.jobs - {e.pid},
       err := if ok then s.err else s.err + {s.jobs[e.pid].pkg},
       finished := s.finished + [Done(s.jobs[e.pid], e)])
  }

  /** `start_job(self.queue.pop(0))`. */
  function StartNext(s: Scheduler, pid: nat): (r: Scheduler)
    requires s.queue != [] && pid !in s.jobs
    ensures |r.jobs| == |s.jobs| + 1
  {
    assert s.jobs[pid := s.queue[0]].Keys == s.jobs.Keys + {pid};
    s.(queue := s.queue[1..], jobs := s.jobs[pid := s.queue[0]], started := s.started + [s.queue[0]])
  }

  /** The first loop of `enqueue`. */
  ghost function Reap(s: Scheduler, os: Os): Scheduler
    requires Sane(os)
    decreases |s.jobs|
  {
    if s.jobs == map[] || os.waitNoHang(s) == None then s
    else Reap(JobDone(s, os.waitNoHang(s).value), os)
  }

  /** The second loop of `enqueue`. */
  ghost function Fill(s: Scheduler, limit: int, os: Os): Scheduler
    requires Sane(os) && s.queue != []
    decreases |s.queue|
  {
    if |s.jobs| >= limit then s
    else
      var t := StartNext(s, os.spawn(s));
      if t.queue == [] then t else Fill(t, limit, os)
  }

  ghost function Enqueue(s: Scheduler, p: Payload, limit: int, os: Os): Scheduler
    requires Sane(os)
  {
    var t := Reap(s, os);
    Fill(t.(queue := t.queue + [p], arrived := t.arrived + [p]), limit, os)
  }

  ghost function Wait(s: Scheduler, os: Os): Scheduler
    requires Sane(os)
    decreases |s.queue|, |s.jobs|
  {
    if s.jobs == map[] then s
    else
      var t := JobDone(s, os.wait(s));
      if t.queue == [] then Wait(t, os) else Wait(StartNext(t, os.spawn(t)), os)
  }

  // ----- Runs -----

  datatype Op = Enqueueing(payload: Payload) | Waiting | Clearing

  ghost function Apply(s: Scheduler, op: Op, limit: int, os: Os): Scheduler
    requires Sane(os)
  {
    match op
    case Enqueueing(p) => Enqueue(s, p, limit, os)
    case Waiting => Wait(s, os)
    case Clearing => s.(err := {})
  }

  /** The state after the operations; the system's choices may differ from one to the next. */
  ghost function Run(s: Scheduler, ops: seq<(Op, Os)>, limit: int): Scheduler
    requires forall k :: 0 <= k < |ops| ==> Sane(ops[k].1)
    decreases |ops|
  {
    if ops == [] then s
    else Apply(Run(s, ops[..|ops| - 1], limit), ops[|ops| - 1].0, limit, ops[|ops| - 1].1)
  }

  // ----- Invariants -----

  /** The payloads of the jobs, as often as they occur. */
  ghost function Bag(jobs: map<nat, Payload>): multiset<Payload>
    decreases |jobs|
  {
    if jobs == map[] then multiset{}
    else
      var k :| k in jobs;
      assert (jobs - {k}).Keys == jobs.Keys - {k};
      multiset{jobs[k]} + Bag(jobs - {k})
  }

  lemma {:induction false} BagWithout(jobs: map<nat, Payload>, k: nat)
    requires k in jobs
    ensures Bag(jobs) == multiset{jobs[k]} + Bag(jobs - {k})
    decreases |jobs|
  {
    var c :| c in jobs && Bag(jobs) == multiset{jobs[c]} + Bag(jobs - {c});
    if c != k {
      assert (jobs - {c}).Keys == jobs.Keys - {c};
      assert jobs - {c} - {k} == jobs - {k} - {c};
      BagWithout(jobs - {c}, k);
      assert (jobs - {k}).Keys == jobs.Keys - {k};
      BagWithout(jobs - {k}, c);
    }
  }

  lemma BagWith(jobs: map<nat, Payload>, k: nat, p: Payload)
    requires k !in jobs
    ensures Bag(jobs[k := p]) == multiset{p} + Bag(jobs)
  {
    BagWithout(jobs[k := p], k);
    assert jobs[k := p] - {k} == jobs;
  }

  function Finished(finished: seq<Done>): (r: seq<Payload>)
    ensures |r| == |finished| && forall k :: 0 <= k < |finished| ==> r[k] == finished[k].payload
  {
    seq(|finished|, k requires 0 <= k < |finished| => finished[k].payload)
  }

  /** Jobs start in the order of arrival, and those started are running or done. */
  ghost predicate Fifo(s: Scheduler) {
    && s.started + s.queue == s.arrived
    && multiset(s.started) == multiset(Finished(s.finished)) + Bag(s.jobs)
  }

  /** At most `limit` jobs run, and payloads wait only when that many do. */
  predicate Busy(s: Scheduler, limit: int) {
    && |s.jobs| <= (if limit < 0 then 0 else limit)
    && (s.queue != [] ==> |s.jobs| >= limit)
  }

  lemma JobDoneKeeps(s: Scheduler, e: Exit)
    requires Fifo(s) && e.pid in s.jobs
    ensures Fifo(JobDone(s, e))
  {
    BagWithout(s.jobs, e.pid);
    var r := JobDone(s, e);
    assert Finished(r.finished) == Finished(s.finished) + [s.jobs[e.pid]];
  }

  lemma StartKeeps(s: Scheduler, pid: nat)
    requires Fifo(s) && s.queue != [] && pid !in s.jobs
    ensures Fifo(StartNext(s, pid))
  {
    BagWith(s.jobs, pid, s.queue[0]);
  }

  lemma {:induction false} ReapKeeps(s: Scheduler, os: Os)
    requires Sane(os) && Fifo(s)
    ensures Fifo(Reap(s, os))
    ensures Reap(s, os).queue == s.queue && Reap(s, os).arrived == s.arrived && Reap(s, os).started == s.started
    ensures |Reap(s, os).jobs| <= |s.jobs|
    decreases |s.jobs|
  {
    hide Fifo;
    if s.jobs != map[] && os.waitNoHang(s).Some? {
      JobDoneKeeps(s, os.waitNoHang(s).value);
      ReapKeeps(JobDone(s, os.waitNoHang(s).value), os);
    }
  }

  lemma {:induction false} FillKeeps(s: Scheduler, limit: int, os: Os)
    requires Sane(os) && Fifo(s) && s.queue != [] && |s.jobs| <= (if limit < 0 then 0 else limit)
    ensures Fifo(Fill(s, limit, os)) && Busy(Fill(s, limit, os), limit)
    ensures Fill(s, limit, os).arrived == s.arrived
    decreases |s.queue|
  {
    hide Fifo;
    if |s.jobs| < limit {
      var t := StartNext(s, os.spawn(s));
      StartKeeps(s, os.spawn(s));
      if t.queue != [] {
        FillKeeps(t, limit, os);
      }
    }
  }

  lemma EnqueueKeeps(s: Scheduler, p: Payload, limit: int, os: Os)
    requires Sane(os) && Fifo(s) && Busy(s, limit)
    ensures Fifo(Enqueue(s, p, limit, os)) && Busy(Enqueue(s, p, limit, os), limit)
    ensures Enqueue(s, p, limit, os).arrived == s.arrived + [p]
  {
    ReapKeeps(s, os);
    var t := Reap(s, os);
    assert t.started + (t.queue + [p]) == t.started + t.queue + [p];
    FillKeeps(t.(queue := t.queue + [p], arrived := t.arrived + [p]), limit, os);
  }

  /** `wait` returns with no job left, and with an empty queue unless no job was running. */
  lemma {:induction false} WaitKeeps(s: Scheduler, os: Os)
    requires Sane(os) && Fifo(s)
    ensures Fifo(Wait(s, os)) && Wait(s, os).jobs == map[] && Wait(s, os).arrived == s.arrived
    ensures Wait(s, os).queue == if s.jobs == map[] then s.queue else []
    decreases |s.queue|, |s.jobs|
  {
    hide Fifo;
    if s.jobs != map[] {
      var t := JobDone(s, os.wait(s));
      JobDoneKeeps(s, os.wait(s));
      if t.queue == [] {
        WaitKeeps(t, os);
      } else {
        StartKeeps(t, os.spawn(t));
        var u := StartNext(t, os.spawn(t));
        assert u.jobs != map[];
        WaitKeeps(u, os);
      }
    }
  }

  lemma {:induction false} RunKeeps(ops: seq<(Op, Os)>, limit: int)
    requires forall k :: 0 <= k < |ops| ==> Sane(ops[k].1)
    ensures Fifo(Run(EMPTY, ops, limit)) && Busy(Run(EMPTY, ops, limit), limit)
    decreases |ops|
  {
    hide Fifo, Enqueue, Wait;
    if ops == [] {
      EmptyIsFifo();
    } else {
      RunKeeps(ops[..|ops| - 1], limit);
      var s := Run(EMPTY, ops[..|ops| - 1], limit);
      var (op, os) := ops[|ops| - 1];
      match op
      case Enqueueing(p) => EnqueueKeeps(s, p, limit, os);
      case Waiting => WaitKeeps(s, os);
      case Clearing => ClearKeeps(s);
    }
  }

  lemma EmptyIsFifo()
    ensures Fifo(EMPTY)
  {
  }

  lemma ClearKeeps(s: Scheduler)
    requires Fifo(s)
    ensures Fifo(s.(err := {}))
  {
  }

  /** The state after some operations on a new scheduler. */
  ghost predicate Reachable(s: Scheduler, limit: int) {
    exists ops: seq<(Op, Os)> :: IsRun(ops, limit, s)
  }

  ghost predicate IsRun(ops: seq<(Op, Os)>, limit: int, s: Scheduler) {
    (forall k :: 0 <= k < |ops| ==> Sane(ops[k].1)) && Run(EMPTY, ops, limit) == s
  }

  /** Whatever was called, jobs started in the order of arrival, and what started is running or done. */
  lemma ReachableIsFifo(s: Scheduler, limit: int)
    requires Reachable(s, limit)
    ensures Fifo(s) && Busy(s, limit)
  {
    var ops :| IsRun(ops, limit, s);
    RunKeeps(ops, limit);
  }

  /** With at least one job allowed, a bounded number runs, and waiting means that all slots are taken. */
  lemma JobsBounded(s: Scheduler, limit: int)
    requires Reachable(s, limit) && limit >= 1
    ensures |s.jobs| <= limit
    ensures s.queue != [] ==> |s.jobs| == limit
  {
    ReachableIsFifo(s, limit);
  }

  /**
   `wait` leaves every payload that ever arrived finished exactly once, and started in the order
   of arrival, exactly if there may be jobs at all or none arrived.
   */
  lemma WaitFinishesAll(s: Scheduler, limit: int, os: Os)
    requires Reachable(s, limit) && Sane(os)
    ensures var t := Wait(s, os);
      && t.jobs == map[] && t.arrived == s.arrived
      && (limit >= 1 || t.arrived == [] <==>
          t.queue == [] && t.started == t.arrived && multiset(Finished(t.finished)) == multiset(t.arrived))
  {
    hide Run, Wait, Fifo;
    ReachableIsFifo(s, limit);
    WaitKeeps(s, os);
    if limit >= 1 {
      Settled(Wait(s, os));
    } else {
      var ops :| IsRun(ops, limit, s);
      NeverStarts(ops, limit);
      Idle(s, os);
    }
  }

  lemma Settled(t: Scheduler)
    requires Fifo(t) && t.jobs == map[] && t.queue == []
    ensures t.started == t.arrived && multiset(Finished(t.finished)) == multiset(t.arrived)
  {
    assert t.started + [] == t.started;
    assert Bag(map[]) == multiset{};
  }

  lemma Idle(s: Scheduler, os: Os)
    requires Sane(os) && Fifo(s) && s.jobs == map[] && s.started == []
    ensures Wait(s, os) == s && s.queue == s.arrived
    ensures s.arrived == [] ==> multiset(Finished(s.finished)) == multiset{}
  {
    assert [] + s.queue == s.queue;
    assert Bag(map[]) == multiset{};
  }

  /** Without a slot for a job nothing ever starts. */
  lemma {:induction false} NeverStarts(ops: seq<(Op, Os)>, limit: int)
    requires limit < 1 && forall k :: 0 <= k < |ops| ==> Sane(ops[k].1)
    ensures Run(EMPTY, ops, limit).jobs == map[] && Run(EMPTY, ops, limit).started == []
    decreases |ops|
  {
    if ops != [] {
      NeverStarts(ops[..|ops| - 1], limit);
    }
  }

  // ----- Errors -----

  /** The packages of children that ended with a nonzero code, or whose package fails its check. */
  function FailedPackages(done: seq<Done>): set<Package> {
    set k | 0 <= k < |done| && (done[k].exit.code != 0 || !done[k].exit.verified) :: done[k].payload.pkg
  }

  /** The end of one child: what is recorded, and that its package is an error if it failed or its check did. */
  lemma JobDoneMeaning(s: Scheduler, e: Exit, pkg: Package)
    requires e.pid in s.jobs
    ensures var r := JobDone(s, e);
      && (pkg in r.err <==> pkg in s.err || (pkg == s.jobs[e.pid].pkg && (e.code != 0 || !e.verified)))
      && r.finished == s.finished + [Done(s.jobs[e.pid], e)]
      && r.jobs == s.jobs - {e.pid} && r.queue == s.queue && r.started == s.started && r.arrived == s.arrived
  {
  }

  /** The children that ended from s to t, with their exits. */
  function EndedSince(s: Scheduler, t: Scheduler): seq<Done>
    requires |s.finished| <= |t.finished|
  {
    t.finished[|s.finished|..]
  }

  /** A package became an error exactly if one of its children failed or built a package that fails its check. */
  ghost predicate ErrsAreFailures(s: Scheduler, t: Scheduler) {
    && |s.finished| <= |t.finished| && t.finished[..|s.finished|] == s.finished
    && forall pkg :: pkg in t.err <==>
         || pkg in s.err
         || exists k :: 0 <= k < |EndedSince(s, t)| && EndedSince(s, t)[k].payload.pkg == pkg
              && (EndedSince(s, t)[k].exit.code != 0 || !EndedSince(s, t)[k].exit.verified)
  }

  lemma ErrorsAreFailures(s: Scheduler, t: Scheduler)
    requires ErrorsSince(s, t)
    ensures ErrsAreFailures(s, t)
  {
    var done := EndedSince(s, t);
    forall pkg
      ensures pkg in FailedPackages(done) <==>
              exists k :: 0 <= k < |done| && done[k].payload.pkg == pkg
                          && (done[k].exit.code != 0 || !done[k].exit.verified)
    {
    }
  }

  /** `wait` leaves exactly the failures of the children it waited for as new errors. */
  lemma WaitErrsAreFailures(s: Scheduler, os: Os)
    requires Sane(os)
    ensures ErrsAreFailures(s, Wait(s, os))
  {
    WaitErrors(s, os);
    ErrorsAreFailures(s, Wait(s, os));
  }

  /** So does `enqueue` for the children that it finds ended. */
  lemma EnqueueErrsAreFailures(s: Scheduler, p: Payload, limit: int, os: Os)
    requires Sane(os)
    ensures ErrsAreFailures(s, Enqueue(s, p, limit, os))
  {
    EnqueueErrors(s, p, limit, os);
    ErrorsAreFailures(s, Enqueue(s, p, limit, os));
  }

  /** `enqueue` first reaps until no child has ended or none is left. */
  lemma {:induction false} ReapsAll(s: Scheduler, os: Os)
    requires Sane(os)
    ensures Reap(s, os).jobs == map[] || os.waitNoHang(Reap(s, os)) == None
    decreases |s.jobs|
  {
    if s.jobs != map[] && os.waitNoHang(s).Some? {
      ReapsAll(JobDone(s, os.waitNoHang(s).value), os);
    }
  }

  /** Whatever happened from s to t, the new errors are the rebuilds that failed meanwhile. */
  ghost predicate ErrorsSince(s: Scheduler, t: Scheduler) {
    && |s.finished| <= |t.finished| && t.finished[..|s.finished|] == s.finished
    && t.err == s.err + FailedPackages(t.finished[|s.finished|..])
  }

  lemma ErrorsCompose(s: Scheduler, t: Scheduler, u: Scheduler)
    requires ErrorsSince(s, t) && ErrorsSince(t, u)
    ensures ErrorsSince(s, u)
  {
    var a, b, c := t.finished[|s.finished|..], u.finished[|t.finished|..], u.finished[|s.finished|..];
    assert u.finished == t.finished + b;
    assert c == a + b;
    FailedAppend(a, b);
  }

  lemma FailedAppend(a: seq<Done>, b: seq<Done>)
    ensures FailedPackages(a + b) == FailedPackages(a) + FailedPackages(b)
  {
    var ab := a + b;
    forall p | p in FailedPackages(a) + FailedPackages(b)
      ensures p in FailedPackages(ab)
    {
      if p in FailedPackages(a) {
        var k :| 0 <= k < |a| && (a[k].exit.code != 0 || !a[k].exit.verified) && a[k].payload.pkg == p;
        assert ab[k] == a[k];
      } else {
        var k :| 0 <= k < |b| && (b[k].exit.code != 0 || !b[k].exit.verified) && b[k].payload.pkg == p;
        assert ab[|a| + k] == b[k];
      }
    }
  }

  lemma SameErrors(s: Scheduler, t: Scheduler)
    requires s.finished == t.finished && s.err == t.err
    ensures ErrorsSince(s, t)
  {
    assert t.finished[..|s.finished|] == s.finished && t.finished[|s.finished|..] == [];
    assert FailedPackages([]) == {} && s.err + {} == s.err;
  }

  lemma JobDoneErrors(s: Scheduler, e: Exit)
    requires e.pid in s.jobs
    ensures ErrorsSince(s, JobDone(s, e))
  {
    var t := JobDone(s, e);
    var done := [Done(s.jobs[e.pid], e)];
    assert t.finished[|s.finished|..] == done;
    assert FailedPackages(done) == if e.code == 0 && e.verified then {} else {s.jobs[e.pid].pkg} by {
      assert done[0].payload == s.jobs[e.pid];
    }
  }

  lemma {:induction false} ReapErrors(s: Scheduler, os: Os)
    requires Sane(os)
    ensures ErrorsSince(s, Reap(s, os))
    decreases |s.jobs|
  {
    hide ErrorsSince, JobDone;
    if s.jobs != map[] && os.waitNoHang(s).Some? {
      var t := JobDone(s, os.waitNoHang(s).value);
      JobDoneErrors(s, os.waitNoHang(s).value);
      ReapErrors(t, os);
      ErrorsCompose(s, t, Reap(s, os));
    } else {
      SameErrors(s, s);
    }
  }

  lemma {:induction false} FillErrors(s: Scheduler, limit: int, os: Os)
    requires Sane(os) && s.queue != []
    ensures Fill(s, limit, os).finished == s.finished && Fill(s, limit, os).err == s.err
    decreases |s.queue|
  {
    if |s.jobs| < limit {
      var t := StartNext(s, os.spawn(s));
      if t.queue != [] {
        FillErrors(t, limit, os);
      }
    }
  }

  lemma EnqueueErrors(s: Scheduler, p: Payload, limit: int, os: Os)
    requires Sane(os)
    ensures ErrorsSince(s, Enqueue(s, p, limit, os))
  {
    hide ErrorsSince, Reap, Fill;
    ReapErrors(s, os);
    var t := Reap(s, os);
    FillErrors(t.(queue := t.queue + [p], arrived := t.arrived + [p]), limit, os);
    SameErrors(t, Enqueue(s, p, limit, os));
    ErrorsCompose(s, t, Enqueue(s, p, limit, os));
  }

  lemma {:induction false} WaitErrors(s: Scheduler, os: Os)
    requires Sane(os)
    ensures ErrorsSince(s, Wait(s, os))
    decreases |s.queue|, |s.jobs|
  {
    hide ErrorsSince;
    if s.jobs != map[] {
      var t := JobDone(s, os.wait(s));
      JobDoneErrors(s, os.wait(s));
      if t.queue == [] {
        WaitErrors(t, os);
        ErrorsCompose(s, t, Wait(t, os));
      } else {
        var u := StartNext(t, os.spawn(t));
        SameErrors(t, u);
        ErrorsCompose(s, t, u);
        WaitErrors(u, os);
        ErrorsCompose(s, u, Wait(u, os));
      }
    } else {
      SameErrors(s, s);
    }
  }
}
