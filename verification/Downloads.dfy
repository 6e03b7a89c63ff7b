/** One round of downloads and its errors (dnf/repo.py), and the accounting over rounds (dnf/base.py). */
module Downloads {
  import opened Wrappers
  import opened Payloads
  import opened DeltaScheduler

  /** What librepo says about a target in the end. */
  datatype TargetErr = NoErr | NotFinished | AlreadyDownloaded | Failed

  /** An end callback: its payload, and whether its status is an error. */
  datatype End = End(payload: Payload, failed: bool, os: Os)

  /** librepo's part in a round: the end callbacks in their order, the targets' errors, and an exception. */
  datatype Librepo = Librepo(ends: seq<End>, errs: seq<TargetErr>, fatal: bool, os: Os)

  /** End callbacks come for the round's own payloads, and at most once each. */
  ghost predicate Faithful(lib: Librepo, payloads: seq<Payload>) {
    && |lib.errs| == |payloads|
    && Sane(lib.os) && (forall k :: 0 <= k < |lib.ends| ==> Sane(lib.ends[k].os))
    && multiset(EndPayloads(lib.ends)) <= multiset(payloads)
  }

  function EndPayloads(ends: seq<End>): (r: seq<Payload>)
    ensures |r| == |ends| && forall k :: 0 <= k < |ends| ==> r[k] == ends[k].payload
  {
    seq(|ends|, k requires 0 <= k < |ends| => ends[k].payload)
  }

  datatype Errors = Errors(irrecoverable: set<Package>, fatal: bool, recoverable: set<Package>, skipped: set<Package>)

  /** `_irrecoverable()` is not empty. */
  predicate Hopeless(e: Errors) {
    e.irrecoverable != {} || e.fatal
  }

  function Select(payloads: seq<Payload>, deltas: bool): seq<Payload> {
    if payloads == [] then []
    else (if payloads[0].DeltaPayload? == deltas then [payloads[0]] else []) + Select(payloads[1..], deltas)
  }

  /** The targets in their order: deltas first, otherwise as they were. */
  function Targets(payloads: seq<Payload>): seq<Payload> {
    Select(payloads, true) + Select(payloads, false)
  }

  function WithErr(targets: seq<Payload>, errs: seq<TargetErr>, e: TargetErr): set<Package>
    requires |targets| == |errs|
  {
    set k | 0 <= k < |targets| && errs[k] == e :: targets[k].pkg
  }

  /** The effect of the end callbacks: a delta that was downloaded is enqueued. */
  ghost function EnqueueEnds(s: Scheduler, ends: seq<End>, limit: int): Scheduler
    requires forall k :: 0 <= k < |ends| ==> Sane(ends[k].os)
    decreases |ends|
  {
    if ends == [] then s
    else
      var before := EnqueueEnds(s, ends[..|ends| - 1], limit);
      var end := ends[|ends| - 1];
      if end.payload.DeltaPayload? && !end.failed then Enqueue(before, end.payload, limit, end.os) else before
  }

  /** `_download_payloads`: the scheduler afterwards. */
  ghost function AfterRound(s: Scheduler, payloads: seq<Payload>, lib: Librepo, limit: int): Scheduler
    requires Faithful(lib, payloads)
  {
    Wait(EnqueueEnds(s.(err := {}), lib.ends, limit), lib.os)
  }

  /** `_download_payloads`: the errors. */
  ghost function RoundErrors(s: Scheduler, payloads: seq<Payload>, lib: Librepo, limit: int): Errors
    requires Faithful(lib, payloads)
  {
    TargetsLength(payloads);
    Errors(WithErr(Targets(payloads), lib.errs, Failed), lib.fatal, AfterRound(s, payloads, lib, limit).err,
           WithErr(Targets(payloads), lib.errs, AlreadyDownloaded))
  }

  lemma {:induction false} SelectCount(payloads: seq<Payload>, deltas: bool, p: Payload)
    ensures multiset(Select(payloads, deltas))[p] == if p.DeltaPayload? == deltas then multiset(payloads)[p] else 0
    ensures |Select(payloads, deltas)| + |Select(payloads, !deltas)| == |payloads|
  {
    if payloads != [] {
      SelectCount(payloads[1..], deltas, p);
      assert payloads == [payloads[0]] + payloads[1..];
      hide Select;
      SelectCons(payloads, deltas);
      SelectCons(payloads, !deltas);
    }
  }

  lemma SelectCons(payloads: seq<Payload>, deltas: bool)
    requires payloads != []
    ensures Select(payloads, deltas) ==
            (if payloads[0].DeltaPayload? == deltas then [payloads[0]] else []) + Select(payloads[1..], deltas)
  {
  }

  lemma TargetsLength(payloads: seq<Payload>)
    ensures |Targets(payloads)| == |payloads|
  {
    SelectCount(payloads, true, RpmPayload(Package(0, 0)));
  }

  /** Every payload is a target, once. */
  lemma TargetsArePayloads(payloads: seq<Payload>)
    ensures multiset(Targets(payloads)) == multiset(payloads)
  {
    hide Select;
    forall p: Payload
      ensures multiset(Targets(payloads))[p] == multiset(payloads)[p]
    {
      SelectCount(payloads, true, p);
      SelectCount(payloads, false, p);
    }
  }

  /** Each selected payload stands where it stood among the others. */
  lemma {:induction false} SelectKeepsOrder(payloads: seq<Payload>, deltas: bool, i: nat, j: nat)
    requires i < j < |Select(payloads, deltas)|
    ensures exists a, b :: 0 <= a < b < |payloads|
                           && payloads[a] == Select(payloads, deltas)[i] && payloads[b] == Select(payloads, deltas)[j]
  {
    var rest := Select(payloads[1..], deltas);
    if payloads[0].DeltaPayload? != deltas {
      SelectKeepsOrder(payloads[1..], deltas, i, j);
      var a, b :| 0 <= a < b < |payloads[1..]| && payloads[1..][a] == rest[i] && payloads[1..][b] == rest[j];
      assert payloads[a + 1] == rest[i] && payloads[b + 1] == rest[j];
    } else if i == 0 {
      SelectMember(payloads[1..], deltas, j - 1);
      var b :| 0 <= b < |payloads[1..]| && payloads[1..][b] == rest[j - 1];
      assert payloads[0] == Select(payloads, deltas)[0] && payloads[b + 1] == Select(payloads, deltas)[j];
    } else {
      SelectKeepsOrder(payloads[1..], deltas, i - 1, j - 1);
      var a, b :| 0 <= a < b < |payloads[1..]| && payloads[1..][a] == rest[i - 1] && payloads[1..][b] == rest[j - 1];
      assert payloads[a + 1] == Select(payloads, deltas)[i] && payloads[b + 1] == Select(payloads, deltas)[j];
    }
  }

  lemma {:induction false} SelectMember(payloads: seq<Payload>, deltas: bool, j: nat)
    requires j < |Select(payloads, deltas)|
    ensures exists b :: 0 <= b < |payloads| && payloads[b] == Select(payloads, deltas)[j]
    ensures Select(payloads, deltas)[j].DeltaPayload? == deltas
  {
    if payloads[0].DeltaPayload? == deltas && j == 0 {
      assert payloads[0] == Select(payloads, deltas)[0];
    } else {
      var k := if payloads[0].DeltaPayload? == deltas then j - 1 else j;
      SelectMember(payloads[1..], deltas, k);
      var b :| 0 <= b < |payloads[1..]| && payloads[1..][b] == Select(payloads[1..], deltas)[k];
      assert payloads[b + 1] == Select(payloads, deltas)[j];
    }
  }

  /** Deltas come first, and otherwise the order of the payloads is kept. */
  lemma TargetsInOrder(payloads: seq<Payload>, i: nat, j: nat)
    requires i < j < |Targets(payloads)|
    ensures Targets(payloads)[j].DeltaPayload? ==> Targets(payloads)[i].DeltaPayload?
    ensures Targets(payloads)[i].DeltaPayload? == Targets(payloads)[j].DeltaPayload? ==>
              exists a, b :: 0 <= a < b < |payloads|
                             && payloads[a] == Targets(payloads)[i] && payloads[b] == Targets(payloads)[j]
  {
    hide Select;
    var d, o := Select(payloads, true), Select(payloads, false);
    var t := Targets(payloads);
    if j < |d| {
      SelectMember(payloads, true, i);
      SelectKeepsOrder(payloads, true, i, j);
    } else {
      SelectMember(payloads, false, j - |d|);
      if i < |d| {
        SelectMember(payloads, true, i);
      } else {
        SelectMember(payloads, false, i - |d|);
        SelectKeepsOrder(payloads, false, i - |d|, j - |d|);
      }
    }
  }

  /** Errors by target: failed targets are irrecoverable, those already there are skipped. */
  lemma RoundErrorsMeaning(s: Scheduler, payloads: seq<Payload>, lib: Librepo, limit: int, pkg: Package)
    requires Faithful(lib, payloads)
    ensures |Targets(payloads)| == |lib.errs|
    ensures var e := RoundErrors(s, payloads, lib, limit);
      && (pkg in e.irrecoverable <==>
            exists k :: 0 <= k < |lib.errs| && lib.errs[k] == Failed && Targets(payloads)[k].pkg == pkg)
      && (pkg in e.skipped <==>
            exists k :: 0 <= k < |lib.errs| && lib.errs[k] == AlreadyDownloaded && Targets(payloads)[k].pkg == pkg)
      && e.fatal == lib.fatal
  {
    TargetsLength(payloads);
    hide Targets, AfterRound;
  }

  // ----- Which packages can be retried -----

  /** The payloads that the end callbacks enqueue. */
  function Enqueued(ends: seq<End>): seq<Payload>
    decreases |ends|
  {
    if ends == [] then []
    else
      var end := ends[|ends| - 1];
      Enqueued(ends[..|ends| - 1]) + if end.payload.DeltaPayload? && !end.failed then [end.payload] else []
  }

  lemma {:induction false} EnqueuedAreEnds(ends: seq<End>, p: Payload)
    requires p in Enqueued(ends)
    ensures p.DeltaPayload? && p in EndPayloads(ends)
    decreases |ends|
  {
    var end := ends[|ends| - 1];
    if p in Enqueued(ends[..|ends| - 1]) {
      EnqueuedAreEnds(ends[..|ends| - 1], p);
      var k :| 0 <= k < |ends| - 1 && EndPayloads(ends[..|ends| - 1])[k] == p;
      assert EndPayloads(ends)[k] == p;
    } else {
      assert EndPayloads(ends)[|ends| - 1] == p;
    }
  }

  /** Exactly the deltas whose download did not fail are enqueued, each once for each callback. */
  lemma {:induction false} EnqueuedExactly(ends: seq<End>, p: Payload)
    ensures p in Enqueued(ends) <==>
            p.DeltaPayload? && exists k :: 0 <= k < |ends| && ends[k].payload == p && !ends[k].failed
    decreases |ends|
  {
    if ends != [] {
      var init, end := ends[..|ends| - 1], ends[|ends| - 1];
      EnqueuedExactly(init, p);
      if k :| 0 <= k < |ends| && ends[k].payload == p && !ends[k].failed {
        assert k < |ends| - 1 ==> init[k] == ends[k];
      }
      if k :| 0 <= k < |init| && init[k].payload == p && !init[k].failed {
        assert ends[k] == init[k];
      }
    }
  }

  lemma {:induction false} EnqueuedAtMost(ends: seq<End>)
    ensures multiset(Enqueued(ends)) <= multiset(EndPayloads(ends))
    decreases |ends|
  {
    if ends != [] {
      var init, end := ends[..|ends| - 1], ends[|ends| - 1];
      EnqueuedAtMost(init);
      assert EndPayloads(ends) == EndPayloads(init) + [end.payload];
      hide EndPayloads, Enqueued;
      Appended(EndPayloads(init), [end.payload]);
      EnqueuedSnoc(ends);
    }
  }

  lemma EnqueuedSnoc(ends: seq<End>)
    requires ends != []
    ensures var init, end := ends[..|ends| - 1], ends[|ends| - 1];
      multiset(Enqueued(ends)) <= multiset(Enqueued(init)) + multiset{end.payload}
  {
  }

  lemma {:induction false} EnqueueEndsKeeps(s: Scheduler, ends: seq<End>, limit: int)
    requires Fifo(s) && Busy(s, limit) && forall k :: 0 <= k < |ends| ==> Sane(ends[k].os)
    ensures Fifo(EnqueueEnds(s, ends, limit)) && Busy(EnqueueEnds(s, ends, limit), limit)
    ensures EnqueueEnds(s, ends, limit).arrived == s.arrived + Enqueued(ends)
    ensures ErrorsSince(s, EnqueueEnds(s, ends, limit))
    decreases |ends|
  {
    hide Fifo, Busy, Enqueue, ErrorsSince, Sane;
    if ends == [] {
      SameErrors(s, s);
    } else {
      var init, end := ends[..|ends| - 1], ends[|ends| - 1];
      EnqueueEndsKeeps(s, init, limit);
      var before := EnqueueEnds(s, init, limit);
      if end.payload.DeltaPayload? && !end.failed {
        EnqueueKeeps(before, end.payload, limit, end.os);
        EnqueueErrors(before, end.payload, limit, end.os);
        ErrorsCompose(s, before, Enqueue(before, end.payload, limit, end.os));
      }
    }
  }

  /** A scheduler between rounds. */
  ghost predicate AtRest(s: Scheduler, limit: int) {
    Fifo(s) && Busy(s, limit) && s.jobs == map[] && s.queue == []
  }

  /** What came in during the round was rebuilt or still waits. */
  lemma RoundDone(s: Scheduler, t: Scheduler, more: seq<Payload>)
    requires Fifo(s) && s.jobs == map[] && s.queue == []
    requires Fifo(t) && t.jobs == map[] && t.arrived == s.arrived + more
    requires |s.finished| <= |t.finished| && t.finished[..|s.finished|] == s.finished
    ensures multiset(Finished(t.finished[|s.finished|..])) <= multiset(more)
  {
    var done := t.finished[|s.finished|..];
    StartedWhenIdle(s);
    StartedWhenIdle(t);
    assert s.started == s.arrived by { assert s.started + [] == s.started; }
    assert t.started + t.queue == t.arrived;
    hide Fifo, Finished;
    FinishedSplit(s.finished, t.finished);
    Appended(t.started, t.queue);
    Appended(s.arrived, more);
    Part(multiset(s.started), multiset(Finished(done)), multiset(t.queue), multiset(more));
  }

  lemma StartedWhenIdle(s: Scheduler)
    requires Fifo(s) && s.jobs == map[]
    ensures multiset(s.started) == multiset(Finished(s.finished))
  {
    assert Bag(map[]) == multiset{};
  }

  lemma FinishedSplit(a: seq<Done>, b: seq<Done>)
    requires |a| <= |b| && b[..|a|] == a
    ensures multiset(Finished(b)) == multiset(Finished(a)) + multiset(Finished(b[|a|..]))
  {
    assert b == a + b[|a|..];
    assert Finished(b) == Finished(a) + Finished(b[|a|..]);
    hide Finished;
    Appended(Finished(a), Finished(b[|a|..]));
  }

  lemma Appended(a: seq<Payload>, b: seq<Payload>)
    ensures multiset(a + b) == multiset(a) + multiset(b)
  {
  }

  lemma Part(f: multiset<Payload>, d: multiset<Payload>, q: multiset<Payload>, m: multiset<Payload>)
    requires f + d + q == f + m
    ensures d <= m
  {
    forall p: Payload
      ensures d[p] <= m[p]
    {
      assert (f + d + q)[p] == f[p] + d[p] + q[p] && (f + m)[p] == f[p] + m[p];
    }
  }

  /** Only packages whose delta was downloaded but could not be rebuilt are recoverable. */
  lemma RecoverableAreDeltas(s: Scheduler, payloads: seq<Payload>, lib: Librepo, limit: int, pkg: Package)
    requires Faithful(lib, payloads) && AtRest(s, limit)
    requires pkg in RoundErrors(s, payloads, lib, limit).recoverable
    ensures exists p :: p in payloads && p.DeltaPayload? && p.pkg == pkg
  {
    hide Fifo, Busy, EnqueueEnds, Wait, Enqueued;
    var s0 := s.(err := {});
    ClearKeeps(s);
    ClearBusy(s, limit);
    EnqueueEndsKeeps(s0, lib.ends, limit);
    var s1 := EnqueueEnds(s0, lib.ends, limit);
    WaitKeeps(s1, lib.os);
    WaitErrors(s1, lib.os);
    var t := Wait(s1, lib.os);
    ErrorsCompose(s0, s1, t);
    var done := t.finished[|s0.finished|..];
    RoundDone(s0, t, Enqueued(lib.ends));
    var k :| 0 <= k < |done| && (done[k].exit.code != 0 || !done[k].exit.verified) && done[k].payload.pkg == pkg;
    var p := done[k].payload;
    assert Finished(done)[k] == p;
    assert p in multiset(Enqueued(lib.ends));
    EnqueuedAreEnds(lib.ends, p);
    assert p in multiset(EndPayloads(lib.ends));
    assert p in multiset(payloads);
  }

  /**
   With a slot for a job, the packages to retry are exactly those of which a downloaded delta was
   rebuilt in vain: every downloaded delta is rebuilt once in the round.
   */
  lemma RecoverableExactly(s: Scheduler, payloads: seq<Payload>, lib: Librepo, limit: int)
    requires Faithful(lib, payloads) && AtRest(s, limit) && limit >= 1
    ensures var t := AfterRound(s, payloads, lib, limit);
      && AtRest(t, limit) && |s.finished| <= |t.finished|
      && multiset(Finished(EndedSince(s, t))) == multiset(Enqueued(lib.ends))
      && forall pkg :: pkg in RoundErrors(s, payloads, lib, limit).recoverable <==>
           exists k :: 0 <= k < |EndedSince(s, t)| && EndedSince(s, t)[k].payload.pkg == pkg
                       && (EndedSince(s, t)[k].exit.code != 0 || !EndedSince(s, t)[k].exit.verified)
  {
    hide Fifo, Busy, EnqueueEnds, Wait, Enqueued, ErrsAreFailures, Finished;
    var s0 := s.(err := {});
    ClearKeeps(s);
    ClearBusy(s, limit);
    EnqueueEndsKeeps(s0, lib.ends, limit);
    var s1 := EnqueueEnds(s0, lib.ends, limit);
    WaitKeeps(s1, lib.os);
    WaitErrors(s1, lib.os);
    var t := Wait(s1, lib.os);
    ErrorsCompose(s0, s1, t);
    ErrorsAreFailures(s0, t);
    NoQueueAtRest(s1, limit);
    RestIsBusy(t, limit);
    RoundRebuilds(s0, t, Enqueued(lib.ends));
    FromNoErrors(s0, t);
  }

  lemma FromNoErrors(s: Scheduler, t: Scheduler)
    requires ErrsAreFailures(s, t) && s.err == {}
    ensures |s.finished| <= |t.finished| && t.finished[..|s.finished|] == s.finished
    ensures forall pkg :: pkg in t.err <==>
              exists k :: 0 <= k < |EndedSince(s, t)| && EndedSince(s, t)[k].payload.pkg == pkg
                          && (EndedSince(s, t)[k].exit.code != 0 || !EndedSince(s, t)[k].exit.verified)
  {
  }

  lemma NoQueueAtRest(s: Scheduler, limit: int)
    requires Busy(s, limit) && limit >= 1
    ensures s.jobs == map[] ==> s.queue == []
  {
  }

  lemma RestIsBusy(t: Scheduler, limit: int)
    requires t.jobs == map[] && t.queue == []
    ensures Busy(t, limit)
  {
  }

  /** What came in during the round was rebuilt. */
  lemma RoundRebuilds(s: Scheduler, t: Scheduler, more: seq<Payload>)
    requires Fifo(s) && s.jobs == map[] && s.queue == []
    requires Fifo(t) && t.jobs == map[] && t.queue == [] && t.arrived == s.arrived + more
    requires |s.finished| <= |t.finished| && t.finished[..|s.finished|] == s.finished
    ensures multiset(Finished(EndedSince(s, t))) == multiset(more)
  {
    Settled(s);
    Settled(t);
    hide Fifo, Finished;
    FinishedSplit(s.finished, t.finished);
    Appended(s.arrived, more);
    SamePart(multiset(s.arrived), multiset(Finished(EndedSince(s, t))), multiset(more));
  }

  lemma SamePart(f: multiset<Payload>, d: multiset<Payload>, m: multiset<Payload>)
    requires f + d == f + m
    ensures d == m
  {
    forall p: Payload
      ensures d[p] == m[p]
    {
      assert (f + d)[p] == f[p] + d[p] && (f + m)[p] == f[p] + m[p];
    }
  }

  lemma ClearBusy(s: Scheduler, limit: int)
    requires Busy(s, limit)
    ensures Busy(s.(err := {}), limit)
  {
  }

  predicate AllRpms(payloads: seq<Payload>) {
    forall k :: 0 <= k < |payloads| ==> payloads[k].RpmPayload?
  }

  /** No job runs after a round, whatever the limit. */
  lemma {:induction false} NoJobsAfterRound(s: Scheduler, payloads: seq<Payload>, lib: Librepo, limit: int)
    requires Faithful(lib, payloads)
    ensures AfterRound(s, payloads, lib, limit).jobs == map[]
  {
    hide EnqueueEnds;
    NoJobsAfterWait(EnqueueEnds(s.(err := {}), lib.ends, limit), lib.os);
  }

  lemma {:induction false} NoJobsAfterWait(s: Scheduler, os: Os)
    requires Sane(os)
    ensures Wait(s, os).jobs == map[]
    decreases |s.queue|, |s.jobs|
  {
    if s.jobs != map[] {
      var t := JobDone(s, os.wait(s));
      if t.queue == [] { NoJobsAfterWait(t, os); } else { NoJobsAfterWait(StartNext(t, os.spawn(t)), os); }
    }
  }

  lemma {:induction false} RpmsEnqueueNothing(s: Scheduler, ends: seq<End>, limit: int)
    requires forall k :: 0 <= k < |ends| ==> Sane(ends[k].os)
    requires forall k :: 0 <= k < |ends| ==> ends[k].payload.RpmPayload?
    ensures EnqueueEnds(s, ends, limit) == s
    decreases |ends|
  {
    if ends != [] {
      RpmsEnqueueNothing(s, ends[..|ends| - 1], limit);
    }
  }

  /** A round of plain rpms after another round leaves nothing to retry. */
  lemma RpmRoundIsLast(s: Scheduler, payloads: seq<Payload>, lib: Librepo, limit: int)
    requires Faithful(lib, payloads) && AllRpms(payloads) && s.jobs == map[]
    ensures RoundErrors(s, payloads, lib, limit).recoverable == {}
    ensures AfterRound(s, payloads, lib, limit).jobs == map[]
  {
    forall k | 0 <= k < |lib.ends|
      ensures lib.ends[k].payload.RpmPayload?
    {
      var p := EndPayloads(lib.ends)[k];
      assert p in multiset(EndPayloads(lib.ends));
      assert p in multiset(payloads);
    }
    RpmsEnqueueNothing(s.(err := {}), lib.ends, limit);
  }

  // ----- Accounting -----

  datatype Saving = Saving(spent: nat, full: nat)

  /** `_update_saving`. */
  function UpdateSaving(saving: Saving, payloads: seq<Payload>, errs: set<Package>): Saving
    decreases |payloads|
  {
    if payloads == [] then saving
    else
      var before := UpdateSaving(saving, payloads[..|payloads| - 1], errs);
      var p := payloads[|payloads| - 1];
      Saving(before.spent + DownloadSize(p), before.full + if p.pkg in errs then 0 else FullSize(p))
  }

  /** The bytes downloaded, without those of skipped packages. */
  function Bandwidth(payloads: seq<Payload>, skipped: set<Package>): nat
    decreases |payloads|
  {
    if payloads == [] then 0
    else
      var p := payloads[|payloads| - 1];
      Bandwidth(payloads[..|payloads| - 1], skipped) + if p.pkg in skipped then 0 else DownloadSize(p)
  }

  /** The bytes of the payloads of some packages. */
  function BytesOf(payloads: seq<Payload>, pkgs: set<Package>): nat
    decreases |payloads|
  {
    if payloads == [] then 0
    else
      var p := payloads[|payloads| - 1];
      BytesOf(payloads[..|payloads| - 1], pkgs) + if p.pkg in pkgs then DownloadSize(p) else 0
  }

  /** The full sizes of all payloads. */
  function FullSizes(payloads: seq<Payload>): nat
    decreases |payloads|
  {
    if payloads == [] then 0
    else FullSizes(payloads[..|payloads| - 1]) + payloads[|payloads| - 1].pkg.size
  }

  predicate DistinctPackages(payloads: seq<Payload>) {
    forall i, j :: 0 <= i < j < |payloads| ==> payloads[i].pkg != payloads[j].pkg
  }

  function PackagesIn(payloads: seq<Payload>): set<Package> {
    set k | 0 <= k < |payloads| :: payloads[k].pkg
  }

  ghost function SizeOf(pkgs: set<Package>): nat {
    if pkgs == {} then 0
    else
      var p :| p in pkgs;
      p.size + SizeOf(pkgs - {p})
  }

  lemma {:induction false} SizeWithout(pkgs: set<Package>, p: Package)
    requires p in pkgs
    ensures SizeOf(pkgs) == p.size + SizeOf(pkgs - {p})
    decreases |pkgs|
  {
    var c :| c in pkgs && SizeOf(pkgs) == c.size + SizeOf(pkgs - {c});
    if c != p {
      assert pkgs - {c} - {p} == pkgs - {p} - {c};
      SizeWithout(pkgs - {c}, p);
      SizeWithout(pkgs - {p}, c);
    }
  }

  lemma PackagesSnoc(payloads: seq<Payload>)
    requires payloads != []
    ensures var init, last := payloads[..|payloads| - 1], payloads[|payloads| - 1];
      && PackagesIn(payloads) == PackagesIn(init) + {last.pkg}
      && (DistinctPackages(payloads) ==> DistinctPackages(init) && last.pkg !in PackagesIn(init))
  {
    var init, last := payloads[..|payloads| - 1], payloads[|payloads| - 1];
    forall p | p in PackagesIn(init) + {last.pkg}
      ensures p in PackagesIn(payloads)
    {
      if p in PackagesIn(init) {
        var k :| 0 <= k < |init| && init[k].pkg == p;
        assert payloads[k] == init[k];
      }
    }
  }

  lemma NoPackages()
    ensures PackagesIn([]) == {}
  {
  }

  /** What is counted as full now, together with what will be for the packages in errs, is everything once. */
  lemma {:induction false} FullOnce(payloads: seq<Payload>, errs: set<Package>)
    requires DistinctPackages(payloads)
    ensures UpdateSaving(Saving(0, 0), payloads, errs).full + SizeOf(errs * PackagesIn(payloads)) == FullSizes(payloads)
    decreases |payloads|
  {
    hide PackagesIn, DistinctPackages;
    if payloads == [] {
      assert errs * PackagesIn(payloads) == {} by { NoPackages(); }
    } else {
      var init, last := payloads[..|payloads| - 1], payloads[|payloads| - 1];
      PackagesSnoc(payloads);
      FullOnce(init, errs);
      if last.pkg in errs {
        SizeWithout(errs * PackagesIn(payloads), last.pkg);
        assert errs * PackagesIn(payloads) - {last.pkg} == errs * PackagesIn(init);
      } else {
        assert errs * PackagesIn(payloads) == errs * PackagesIn(init);
      }
    }
  }

  /** The deltas are those that `delta_factory` picks: below the percentage of their packages. */
  predicate Economical(payloads: seq<Payload>, percentage: nat) {
    forall k :: 0 <= k < |payloads| && payloads[k].DeltaPayload? ==>
      payloads[k].delta.size * 100 < payloads[k].pkg.size * percentage
  }

  /** Only packages with deltas are in errs. */
  predicate ErrsAreDeltas(payloads: seq<Payload>, errs: set<Package>) {
    forall k :: 0 <= k < |payloads| && payloads[k].pkg in errs ==> payloads[k].DeltaPayload?
  }

  function Percent(percentage: nat, n: nat): nat {
    percentage * n
  }

  lemma PercentAdd(percentage: nat, a: nat, b: nat)
    ensures Percent(percentage, a + b) == Percent(percentage, a) + Percent(percentage, b)
  {
  }

  /** One payload and, if it has to be retried, its package. */
  lemma OneBound(p: Payload, retried: bool, percentage: nat)
    requires p.DeltaPayload? ==> p.delta.size * 100 < p.pkg.size * percentage
    requires retried ==> p.DeltaPayload?
    ensures 100 * (DownloadSize(p) + if retried then p.pkg.size else 0) <= Percent(100 + percentage, p.pkg.size)
    ensures percentage <= 100 && !retried ==> DownloadSize(p) <= p.pkg.size
  {
    assert Percent(100 + percentage, p.pkg.size) == 100 * p.pkg.size + p.pkg.size * percentage;
    if percentage <= 100 {
      assert p.pkg.size * percentage <= p.pkg.size * 100;
    }
  }

  /** What the deltas save: the differences between packages and their deltas. */
  function SavedByDeltas(payloads: seq<Payload>): int
    decreases |payloads|
  {
    if payloads == [] then 0
    else
      var p := payloads[|payloads| - 1];
      SavedByDeltas(payloads[..|payloads| - 1]) + if p.DeltaPayload? then p.pkg.size - p.delta.size else 0
  }

  /** What is spent at first is exactly the full sizes without what the deltas save. */
  lemma {:induction false} SpentExactly(payloads: seq<Payload>, errs: set<Package>)
    ensures UpdateSaving(Saving(0, 0), payloads, errs).spent == FullSizes(payloads) - SavedByDeltas(payloads)
    decreases |payloads|
  {
    if payloads != [] {
      SpentExactly(payloads[..|payloads| - 1], errs);
    }
  }

  /** What is spent in the end, failed deltas and retries included. */
  lemma {:induction false} SpentBound(payloads: seq<Payload>, errs: set<Package>, percentage: nat)
    requires DistinctPackages(payloads) && Economical(payloads, percentage) && ErrsAreDeltas(payloads, errs)
    ensures var spent := UpdateSaving(Saving(0, 0), payloads, errs).spent;
      && 100 * (spent + SizeOf(errs * PackagesIn(payloads))) <= Percent(100 + percentage, FullSizes(payloads))
      && (percentage <= 100 && errs * PackagesIn(payloads) == {} ==> spent <= FullSizes(payloads))
    decreases |payloads|
  {
    hide PackagesIn, DistinctPackages, Percent, DownloadSize;
    if payloads == [] {
      NoPackages();
      assert errs * PackagesIn(payloads) == {};
    } else {
      var init, last := payloads[..|payloads| - 1], payloads[|payloads| - 1];
      PackagesSnoc(payloads);
      SpentBound(init, errs, percentage);
      OneBound(last, last.pkg in errs, percentage);
      PercentAdd(100 + percentage, FullSizes(init), last.pkg.size);
      if last.pkg in errs {
        SizeWithout(errs * PackagesIn(payloads), last.pkg);
        assert errs * PackagesIn(payloads) - {last.pkg} == errs * PackagesIn(init);
      } else {
        assert errs * PackagesIn(payloads) == errs * PackagesIn(init);
      }
    }
  }

  /** The bandwidth and the bytes of skipped packages make up what is counted as spent. */
  lemma {:induction false} BandwidthAndSkipped(saving: Saving, payloads: seq<Payload>, skipped: set<Package>, errs: set<Package>)
    ensures saving.spent + Bandwidth(payloads, skipped) + BytesOf(payloads, skipped) ==
            UpdateSaving(saving, payloads, errs).spent
    decreases |payloads|
  {
    if payloads != [] {
      BandwidthAndSkipped(saving, payloads[..|payloads| - 1], skipped, errs);
    }
  }

  /** A retry spends, and counts as full, the sizes of its packages. */
  lemma {:induction false} RetrySaving(saving: Saving, payloads: seq<Payload>)
    requires AllRpms(payloads) && DistinctPackages(payloads)
    ensures UpdateSaving(saving, payloads, {}) ==
            Saving(saving.spent + SizeOf(PackagesIn(payloads)), saving.full + SizeOf(PackagesIn(payloads)))
    decreases |payloads|
  {
    hide PackagesIn, DistinctPackages;
    if payloads == [] {
      NoPackages();
    } else {
      var init, last := payloads[..|payloads| - 1], payloads[|payloads| - 1];
      PackagesSnoc(payloads);
      RetrySaving(saving, init);
      SizeWithout(PackagesIn(payloads), last.pkg);
      assert PackagesIn(payloads) - {last.pkg} == PackagesIn(init);
    }
  }

  lemma RecoverableInPayloads(s: Scheduler, payloads: seq<Payload>, lib: Librepo, limit: int)
    requires Faithful(lib, payloads) && AtRest(s, limit) && DistinctPackages(payloads)
    ensures ErrsAreDeltas(payloads, RoundErrors(s, payloads, lib, limit).recoverable)
    ensures RoundErrors(s, payloads, lib, limit).recoverable <= PackagesIn(payloads)
  {
    hide RoundErrors, Faithful, AtRest;
    var errs := RoundErrors(s, payloads, lib, limit).recoverable;
    forall pkg | pkg in errs
      ensures pkg in PackagesIn(payloads)
      ensures forall k :: 0 <= k < |payloads| && payloads[k].pkg == pkg ==> payloads[k].DeltaPayload?
    {
      RecoverableAreDeltas(s, payloads, lib, limit, pkg);
      var p :| p in payloads && p.DeltaPayload? && p.pkg == pkg;
      var i :| 0 <= i < |payloads| && payloads[i] == p;
      forall k | 0 <= k < |payloads| && payloads[k].pkg == pkg
        ensures payloads[k].DeltaPayload?
      {
        assert k == i || k < i || i < k;
      }
    }
  }
}
