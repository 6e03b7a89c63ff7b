/** The DeltaInfo class (dnf/drpm.py): choice of deltas, and the loops of the job scheduler. */
module DeltaInfo {
  import opened Wrappers
  import opened Payloads
  import opened DeltaScheduler

  /** What `delta_factory` asks about a package before it looks for deltas. */
  datatype Circumstances = Circumstances(deltarpmInstalled: bool, repoDeltas: bool, localPackage: bool, present: bool)

  /** Worth downloading: strictly less than the given percentage of the package. */
  predicate Worthwhile(delta: nat, size: nat, percentage: nat) {
    delta * 100 < size * percentage
  }

  lemma WorthwhileInReals(delta: nat, size: nat, percentage: nat)
    ensures delta as real < size as real * percentage as real / 100.0 <==> Worthwhile(delta, size, percentage)
  {
    var product := size as real * percentage as real;
    assert product == (size * percentage) as real;
    assert delta as real < product / 100.0 <==> delta as real * 100.0 < product;
    assert delta as real * 100.0 == (delta * 100) as real;
  }

  class DeltaInfo {
    const deltarpmJobs: int
    const percentage: nat
    var queue: seq<Payload>
    var jobs: map<nat, Payload>
    var err: set<Package>
    // What came in, was started and is done so far; no decision depends on it.
    var arrived: seq<Payload>
    var started: seq<Payload>
    var finished: seq<Done>

    constructor (deltarpmJobs: int, percentage: nat)
      ensures State() == EMPTY && this.deltarpmJobs == deltarpmJobs && this.percentage == percentage
    {
      this.deltarpmJobs, this.percentage := deltarpmJobs, percentage;
      queue, jobs, err, arrived, started, finished := [], map[], {}, [], [], [];
    }

    function State(): Scheduler
      reads this
    {
      Scheduler(queue, jobs, err, arrived, started, finished)
    }

    /**
     `delta_factory`: the smallest worthwhile delta, and the first among equals; `deltas` are
     those from the installed packages, None where there is none.
     */
    method DeltaFactory(pkg: Package, about: Circumstances, deltas: seq<Option<Delta>>) returns (r: Option<Payload>)
      ensures r == None <==>
              || !about.deltarpmInstalled || !about.repoDeltas || percentage == 0 || about.localPackage || about.present
              || forall k :: 0 <= k < |deltas| && deltas[k].Some? ==>
                   !Worthwhile(deltas[k].value.size, pkg.size, percentage)
      ensures r.Some? ==>
                && r.value.DeltaPayload? && r.value.pkg == pkg
                && Worthwhile(r.value.delta.size, pkg.size, percentage)
                && exists k :: IsFirstSmallest(deltas, k, r.value.delta)
    {
      if !about.deltarpmInstalled || !about.repoDeltas || percentage == 0 || about.localPackage || about.present {
        return None;
      }
      var best := pkg.size as real * percentage as real / 100.0;
      var bestDelta: Option<Delta> := None;
      ghost var at := 0;
      var k := 0;
      while k < |deltas|
        invariant 0 <= k <= |deltas|
        invariant bestDelta == None ==> best == pkg.size as real * percentage as real / 100.0
        invariant bestDelta == None ==>
                    forall j :: 0 <= j < k && deltas[j].Some? ==> !Worthwhile(deltas[j].value.size, pkg.size, percentage)
        invariant bestDelta.Some? ==>
                    && best == bestDelta.value.size as real && IsFirstSmallest(deltas[..k], at, bestDelta.value)
                    && Worthwhile(bestDelta.value.size, pkg.size, percentage)
      {
        hide Worthwhile;
        if deltas[k].Some? {
          var delta := deltas[k].value;
          WorthwhileInReals(delta.size, pkg.size, percentage);
          if bestDelta.Some? {
            SmallerIsWorthwhile(delta.size, bestDelta.value.size, pkg.size, percentage);
          }
          NotWorthwhileIsLarger(deltas[..k], delta, pkg.size, percentage);
          if delta.size as real < best {
            best := delta.size as real;
            bestDelta := Some(delta);
            at := k;
          }
        }
        assert deltas[..k + 1] == deltas[..k] + [deltas[k]];
        k := k + 1;
      }
      assert deltas[..k] == deltas;
      return if bestDelta == None then None else Some(DeltaPayload(pkg, bestDelta.value));
    }

    /** `job_done`, on what the system returned about a child. */
    method JobDone(e: Exit)
      requires e.pid in jobs
      modifies this
      ensures State() == DeltaScheduler.JobDone(old(State()), e)
      ensures err == old(err) + (if e.code != 0 || !e.verified then {old(jobs)[e.pid].pkg} else {})
    {
      var pload := jobs[e.pid];
      jobs := jobs - {e.pid};
      if e.code != 0 {
        err := err + {pload.pkg};
      } else if !e.verified {
        err := err + {pload.pkg};
      }
      finished := finished + [Done(pload, e)];
    }

    method StartJob(pload: Payload, pid: nat)
      requires pid !in jobs
      modifies this
      ensures jobs == old(jobs)[pid := pload] && started == old(started) + [pload]
      ensures queue == old(queue) && err == old(err) && arrived == old(arrived) && finished == old(finished)
    {
      jobs := jobs[pid := pload];
      started := started + [pload];
    }

    method StartFirst(os: Os)
      requires Sane(os) && queue != []
      modifies this
      ensures State() == StartNext(old(State()), os.spawn(old(State())))
    {
      var pid := os.spawn(State());
      var first := queue[0];
      queue := queue[1..];
      StartJob(first, pid);
    }

    method Enqueue(pload: Payload, os: Os)
      requires Sane(os)
      modifies this
      ensures State() == DeltaScheduler.Enqueue(old(State()), pload, deltarpmJobs, os)
    {
      hide DeltaScheduler.JobDone, StartNext;
      while jobs != map[]
        invariant Reap(old(State()), os) == Reap(State(), os)
        decreases |jobs|
      {
        var child := os.waitNoHang(State());
        if child == None {
          break;
        }
        JobDone(child.value);
      }
      assert State() == Reap(old(State()), os);
      queue := queue + [pload];
      arrived := arrived + [pload];
      ghost var t := State();
      while |jobs| < deltarpmJobs
        invariant queue != [] && Fill(t, deltarpmJobs, os) == Fill(State(), deltarpmJobs, os)
        decreases |queue|
      {
        QueueShrinks(State(), os);
        StartFirst(os);
        if queue == [] {
          break;
        }
      }
    }

    method Wait(os: Os)
      requires Sane(os)
      modifies this
      ensures State() == DeltaScheduler.Wait(old(State()), os)
    {
      hide DeltaScheduler.JobDone, StartNext;
      while jobs != map[]
        invariant DeltaScheduler.Wait(old(State()), os) == DeltaScheduler.Wait(State(), os)
        decreases |queue|, |jobs|
      {
        JobDoneKeepsQueue(State(), os.wait(State()));
        JobDone(os.wait(State()));
        if queue != [] {
          QueueShrinks(State(), os);
          StartFirst(os);
        }
      }
    }
  }

  lemma QueueShrinks(s: Scheduler, os: Os)
    requires Sane(os) && s.queue != []
    ensures StartNext(s, os.spawn(s)).queue == s.queue[1..]
  {
  }

  lemma JobDoneKeepsQueue(s: Scheduler, e: Exit)
    requires e.pid in s.jobs
    ensures JobDone(s, e).queue == s.queue
  {
  }

  lemma SmallerIsWorthwhile(delta: nat, best: nat, size: nat, percentage: nat)
    ensures delta <= best && Worthwhile(best, size, percentage) ==> Worthwhile(delta, size, percentage)
  {
  }

  /** A worthwhile delta is smaller than all that are not. */
  lemma NotWorthwhileIsLarger(deltas: seq<Option<Delta>>, delta: Delta, size: nat, percentage: nat)
    ensures forall j :: 0 <= j < |deltas| && deltas[j].Some? && Worthwhile(delta.size, size, percentage)
                        && !Worthwhile(deltas[j].value.size, size, percentage) ==>
              delta.size < deltas[j].value.size
  {
  }

  predicate IsFirstSmallest(deltas: seq<Option<Delta>>, k: nat, delta: Delta) {
    && k < |deltas| && deltas[k] == Some(delta)
    && (forall j :: 0 <= j < |deltas| && deltas[j].Some? ==> delta.size <= deltas[j].value.size)
    && (forall j :: 0 <= j < k && deltas[j].Some? ==> delta.size < deltas[j].value.size)
  }
}
