/** The loops of downloading: _download_payloads and Base._download_remote_payloads. */
module DownloadLoops {
  import opened Wrappers
  import opened Payloads
  import opened DeltaScheduler
  import opened DeltaInfo
  import opened Downloads

  /** The first half of `_download_payloads`: the download, with its end callbacks, and the wait for the rebuilds. */
  method DownloadAndRebuild(drpm: DeltaInfo, payloads: seq<Payload>, lib: Librepo)
    requires Faithful(lib, payloads)
    modifies drpm
    ensures drpm.State() == AfterRound(old(drpm.State()), payloads, lib, drpm.deltarpmJobs)
  {
    hide DeltaScheduler.Enqueue, DeltaScheduler.Wait;
    drpm.err := {};
    ghost var s := drpm.State();
    assert s == old(drpm.State()).(err := {});
    var k := 0;
    while k < |lib.ends|
      invariant 0 <= k <= |lib.ends|
      invariant drpm.State() == EnqueueEnds(s, lib.ends[..k], drpm.deltarpmJobs)
    {
      assert lib.ends[..k + 1][..k] == lib.ends[..k];
      if lib.ends[k].payload.DeltaPayload? && !lib.ends[k].failed {
        drpm.Enqueue(lib.ends[k].payload, lib.ends[k].os);
      }
      k := k + 1;
    }
    assert lib.ends[..k] == lib.ends;
    drpm.Wait(lib.os);
  }

  /** The second half: the targets' errors. */
  method CollectErrors(targets: seq<Payload>, errs: seq<TargetErr>)
    returns (irrecoverable: set<Package>, skipped: set<Package>)
    requires |targets| == |errs|
    ensures irrecoverable == WithErr(targets, errs, Failed)
    ensures skipped == WithErr(targets, errs, AlreadyDownloaded)
  {
    hide WithErr;
    skipped, irrecoverable := {}, {};
    NoErrs();
    var k := 0;
    while k < |targets|
      invariant 0 <= k <= |targets|
      invariant skipped == WithErr(targets[..k], errs[..k], AlreadyDownloaded)
      invariant irrecoverable == WithErr(targets[..k], errs[..k], Failed)
    {
      WithErrNext(targets, errs, k);
      if errs[k] == AlreadyDownloaded {
        skipped := skipped + {targets[k].pkg};
      } else if errs[k] == Failed {
        irrecoverable := irrecoverable + {targets[k].pkg};
      }
      k := k + 1;
    }
    assert targets[..k] == targets && errs[..k] == errs;
  }

  lemma NoErrs()
    ensures forall e :: WithErr([], [], e) == {}
  {
  }

  /** `_download_payloads`. */
  method DownloadPayloads(drpm: DeltaInfo, payloads: seq<Payload>, lib: Librepo) returns (errs: Errors)
    requires Faithful(lib, payloads)
    modifies drpm
    ensures drpm.State() == AfterRound(old(drpm.State()), payloads, lib, drpm.deltarpmJobs)
    ensures errs == RoundErrors(old(drpm.State()), payloads, lib, drpm.deltarpmJobs)
  {
    hide AfterRound, Targets, WithErr;
    TargetsLength(payloads);
    DownloadAndRebuild(drpm, payloads, lib);
    var irrecoverable, skipped := CollectErrors(Targets(payloads), lib.errs);
    errs := Errors(irrecoverable, lib.fatal, drpm.err, skipped);
  }

  lemma WithErrNext(targets: seq<Payload>, errs: seq<TargetErr>, k: nat)
    requires |targets| == |errs| && k < |targets|
    ensures forall e :: WithErr(targets[..k + 1], errs[..k + 1], e) ==
                        WithErr(targets[..k], errs[..k], e) + if errs[k] == e then {targets[k].pkg} else {}
  {
    forall e: TargetErr
      ensures WithErr(targets[..k + 1], errs[..k + 1], e) ==
              WithErr(targets[..k], errs[..k], e) + if errs[k] == e then {targets[k].pkg} else {}
    {
      forall p | p in WithErr(targets[..k], errs[..k], e)
        ensures p in WithErr(targets[..k + 1], errs[..k + 1], e)
      {
        var j :| 0 <= j < k && errs[..k][j] == e && targets[..k][j].pkg == p;
        assert errs[..k + 1][j] == e && targets[..k + 1][j].pkg == p;
      }
      assert errs[..k + 1][k] == errs[k] && targets[..k + 1][k] == targets[k];
    }
  }

  method ComputeSaving(saving: Saving, payloads: seq<Payload>, errs: set<Package>) returns (r: Saving)
    ensures r == UpdateSaving(saving, payloads, errs)
  {
    var spent: nat, full: nat := saving.spent, saving.full;
    assert payloads[..0] == [];
    for k := 0 to |payloads|
      invariant Saving(spent, full) == UpdateSaving(saving, payloads[..k], errs)
    {
      assert payloads[..k + 1][..k] == payloads[..k];
      spent := spent + DownloadSize(payloads[k]);
      if payloads[k].pkg !in errs {
        full := full + FullSize(payloads[k]);
      }
    }
    assert payloads[..|payloads|] == payloads;
    return Saving(spent, full);
  }

  method ComputeBandwidth(payloads: seq<Payload>, skipped: set<Package>) returns (r: nat)
    ensures r == Bandwidth(payloads, skipped)
  {
    r := 0;
    assert payloads[..0] == [];
    for k := 0 to |payloads|
      invariant r == Bandwidth(payloads[..k], skipped)
    {
      assert payloads[..k + 1][..k] == payloads[..k];
      r := r + if payloads[k].pkg in skipped then 0 else DownloadSize(payloads[k]);
    }
    assert payloads[..|payloads|] == payloads;
  }

  /** The payloads of a retry: the plain rpms of the packages, in the order of the dictionary. */
  method RpmPayloads(pkgs: set<Package>) returns (payloads: seq<Payload>)
    ensures AllRpms(payloads) && DistinctPackages(payloads) && PackagesIn(payloads) == pkgs
  {
    payloads := [];
    var rest := pkgs;
    NoPackages();
    while rest != {}
      invariant AllRpms(payloads) && DistinctPackages(payloads)
      invariant PackagesIn(payloads) == pkgs - rest && rest <= pkgs
      decreases |rest|
    {
      var pkg :| pkg in rest;
      AppendPackage(payloads, pkg);
      payloads := payloads + [RpmPayload(pkg)];
      rest := rest - {pkg};
    }
  }

  lemma AppendPackage(payloads: seq<Payload>, pkg: Package)
    requires pkg !in PackagesIn(payloads) && DistinctPackages(payloads)
    ensures PackagesIn(payloads + [RpmPayload(pkg)]) == PackagesIn(payloads) + {pkg}
    ensures DistinctPackages(payloads + [RpmPayload(pkg)])
  {
    var more := payloads + [RpmPayload(pkg)];
    assert more[..|more| - 1] == payloads;
    PackagesSnoc(more);
  }

  ghost predicate Honest(librepo: (seq<Payload>, nat) -> Librepo) {
    forall payloads, k :: Faithful(librepo(payloads, k), payloads)
  }

  datatype Totals = Totals(remote: nat, saving: Saving)

  /**
   `_download_remote_payloads`; None is a DownloadError. There is at most one retry, whatever
   `retries` is; every package then counts as full once; and what is spent is bounded.
   `again` and `rounds` are the payloads and the number of retries.
   */
  method DownloadRemotePayloads(drpm: DeltaInfo, first: seq<Payload>, retries: int,
                                librepo: (seq<Payload>, nat) -> Librepo)
    returns (r: Option<Totals>, ghost rounds: nat, ghost again: seq<Payload>)
    requires Honest(librepo) && AtRest(drpm.State(), drpm.deltarpmJobs)
    requires DistinctPackages(first) && Economical(first, drpm.percentage)
    modifies drpm
    ensures var errs := RoundErrors(old(drpm.State()), first, librepo(first, 0), drpm.deltarpmJobs);
      var hopeless := errs.irrecoverable != {} || errs.fatal;
      && rounds == (if hopeless || errs.recoverable == {} || retries < 0 then 0 else 1)
      && (rounds == 0 ==> (r == None <==> hopeless))
      && (r.Some? ==> r.value.saving.spent == FullSizes(first) - SavedByDeltas(first)
                                              + if rounds == 1 then SizeOf(errs.recoverable) else 0)
      && (r.Some? && retries >= 0 ==> r.value.saving.full == FullSizes(first))
      && (r.Some? ==> 100 * r.value.saving.spent <= Percent(100 + drpm.percentage, FullSizes(first)))
      && (r.Some? && errs.recoverable == {} && drpm.percentage <= 100 ==>
            r.value.saving.spent <= r.value.saving.full)
    ensures rounds == 1 ==> AllRpms(again) && DistinctPackages(again)
    ensures rounds == 1 ==>
              PackagesIn(again) ==
              RoundErrors(old(drpm.State()), first, librepo(first, 0), drpm.deltarpmJobs).recoverable
    ensures var s0, limit := old(drpm.State()), drpm.deltarpmJobs;
      var errs := RoundErrors(s0, first, librepo(first, 0), limit);
      var s1 := AfterRound(s0, first, librepo(first, 0), limit);
      var errs' := RoundErrors(s1, again, librepo(again, 1), limit);
      && (rounds == 1 ==> (r == None <==> errs'.irrecoverable != {} || errs'.fatal))
      && (r.Some? ==>
            r.value.saving.spent == r.value.remote + BytesOf(first, errs.skipped)
                                    + if rounds == 1 then BytesOf(again, errs'.skipped) else 0)
  {
    hide AfterRound, RoundErrors, AtRest, UpdateSaving, Bandwidth, BytesOf, FullSizes, SavedByDeltas, Percent, Economical,
      DistinctPackages, PackagesIn, AllRpms, Faithful, SizeOf, ErrsAreDeltas;
    rounds, again := 0, [];
    ghost var s0, limit := drpm.State(), drpm.deltarpmJobs;
    var errors := DownloadPayloads(drpm, first, librepo(first, 0));
    if Hopeless(errors) {
      return None, 0, [];
    }
    var remote: nat := ComputeBandwidth(first, errors.skipped);
    var saving := ComputeSaving(Saving(0, 0), first, errors.recoverable);
    BandwidthAndSkipped(Saving(0, 0), first, errors.skipped, errors.recoverable);
    RecoverableInPayloads(s0, first, librepo(first, 0), limit);
    assert errors.recoverable * PackagesIn(first) == errors.recoverable;
    FullOnce(first, errors.recoverable);
    SpentBound(first, errors.recoverable, drpm.percentage);
    SpentExactly(first, errors.recoverable);
    NoJobsAfterRound(s0, first, librepo(first, 0), limit);
    ghost var errs1, s1, saving1 := errors, drpm.State(), saving;
    NoSize();
    var left := retries;
    var forever := left == 0;
    while errors.recoverable != {} && (forever || left > 0)
      invariant rounds <= 1
      invariant rounds == 0 ==>
                  && errors == errs1 && drpm.State() == s1 && saving == saving1 && left == retries
                  && saving.spent == remote + BytesOf(first, errs1.skipped)
      invariant rounds == 1 ==>
                  && errors.recoverable == {} && errs1.recoverable != {} && retries >= 0
                  && AllRpms(again) && DistinctPackages(again) && PackagesIn(again) == errs1.recoverable
                  && errors == RoundErrors(s1, again, librepo(again, 1), limit) && !Hopeless(errors)
                  && saving.spent == remote + BytesOf(first, errs1.skipped) + BytesOf(again, errors.skipped)
                  && saving.spent == saving1.spent + SizeOf(errs1.recoverable)
                  && saving.full == saving1.full + SizeOf(errs1.recoverable)
      decreases 1 - rounds
    {
      if left > 0 {
        left := left - 1;
      }
      var payloads := RpmPayloads(errors.recoverable);
      again, rounds := payloads, 1;
      errors := DownloadPayloads(drpm, payloads, librepo(payloads, 1));
      RpmRoundIsLast(s1, payloads, librepo(payloads, 1), limit);
      if Hopeless(errors) {
        return None, rounds, again;
      }
      var used := ComputeBandwidth(payloads, errors.skipped);
      remote := remote + used;
      BandwidthAndSkipped(saving, payloads, errors.skipped, {});
      RetrySaving(saving, payloads);
      saving := ComputeSaving(saving, payloads, {});
    }
    return Some(Totals(remote, saving)), rounds, again;
  }

  lemma NoSize()
    ensures SizeOf({}) == 0
  {
  }
}
