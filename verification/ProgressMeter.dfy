/** The accounting of MultiFileProgressMeter (dnf/cli/progress.py), without what it draws. */
module ProgressMeter {
  import opened Wrappers

  datatype Status = Ok | Failed | AlreadyExists | Mirror | Drpm

  /** The meter's time constants. */
  datatype Settings = Settings(updatePeriod: real, tickPeriod: real, rateAverage: real)

  /** `state` maps each active download to its start and the bytes done. */
  datatype Meter = Meter(
    totalFiles: int, totalSize: int, totalDrpm: int,
    doneDrpm: int, doneFiles: int, doneSize: int,
    active: seq<string>, state: map<string, (real, int)>,
    lastTime: real, lastSize: int, rate: Option<real>)

  const IDLE: Meter := Meter(0, 0, 0, 0, 0, 0, [], map[], 0.0, 0, None)

  /** The calls of the meter, with the time of each. */
  datatype Event =
    | Started(files: int, size: int, drpms: int)
    | Progressed(text: string, total: int, done: int, now: real)
    | Ended(text: string, status: Status, size: int, now: real)

  function MinReal(a: real, b: real): real {
    if a < b then a else b
  }

  /** The new average of a sample and the rate so far. */
  function Average(sample: real, rate: real, weight: real): real {
    sample * weight + rate * (1.0 - weight)
  }

  /** The rate after `_update`. */
  function NewRate(c: Settings, m: Meter, now: real): Option<real>
    requires c.rateAverage != 0.0
  {
    var deltaTime, deltaSize := now - m.lastTime, m.doneSize - m.lastSize;
    if m.lastTime != 0.0 && deltaTime > 0.0 && deltaSize > 0 then
      var sample := deltaSize as real / deltaTime;
      if m.rate.Some? then Some(Average(sample, m.rate.value, MinReal(deltaTime / c.rateAverage, 1.0)))
      else Some(sample)
    else m.rate
  }

  /** The fields that `_update` changes. */
  function Updated(c: Settings, m: Meter, now: real): Meter
    requires c.rateAverage != 0.0
  {
    m.(rate := NewRate(c, m, now), lastTime := now, lastSize := m.doneSize)
  }

  function AfterStart(m: Meter, files: int, size: int, drpms: int): Meter {
    Meter(files, size, drpms, 0, 0, 0, [], map[], 0.0, 0, None)
  }

  function AfterProgress(c: Settings, m: Meter, text: string, total: int, done: int, now: real): Meter
    requires c.rateAverage != 0.0
  {
    var m1 := if text in m.state then m else m.(state := m.state[text := (now, 0)], active := m.active + [text]);
    var (start, before) := m1.state[text];
    var m2 := m1.(state := m1.state[text := (start, done)], doneSize := m1.doneSize + done - before);
    if now - m2.lastTime > c.updatePeriod then
      Updated(c, m2.(totalSize := if total > m2.totalSize then total else m2.totalSize), now)
    else m2
  }

  /** `list.remove`. */
  function Remove(s: seq<string>, x: string): seq<string>
    requires x in s
  {
    if s[0] == x then s[1..] else [s[0]] + Remove(s[1..], x)
  }

  /** The item that ended was an active download, or was there already. */
  predicate Counts(m: Meter, text: string, status: Status) {
    status != Mirror && status != Drpm && (text in m.state || status == AlreadyExists)
  }

  /** The first half of `end`. */
  function Closed(m: Meter, text: string, status: Status, size: int): Meter
    requires Consistent(m)
  {
    if status == Mirror then m
    else if status == Drpm then m.(doneDrpm := m.doneDrpm + 1)
    else if text in m.state then
      m.(state := m.state - {text}, active := Remove(m.active, text), doneFiles := m.doneFiles + 1,
         doneSize := m.doneSize + (size - m.state[text].1))
    else if status == AlreadyExists then m.(doneFiles := m.doneFiles + 1, doneSize := m.doneSize + size)
    else m
  }

  function AfterEnd(c: Settings, m: Meter, text: string, status: Status, size: int, now: real): Meter
    requires Consistent(m) && c.rateAverage != 0.0
  {
    var closed := Closed(m, text, status, size);
    if closed.active != [] then Updated(c, closed, now) else closed
  }

  // ----- Invariants -----

  predicate NoDuplicates(s: seq<string>) {
    forall i, j :: 0 <= i < j < |s| ==> s[i] != s[j]
  }

  /** `active` lists the keys of `state`, each once. */
  predicate Consistent(m: Meter) {
    && NoDuplicates(m.active)
    && (forall k :: 0 <= k < |m.active| ==> m.active[k] in m.state)
    && (forall t :: t in m.state ==> t in m.active)
  }

  /** The bytes done of some active downloads. */
  function Bytes(active: seq<string>, state: map<string, (real, int)>): int {
    if active == [] then 0
    else (if active[0] in state then state[active[0]].1 else 0) + Bytes(active[1..], state)
  }

  lemma {:induction false} BytesOthers(active: seq<string>, a: map<string, (real, int)>, b: map<string, (real, int)>)
    requires forall k :: 0 <= k < |active| ==> active[k] in a && active[k] in b && a[active[k]].1 == b[active[k]].1
    ensures Bytes(active, a) == Bytes(active, b)
  {
    if active != [] {
      BytesOthers(active[1..], a, b);
    }
  }

  lemma {:induction false} BytesAppend(active: seq<string>, text: string, state: map<string, (real, int)>)
    ensures Bytes(active + [text], state) == Bytes(active, state) + if text in state then state[text].1 else 0
  {
    if active == [] {
      assert [] + [text] == [text] && [text][1..] == [];
    } else {
      assert (active + [text])[1..] == active[1..] + [text];
      BytesAppend(active[1..], text, state);
    }
  }

  lemma {:induction false} BytesSet(active: seq<string>, state: map<string, (real, int)>, text: string, start: real, done: int)
    requires NoDuplicates(active) && text in active && forall k :: 0 <= k < |active| ==> active[k] in state
    ensures Bytes(active, state[text := (start, done)]) == Bytes(active, state) + done - state[text].1
  {
    var state' := state[text := (start, done)];
    if active[0] == text {
      BytesOthers(active[1..], state, state');
    } else {
      BytesSet(active[1..], state, text, start, done);
    }
  }

  lemma {:induction false} RemoveMeaning(active: seq<string>, text: string)
    requires NoDuplicates(active) && text in active
    ensures NoDuplicates(Remove(active, text))
    ensures forall t :: t in Remove(active, text) <==> t in active && t != text
  {
    if active[0] == text {
      assert forall t :: t in active <==> t == text || t in active[1..];
    } else {
      RemoveMeaning(active[1..], text);
      assert forall t :: t in active <==> t == active[0] || t in active[1..];
      var rest := Remove(active[1..], text);
      forall j | 0 <= j < |rest|
        ensures rest[j] != active[0]
      {
        assert rest[j] in rest;
      }
    }
  }

  lemma {:induction false} BytesRemove(active: seq<string>, state: map<string, (real, int)>, text: string)
    requires NoDuplicates(active) && text in active && forall k :: 0 <= k < |active| ==> active[k] in state
    ensures Bytes(Remove(active, text), state) == Bytes(active, state) - state[text].1
  {
    if active[0] != text {
      BytesRemove(active[1..], state, text);
      var rest := Remove(active[1..], text);
      assert ([active[0]] + rest)[1..] == rest;
    }
  }

  /** Rates are never negative. */
  predicate RateOk(m: Meter) {
    m.rate.Some? ==> m.rate.value >= 0.0
  }

  lemma AverageBetween(sample: real, rate: real, weight: real)
    requires sample >= 0.0 && rate >= 0.0 && 0.0 <= weight <= 1.0
    ensures Average(sample, rate, weight) >= 0.0
  {
    assert sample * weight >= 0.0 && rate * (1.0 - weight) >= 0.0;
  }

  lemma UpdatedRate(c: Settings, m: Meter, now: real)
    requires c.rateAverage > 0.0 && RateOk(m)
    ensures RateOk(Updated(c, m, now))
  {
    var deltaTime, deltaSize := now - m.lastTime, m.doneSize - m.lastSize;
    if m.lastTime != 0.0 && deltaTime > 0.0 && deltaSize > 0 {
      assert deltaSize as real / deltaTime >= 0.0;
      if m.rate.Some? {
        assert deltaTime / c.rateAverage >= 0.0;
        AverageBetween(deltaSize as real / deltaTime, m.rate.value, MinReal(deltaTime / c.rateAverage, 1.0));
      }
    }
  }

  /** A time has been noted, and time and bytes went by since. */
  predicate Sampled(m: Meter, now: real) {
    m.lastTime != 0.0 && now > m.lastTime && m.doneSize > m.lastSize
  }

  /**
   A sample moves the rate towards itself by the part of the averaging period that went by, at
   most all the way; the first sample is the rate; and without a sample the rate stays.
   */
  lemma RateMeaning(c: Settings, m: Meter, now: real) returns (sample: real, part: real)
    requires c.rateAverage > 0.0
    ensures !Sampled(m, now) ==> NewRate(c, m, now) == m.rate
    ensures Sampled(m, now) ==> sample * (now - m.lastTime) == (m.doneSize - m.lastSize) as real
    ensures Sampled(m, now) && now - m.lastTime < c.rateAverage ==> part * c.rateAverage == now - m.lastTime
    ensures Sampled(m, now) && now - m.lastTime >= c.rateAverage ==> part == 1.0
    ensures Sampled(m, now) && m.rate == None ==> NewRate(c, m, now) == Some(sample)
    ensures Sampled(m, now) && m.rate.Some? ==>
              NewRate(c, m, now).Some? && NewRate(c, m, now).value == m.rate.value + part * (sample - m.rate.value)
  {
    hide Average, MinReal;
    sample, part := 0.0, 1.0;
    if Sampled(m, now) {
      sample := (m.doneSize - m.lastSize) as real / (now - m.lastTime);
      part := MinReal((now - m.lastTime) / c.rateAverage, 1.0);
      PartOfPeriod(now - m.lastTime, c.rateAverage);
      if m.rate.Some? {
        Towards(sample, m.rate.value, part);
      }
    }
  }

  lemma Towards(sample: real, rate: real, part: real)
    ensures Average(sample, rate, part) == rate + part * (sample - rate)
  {
    assert part * (sample - rate) == part * sample - part * rate;
    assert rate * (1.0 - part) == rate - rate * part;
  }

  lemma PartOfPeriod(time: real, period: real)
    requires period > 0.0 && time > 0.0
    ensures MinReal(time / period, 1.0) == if time < period then time / period else 1.0
  {
    var q := time / period;
    assert q * period == time;
    if time < period {
      if q >= 1.0 { TimesAtLeast(q, period); }
    } else if q < 1.0 {
      TimesLess(q, period);
    }
  }

  lemma TimesAtLeast(q: real, period: real)
    requires q >= 1.0 && period > 0.0
    ensures q * period >= period
  {
    assert (q - 1.0) * period >= 0.0;
  }

  lemma TimesLess(q: real, period: real)
    requires q < 1.0 && period > 0.0
    ensures q * period < period
  {
    assert (1.0 - q) * period > 0.0;
  }

  /**
   A download is noted with the time of its first call and the bytes of its last one; the bytes
   done grow by what is new; and the display is updated, with the size if that grew, only after
   its period.
   */
  lemma ProgressMeaning(c: Settings, m: Meter, text: string, total: int, done: int, now: real)
    requires c.rateAverage != 0.0
    ensures var r := AfterProgress(c, m, text, total, done, now);
      && text in r.state && r.state[text] == (if text in m.state then m.state[text].0 else now, done)
      && r.state == m.state[text := r.state[text]]
      && r.active == (if text in m.state then m.active else m.active + [text])
      && r.doneSize == m.doneSize + done - (if text in m.state then m.state[text].1 else 0)
      && (now - m.lastTime <= c.updatePeriod ==>
            r.totalSize == m.totalSize && r.lastTime == m.lastTime && r.lastSize == m.lastSize && r.rate == m.rate)
      && (now - m.lastTime > c.updatePeriod ==>
            && r.totalSize == (if total > m.totalSize then total else m.totalSize)
            && r.lastTime == now && r.lastSize == r.doneSize
            && r.rate == NewRate(c, m.(doneSize := r.doneSize), now))
  {
    var m1 := if text in m.state then m else m.(state := m.state[text := (now, 0)], active := m.active + [text]);
    assert m1.state[text := (m1.state[text].0, done)] == m.state[text := (m1.state[text].0, done)];
  }

  // ----- Any sequence of calls -----

  function Apply(c: Settings, m: Meter, e: Event): Meter
    requires Consistent(m) && c.rateAverage != 0.0
  {
    match e
    case Started(files, size, drpms) => AfterStart(m, files, size, drpms)
    case Progressed(text, total, done, now) => AfterProgress(c, m, text, total, done, now)
    case Ended(text, status, size, now) => AfterEnd(c, m, text, status, size, now)
  }

  lemma ProgressKeeps(c: Settings, m: Meter, text: string, total: int, done: int, now: real)
    requires Consistent(m) && c.rateAverage != 0.0
    ensures var r := AfterProgress(c, m, text, total, done, now);
      Consistent(r) && r.active != [] && r.doneFiles == m.doneFiles
      && r.doneSize - Bytes(r.active, r.state) == m.doneSize - Bytes(m.active, m.state)
  {
    var m1 := if text in m.state then m else m.(state := m.state[text := (now, 0)], active := m.active + [text]);
    if text !in m.state {
      BytesAppend(m.active, text, m1.state);
      BytesOthers(m.active, m.state, m1.state);
      assert forall k :: 0 <= k < |m.active| ==> m1.active[k] == m.active[k];
      assert m1.active[|m.active|] == text;
      AppendNew(m, text);
    }
    BytesSet(m1.active, m1.state, text, m1.state[text].0, done);
  }

  lemma AppendNew(m: Meter, text: string)
    requires Consistent(m) && text !in m.state
    ensures NoDuplicates(m.active + [text]) && forall t :: t in m.active ==> t in m.active + [text]
  {
  }

  lemma ClosedKeeps(m: Meter, text: string, status: Status, size: int)
    requires Consistent(m)
    ensures var r := Closed(m, text, status, size);
      Consistent(r) && r.doneFiles == m.doneFiles + (if Counts(m, text, status) then 1 else 0)
      && r.doneSize - Bytes(r.active, r.state) ==
         m.doneSize - Bytes(m.active, m.state) + if Counts(m, text, status) then size else 0
  {
    if status != Mirror && status != Drpm && text in m.state {
      RemoveMeaning(m.active, text);
      BytesRemove(m.active, m.state, text);
      var active := Remove(m.active, text);
      assert forall k :: 0 <= k < |active| ==> active[k] in active;
      BytesOthers(active, m.state, m.state - {text});
    }
  }

  /** The meter after some calls. */
  function Run(c: Settings, events: seq<Event>): (m: Meter)
    requires c.rateAverage != 0.0
    ensures Consistent(m)
    decreases |events|
  {
    if events == [] then IDLE
    else
      var before := Run(c, events[..|events| - 1]);
      ApplyKeeps(c, before, events[|events| - 1]);
      Apply(c, before, events[|events| - 1])
  }

  lemma ApplyKeeps(c: Settings, m: Meter, e: Event)
    requires Consistent(m) && c.rateAverage != 0.0
    ensures Consistent(Apply(c, m, e))
  {
    match e
    case Started(files, size, drpms) =>
    case Progressed(text, total, done, now) => ProgressKeeps(c, m, text, total, done, now);
    case Ended(text, status, size, now) => ClosedKeeps(m, text, status, size);
  }

  /** The number of items that `end` counted since the last `start`, and their bytes. */
  function Tally(c: Settings, events: seq<Event>): (int, int)
    requires c.rateAverage != 0.0
    decreases |events|
  {
    if events == [] then (0, 0)
    else
      var init := events[..|events| - 1];
      match events[|events| - 1]
      case Started(_, _, _) => (0, 0)
      case Progressed(_, _, _, _) => Tally(c, init)
      case Ended(text, status, size, _) =>
        if Counts(Run(c, init), text, status) then (Tally(c, init).0 + 1, Tally(c, init).1 + size) else Tally(c, init)
  }

  /**
   After any calls: the bytes done are those of the active downloads and the full sizes of the
   items counted since the last `start`, and as many files are done.
   */
  lemma {:induction false} SizesAddUp(c: Settings, events: seq<Event>)
    requires c.rateAverage != 0.0
    ensures Run(c, events).doneSize == Bytes(Run(c, events).active, Run(c, events).state) + Tally(c, events).1
    ensures Run(c, events).doneFiles == Tally(c, events).0
    decreases |events|
  {
    hide Bytes, Consistent, AfterProgress, Closed, Counts;
    if events == [] {
      NoBytes();
    } else {
      var init := events[..|events| - 1];
      SizesAddUp(c, init);
      NoBytes();
      match events[|events| - 1]
      case Started(files, size, drpms) =>
      case Progressed(text, total, done, now) => ProgressKeeps(c, Run(c, init), text, total, done, now);
      case Ended(text, status, size, now) => ClosedKeeps(Run(c, init), text, status, size);
    }
  }

  /** The files and delta rpms announced by the last `start`, and the delta rpms that ended since. */
  function Announced(events: seq<Event>): (int, int, int)
    decreases |events|
  {
    if events == [] then (0, 0, 0)
    else
      var init := events[..|events| - 1];
      match events[|events| - 1]
      case Started(files, _, drpms) => (files, drpms, 0)
      case Progressed(_, _, _, _) => Announced(init)
      case Ended(_, status, _, _) =>
        if status == Drpm then (Announced(init).0, Announced(init).1, Announced(init).2 + 1) else Announced(init)
  }

  /** Neither progress nor an end changes what was announced, and every delta rpm that ends is counted. */
  lemma {:induction false} TotalsStay(c: Settings, events: seq<Event>)
    requires c.rateAverage != 0.0
    ensures var m := Run(c, events);
      (m.totalFiles, m.totalDrpm, m.doneDrpm) == Announced(events)
    decreases |events|
  {
    hide Consistent, NewRate, Counts;
    if events != [] {
      TotalsStay(c, events[..|events| - 1]);
    }
  }

  lemma TotalOfOne(c: Settings, m: Meter, e: Event)
    requires Consistent(m) && c.rateAverage != 0.0 && !e.Started?
    ensures var r := Apply(c, m, e);
      r.totalSize == m.totalSize || (e.Progressed? && r.totalSize == e.total && e.total > m.totalSize)
  {
    hide Consistent, NewRate, Counts;
  }

  /** A total is at least the size, and it is the size or was reported by one of the calls. */
  predicate Reported(since: seq<Event>, size: int, total: int) {
    total >= size
    && (total == size || exists k :: 0 <= k < |since| && since[k].Progressed? && since[k].total == total)
  }

  lemma ReportedOnce(since: seq<Event>, size: int, total: int, total': int)
    requires since != [] && Reported(since[..|since| - 1], size, total)
    requires var e := since[|since| - 1];
      total' == total || (e.Progressed? && total' == e.total && e.total > total)
    ensures Reported(since, size, total')
  {
    assert forall k :: 0 <= k < |since| - 1 ==> since[..|since| - 1][k] == since[k];
  }

  /** The total size is the one announced, or a larger one that a call reported since. */
  lemma {:induction false} TotalSizeMeaning(c: Settings, before: seq<Event>, start: Event, since: seq<Event>)
    requires c.rateAverage != 0.0 && start.Started? && forall k :: 0 <= k < |since| ==> !since[k].Started?
    ensures Reported(since, start.size, Run(c, before + [start] + since).totalSize)
    decreases |since|
  {
    hide Consistent, Reported, Apply;
    var all := before + [start] + since;
    if since == [] {
      assert all[|all| - 1] == start;
      Restarted(c, Run(c, all[..|all| - 1]), start);
    } else {
      var n := |since| - 1;
      TotalSizeMeaning(c, before, start, since[..n]);
      assert all[..|all| - 1] == before + [start] + since[..n];
      assert all[|all| - 1] == since[n];
      TotalOfOne(c, Run(c, all[..|all| - 1]), since[n]);
      ReportedOnce(since, start.size, Run(c, all[..|all| - 1]).totalSize, Run(c, all).totalSize);
    }
  }

  lemma Restarted(c: Settings, m: Meter, start: Event)
    requires Consistent(m) && c.rateAverage != 0.0 && start.Started?
    ensures Reported([], start.size, Apply(c, m, start).totalSize)
  {
  }

  lemma NoBytes()
    ensures Bytes([], map[]) == 0
  {
  }

  /** No rate is ever negative, if the averaging period is positive. */
  lemma {:induction false} RatesNotNegative(c: Settings, events: seq<Event>)
    requires c.rateAverage > 0.0
    ensures RateOk(Run(c, events))
    decreases |events|
  {
    hide Consistent, Updated;
    if events != [] {
      var init := events[..|events| - 1];
      RatesNotNegative(c, init);
      ApplyRate(c, Run(c, init), events[|events| - 1]);
    }
  }

  lemma ApplyRate(c: Settings, m: Meter, e: Event)
    requires c.rateAverage > 0.0 && Consistent(m) && RateOk(m)
    ensures RateOk(Apply(c, m, e))
  {
    hide Updated;
    match e
    case Started(files, size, drpms) =>
    case Progressed(text, total, done, now) =>
      var m1 := if text in m.state then m else m.(state := m.state[text := (now, 0)], active := m.active + [text]);
      var m2 := m1.(state := m1.state[text := (m1.state[text].0, done)], doneSize := m1.doneSize + done - m1.state[text].1);
      UpdatedRate(c, m2.(totalSize := if total > m2.totalSize then total else m2.totalSize), now);
    case Ended(text, status, size, now) =>
      UpdatedRate(c, Closed(m, text, status, size), now);
  }

  // ----- The class -----

  /** `int()` cuts off towards zero. */
  function Truncate(x: real): int {
    if x >= 0.0 then x.Floor else -((-x).Floor)
  }

  /** `list.remove`, with its search. */
  method RemoveFirst(s: seq<string>, x: string) returns (r: seq<string>)
    requires x in s
    ensures r == Remove(s, x)
  {
    hide Remove;
    var k := 0;
    RemoveFrom(s, x, 0);
    assert s[0..] == s;
    while s[k] != x
      invariant 0 <= k < |s| && x in s[k..]
      invariant Remove(s, x) == s[..k] + Remove(s[k..], x)
      decreases |s| - k
    {
      RemoveFrom(s, x, k);
      k := k + 1;
    }
    RemoveFrom(s, x, k);
    return s[..k] + s[k + 1..];
  }

  lemma RemoveFrom(s: seq<string>, x: string, k: nat)
    requires k < |s| && x in s[k..]
    ensures s[k] == x ==> Remove(s[k..], x) == s[k + 1..]
    ensures s[k] != x ==> x in s[k + 1..] && s[..k] + Remove(s[k..], x) == s[..k + 1] + Remove(s[k + 1..], x)
  {
    assert s[k..][1..] == s[k + 1..];
    if s[k] != x {
      assert x in s[k..][1..];
      assert s[..k] + ([s[k]] + Remove(s[k + 1..], x)) == s[..k + 1] + Remove(s[k + 1..], x);
    }
  }

  class MultiFileProgressMeter {
    const settings: Settings
    var totalFiles: int
    var totalSize: int
    var totalDrpm: int
    var doneDrpm: int
    var doneFiles: int
    var doneSize: int
    var active: seq<string>
    var state: map<string, (real, int)>
    var lastTime: real
    var lastSize: int
    var rate: Option<real>

    constructor (settings: Settings)
      ensures Now() == IDLE && this.settings == settings
    {
      this.settings := settings;
      totalFiles, totalSize, totalDrpm, doneDrpm, doneFiles, doneSize := 0, 0, 0, 0, 0, 0;
      active, state, lastTime, lastSize, rate := [], map[], 0.0, 0, None;
    }

    function Now(): Meter
      reads this
    {
      Meter(totalFiles, totalSize, totalDrpm, doneDrpm, doneFiles, doneSize, active, state, lastTime, lastSize, rate)
    }

    method Start(files: int, size: int, drpms: int)
      modifies this
      ensures Now() == AfterStart(old(Now()), files, size, drpms)
    {
      totalFiles, totalSize, totalDrpm := files, size, drpms;
      doneDrpm, doneFiles, doneSize := 0, 0, 0;
      active, state := [], map[];
      lastTime, lastSize, rate := 0.0, 0, None;
    }

    /** The averaging of `_update`. */
    method ComputeRate(now: real) returns (r: Option<real>)
      requires settings.rateAverage != 0.0
      ensures r == NewRate(settings, Now(), now)
    {
      hide Average, MinReal;
      r := rate;
      if lastTime != 0.0 {
        var deltaTime := now - lastTime;
        var deltaSize := doneSize - lastSize;
        if deltaTime > 0.0 && deltaSize > 0 {
          var sample := deltaSize as real / deltaTime;
          if rate.Some? {
            var weight := MinReal(deltaTime / settings.rateAverage, 1.0);
            sample := Average(sample, rate.value, weight);
          }
          r := Some(sample);
        }
      }
    }

    /** `_update`; `text` is the download that is shown. There is one: the list is not empty. */
    method Update(now: real) returns (text: string)
      requires active != [] && settings.rateAverage != 0.0 && settings.tickPeriod != 0.0
      modifies this
      ensures Now() == Updated(settings, old(Now()), now)
      ensures text in active
    {
      hide NewRate, Truncate;
      rate := ComputeRate(now);
      lastTime := now;
      lastSize := doneSize;
      text := active[Truncate(now / settings.tickPeriod) % |active|];
    }

    method Progress(text: string, total: int, done: int, now: real)
      requires Consistent(Now()) && settings.rateAverage != 0.0 && settings.tickPeriod != 0.0
      modifies this
      ensures Now() == AfterProgress(settings, old(Now()), text, total, done, now)
      ensures Consistent(Now())
    {
      ProgressKeeps(settings, Now(), text, total, done, now);
      ActiveIfKnown(Now(), text);
      hide Consistent, Updated;
      if text !in state {
        state := state[text := (now, 0)];
        active := active + [text];
      }
      var (start, before) := state[text];
      state := state[text := (start, done)];
      doneSize := doneSize + (done - before);
      if now - lastTime > settings.updatePeriod {
        if total > totalSize {
          totalSize := total;
        }
        var shown := Update(now);
      }
    }

    /** The state changes of `end`. */
    method Close(text: string, status: Status, payloadSize: int)
      requires Consistent(Now())
      modifies this
      ensures Now() == Closed(old(Now()), text, status, payloadSize)
    {
      var size := payloadSize;
      if status == Mirror {
      } else if status == Drpm {
        doneDrpm := doneDrpm + 1;
      } else if text in state {
        var done := state[text].1;
        active := RemoveFirst(active, text);
        state := state - {text};
        size := size - done;
        doneFiles := doneFiles + 1;
        doneSize := doneSize + size;
      } else if status == AlreadyExists {
        doneFiles := doneFiles + 1;
        doneSize := doneSize + size;
      }
    }

    method End(text: string, status: Status, payloadSize: int, now: real)
      requires Consistent(Now()) && settings.rateAverage != 0.0 && settings.tickPeriod != 0.0
      modifies this
      ensures Now() == AfterEnd(settings, old(Now()), text, status, payloadSize, now)
      ensures Consistent(Now())
    {
      ClosedKeeps(Now(), text, status, payloadSize);
      hide Closed, Bytes, Counts;
      Close(text, status, payloadSize);
      if active != [] {
        var shown := Update(now);
      }
    }
  }

  lemma ActiveIfKnown(m: Meter, text: string)
    requires Consistent(m)
    ensures text in m.state ==> m.active != []
  {
  }
}
