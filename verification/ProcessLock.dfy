/** The lock object of dnf/lock.py, used by one process, over the file its target names. */
module ProcessLock {
  import opened Wrappers
  import opened Decimal
  import opened LockProtocol
  import opened LockRuns

  /** What a process can observe: the lock file, who runs, and whether another flock is held. */
  class Machine {
    var file: Option<string>
    var alive: set<int>
    var busy: bool

    constructor (file: Option<string>, alive: set<int>, busy: bool)
      ensures this.file == file && this.alive == alive && this.busy == busy
    {
      this.file, this.alive, this.busy := file, alive, busy;
    }

    function Now(): World
      reads this
    {
      World(file, alive, busy)
    }

    /** What the other processes made of the machine in the meantime. */
    method Become(w: World)
      modifies this
      ensures Now() == w
    {
      file, alive, busy := w.file, w.alive, w.busy;
    }
  }

  datatype World = World(file: Option<string>, alive: set<int>, busy: bool)

  function FirstRead(text: string): (r: string)
    ensures r <= text && |r| == if |text| <= 20 then |text| else 20
  {
    if |text| > 20 then text[..20] else text
  }

  function Text(file: Option<string>): string {
    if file.Some? then file.value else ""
  }

  /** p finds no pid, its own, or one of a process that does not run. */
  predicate Free(text: string, alive: set<int>, p: Pid) {
    var read := FirstRead(text);
    read == "" || (Int(read).Some? && (Int(read).value == p || Int(read).value !in alive))
  }

  /** The result of `_try_lock` when nobody holds the flock. */
  function TryVerdict(text: string, alive: set<int>, p: Pid): Verdict {
    if Free(text, alive, p) then Owner(p)
    else if Int(FirstRead(text)).None? then MalformedFile
    else Owner(Int(FirstRead(text)).value)
  }

  /** The contents `_try_lock` leaves when nobody holds the flock. */
  function TryText(text: string, alive: set<int>, p: Pid): string {
    if Free(text, alive, p) && Int(FirstRead(text)) != Some(p) then Str(p) else text
  }

  datatype EnterResult = Entered | ThreadLocked | ProcessLocked(pid: int) | Malformed | StillWaiting

  /** The machine after `_try_lock`. */
  function AfterTry(w: World, p: Pid): World {
    w.(file := Some(if w.busy then Text(w.file) else TryText(Text(w.file), w.alive, p)))
  }

  function TryResult(w: World, p: Pid): Verdict {
    if w.busy then WouldBlock else TryVerdict(Text(w.file), w.alive, p)
  }

  /**
   The result of `__enter__` once the thread lock is taken, and the machine then. `sleeps` are
   the machines found after each time.sleep(1), for as long as they last.
   */
  function Entering(w: World, p: Pid, blocking: bool, sleeps: seq<World>): (EnterResult, World)
    decreases |sleeps|
  {
    match TryResult(w, p)
    case MalformedFile => (Malformed, AfterTry(w, p))
    case Owner(pid) =>
      if pid == p then (Entered, AfterTry(w, p))
      else if !blocking then (ProcessLocked(pid), AfterTry(w, p))
      else if sleeps == [] then (StillWaiting, AfterTry(w, p))
      else Entering(sleeps[0], p, blocking, sleeps[1..])
    case WouldBlock =>
      if sleeps == [] then (StillWaiting, AfterTry(w, p)) else Entering(sleeps[0], p, blocking, sleeps[1..])
  }

  /** The attempt is followed by a sleep: the flock or, if it may wait, the file is another process's. */
  predicate MustWait(w: World, p: Pid, blocking: bool) {
    w.busy || (blocking && Int(FirstRead(Text(w.file))).Some? && !Free(Text(w.file), w.alive, p))
  }

  /** The file reads as p's pid. */
  predicate Mine(w: World, p: Pid) {
    w.file.Some? && Int(FirstRead(w.file.value)) == Some(p)
  }

  /**
   What is raised is decided by the first attempt that need not wait: nothing if the file is
   free, a LockError if it is malformed, and otherwise a ProcessLockError with the pid in it.
   */
  lemma {:induction false} EnteringDecided(w: World, p: Pid, blocking: bool, sleeps: seq<World>, k: nat)
    requires k <= |sleeps| && var worlds := [w] + sleeps;
      !MustWait(worlds[k], p, blocking) && forall j :: 0 <= j < k ==> MustWait(worlds[j], p, blocking)
    ensures var worlds := [w] + sleeps;
      var text := Text(worlds[k].file);
      var r := Entering(w, p, blocking, sleeps);
      && r.1 == AfterTry(worlds[k], p) && !r.1.busy
      && (r.0 == Entered <==> Free(text, worlds[k].alive, p))
      && (r.0 == Entered ==> Mine(r.1, p))
      && (r.0 == Malformed <==> !Free(text, worlds[k].alive, p) && Int(FirstRead(text)).None?)
      && (r.0.ProcessLocked? ==> !blocking && Int(FirstRead(text)) == Some(r.0.pid) && r.0.pid != p)
      && r.0 !in {ThreadLocked, StillWaiting}
    decreases |sleeps|
  {
    hide Int, FirstRead;
    if k == 0 {
      TryTextReads(Text(w.file), w.alive, p);
    } else {
      var worlds := [w] + sleeps;
      assert worlds[0] == w && MustWait(worlds[0], p, blocking);
      TryTextReads(Text(w.file), w.alive, p);
      assert worlds[1..] == [sleeps[0]] + sleeps[1..];
      assert forall j :: 0 <= j < k ==> worlds[1..][j] == worlds[j + 1];
      EnteringDecided(sleeps[0], p, blocking, sleeps[1..], k - 1);
    }
  }

  /** A file that holds an x makes the first attempt fail with a LockError, and `count` stays raised. */
  lemma MalformedAtOnce(p: Pid, blocking: bool, sleeps: seq<World>)
    ensures Entering(World(Some("x"), {p}, false), p, blocking, sleeps).0 == Malformed
    ensures Raises(Malformed)
  {
    assert FirstRead("x") == "x" && StripLeft("x") == "x" && StripRight("x") == "x" && Int("x") == None;
  }

  /** If every attempt must wait, it goes on waiting. */
  lemma {:induction false} EnteringWaits(w: World, p: Pid, blocking: bool, sleeps: seq<World>)
    requires forall k :: 0 <= k <= |sleeps| ==> MustWait(([w] + sleeps)[k], p, blocking)
    ensures Entering(w, p, blocking, sleeps).0 == StillWaiting
    decreases |sleeps|
  {
    hide Int, FirstRead;
    var worlds := [w] + sleeps;
    assert worlds[0] == w && MustWait(worlds[0], p, blocking);
    TryTextReads(Text(w.file), w.alive, p);
    if sleeps != [] {
      assert worlds[1..] == [sleeps[0]] + sleeps[1..];
      forall k | 0 <= k < |sleeps|
        ensures MustWait(([sleeps[0]] + sleeps[1..])[k], p, blocking)
      {
        assert worlds[1..][k] == worlds[k + 1];
      }
      EnteringWaits(sleeps[0], p, blocking, sleeps[1..]);
    }
  }

  /** While the file is p's, p only ever waits for the flock. */
  lemma {:induction false} EnteringMine(w: World, p: Pid, blocking: bool, sleeps: seq<World>)
    requires Mine(w, p) && forall k :: 0 <= k < |sleeps| ==> Mine(sleeps[k], p)
    ensures Entering(w, p, blocking, sleeps).0 in {Entered, StillWaiting}
    ensures Mine(Entering(w, p, blocking, sleeps).1, p)
    decreases |sleeps|
  {
    hide Int, FirstRead;
    TryTextReads(Text(w.file), w.alive, p);
    if sleeps != [] {
      EnteringMine(sleeps[0], p, blocking, sleeps[1..]);
    }
  }

  /** Who enters finds its pid in the file. */
  lemma {:induction false} EnteredIsMine(w: World, p: Pid, blocking: bool, sleeps: seq<World>)
    requires Entering(w, p, blocking, sleeps).0 == Entered
    ensures Mine(Entering(w, p, blocking, sleeps).1, p) && !Entering(w, p, blocking, sleeps).1.busy
    decreases |sleeps|
  {
    hide Int, FirstRead;
    TryTextReads(Text(w.file), w.alive, p);
    if sleeps != [] && TryResult(w, p) != Owner(p) {
      EnteredIsMine(sleeps[0], p, blocking, sleeps[1..]);
    }
  }

  /** The thread lock and `count` are left raised by exactly one error, the LockError. */
  predicate Raises(r: EnterResult) {
    r == Entered || r == Malformed || r == StillWaiting
  }

  /**
   Properly nested `with` statements on one lock object: the machine that each finds, those
   after its sleeps, and the statements in its body.
   */
  datatype With = With(found: World, sleeps: seq<World>, body: seq<With>)

  /** INSIDE, other processes leave p's file alone. */
  ghost predicate Respected(body: seq<With>, p: Pid) {
    forall k :: 0 <= k < |body| ==>
      && Mine(body[k].found, p) && (forall j :: 0 <= j < |body[k].sleeps| ==> Mine(body[k].sleeps[j], p))
      && Respected(body[k].body, p)
  }

  class ProcessLock {
    const pid: Pid
    const blocking: bool
    const machine: Machine
    var count: int
    var thread: Option<nat>   // owner of the RLock
    var recursion: nat        // how often the owner acquired it

    ghost predicate Valid()
      reads this
    {
      thread.Some? <==> recursion > 0
    }

    constructor (machine: Machine, pid: Pid, blocking: bool)
      ensures Valid() && count == 0 && thread == None && recursion == 0
      ensures this.machine == machine && this.pid == pid && this.blocking == blocking
    {
      this.machine, this.pid, this.blocking := machine, pid, blocking;
      count, thread, recursion := 0, None, 0;
    }

    /** `_lock_thread`: false is ThreadLockError. */
    method LockThread(me: nat) returns (ok: bool)
      requires Valid()
      modifies this
      ensures Valid()
      ensures ok <==> old(thread) == None || old(thread) == Some(me)
      ensures ok ==> thread == Some(me) && recursion == old(recursion) + 1 && count == old(count) + 1
      ensures !ok ==> thread == old(thread) && recursion == old(recursion) && count == old(count)
    {
      if thread.Some? && thread.value != me {
        return false;
      }
      thread, recursion := Some(me), recursion + 1;
      count := count + 1;
      return true;
    }

    /** `_unlock_thread`. */
    method UnlockThread()
      requires Valid() && recursion > 0
      modifies this
      ensures Valid() && count == old(count) - 1 && recursion == old(recursion) - 1
      ensures thread == if recursion == 0 then None else old(thread)
    {
      count := count - 1;
      recursion := recursion - 1;
      if recursion == 0 {
        thread := None;
      }
    }

    /** `_try_lock`. */
    method TryLock() returns (v: Verdict)
      modifies machine
      ensures machine.alive == old(machine.alive) && machine.busy == old(machine.busy)
      ensures machine.busy ==> v == WouldBlock && machine.file == Some(Text(old(machine.file)))
      ensures !machine.busy ==> v == TryVerdict(Text(old(machine.file)), machine.alive, pid)
      ensures !machine.busy ==> machine.file == Some(TryText(Text(old(machine.file)), machine.alive, pid))
    {
      if machine.file.None? {
        machine.file := Some("");
      }
      if machine.busy {
        return WouldBlock;
      }
      var read := FirstRead(machine.file.value);
      assert Overwrite("", Str(pid)) == Str(pid);
      if |read| == 0 {
        machine.file := Some(Overwrite(machine.file.value, Str(pid)));
        return Owner(pid);
      }
      var found := Int(read);
      if found.None? {
        return MalformedFile;
      }
      if found.value == pid {
        return Owner(pid);
      }
      if found.value !in machine.alive {
        machine.file := Some("");
        machine.file := Some(Overwrite(machine.file.value, Str(pid)));
        return Owner(pid);
      }
      return Owner(found.value);
    }

    /** `__enter__`; each sleep uses up one of `sleeps`. */
    method Enter(me: nat, sleeps: seq<World>) returns (r: EnterResult)
      requires Valid()
      modifies this, machine
      ensures Valid()
      ensures var foreign := old(thread) != None && old(thread) != Some(me);
        && r == (if foreign then ThreadLocked else Entering(old(machine.Now()), pid, blocking, sleeps).0)
        && machine.Now() == (if foreign then old(machine.Now())
                             else Entering(old(machine.Now()), pid, blocking, sleeps).1)
        && thread == (if foreign then old(thread) else if recursion == 0 then None else Some(me))
      ensures count == old(count) + (if Raises(r) then 1 else 0)
      ensures recursion == old(recursion) + if Raises(r) then 1 else 0
    {
      hide TryVerdict, TryText;
      var ok := LockThread(me);
      if !ok {
        return ThreadLocked;
      }
      ghost var before := machine.Now();
      var v := TryLock();
      var used := 0;
      assert sleeps[0..] == sleeps;
      ghost var last := before;
      while v != Owner(pid)
        invariant 0 <= used <= |sleeps|
        invariant Valid() && thread == Some(me) && count == old(count) + 1 && recursion == old(recursion) + 1
        invariant v == TryResult(last, pid) && machine.Now() == AfterTry(last, pid)
        invariant Entering(before, pid, blocking, sleeps) == Entering(last, pid, blocking, sleeps[used..])
        decreases |sleeps| - used
      {
        if v == MalformedFile {
          return Malformed;
        }
        if v != WouldBlock && !blocking {
          UnlockThread();
          return ProcessLocked(v.pid);
        }
        if used == |sleeps| {
          return StillWaiting;
        }
        assert sleeps[used..][1..] == sleeps[used + 1..];
        last := sleeps[used];
        machine.Become(sleeps[used]);
        used := used + 1;
        v := TryLock();
      }
      return Entered;
    }

    /** `__exit__`: os.unlink needs the file when this is the outermost exit. */
    method Exit()
      requires Valid() && recursion > 0
      requires count == 1 ==> machine.file.Some?
      modifies this, machine
      ensures Valid() && count == old(count) - 1 && recursion == old(recursion) - 1
      ensures thread == if recursion == 0 then None else old(thread)
      ensures machine.file == if old(count) == 1 then None else old(machine.file)
      ensures machine.alive == old(machine.alive) && machine.busy == old(machine.busy)
    {
      if count == 1 {
        machine.file := None;
      }
      UnlockThread();
    }

    /**
     Running nested `with` statements to the end, whatever the machine is like at first: `count`
     comes back to where it was, and the file is gone exactly if this was the outermost one.
     INSIDE, the only reason not to come to the end is to wait for the flock.
     */
    method Run(w: With, me: nat) returns (r: EnterResult)
      requires Valid() && count == recursion && (count > 0 ==> thread == Some(me))
      requires Respected(if count == 0 then w.body else [w], pid)
      modifies this, machine
      ensures Valid()
      ensures r == Entered ==>
                && count == old(count) && recursion == old(recursion) && thread == old(thread)
                && (if old(count) == 0 then machine.file == None else Mine(machine.Now(), pid))
      ensures r == Entering(w.found, pid, blocking, w.sleeps).0 || r == StillWaiting
      ensures old(count) > 0 ==> r in {Entered, StillWaiting}
      ensures r == Malformed || r.ProcessLocked? ==> count == if r == Malformed then 1 else 0
      decreases w
    {
      machine.Become(w.found);
      r := Enter(me, w.sleeps);
      InnerEntry(w, pid, blocking, old(count));
      if r != Entered {
        return;
      }
      EnteredIsMine(w.found, pid, blocking, w.sleeps);
      var k := 0;
      while k < |w.body|
        invariant 0 <= k <= |w.body| && r == Entered
        invariant Valid() && count == recursion == old(count) + 1 && thread == Some(me)
        invariant Mine(machine.Now(), pid)
      {
        assert Respected([w.body[k]], pid);
        r := Run(w.body[k], me);
        if r != Entered {
          return;
        }
        k := k + 1;
      }
      Exit();
    }
  }

  lemma InnerEntry(w: With, p: Pid, blocking: bool, count: int)
    requires count > 0 ==> Respected([w], p)
    ensures count > 0 ==>
              && Entering(w.found, p, blocking, w.sleeps).0 in {Entered, StillWaiting}
              && Respected(w.body, p)
  {
    if count > 0 {
      assert [w][0] == w;
      EnteringMine(w.found, p, blocking, w.sleeps);
    }
  }

  /** When it succeeds, `_try_lock` leaves a file that reads as p's pid. */
  lemma TryTextReads(text: string, alive: set<int>, p: Pid)
    ensures Free(text, alive, p) ==> Int(FirstRead(TryText(text, alive, p))) == Some(p)
    ensures TryVerdict(text, alive, p) == Owner(p) <==> Free(text, alive, p)
  {
    OwnPidIsFree(p, alive);
  }

  /** An empty file, a pid of its own and a dead one are taken over; a live pid stays and is returned. */
  lemma PidFile(q: Pid, alive: set<int>, p: Pid)
    ensures TryVerdict("", alive, p) == Owner(p) && TryText("", alive, p) == Str(p)
    ensures q == p || q !in alive ==> TryVerdict(Str(q), alive, p) == Owner(p) && TryText(Str(q), alive, p) == Str(p)
    ensures q != p && q in alive ==> TryVerdict(Str(q), alive, p) == Owner(q) && TryText(Str(q), alive, p) == Str(q)
  {
    OwnPidIsFree(q, alive);
    assert Int("") == None;
    hide Int;
  }

  lemma OwnPidIsFree(p: Pid, alive: set<int>)
    ensures FirstRead(Str(p)) == Str(p) && Int(Str(p)) == Some(p) && Free(Str(p), alive, p)
  {
    IntOfStr(p);
    assert Pow10(7) == 10000000 by { assert Pow10(3) == 1000; }
    StrLength(p, 7, 10000000);
  }

  /** The pids of running processes. */
  function LiveSet(s: State): set<int> {
    set p: Pid | p in s.procs && s.procs[p].alive
  }

  lemma TryOnFreshFile(s: State, p: Pid, i: Inode) returns (t: State)
    requires p in s.procs && s.procs[p].alive && s.procs[p].control == Flocked(i)
    requires i in s.contents && i in s.flocks && s.flocks[i] == p && FirstRead(s.contents[i]) == ""
    ensures Reaches(s, t)
    ensures t == Put(s, p, s.procs[p].(control := Returned(Owner(p))))
                 .(contents := s.contents[i := Str(p)], flocks := s.flocks - {i})
  {
    assert After(s, []) == Some(s);
    ReachesStep(s, s, p, Read);
    var s1 := Put(s, p, s.procs[p].(control := Writing(i)));
    t := WriteAndClose(s, s1, p, i);
    assert t.procs == s.procs[p := s.procs[p].(control := Returned(Owner(p)))];
  }

  lemma ReadAndJudge(s: State, p: Pid, i: Inode) returns (t: State)
    requires p in s.procs && s.procs[p].alive && s.procs[p].control == Flocked(i)
    requires i in s.contents && FirstRead(s.contents[i]) != ""
    ensures Reaches(s, t)
    ensures t == Put(s, p, s.procs[p].(control := Judgement(s, p, i, FirstRead(s.contents[i]))))
  {
    assert After(s, []) == Some(s);
    hide Int, After;
    ReachesStep(s, s, p, Read);
    var s1 := Put(s, p, s.procs[p].(control := Judging(i, FirstRead(s.contents[i]))));
    assert Judgement(s1, p, i, FirstRead(s.contents[i])) == Judgement(s, p, i, FirstRead(s.contents[i]));
    ReachesStep(s, s1, p, Judge);
    t := Next(s1, p, Judge).value;
    assert t.procs == s.procs[p := s.procs[p].(control := Judgement(s, p, i, FirstRead(s.contents[i])))];
  }

  /**
   The small steps add up to TryLock: a process that has the flock and goes on alone gets
   TryLock's verdict and leaves TryLock's contents.
   */
  lemma StepsMakeTryLock(s: State, p: Pid, i: Inode) returns (t: State)
    requires p in s.procs && s.procs[p].alive && s.procs[p].control == Flocked(i)
    requires i in s.contents && i in s.flocks && s.flocks[i] == p
    ensures Reaches(s, t)
    ensures t == Put(s, p, s.procs[p].(control := Returned(TryVerdict(s.contents[i], LiveSet(s), p))))
                 .(contents := s.contents[i := TryText(s.contents[i], LiveSet(s), p)], flocks := s.flocks - {i})
  {
    hide After;
    var text := FirstRead(s.contents[i]);
    if text == "" {
      t := TryOnFreshFile(s, p, i);
    } else {
      var s1 := ReadAndJudge(s, p, i);
      var c := s1.procs[p].control;
      if c.Stale? {
        ReachesStep(s, s1, p, Truncate);
        var s2 := Put(s, p, s.procs[p].(control := Writing(i))).(contents := s.contents[i := ""]);
        assert Next(s1, p, Truncate).value.procs == s2.procs;
        t := WriteAndClose(s, s2, p, i);
        assert t.contents == s.contents[i := Str(p)];
        assert t.procs == s.procs[p := s.procs[p].(control := Returned(Owner(p)))];
      } else {
        ReachesStep(s, s1, p, Close);
        t := Next(s1, p, Close).value;
        assert t.contents == s.contents[i := s.contents[i]];
        assert t.procs == s.procs[p := s.procs[p].(control := Returned(c.verdict))];
      }
    }
  }

  /** The machine that a process sees in a state of the protocol. */
  function Seen(s: State): World {
    match s.path
    case None => World(None, LiveSet(s), false)
    case Some(i) => World(Some(if i in s.contents then s.contents[i] else ""), LiveSet(s), i in s.flocks)
  }

  /** Process p, which is outside of the protocol, opens the file. */
  lemma {:induction false} EnterAndOpen(s: State, p: Pid, unused: Inode) returns (t: State, i: Inode)
    requires p in s.procs && s.procs[p].alive && s.procs[p].control.Idle?
    requires if s.path.Some? then s.path.value in s.contents else unused !in s.contents && unused !in s.flocks
    ensures Reaches(s, t) && i in t.contents && t.contents[i] == Text(Seen(s).file)
    ensures i == (if s.path.Some? then s.path.value else unused) && t.flocks == s.flocks && t.path == Some(i)
    ensures t.procs == s.procs[p := s.procs[p].(count := s.procs[p].count + 1, control := Opened(i))]
  {
    assert After(s, []) == Some(s);
    hide After;
    var q := s.procs[p].(count := s.procs[p].count + 1);
    ReachesStep(s, s, p, Enter);
    var s1 := Put(s, p, q.(control := Trying));
    ReachesStep(s, s1, p, Open(unused));
    t := Next(s1, p, Open(unused)).value;
    i := t.path.value;
    assert t.procs == s.procs[p := q.(control := Opened(i))];
  }

  /** And makes one attempt to lock it. */
  lemma {:induction false} TryOnce(o: State, s: State, p: Pid, i: Inode) returns (t: State)
    requires Reaches(o, s) && p in s.procs && s.procs[p].alive && s.procs[p].control == Opened(i)
    requires s.path == Some(i) && i in s.contents && (i in s.flocks ==> s.flocks[i] != p)
    ensures Reaches(o, t) && t.path == Some(i) && i in t.contents
    ensures t.procs == s.procs[p := s.procs[p].(control := Returned(TryResult(Seen(s), p)))]
    ensures t.contents[i] == AfterTry(Seen(s), p).file.value
  {
    hide After;
    ReachesStep(o, s, p, Flock);
    var s1 := Next(s, p, Flock).value;
    if i in s.flocks {
      ReachesStep(o, s1, p, Close);
      t := Next(s1, p, Close).value;
      assert t.procs == s.procs[p := s.procs[p].(control := Returned(WouldBlock))];
    } else {
      t := StepsMakeTryLock(s1, p, i);
      ReachesOn(o, s1, t);
      assert LiveSet(s1) == LiveSet(s);
      assert t.procs == s.procs[p := s.procs[p].(control := Returned(TryResult(Seen(s), p)))];
    }
  }

  /**
   The small steps add up to `__enter__` as far as its first sleep: a process that goes on alone
   is inside its `with` body, outside with ProcessLockError, outside with `count` left raised by a
   LockError, or about to try again, as Entering says; and it leaves the file Entering leaves.
   */
  lemma {:induction false} StepsMakeEntering(s: State, p: Pid, unused: Inode) returns (t: State)
    requires p in s.procs && s.procs[p].alive && s.procs[p].control.Idle?
    requires if s.path.Some? then s.path.value in s.contents else unused !in s.contents && unused !in s.flocks
    requires s.path.Some? && s.path.value in s.flocks ==> s.flocks[s.path.value] != p
    ensures Reaches(s, t)
    ensures var r := Entering(Seen(s), p, s.procs[p].blocking, []);
      && Outcome(r.0, s.procs[p], t.procs, s.procs, p)
      && t.path.Some? && t.path.value in t.contents && r.1.file == Some(t.contents[t.path.value])
  {
    hide Reaches, TryVerdict, TryText, Outcome;
    var q := s.procs[p];
    var s1, i := EnterAndOpen(s, p, unused);
    assert LiveSet(s1) == LiveSet(s);
    assert TryResult(Seen(s1), p) == TryResult(Seen(s), p) && AfterTry(Seen(s1), p).file == AfterTry(Seen(s), p).file;
    var s2 := TryOnce(s, s1, p, i);
    ReachesStep(s, s2, p, Continue);
    t := Next(s2, p, Continue).value;
    var v := TryResult(Seen(s), p);
    hide Seen, LiveSet, AfterTry, TryResult, Next;
    assert t.procs == s.procs[p := Continues(q.(count := q.count + 1, control := Returned(v)), p, v)];
    OutcomeOf(Seen(s), q, s.procs, p);
  }

  /** What has become of process p, which was q, when `__enter__` ends or sleeps with the result r. */
  predicate Outcome(r: EnterResult, q: Proc, now: map<Pid, Proc>, before: map<Pid, Proc>, p: Pid) {
    match r
    case Entered => now == before[p := q.(count := q.count + 1, depth := q.depth + 1)]
    case ProcessLocked(_) => !q.blocking && now == before
    case Malformed => now == before[p := q.(count := q.count + 1)]
    case StillWaiting => now == before[p := q.(count := q.count + 1, control := Trying)]
    case ThreadLocked => false
  }

  lemma OutcomeOf(w: World, q: Proc, procs: map<Pid, Proc>, p: Pid)
    requires p in procs && procs[p] == q && q.control == Idle
    ensures var v := TryResult(w, p);
      Outcome(Entering(w, p, q.blocking, []).0, q,
              procs[p := Continues(q.(count := q.count + 1, control := Returned(v)), p, v)], procs, p)
    ensures Entering(w, p, q.blocking, []).1 == AfterTry(w, p)
  {
    hide TryResult, AfterTry;
    assert procs[p := q] == procs;
  }

  lemma {:induction false} ReachesOn(o: State, s: State, t: State)
    requires Reaches(o, s) && Reaches(s, t)
    ensures Reaches(o, t)
  {
    var a :| After(o, a) == Some(s);
    var b :| After(s, b) == Some(t);
    AfterBoth(o, a, b);
  }

  lemma {:induction false} AfterBoth(o: State, a: seq<Turn>, b: seq<Turn>)
    requires After(o, a).Some?
    ensures After(o, a + b) == After(After(o, a).value, b)
    decreases |a|
  {
    if a == [] {
      assert a + b == b;
    } else {
      assert (a + b)[1..] == a[1..] + b;
      AfterBoth(Next(o, a[0].p, a[0].e).value, a[1..], b);
    }
  }
}
