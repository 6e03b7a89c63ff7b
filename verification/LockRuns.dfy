/** What holds in every run of the lock protocol, and what one of its assumptions is for. */
module LockRuns {
  import opened Wrappers
  import opened Decimal
  import opened LockProtocol
  import opened LockInvariant

  datatype Turn = Turn(p: Pid, e: Event)

  /** The state after some moves; None when one of them is not possible. */
  function After(s: State, moves: seq<Turn>): Option<State>
    decreases |moves|
  {
    if moves == [] then Some(s)
    else
      var t := Next(s, moves[0].p, moves[0].e);
      if t.None? then None else After(t.value, moves[1..])
  }

  /** Every move meets the assumption about dying processes. */
  ghost predicate Obeys(s: State, moves: seq<Turn>)
    decreases |moves|
  {
    moves != [] ==>
      && Allowed(s, moves[0].p, moves[0].e)
      && (Next(s, moves[0].p, moves[0].e).Some? ==> Obeys(Next(s, moves[0].p, moves[0].e).value, moves[1..]))
  }

  /** s occurs in a run of any processes from the empty directory. */
  ghost predicate Reachable(s: State) {
    exists moves :: Obeys(INITIAL, moves) && After(INITIAL, moves) == Some(s)
  }

  /** p is a running process inside a `with` body. */
  predicate Holds(s: State, p: Pid) {
    p in s.procs && s.procs[p].alive && s.procs[p].depth >= 1
  }

  lemma {:induction false} RunKeepsInv(s: State, moves: seq<Turn>)
    requires Inv(s) && Obeys(s, moves) && After(s, moves).Some?
    ensures Inv(After(s, moves).value)
    decreases |moves|
  {
    if moves != [] {
      var t := Next(s, moves[0].p, moves[0].e).value;
      StepKeepsInv(s, moves[0].p, moves[0].e, t);
      RunKeepsInv(t, moves[1..]);
    }
  }

  lemma ReachableInv(s: State)
    requires Reachable(s)
    ensures Inv(s)
  {
    var moves :| Obeys(INITIAL, moves) && After(INITIAL, moves) == Some(s);
    InitialInv();
    RunKeepsInv(INITIAL, moves);
  }

  /** At most one process holds the lock, and the path then names a file with its pid. */
  lemma MutualExclusion(s: State, p: Pid)
    requires Reachable(s) && Holds(s, p)
    ensures forall q: Pid :: Holds(s, q) ==> q == p
    ensures PathHolds(s, p)
  {
    ReachableInv(s);
    assert ProcInv(s, p);
    forall q: Pid | Holds(s, q)
      ensures q == p
    {
      assert ProcInv(s, q);
      OneOwner(s, p, q);
    }
  }

  /** No step changes the contents of an inode that the path no longer names. */
  lemma {:induction false} NoWriteToOrphan(s: State, p: Pid, e: Event, t: State, i: Inode)
    requires Reachable(s) && Next(s, p, e) == Some(t)
    requires i in s.contents && (i !in t.contents || t.contents[i] != s.contents[i])
    ensures s.path == Some(i)
  {
    ReachableInv(s);
    assert ProcInv(s, p);
    hide Inv, ProcInv, Reachable, Str, Int;
    OnlyTwoWrite(s, p, e, t, i);
  }

  /** Only a truncation and a write change a file: the one that the process has open. */
  lemma {:induction false} OnlyTwoWrite(s: State, p: Pid, e: Event, t: State, i: Inode)
    requires Next(s, p, e) == Some(t)
    requires i in s.contents && (i !in t.contents || t.contents[i] != s.contents[i])
    ensures p in s.procs && s.procs[p].alive
    ensures (e.Truncate? && s.procs[p].control.Stale? && s.procs[p].control.ino == i)
            || (e.Write? && s.procs[p].control == Writing(i))
  {
    hide Str, Int, Judgement, Continues, Released;
  }

  /** The path stops naming a file only when its owner leaves its outermost `with` body. */
  lemma OnlyOwnerUnlinks(s: State, p: Pid, e: Event, t: State)
    requires Reachable(s) && Next(s, p, e) == Some(t)
    requires s.path.Some? && t.path != s.path
    ensures e == Exit && Holds(s, p) && s.procs[p].depth == 1 && PathHolds(s, p)
    ensures t.path == None && !Holds(t, p)
  {
    ReachableInv(s);
    assert e.Exit?;
    assert ProcInv(s, p);
  }

  /** `count` is the nesting depth, one more while `__enter__` or `__exit__` is running. */
  lemma CountIsDepth(s: State, p: Pid)
    requires Reachable(s) && p in s.procs && s.procs[p].alive
    ensures s.procs[p].count == s.procs[p].depth + (if s.procs[p].control.Idle? then 0 else 1)
  {
    ReachableInv(s);
    assert ProcInv(s, p);
  }

  /** Neither "malformed lock file" nor, inside a `with` body, "already locked" is reported. */
  lemma ErrorsThatCannotHappen(s: State, p: Pid)
    requires Reachable(s) && p in s.procs && s.procs[p].alive && s.procs[p].control.Returned?
    ensures s.procs[p].control.verdict != MalformedFile
    ensures Holds(s, p) ==> s.procs[p].control.verdict in {WouldBlock, Owner(p)}
  {
    ReachableInv(s);
    assert ProcInv(s, p);
  }

  /** The unlink in `__exit__` always finds a file. */
  lemma ExitAlwaysPossible(s: State, p: Pid)
    requires Reachable(s) && Holds(s, p) && s.procs[p].control.Idle?
    ensures Next(s, p, Exit).Some?
  {
    ReachableInv(s);
    assert ProcInv(s, p);
    ExitsKeeps(s, p);
  }

  // ----- Without the assumption -----

  /** Some moves lead from s to t, whether or not they meet the assumption. */
  ghost predicate Reaches(s: State, t: State) {
    exists moves :: After(s, moves) == Some(t)
  }

  lemma {:induction false} AfterOneMore(s: State, moves: seq<Turn>, m: Turn)
    requires After(s, moves).Some?
    ensures After(s, moves + [m]) == Next(After(s, moves).value, m.p, m.e)
    decreases |moves|
  {
    if moves == [] {
      assert [m][1..] == [];
    } else {
      assert (moves + [m])[1..] == moves[1..] + [m];
      AfterOneMore(Next(s, moves[0].p, moves[0].e).value, moves[1..], m);
    }
  }

  lemma ReachesStep(s: State, t: State, p: Pid, e: Event)
    requires Reaches(s, t) && Next(t, p, e).Some?
    ensures Reaches(s, Next(t, p, e).value)
  {
    var moves :| After(s, moves) == Some(t);
    AfterOneMore(s, moves, Turn(p, e));
  }

  /** Process p, entering with no lock file there, creates inode i. */
  lemma EnterAndCreate(o: State, s: State, p: Pid, i: Inode) returns (t: State)
    requires Reaches(o, s) && p in s.procs && s.procs[p].alive && s.procs[p].control.Idle?
    requires s.path.None? && i !in s.contents
    ensures Reaches(o, t)
    ensures t == Put(s, p, s.procs[p].(count := s.procs[p].count + 1, control := Opened(i)))
                 .(path := Some(i), contents := s.contents[i := ""])
  {
    var q := s.procs[p].(count := s.procs[p].count + 1);
    ReachesStep(o, s, p, Enter);
    var s1 := Put(s, p, q.(control := Trying));
    ReachesStep(o, s1, p, Open(i));
    t := Next(s1, p, Open(i)).value;
    assert t.procs == s.procs[p := q.(control := Opened(i))];
  }

  lemma CreateAndFlock(o: State, s: State, p: Pid, i: Inode) returns (t: State)
    requires Reaches(o, s) && p in s.procs && s.procs[p].alive && s.procs[p].control.Idle?
    requires s.path.None? && i !in s.contents && i !in s.flocks
    ensures Reaches(o, t)
    ensures t == Put(s, p, s.procs[p].(count := s.procs[p].count + 1, control := Flocked(i)))
                 .(path := Some(i), contents := s.contents[i := ""], flocks := s.flocks[i := p])
  {
    var s1 := EnterAndCreate(o, s, p, i);
    ReachesStep(o, s1, p, Flock);
    t := Next(s1, p, Flock).value;
    assert t.procs == s.procs[p := s.procs[p].(count := s.procs[p].count + 1, control := Flocked(i))];
  }

  /** Process p, holding the flock of the empty file i, writes its pid and closes the file. */
  lemma WriteAndClose(o: State, s: State, p: Pid, i: Inode) returns (t: State)
    requires Reaches(o, s) && p in s.procs && s.procs[p].alive && s.procs[p].control == Writing(i)
    requires i in s.contents && s.contents[i] == "" && i in s.flocks && s.flocks[i] == p
    ensures Reaches(o, t)
    ensures t == Put(s, p, s.procs[p].(control := Returned(Owner(p))))
                 .(contents := s.contents[i := Str(p)], flocks := s.flocks - {i})
  {
    var q := s.procs[p];
    ReachesStep(o, s, p, Write);
    var s1 := Put(s, p, q.(control := Closing(i, Owner(p)))).(contents := s.contents[i := Str(p)]);
    assert Overwrite("", Str(p)) == Str(p);
    ReachesStep(o, s1, p, Close);
    t := Next(s1, p, Close).value;
    assert t.procs == s.procs[p := q.(control := Returned(Owner(p)))];
  }

  lemma WriteAndHold(o: State, s: State, p: Pid, i: Inode) returns (t: State)
    requires Reaches(o, s) && p in s.procs && s.procs[p].alive && s.procs[p].control == Writing(i)
    requires i in s.contents && s.contents[i] == "" && i in s.flocks && s.flocks[i] == p
    ensures Reaches(o, t)
    ensures t == Put(s, p, s.procs[p].(depth := s.procs[p].depth + 1, control := Idle))
                 .(contents := s.contents[i := Str(p)], flocks := s.flocks - {i})
  {
    var s1 := WriteAndClose(o, s, p, i);
    ReachesStep(o, s1, p, Continue);
    t := Next(s1, p, Continue).value;
    assert t.procs == s.procs[p := s.procs[p].(depth := s.procs[p].depth + 1, control := Idle)];
  }

  lemma TakeFreshLock(o: State, s: State, p: Pid, i: Inode) returns (t: State)
    requires Reaches(o, s) && p in s.procs && s.procs[p].alive && s.procs[p].control.Idle?
    requires s.path.None? && i !in s.contents && i !in s.flocks
    ensures Reaches(o, t)
    ensures t == Put(s, p, s.procs[p].(count := s.procs[p].count + 1, depth := s.procs[p].depth + 1))
                 .(path := Some(i), contents := s.contents[i := Str(p)])
  {
    var s1 := CreateAndFlock(o, s, p, i);
    ReachesStep(o, s1, p, Read);
    var q := s.procs[p].(count := s.procs[p].count + 1);
    var s2 := Put(s1, p, q.(control := Writing(i)));
    t := WriteAndHold(o, s2, p, i);
    assert t.procs == s.procs[p := q.(depth := q.depth + 1)];
    assert t.flocks == s.flocks;
    assert t.contents == s.contents[i := Str(p)];
  }

  const OUT := Proc(true, true, 0, 0, Idle)
  const INSIDE := Proc(true, true, 1, 1, Idle)

  lemma ThreeProcesses()
    ensures Reaches(INITIAL, State(map[1 := OUT, 2 := OUT, 3 := OUT], None, map[], map[], map[]))
  {
    assert After(INITIAL, []) == Some(INITIAL);
    ReachesStep(INITIAL, INITIAL, 1, Spawn(true));
    ReachesStep(INITIAL, State(map[1 := OUT], None, map[], map[], map[]), 2, Spawn(true));
    ReachesStep(INITIAL, State(map[1 := OUT, 2 := OUT], None, map[], map[], map[]), 3, Spawn(true));
  }

  /** 1 takes the lock; 2 opens its file. */
  lemma OneInsideTwoOpened()
    ensures Reaches(INITIAL, State(map[1 := INSIDE, 2 := Proc(true, true, 1, 0, Opened(0)), 3 := OUT],
                                   Some(0), map[0 := Str(1)], map[], map[]))
  {
    ThreeProcesses();
    var s := TakeFreshLock(INITIAL, State(map[1 := OUT, 2 := OUT, 3 := OUT], None, map[], map[], map[]), 1, 0);
    assert s == State(map[1 := INSIDE, 2 := OUT, 3 := OUT], Some(0), map[0 := Str(1)], map[], map[]);
    ReachesStep(INITIAL, s, 2, Enter);
    var s1 := State(map[1 := INSIDE, 2 := Proc(true, true, 1, 0, Trying), 3 := OUT],
                    Some(0), map[0 := Str(1)], map[], map[]);
    assert Next(s, 2, Enter).value.procs == s1.procs;
    ReachesStep(INITIAL, s1, 2, Open(0));
    assert Next(s1, 2, Open(0)).value.procs == map[1 := INSIDE, 2 := Proc(true, true, 1, 0, Opened(0)), 3 := OUT];
  }

  /** 1 leaves, unlinking the file. */
  lemma OrphanWithLiveUnlinker()
    ensures Reaches(INITIAL, State(map[1 := OUT, 2 := Proc(true, true, 1, 0, Opened(0)), 3 := OUT],
                                   None, map[0 := Str(1)], map[], map[0 := 1]))
  {
    OneInsideTwoOpened();
    var two := Proc(true, true, 1, 0, Opened(0));
    var s := State(map[1 := INSIDE, 2 := two, 3 := OUT], Some(0), map[0 := Str(1)], map[], map[]);
    ReachesStep(INITIAL, s, 1, Exit);
    var s1 := State(map[1 := Proc(true, true, 1, 0, Unlinked), 2 := two, 3 := OUT],
                    None, map[0 := Str(1)], map[], map[0 := 1]);
    assert Next(s, 1, Exit).value.procs == s1.procs && Next(s, 1, Exit).value.unlinkedBy == s1.unlinkedBy;
    ReachesStep(INITIAL, s1, 1, UnlockThread);
    assert Next(s1, 1, UnlockThread).value.procs == map[1 := OUT, 2 := two, 3 := OUT];
  }

  /** 1 then dies, which the assumption rules out: 2 still has the file open. */
  lemma OrphanWithDeadUnlinker()
    ensures Reaches(INITIAL, State(map[1 := OUT.(alive := false), 2 := Proc(true, true, 1, 0, Opened(0)), 3 := OUT],
                                   None, map[0 := Str(1)], map[], map[0 := 1]))
  {
    OrphanWithLiveUnlinker();
    var two := Proc(true, true, 1, 0, Opened(0));
    var s := State(map[1 := OUT, 2 := two, 3 := OUT], None, map[0 := Str(1)], map[], map[0 := 1]);
    ReachesStep(INITIAL, s, 1, Die);
    assert Next(s, 1, Die).value.procs == map[1 := OUT.(alive := false), 2 := two, 3 := OUT];
  }

  /** 3 takes the lock with a new file; 2 flocks the unlinked one and reads it. */
  lemma ThreeInsideTwoJudging() returns (t: State)
    ensures Reaches(INITIAL, t)
    ensures t == State(map[1 := OUT.(alive := false), 2 := Proc(true, true, 1, 0, Judging(0, Str(1))), 3 := INSIDE],
                       Some(1), map[0 := Str(1), 1 := Str(3)], map[0 := 2], map[0 := 1])
  {
    OrphanWithDeadUnlinker();
    var s := State(map[1 := OUT.(alive := false), 2 := Proc(true, true, 1, 0, Opened(0)), 3 := OUT],
                   None, map[0 := Str(1)], map[], map[0 := 1]);
    var s1 := TakeFreshLock(INITIAL, s, 3, 1);
    ReachesStep(INITIAL, s1, 2, Flock);
    var s2 := Next(s1, 2, Flock).value;
    assert Str(1) == "1";
    ReachesStep(INITIAL, s2, 2, Read);
    t := Next(s2, 2, Read).value;
  }

  /**
   The assumption is needed: 2 finds the pid of a dead process in the unlinked file, and
   takes the lock as well.
   */
  lemma TwoHoldersWithoutAssumption()
    ensures exists t: State, p: Pid, q: Pid :: Reaches(INITIAL, t) && p != q && Holds(t, p) && Holds(t, q)
  {
    var s := ThreeInsideTwoJudging();
    JudgementOfPid(s, 2, 0, 1);
    ReachesStep(INITIAL, s, 2, Judge);
    var s1 := Move(s, 2, Stale(0, 1));
    ReachesStep(INITIAL, s1, 2, Truncate);
    var s2 := Next(s1, 2, Truncate).value;
    var t := WriteAndHold(INITIAL, s2, 2, 0);
    assert Holds(t, 2) && Holds(t, 3);
  }
}
