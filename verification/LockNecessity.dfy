/** Every death that the lock protocol's assumption rules out can break mutual exclusion. */
module LockNecessity {
  import opened Wrappers
  import opened Decimal
  import opened LockProtocol
  import opened LockInvariant
  import opened LockRuns

  /** r inside a `with` body, with its pid in i. */
  function Usurped(s: State, r: Pid, i: Inode): State
    requires r in s.procs
  {
    Put(s, r, s.procs[r].(depth := s.procs[r].depth + 1, control := Idle))
    .(contents := s.contents[i := Str(r)], flocks := s.flocks - {i})
  }

  /** The pid in the file i is that of the dead process p, and r is another, running one. */
  predicate DeadPid(s: State, r: Pid, i: Inode, p: Pid) {
    && r in s.procs && s.procs[r].alive && r != p
    && p in s.procs && !s.procs[p].alive
    && i in s.contents && s.contents[i] == Str(p)
  }

  lemma UsurpJudging(o: State, s: State, r: Pid, i: Inode, p: Pid) returns (t: State)
    requires Reaches(o, s) && DeadPid(s, r, i, p)
    requires s.procs[r].control == Judging(i, Str(p)) && i in s.flocks && s.flocks[i] == r
    ensures Reaches(o, t) && t == Usurped(s, r, i)
  {
    hide After;
    JudgementOfPid(s, r, i, p);
    ReachesStep(o, s, r, Judge);
    hide Str, Int, Reaches;
    t := UsurpStale(o, s, r, i, p);
  }

  lemma UsurpStale(o: State, s: State, r: Pid, i: Inode, found: int) returns (t: State)
    requires r in s.procs && s.procs[r].alive && i in s.contents && i in s.flocks && s.flocks[i] == r
    requires Reaches(o, Move(s, r, Stale(i, found)))
    ensures Reaches(o, t) && t == Usurped(s, r, i)
  {
    hide After, Str, Reaches;
    var s1 := Move(s, r, Stale(i, found));
    ReachesStep(o, s1, r, Truncate);
    var s2 := Move(s, r, Writing(i)).(contents := s.contents[i := ""]);
    assert Truncating(s1, r, i).procs == s2.procs;
    t := WriteAndHold(o, s2, r, i);
    assert t.procs == Usurped(s, r, i).procs && t.contents == s.contents[i := Str(r)];
  }

  lemma UsurpFlocked(o: State, s: State, r: Pid, i: Inode, p: Pid) returns (t: State)
    requires Reaches(o, s) && DeadPid(s, r, i, p)
    requires s.procs[r].control == Flocked(i) && i in s.flocks && s.flocks[i] == r
    ensures Reaches(o, t) && t == Usurped(s, r, i)
  {
    hide After;
    IntOfStr(p);
    assert Pow10(7) == 10000000 by { assert Pow10(3) == 1000; }
    StrLength(p, 7, 10000000);
    hide Str, Pow10, Int;
    ReachesStep(o, s, r, Read);
    var s1 := Move(s, r, Judging(i, Str(p)));
    t := UsurpJudging(o, s1, r, i, p);
    assert t.procs == Usurped(s, r, i).procs;
  }

  lemma UsurpOpened(o: State, s: State, r: Pid, i: Inode, p: Pid) returns (t: State)
    requires Reaches(o, s) && DeadPid(s, r, i, p)
    requires s.procs[r].control == Opened(i) && i !in s.flocks
    ensures Reaches(o, t) && t == Usurped(s, r, i)
  {
    hide After, Str;
    ReachesStep(o, s, r, Flock);
    var s1 := Move(s, r, Flocked(i)).(flocks := s.flocks[i := r]);
    assert Flocking(s, r, i) == s1;
    t := UsurpFlocked(o, s1, r, i, p);
    assert t.procs == Usurped(s, r, i).procs && t.flocks == s.flocks - {i};
  }

  /** Nobody died meanwhile, or left a `with` body, and the path names what it did. */
  predicate Continued(s: State, t: State) {
    && t.path == s.path
    && forall x: Pid :: Holds(s, x) ==> Holds(t, x)
  }

  /** r took the lock from the unlinked file i. */
  predicate TookOrphan(t: State, r: Pid, i: Inode) {
    Holds(t, r) && t.path != Some(i) && i in t.contents && t.contents[i] == Str(r)
  }

  /** The dead unlinker's inode, still to be judged by q: someone goes on to take the lock from it. */
  lemma OrphanIsTaken(s: State, q: Pid, i: Inode, p: Pid) returns (t: State, r: Pid)
    requires DeadPid(s, q, i, p) && s.path != Some(i) && FlocksInv(s)
    requires s.procs[q].WillJudge() && s.procs[q].Fd() == Some(i)
    requires forall x: Pid :: x in s.procs && s.procs[x].alive && s.procs[x].Fd() == Some(i) ==>
               && s.procs[x].depth == 0
               && ControlInv(s, x)
               && (s.procs[x].InsideFlock() ==> i in s.flocks && s.flocks[i] == x)
    ensures Reaches(s, t) && TookOrphan(t, r, i) && Continued(s, t)
    ensures r in s.procs && s.procs[r].alive && !Holds(s, r)
  {
    assert After(s, []) == Some(s);
    hide After, Str;
    if s.procs[q].control.Judging? {
      r := q;
      t := UsurpJudging(s, s, q, i, p);
    } else if s.procs[q].control.Flocked? {
      r := q;
      t := UsurpFlocked(s, s, q, i, p);
    } else if i !in s.flocks {
      r := q;
      t := UsurpOpened(s, s, q, i, p);
    } else {
      t, r := HeldOrphanIsTaken(s, q, i, p);
    }
  }

  lemma HeldOrphanIsTaken(s: State, q: Pid, i: Inode, p: Pid) returns (t: State, r: Pid)
    requires DeadPid(s, q, i, p) && s.path != Some(i) && FlocksInv(s) && Reaches(s, s)
    requires s.procs[q].control == Opened(i) && i in s.flocks
    requires forall x: Pid :: x in s.procs && s.procs[x].alive && s.procs[x].Fd() == Some(i) ==>
               s.procs[x].depth == 0 && ControlInv(s, x)
    ensures Reaches(s, t) && TookOrphan(t, r, i) && Continued(s, t)
    ensures r in s.procs && s.procs[r].alive && !Holds(s, r)
  {
    hide After, Str;
    r := s.flocks[i];
    var c := s.procs[r].control;
    assert s.procs[r].Fd() == Some(i) && ControlInv(s, r);
    if c.Judging? {
      t := UsurpJudging(s, s, r, i, p);
    } else if c.Flocked? {
      t := UsurpFlocked(s, s, r, i, p);
    } else {
      assert c == Closing(i, c.verdict);
      ReachesStep(s, s, r, Close);
      var s1 := Closes(s, r, i, c.verdict);
      t := UsurpOpened(s, s1, q, i, p);
      r := q;
    }
  }

  /**
   The assumption is needed in every case: whenever it is not met, and the process dies all the
   same, another one goes on to take the lock from an unlinked file, and who had it keeps it.
   */
  lemma ForbiddenDeathBreaks(s: State, p: Pid) returns (t: State, r: Pid, i: Inode)
    requires Reachable(s) && p in s.procs && s.procs[p].alive && !Allowed(s, p, Die)
    ensures Reaches(Dies(s, p), t) && TookOrphan(t, r, i)
    ensures r != p && !Holds(s, r)
    ensures forall x: Pid :: Holds(s, x) && x != p ==> Holds(t, x) && x != r
  {
    ReachableInv(s);
    var q: Pid :| q in s.procs && q != p && s.procs[q].alive && s.procs[q].WillJudge()
      && s.procs[q].Fd().value in s.unlinkedBy && s.unlinkedBy[s.procs[q].Fd().value] == p;
    i := s.procs[q].Fd().value;
    OrphanFound(s, p, q, i);
    hide After, Str, Reaches, Inv, FlocksInv, ControlInv, TookOrphan;
    t, r := OrphanIsTaken(Dies(s, p), q, i, p);
    AliveAfter(s, p, r);
    forall x: Pid | Holds(s, x) && x != p
      ensures Holds(t, x) && x != r
    {
      AliveAfter(s, p, x);
    }
  }

  lemma AliveAfter(s: State, p: Pid, x: Pid)
    requires p in s.procs
    ensures x in Dies(s, p).procs && Dies(s, p).procs[x].alive <==> x in s.procs && s.procs[x].alive && x != p
    ensures x != p ==> (Holds(Dies(s, p), x) <==> Holds(s, x))
  {
  }

  /** What the death of the unlinker leaves behind. */
  lemma OrphanFound(s: State, p: Pid, q: Pid, i: Inode)
    requires Inv(s) && p in s.procs && s.procs[p].alive
    requires q in s.procs && q != p && s.procs[q].alive && s.procs[q].WillJudge()
    requires s.procs[q].Fd() == Some(i) && i in s.unlinkedBy && s.unlinkedBy[i] == p
    ensures var d := Dies(s, p);
      && DeadPid(d, q, i, p) && d.path != Some(i) && FlocksInv(d)
      && d.procs[q] == s.procs[q]
      && forall x: Pid :: x in d.procs && d.procs[x].alive && d.procs[x].Fd() == Some(i) ==>
           && d.procs[x].depth == 0
           && ControlInv(d, x)
           && (d.procs[x].InsideFlock() ==> i in d.flocks && d.flocks[i] == x)
  {
    hide Str;
    var d := Dies(s, p);
    DiesKeepsFlocks(s, p);
    assert ProcInv(s, q);
    forall x: Pid | x in d.procs && d.procs[x].alive && d.procs[x].Fd() == Some(i)
      ensures d.procs[x].depth == 0 && ControlInv(d, x)
      ensures d.procs[x].InsideFlock() ==> i in d.flocks && d.flocks[i] == x
    {
      assert ProcInv(s, x) && d.procs[x] == s.procs[x];
      OnOrphan(s, x, i, p);
    }
  }

  lemma DiesKeepsFlocks(s: State, p: Pid)
    requires FlocksInv(s) && p in s.procs
    ensures FlocksInv(Dies(s, p))
  {
  }

  /** A process with an unlinked inode open holds no lock, and will not write to the inode. */
  lemma OnOrphan(s: State, x: Pid, i: Inode, p: Pid)
    requires x in s.procs && s.procs[x].alive && ProcInv(s, x) && s.procs[x].Fd() == Some(i) && x != p
    requires s.path != Some(i) && p in s.procs
    ensures s.procs[x].depth == 0 && ControlInv(Dies(s, p), x)
    ensures s.procs[x].InsideFlock() ==> i in Dies(s, p).flocks && Dies(s, p).flocks[i] == x
  {
  }
}
