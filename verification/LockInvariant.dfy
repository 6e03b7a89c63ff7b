/** Every step of the lock protocol keeps its invariant. */
module LockInvariant {
  import opened Wrappers
  import opened Decimal
  import opened LockProtocol

  /** What one running process knows: the files, the flocks and its own record. */
  ghost predicate Running(s: State, p: Pid) {
    FilesInv(s) && FlocksInv(s) && p in s.procs && s.procs[p].alive && ProcInv(s, p)
  }

  /** t differs from s in p's record and flocks only, and p can rely on its part of t. */
  ghost predicate LocalMove(s: State, p: Pid, t: State) {
    OnlyOwnRecord(s, p, t) && FlocksInv(t) && ProcInv(t, p)
  }

  /** Nothing but p's own record changed, except flocks that were free or p's. */
  ghost predicate OnlyOwnRecord(s: State, p: Pid, t: State) {
    && p in t.procs && t.procs[p].alive
    && t == Put(s, p, t.procs[p]).(flocks := t.flocks)
    && (p in s.procs ==> s.procs[p].alive)
    && forall i :: i in s.flocks && s.flocks[i] != p ==> i in t.flocks && t.flocks[i] == s.flocks[i]
  }

  lemma OnlyOwnRecordKeepsFiles(s: State, p: Pid, t: State)
    requires FilesInv(s) && OnlyOwnRecord(s, p, t)
    ensures FilesInv(t)
  {
    forall i | i in t.contents && t.contents[i] != ""
      ensures PidText(t, t.contents[i])
    {
      var q: Pid :| q in s.procs && s.contents[i] == Str(q);
      assert q in t.procs;
    }
  }

  lemma OnlyOwnRecordKeepsOther(s: State, p: Pid, t: State, r: Pid)
    requires OnlyOwnRecord(s, p, t) && r in s.procs && r != p && ProcInv(s, r)
    ensures r in t.procs && ProcInv(t, r)
  {
  }

  lemma OnlyOwnRecordKeepsInv(s: State, p: Pid, t: State)
    requires Inv(s) && LocalMove(s, p, t)
    ensures Inv(t)
  {
    OnlyOwnRecordKeepsFiles(s, p, t);
    forall r: Pid | r in t.procs
      ensures ProcInv(t, r)
    {
      if r != p { OnlyOwnRecordKeepsOther(s, p, t, r); }
    }
  }

  lemma EnterIsLocal(s: State, p: Pid)
    requires Running(s, p) && s.procs[p].control.Idle?
    ensures var q := s.procs[p]; LocalMove(s, p, Put(s, p, q.(count := q.count + 1, control := Trying)))
  {
  }

  lemma AcquiringIsLocal(s: State, p: Pid, i: Inode)
    requires Running(s, p) && s.procs[p].control == Opened(i) && i !in s.flocks
    ensures LocalMove(s, p, Flocking(s, p, i))
  {
    var t := Flocking(s, p, i);
    assert t.procs[p].Fd() == Some(i);
    assert FlocksInv(t);
    assert FdInv(t, p, i);
  }

  lemma FlockingIsLocal(s: State, p: Pid, i: Inode)
    requires Running(s, p) && s.procs[p].control == Opened(i)
    ensures LocalMove(s, p, Flocking(s, p, i))
  {
    if i !in s.flocks {
      AcquiringIsLocal(s, p, i);
    }
  }

  /** While a process is about to write, it does not own the lock already. */
  lemma OwnerDoesNotWrite(s: State, p: Pid)
    requires Running(s, p)
    requires s.procs[p].control.Stale? || s.procs[p].control.Writing?
    ensures s.procs[p].depth == 0
  {
    if s.procs[p].depth >= 1 && s.procs[p].control.Stale? {
      var q: Pid :| q == s.procs[p].control.found && q in s.procs && !s.procs[q].alive
        && s.contents[s.procs[p].control.ino] == Str(q);
      OneOwner(s, q, p);
    }
  }

  /** Moving on with the same descriptor and the flock held. */
  lemma MoveOnSameFd(s: State, p: Pid, i: Inode, c: Control)
    requires Running(s, p) && s.procs[p].InsideFlock() && s.procs[p].Fd() == Some(i)
    requires (c.Judging? || c.Stale? || c.Writing? || c.Closing?) && c.ino == i
    requires ControlInv(Move(s, p, c), p)
    requires c == Closing(i, Owner(p)) ==> PathHolds(s, p)
    ensures LocalMove(s, p, Move(s, p, c))
  {
    var t := Move(s, p, c);
    assert t.procs[p].Fd() == Some(i);
    assert FlocksInv(t);
    assert FdInv(t, p, i);
  }

  /** A file holds a whole pid or nothing, so one read returns all of it. */
  lemma ReadingGetsText(s: State, p: Pid, i: Inode)
    requires FilesInv(s) && p in s.procs && i in s.contents
    ensures Reading(s, p, i) == Move(s, p, if s.contents[i] == "" then Writing(i) else Judging(i, s.contents[i]))
  {
    if s.contents[i] != "" {
      PidTextReads(s, s.contents[i]);
    }
  }

  lemma ReadingIsLocal(s: State, p: Pid, i: Inode)
    requires Running(s, p) && s.procs[p].control == Flocked(i)
    ensures i in s.contents && LocalMove(s, p, Reading(s, p, i))
  {
    ReadingGetsText(s, p, i);
    MoveOnSameFd(s, p, i, if s.contents[i] == "" then Writing(i) else Judging(i, s.contents[i]));
  }

  /** What is read is some process's pid, so `int` succeeds and finds that pid. */
  lemma JudgementOfPid(s: State, p: Pid, i: Inode, q: Pid)
    ensures Judgement(s, p, i, Str(q)) ==
            if q == p then Closing(i, Owner(p))
            else if !Alive(s, q) then Stale(i, q)
            else Closing(i, Owner(q))
  {
    IntOfStr(q);
  }

  /** The verdict on pid q, read from a file that a running process has open. */
  lemma JudgedControl(s: State, p: Pid, i: Inode, q: Pid, c: Control)
    requires FilesInv(s) && p in s.procs && FdInv(s, p, i) && q in s.procs && s.contents[i] == Str(q)
    requires s.procs[p].WillJudge()
    requires s.procs[p].depth >= 1 ==> q == p
    requires i in s.unlinkedBy ==> s.unlinkedBy[i] == q
    requires c == if q == p then Closing(i, Owner(p)) else if !Alive(s, q) then Stale(i, q) else Closing(i, Owner(q))
    ensures ControlInv(Move(s, p, c), p)
    ensures c == Closing(i, Owner(p)) ==> PathHolds(s, p)
  {
    hide Str;
    if c.Stale? {
      assert q in Move(s, p, c).procs && !Move(s, p, c).procs[q].alive;
    }
  }

  lemma JudgementIsLocal(s: State, p: Pid, i: Inode, text: string)
    requires Running(s, p) && s.procs[p].control == Judging(i, text)
    ensures LocalMove(s, p, Move(s, p, Judgement(s, p, i, text)))
  {
    var q: Pid :| q in s.procs && text == Str(q);
    JudgementOfPid(s, p, i, q);
    if i in s.unlinkedBy {
      OneName(q, s.unlinkedBy[i], text);
    }
    if s.procs[p].depth >= 1 {
      OneName(p, q, text);
    }
    JudgedControl(s, p, i, q, Judgement(s, p, i, text));
    MoveOnSameFd(s, p, i, Judgement(s, p, i, text));
  }

  lemma OneName(p: Pid, q: Pid, text: string)
    requires text == Str(p) && text == Str(q)
    ensures p == q
  {
    StrInjective(p, q);
  }

  lemma ClosesIsLocal(s: State, p: Pid, i: Inode, v: Verdict)
    requires Running(s, p) && s.procs[p].control == Closing(i, v)
    ensures LocalMove(s, p, Closes(s, p, i, v))
  {
    var t := Closes(s, p, i, v);
    assert s.procs[p].Fd() == Some(i);
    assert forall j :: j in t.flocks ==> t.flocks[j] != p;
    assert FlocksInv(t);
  }

  lemma ContinuesIsLocal(s: State, p: Pid, v: Verdict)
    requires Running(s, p) && s.procs[p].control == Returned(v)
    ensures LocalMove(s, p, Put(s, p, Continues(s.procs[p], p, v)))
  {
  }

  lemma UnlockThreadIsLocal(s: State, p: Pid)
    requires Running(s, p) && s.procs[p].control.Unlinked?
    ensures var q := s.procs[p]; LocalMove(s, p, Put(s, p, q.(count := q.count - 1, control := Idle)))
  {
  }

  lemma SpawnIsLocal(s: State, p: Pid, blocking: bool)
    requires FlocksInv(s) && p !in s.procs
    ensures LocalMove(s, p, Put(s, p, Proc(true, blocking, 0, 0, Idle)))
  {
  }

  lemma OpeningExistingIsLocal(s: State, p: Pid, unused: Inode)
    requires Running(s, p) && s.procs[p].control.Trying? && s.path.Some?
    ensures LocalMove(s, p, Opening(s, p, unused).value)
  {
  }

  lemma CreatingKeeps(s: State, p: Pid, unused: Inode)
    requires Running(s, p) && s.procs[p].control.Trying? && s.path.None? && unused !in s.contents
    ensures var t := Opening(s, p, unused).value; FilesInv(t) && FlocksInv(t) && ProcInv(t, p)
  {
    var t := Opening(s, p, unused).value;
    forall i | i in t.contents && t.contents[i] != ""
      ensures PidText(t, t.contents[i])
    {
      var q: Pid :| q in s.procs && s.contents[i] == Str(q);
      assert q in t.procs;
    }
  }

  lemma CreatingKeepsOther(s: State, p: Pid, unused: Inode, r: Pid)
    requires Running(s, p) && s.procs[p].control.Trying? && s.path.None? && unused !in s.contents
    requires r in s.procs && r != p && ProcInv(s, r)
    ensures ProcInv(Opening(s, p, unused).value, r)
  {
  }

  lemma OpeningKeeps(s: State, p: Pid, unused: Inode)
    requires Inv(s) && Running(s, p) && s.procs[p].control.Trying? && Opening(s, p, unused).Some?
    ensures Inv(Opening(s, p, unused).value)
  {
    var t := Opening(s, p, unused).value;
    if s.path.Some? {
      OpeningExistingIsLocal(s, p, unused);
      OnlyOwnRecordKeepsInv(s, p, t);
    } else {
      CreatingKeeps(s, p, unused);
      forall r: Pid | r in t.procs
        ensures ProcInv(t, r)
      {
        if r != p { CreatingKeepsOther(s, p, unused, r); }
      }
    }
  }

  /** While p is about to write, nobody else owns the lock or holds the file's flock. */
  lemma WriterAlone(s: State, p: Pid, r: Pid)
    requires Running(s, p) && Running(s, r) && r != p
    requires s.procs[p].control.Stale? || s.procs[p].control.Writing?
    ensures !Owns(s.procs[r], r)
    ensures s.path == Some(s.procs[p].control.ino) && s.path.value !in s.unlinkedBy
    ensures s.procs[r].Fd() == s.path ==> !s.procs[r].InsideFlock()
  {
    if Owns(s.procs[r], r) && s.procs[p].control.Stale? {
      var q: Pid :| q == s.procs[p].control.found && q in s.procs && !s.procs[q].alive
        && s.contents[s.procs[p].control.ino] == Str(q);
      OneOwner(s, q, r);
    }
  }

  /** p replaced the contents of the path's inode. */
  ghost predicate Rewrote(s: State, p: Pid, i: Inode, t: State) {
    && p in t.procs && t.procs[p].alive && i in t.contents
    && t == Put(s, p, t.procs[p]).(contents := s.contents[i := t.contents[i]])
    && (t.contents[i] == "" || t.contents[i] == Str(p))
  }

  lemma RewroteKeepsOther(s: State, p: Pid, i: Inode, t: State, r: Pid)
    requires Running(s, p) && r in s.procs && r != p && ProcInv(s, r)
    requires s.procs[p].control == Writing(i) || (s.procs[p].control.Stale? && s.procs[p].control.ino == i)
    requires Rewrote(s, p, i, t)
    ensures ProcInv(t, r)
  {
    if s.procs[r].alive {
      WriterAlone(s, p, r);
      assert Owns(t.procs[r], r) == Owns(s.procs[r], r);
      assert t.procs[r].Fd().Some? ==> FdInv(t, r, t.procs[r].Fd().value);
      assert ControlInv(t, r);
    }
  }

  lemma RewroteKeepsFiles(s: State, p: Pid, i: Inode, t: State)
    requires FilesInv(s) && p in s.procs && Rewrote(s, p, i, t) && s.path == Some(i)
    ensures FilesInv(t)
  {
    forall j | j in t.contents && t.contents[j] != ""
      ensures PidText(t, t.contents[j])
    {
      if j != i {
        var q: Pid :| q in s.procs && s.contents[j] == Str(q);
        assert q in t.procs;
      }
    }
  }

  lemma RewroteKeepsInv(s: State, p: Pid, i: Inode, t: State)
    requires Inv(s) && Running(s, p)
    requires s.procs[p].control == Writing(i) || (s.procs[p].control.Stale? && s.procs[p].control.ino == i)
    requires Rewrote(s, p, i, t)
    requires ProcInv(t, p) && t.procs[p].Fd() == Some(i) && !t.procs[p].control.Opened?
    ensures Inv(t)
  {
    RewroteKeepsFiles(s, p, i, t);
    forall r: Pid | r in t.procs
      ensures ProcInv(t, r)
    {
      if r != p { RewroteKeepsOther(s, p, i, t, r); }
    }
  }

  lemma TruncatingKeeps(s: State, p: Pid, i: Inode, found: int)
    requires Inv(s) && Running(s, p) && s.procs[p].control == Stale(i, found)
    ensures Inv(Truncating(s, p, i))
  {
    OwnerDoesNotWrite(s, p);
    RewroteKeepsInv(s, p, i, Truncating(s, p, i));
  }

  lemma WritesKeeps(s: State, p: Pid, i: Inode)
    requires Inv(s) && Running(s, p) && s.procs[p].control == Writing(i)
    ensures i in s.contents && Inv(Writes(s, p, i))
  {
    var t := Writes(s, p, i);
    assert t.contents[i] == Str(p) + "" == Str(p);
    RewroteKeepsInv(s, p, i, t);
  }

  lemma ExitsKeepsOther(s: State, p: Pid, r: Pid)
    requires Running(s, p) && s.procs[p].control.Idle? && s.procs[p].depth >= 1 && s.procs[p].count == 1
    requires r in s.procs && r != p && ProcInv(s, r) && Exits(s, p).Some?
    ensures ProcInv(Exits(s, p).value, r)
  {
    if s.procs[r].alive {
      if Owns(s.procs[r], r) { OneOwner(s, p, r); }
      if s.procs[r].control.Stale? || s.procs[r].control.Writing? { WriterAlone(s, r, p); }
    }
  }

  lemma UnlinkingKeepsFiles(s: State, p: Pid)
    requires Running(s, p) && s.procs[p].control.Idle? && s.procs[p].depth >= 1 && s.procs[p].count == 1
    ensures Exits(s, p).Some?
    ensures var t := Exits(s, p).value; FilesInv(t) && FlocksInv(t) && ProcInv(t, p)
  {
    var t := Exits(s, p).value;
    forall i | i in t.contents && t.contents[i] != ""
      ensures PidText(t, t.contents[i])
    {
      var q: Pid :| q in s.procs && s.contents[i] == Str(q);
      assert q in t.procs;
    }
    assert t.unlinkedBy == s.unlinkedBy[s.path.value := p] && t.contents == s.contents;
    assert FlocksInv(t);
    assert t.procs[p].depth == 0 && t.procs[p].Fd() == None;
  }

  lemma InnerExitIsLocal(s: State, p: Pid)
    requires Running(s, p) && s.procs[p].control.Idle? && s.procs[p].depth >= 1 && s.procs[p].count != 1
    ensures LocalMove(s, p, Exits(s, p).value)
  {
  }

  /** Leaving a `with` body never fails: the file to unlink is there, and it is one's own. */
  lemma ExitsKeeps(s: State, p: Pid)
    requires Inv(s) && Running(s, p) && s.procs[p].control.Idle? && s.procs[p].depth >= 1
    ensures Exits(s, p).Some? && Inv(Exits(s, p).value)
  {
    if s.procs[p].count != 1 {
      InnerExitIsLocal(s, p);
      OnlyOwnRecordKeepsInv(s, p, Exits(s, p).value);
    } else {
      UnlinkingKeepsFiles(s, p);
      var t := Exits(s, p).value;
      forall r: Pid | r in t.procs
        ensures ProcInv(t, r)
      {
        if r != p { ExitsKeepsOther(s, p, r); }
      }
    }
  }

  lemma DiesKeepsOther(s: State, p: Pid, r: Pid)
    requires Running(s, p) && r in s.procs && r != p && ProcInv(s, r) && Allowed(s, p, Die)
    ensures ProcInv(Dies(s, p), r)
  {
    if s.procs[r].alive && s.procs[r].control.Stale? {
      var found := s.procs[r].control.found;
      var q: Pid :| q == found && q in s.procs && !s.procs[q].alive
        && s.contents[s.procs[r].control.ino] == Str(q);
      assert q in Dies(s, p).procs && !Dies(s, p).procs[q].alive;
    }
  }

  lemma DiesKeeps(s: State, p: Pid)
    requires Inv(s) && Running(s, p) && Allowed(s, p, Die)
    ensures Inv(Dies(s, p))
  {
    var t := Dies(s, p);
    forall i | i in t.contents && t.contents[i] != ""
      ensures PidText(t, t.contents[i])
    {
      var q: Pid :| q in s.procs && s.contents[i] == Str(q);
      assert q in t.procs;
    }
    forall r: Pid | r in t.procs
      ensures ProcInv(t, r)
    {
      if r != p { DiesKeepsOther(s, p, r); }
    }
  }

  /** Where a step of p leaves everything but p's record and its flocks alone. */
  lemma LocalStep(s: State, p: Pid, e: Event, t: State)
    requires FilesInv(s) && FlocksInv(s) && (p in s.procs ==> ProcInv(s, p))
    requires Next(s, p, e) == Some(t)
    requires !(e.Open? || e.Truncate? || e.Write? || e.Exit? || e.Die?)
    ensures LocalMove(s, p, t)
  {
    match e {
      case Spawn(blocking) => SpawnIsLocal(s, p, blocking);
      case Enter => EnterIsLocal(s, p);
      case Flock => FlockingIsLocal(s, p, s.procs[p].control.ino);
      case Read => ReadingIsLocal(s, p, s.procs[p].control.ino);
      case Judge => JudgementIsLocal(s, p, s.procs[p].control.ino, s.procs[p].control.text);
      case Close => ClosesIsLocal(s, p, s.procs[p].control.ino, s.procs[p].control.verdict);
      case Continue => ContinuesIsLocal(s, p, s.procs[p].control.verdict);
      case UnlockThread => UnlockThreadIsLocal(s, p);
    }
  }

  lemma StepKeepsInv(s: State, p: Pid, e: Event, t: State)
    requires Inv(s) && Step(s, p, e, t)
    ensures Inv(t)
  {
    match e {
      case Open(unused) => OpeningKeeps(s, p, unused);
      case Truncate => TruncatingKeeps(s, p, s.procs[p].control.ino, s.procs[p].control.found);
      case Write => WritesKeeps(s, p, s.procs[p].control.ino);
      case Exit => ExitsKeeps(s, p);
      case Die => DiesKeeps(s, p);
      case _ => LocalStep(s, p, e, t); OnlyOwnRecordKeepsInv(s, p, t);
    }
  }
}
