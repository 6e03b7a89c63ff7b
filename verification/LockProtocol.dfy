/**
 The pid-file protocol of ProcessLock (dnf/lock.py), as an interleaving of system calls
 made by any number of processes on one lock file.

 A state keeps the inode that the lock's path names apart from the inodes that a process
 may still have open after the file was unlinked.
 */
module LockProtocol {
  import opened Wrappers
  import opened Decimal

  /** Process ids, up to the kernel's PID_MAX_LIMIT. */
  type Pid = p: int | 0 < p <= 4194304 witness 1

  type Inode = nat

  /** What `_try_lock` returns: -1, the pid it found or wrote, or a LockError. */
  datatype Verdict = WouldBlock | Owner(pid: int) | MalformedFile

  /** Where a process stands inside `__enter__`, `_try_lock` and `__exit__`. */
  datatype Control =
    | Idle
    | Trying                               // before os.open
    | Opened(ino: Inode)                   // before flock
    | Flocked(ino: Inode)                  // before os.read
    | Judging(ino: Inode, text: string)    // before int() and os.access
    | Stale(ino: Inode, found: int)        // before ftruncate
    | Writing(ino: Inode)                  // before os.write
    | Closing(ino: Inode, verdict: Verdict)  // before os.close
    | Returned(verdict: Verdict)           // back in the loop of __enter__
    | Unlinked                             // before _unlock_thread of __exit__

  /**
   One process and its one lock object. `count` is the field of the lock object; `depth` is
   the number of `with` bodies the process is inside of, which the program does not store.
   */
  datatype Proc = Proc(alive: bool, blocking: bool, count: int, depth: nat, control: Control) {
    function Fd(): Option<Inode> {
      match control
      case Opened(i) => Some(i)
      case Flocked(i) => Some(i)
      case Judging(i, _) => Some(i)
      case Stale(i, _) => Some(i)
      case Writing(i) => Some(i)
      case Closing(i, _) => Some(i)
      case _ => None
    }

    /** Between acquiring and releasing the flock, leaving out the closing step. */
    predicate InsideFlock() {
      control.Flocked? || control.Judging? || control.Stale? || control.Writing?
    }

    /** Before `_try_lock` has judged the pid in the file. */
    predicate WillJudge() {
      control.Opened? || control.Flocked? || control.Judging?
    }
  }

  datatype State = State(
    procs: map<Pid, Proc>,
    path: Option<Inode>,
    contents: map<Inode, string>,
    flocks: map<Inode, Pid>,
    unlinkedBy: map<Inode, Pid>  // for an inode the path no longer names: who removed it
  )

  const INITIAL := State(map[], None, map[], map[], map[])

  datatype Event =
    | Spawn(blocking: bool) | Enter | Open(unused: Inode) | Flock | Read | Judge | Truncate
    | Write | Close | Continue | Exit | UnlockThread | Die

  predicate Alive(s: State, pid: int) {
    pid in s.procs && s.procs[pid].alive
  }

  function Put(s: State, p: Pid, q: Proc): State {
    s.(procs := s.procs[p := q])
  }

  function Move(s: State, p: Pid, c: Control): State
    requires p in s.procs
  {
    Put(s, p, s.procs[p].(control := c))
  }

  /** os.write at offset 0. */
  function Overwrite(before: string, text: string): string {
    text + if |before| > |text| then before[|text|..] else ""
  }

  /** The flocks left when p closes its descriptor on i. */
  function Released(s: State, i: Inode, p: Pid): map<Inode, Pid> {
    if i in s.flocks && s.flocks[i] == p then s.flocks - {i} else s.flocks
  }

  /** os.open(target, O_CREAT | O_RDWR); `unused` numbers the inode when one is created. */
  function Opening(s: State, p: Pid, unused: Inode): Option<State>
    requires p in s.procs
  {
    if s.path.Some? then Some(Move(s, p, Opened(s.path.value)))
    else if unused in s.contents then None
    else Some(Move(s.(path := Some(unused), contents := s.contents[unused := ""]), p, Opened(unused)))
  }

  /** fcntl.flock(fd, LOCK_EX | LOCK_NB). */
  function Flocking(s: State, p: Pid, i: Inode): State
    requires p in s.procs
  {
    if i in s.flocks then Move(s, p, Closing(i, WouldBlock))
    else Move(s.(flocks := s.flocks[i := p]), p, Flocked(i))
  }

  /** os.read(fd, 20); an empty file is written to next. */
  function Reading(s: State, p: Pid, i: Inode): State
    requires p in s.procs && i in s.contents
  {
    var text := s.contents[i];
    var read := if |text| > 20 then text[..20] else text;
    Move(s, p, if read == "" then Writing(i) else Judging(i, read))
  }

  /** Where `_try_lock` goes after reading some text. */
  function Judgement(s: State, p: Pid, i: Inode, text: string): Control {
    match Int(text)
    case None => Closing(i, MalformedFile)
    case Some(found) =>
      if found == p then Closing(i, Owner(p))
      else if !Alive(s, found) then Stale(i, found)
      else Closing(i, Owner(found))
  }

  function Truncating(s: State, p: Pid, i: Inode): State
    requires p in s.procs
  {
    Move(s.(contents := s.contents[i := ""]), p, Writing(i))
  }

  function Writes(s: State, p: Pid, i: Inode): State
    requires p in s.procs && i in s.contents
  {
    Move(s.(contents := s.contents[i := Overwrite(s.contents[i], Str(p))]), p, Closing(i, Owner(p)))
  }

  function Closes(s: State, p: Pid, i: Inode, v: Verdict): State
    requires p in s.procs
  {
    Move(s.(flocks := Released(s, i, p)), p, Returned(v))
  }

  /** The loop of `__enter__`: done, retry, or raise. A LockError leaves `count` raised. */
  function Continues(q: Proc, p: Pid, v: Verdict): Proc {
    match v
    case WouldBlock => q.(control := Trying)
    case MalformedFile => q.(control := Idle)
    case Owner(pid) =>
      if pid == p then q.(depth := q.depth + 1, control := Idle)
      else if q.blocking then q.(control := Trying)
      else q.(count := q.count - 1, control := Idle)
  }

  /** `__exit__` up to `_unlock_thread`; os.unlink raises when the path names nothing. */
  function Exits(s: State, p: Pid): Option<State>
    requires p in s.procs && s.procs[p].depth >= 1
  {
    var q := s.procs[p];
    if q.count != 1 then Some(Put(s, p, q.(depth := q.depth - 1, count := q.count - 1)))
    else if s.path.None? then None
    else
      Some(Put(s.(path := None, unlinkedBy := s.unlinkedBy[s.path.value := p]),
               p, q.(depth := q.depth - 1, control := Unlinked)))
  }

  /** The end of a process: its descriptor is closed, the file stays as it is. */
  function Dies(s: State, p: Pid): State
    requires p in s.procs
  {
    var q := s.procs[p];
    var flocks := match q.Fd() case Some(i) => Released(s, i, p) case None => s.flocks;
    Put(s.(flocks := flocks), p, q.(alive := false, control := Idle))
  }

  /** One step of process p; None when that event cannot happen next for p. */
  function Next(s: State, p: Pid, e: Event): Option<State> {
    if e.Spawn? then
      if p in s.procs then None  // pids are not reused
      else Some(Put(s, p, Proc(true, e.blocking, 0, 0, Idle)))
    else if p !in s.procs || !s.procs[p].alive then None
    else
      var q := s.procs[p];
      match (e, q.control)
      case (Enter, Idle) => Some(Put(s, p, q.(count := q.count + 1, control := Trying)))
      case (Open(unused), Trying) => Opening(s, p, unused)
      case (Flock, Opened(i)) => Some(Flocking(s, p, i))
      case (Read, Flocked(i)) => if i in s.contents then Some(Reading(s, p, i)) else None
      case (Judge, Judging(i, text)) => Some(Move(s, p, Judgement(s, p, i, text)))
      case (Truncate, Stale(i, _)) => Some(Truncating(s, p, i))
      case (Write, Writing(i)) => if i in s.contents then Some(Writes(s, p, i)) else None
      case (Close, Closing(i, v)) => Some(Closes(s, p, i, v))
      case (Continue, Returned(v)) => Some(Put(s, p, Continues(q, p, v)))
      case (Exit, Idle) => if q.depth == 0 then None else Exits(s, p)
      case (UnlockThread, Unlinked) => Some(Put(s, p, q.(count := q.count - 1, control := Idle)))
      case (Die, _) => Some(Dies(s, p))
      case _ => None
  }

  /**
   The assumption the protocol needs: a process that unlinked the file does not die while
   another process has that inode open and is still to judge the pid in it.
   */
  ghost predicate Allowed(s: State, p: Pid, e: Event) {
    e.Die? ==>
      forall q: Pid ::
        q in s.procs && q != p && s.procs[q].alive && s.procs[q].WillJudge() && s.procs[q].Fd().value in s.unlinkedBy
        ==> s.unlinkedBy[s.procs[q].Fd().value] != p
  }

  ghost predicate Step(s: State, p: Pid, e: Event, t: State) {
    Allowed(s, p, e) && Next(s, p, e) == Some(t)
  }

  // ----- The invariant -----

  ghost predicate PidText(s: State, text: string) {
    exists q: Pid :: q in s.procs && text == Str(q)
  }

  ghost predicate FilesInv(s: State) {
    && (s.path.Some? ==> s.path.value in s.contents && s.path.value !in s.unlinkedBy)
    && (forall i :: i in s.contents ==> s.path == Some(i) || i in s.unlinkedBy)
    && (forall i :: i in s.contents ==> s.contents[i] == "" || PidText(s, s.contents[i]))
    && (forall i :: i in s.unlinkedBy ==>
          i in s.contents && s.unlinkedBy[i] in s.procs && s.contents[i] == Str(s.unlinkedBy[i]))
  }

  ghost predicate FlocksInv(s: State) {
    forall i :: i in s.flocks ==>
      && s.flocks[i] in s.procs
      && s.procs[s.flocks[i]].alive
      && s.procs[s.flocks[i]].Fd() == Some(i)
      && !s.procs[s.flocks[i]].control.Opened?
  }

  /** The path names a file that holds p's pid. */
  predicate PathHolds(s: State, p: Pid) {
    s.path.Some? && s.path.value in s.contents && s.contents[s.path.value] == Str(p)
  }

  /** p is inside a `with` body, or its `_try_lock` has already succeeded. */
  predicate Owns(q: Proc, p: Pid) {
    || q.depth >= 1
    || ((q.control.Closing? || q.control.Returned?) && q.control.verdict == Owner(p))
  }

  /** A descriptor on an unlinked inode: somebody else unlinked it, and is alive until its pid is judged. */
  ghost predicate FdInv(s: State, p: Pid, i: Inode)
    requires p in s.procs
  {
    && i in s.contents
    && (i in s.unlinkedBy ==>
          && s.unlinkedBy[i] != p
          && s.unlinkedBy[i] in s.procs
          && (s.procs[p].WillJudge() ==> s.procs[s.unlinkedBy[i]].alive))
    && (s.procs[p].InsideFlock() ==> i in s.flocks && s.flocks[i] == p)
    && (s.procs[p].depth >= 1 ==> s.path == Some(i))
  }

  ghost predicate ControlInv(s: State, p: Pid)
    requires p in s.procs
  {
    match s.procs[p].control
    case Judging(i, text) => i in s.contents && text != "" && text == s.contents[i]
    case Stale(i, found) =>
      && s.path == Some(i) && i in s.contents
      && exists q: Pid :: q == found && q in s.procs && !s.procs[q].alive && s.contents[i] == Str(q)
    case Writing(i) => s.path == Some(i) && i in s.contents && s.contents[i] == ""
    case Closing(_, v) => !v.MalformedFile? && (s.procs[p].depth >= 1 ==> v == WouldBlock || v == Owner(p))
    case Returned(v) => !v.MalformedFile? && (s.procs[p].depth >= 1 ==> v == WouldBlock || v == Owner(p))
    case _ => true
  }

  ghost predicate ProcInv(s: State, p: Pid)
    requires p in s.procs
  {
    var q := s.procs[p];
    q.alive ==>
      && (q.Fd().Some? ==> FdInv(s, p, q.Fd().value))
      && ControlInv(s, p)
      && (Owns(q, p) ==> PathHolds(s, p))
      && q.count == q.depth + (if q.control.Idle? then 0 else 1)
      && (q.control.Unlinked? ==> q.depth == 0)
  }

  ghost predicate Inv(s: State) {
    && FilesInv(s)
    && FlocksInv(s)
    && forall p: Pid :: p in s.procs ==> ProcInv(s, p)
  }

  lemma InitialInv()
    ensures Inv(INITIAL)
  {
  }

  /** Two processes cannot both find their pid in the file. */
  lemma OneOwner(s: State, p: Pid, q: Pid)
    requires PathHolds(s, p) && PathHolds(s, q)
    ensures p == q
  {
    StrInjective(p, q);
  }

  /** A pid file is short enough for one read and parses back to the pid. */
  lemma PidTextReads(s: State, text: string)
    requires PidText(s, text)
    ensures text != "" && |text| <= 7 && Int(text).Some?
    ensures exists q: Pid :: q in s.procs && text == Str(q) && Int(text) == Some(q)
  {
    var q: Pid :| q in s.procs && text == Str(q);
    IntOfStr(q);
    assert Pow10(7) == 10000000 by { assert Pow10(3) == 1000; }
    StrLength(q, 7, 10000000);
  }
}
