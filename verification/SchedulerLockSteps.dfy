/** The same lock with every system call as a step of its own, so that processes interleave
    between them. */
module SchedulerLockSteps {
  import opened Options
  import opened SchedulerLock

  type Inode = nat

  /** Where a process is inside acquire; `nowMs` is the argument of its call. */
  datatype Pc =
    | Idle
    | Starting(nowMs: int)                // about to open for exclusive creation
    | Created(nowMs: int, inode: Inode)   // has created the still empty file
    | Blocked(nowMs: int)                 // found a file, about to open it
    | Opened(nowMs: int, inode: Inode)    // about to read it
    | Reaping(nowMs: int)                 // judged it stale, about to unlink
    | Holding(inode: Inode)
    | Crashed
  {
    predicate Owns() {
      Created? || Holding?
    }
  }

  /** The directory entry of the lock file, the contents of all files ever created (an
      unlinked file can still be open), and every process. */
  datatype System = System(entry: Option<Inode>, contents: seq<Content>, pcs: map<Pid, Pc>)

  datatype Call =
    | Begin(p: Pid, nowMs: int)
    | Create(p: Pid)
    | WriteRecord(p: Pid)
    | Open(p: Pid)
    | ReadRecord(p: Pid)
    | Unlink(p: Pid)
    | Release(p: Pid)
    | Crash(p: Pid)

  predicate WellFormed(s: System) {
    && (s.entry.Some? ==> s.entry.value < |s.contents|)
    && (forall p :: p in s.pcs && (s.pcs[p].Owns() || s.pcs[p].Opened?) ==> s.pcs[p].inode < |s.contents|)
  }

  predicate Enabled(s: System, call: Call) {
    call.p in s.pcs &&
    match call
    case Begin(p, _) => s.pcs[p].Idle?
    case Create(p) => s.pcs[p].Starting?
    case WriteRecord(p) => s.pcs[p].Created?
    case Open(p) => s.pcs[p].Blocked?
    case ReadRecord(p) => s.pcs[p].Opened?
    case Unlink(p) => s.pcs[p].Reaping?
    case Release(p) => s.pcs[p].Holding?
    case Crash(p) => true
  }

  /** Go on to reap, or return False. */
  function Judged(content: Content, nowMs: int, intervalS: real): Pc {
    if IsStale(content, nowMs, intervalS) then Reaping(nowMs) else Idle
  }

  function Next(s: System, call: Call, intervalS: real): (r: System)
    requires WellFormed(s) && Enabled(s, call)
    ensures WellFormed(r) && r.pcs.Keys == s.pcs.Keys
  {
    var p := call.p;
    var pc := s.pcs[p];
    match call
    case Begin(_, nowMs) => s.(pcs := s.pcs[p := Starting(nowMs)])
    case Create(_) =>
      if s.entry.Some? then s.(pcs := s.pcs[p := Blocked(pc.nowMs)])
      else System(Some(|s.contents|), s.contents + [Unreadable], s.pcs[p := Created(pc.nowMs, |s.contents|)])
    case WriteRecord(_) =>
      s.(contents := s.contents[pc.inode := Record(p, pc.nowMs)], pcs := s.pcs[p := Holding(pc.inode)])
    case Open(_) =>
      s.(pcs := s.pcs[p := if s.entry.Some? then Opened(pc.nowMs, s.entry.value)
                           else Judged(Unreadable, pc.nowMs, intervalS)])
    case ReadRecord(_) =>
      s.(pcs := s.pcs[p := Judged(s.contents[pc.inode], pc.nowMs, intervalS)])
    case Unlink(_) =>
      if s.entry.Some? then s.(entry := None, pcs := s.pcs[p := Starting(pc.nowMs)])
      else s.(pcs := s.pcs[p := Idle])
    case Release(_) => s.(entry := None, pcs := s.pcs[p := Idle])
    case Crash(_) => s.(pcs := s.pcs[p := Crashed])
  }

  /** The reap unlink of `call` takes the file away from a process that is still at work
      with it. */
  ghost predicate ReapsLiveFile(s: System, call: Call) {
    && call.Unlink?
    && exists q :: q in s.pcs && s.pcs[q].Owns() && s.entry == Some(s.pcs[q].inode)
  }

  /** Every owner's file is the one the directory shows, and no two share a file. */
  ghost predicate OwnersInPlace(s: System) {
    && WellFormed(s)
    && (forall p :: p in s.pcs && s.pcs[p].Owns() ==> s.entry == Some(s.pcs[p].inode))
    && (forall p, q :: p in s.pcs && q in s.pcs && s.pcs[p].Owns() && s.pcs[q].Owns() && p != q ==>
          s.pcs[p].inode != s.pcs[q].inode)
  }

  ghost predicate MutuallyExclusive(s: System) {
    forall p, q :: p in s.pcs && q in s.pcs && s.pcs[p].Holding? && s.pcs[q].Holding? ==> p == q
  }

  /** A run in which no reap hits a live file. */
  ghost predicate GentleRun(s: System, calls: seq<Call>, intervalS: real)
    requires WellFormed(s)
    decreases calls
  {
    calls == [] ||
    (&& Enabled(s, calls[0])
     && !ReapsLiveFile(s, calls[0])
     && GentleRun(Next(s, calls[0], intervalS), calls[1..], intervalS))
  }

  ghost predicate PossibleRun(s: System, calls: seq<Call>, intervalS: real)
    requires WellFormed(s)
    decreases calls
  {
    calls == [] || (Enabled(s, calls[0]) && PossibleRun(Next(s, calls[0], intervalS), calls[1..], intervalS))
  }

  ghost function RunCalls(s: System, calls: seq<Call>, intervalS: real): (r: System)
    requires WellFormed(s) && PossibleRun(s, calls, intervalS)
    ensures WellFormed(r)
    decreases calls
  {
    if calls == [] then s else RunCalls(Next(s, calls[0], intervalS), calls[1..], intervalS)
  }

  lemma CallKeepsOwnersInPlace(s: System, call: Call, intervalS: real)
    requires OwnersInPlace(s) && Enabled(s, call) && !ReapsLiveFile(s, call)
    ensures OwnersInPlace(Next(s, call, intervalS))
  {
  }

  /** Two processes hold the lock together only after some acquire has executed the reap
      unlink, and that on the file of a process still at work. Runs may interleave all
      system calls in any way, start from any leftover file, and include crashes. */
  lemma {:induction false} GentleRunsExclude(s: System, calls: seq<Call>, intervalS: real)
    requires OwnersInPlace(s) && GentleRun(s, calls, intervalS)
    ensures PossibleRun(s, calls, intervalS)
    ensures OwnersInPlace(RunCalls(s, calls, intervalS)) && MutuallyExclusive(RunCalls(s, calls, intervalS))
    decreases calls
  {
    if calls != [] {
      CallKeepsOwnersInPlace(s, calls[0], intervalS);
      GentleRunsExclude(Next(s, calls[0], intervalS), calls[1..], intervalS);
    }
  }

  /** And such a reap always matters: right after it the reaper can go on to hold the lock
      together with the process whose file it took. */
  lemma LiveReapLeadsToTwoHolders(s: System, p: Pid, q: Pid, intervalS: real) returns (calls: seq<Call>)
    requires OwnersInPlace(s) && p in s.pcs && s.pcs[p].Reaping?
    requires q in s.pcs && s.pcs[q].Owns()
    ensures PossibleRun(s, calls, intervalS)
    ensures calls != [] && calls[0] == Unlink(p) && ReapsLiveFile(s, Unlink(p))
    ensures !MutuallyExclusive(RunCalls(s, calls, intervalS))
  {
    var s1 := Next(s, Unlink(p), intervalS);
    var s2 := Next(s1, Create(p), intervalS);
    var s3 := Next(s2, WriteRecord(p), intervalS);
    var last := if s.pcs[q].Created? then Next(s3, WriteRecord(q), intervalS) else s3;
    assert last.pcs[p].Holding? && last.pcs[q].Holding?;
    calls := [];
    assert RunCalls(last, calls, intervalS) == last;
    if s.pcs[q].Created? {
      calls := Prepend(s3, WriteRecord(q), calls, intervalS);
    }
    calls := Prepend(s2, WriteRecord(p), calls, intervalS);
    calls := Prepend(s1, Create(p), calls, intervalS);
    calls := Prepend(s, Unlink(p), calls, intervalS);
  }

  lemma Prepend(s: System, call: Call, rest: seq<Call>, intervalS: real) returns (calls: seq<Call>)
    requires WellFormed(s) && Enabled(s, call) && PossibleRun(Next(s, call, intervalS), rest, intervalS)
    ensures calls == [call] + rest && PossibleRun(s, calls, intervalS)
    ensures RunCalls(s, calls, intervalS) == RunCalls(Next(s, call, intervalS), rest, intervalS)
  {
    calls := [call] + rest;
    assert calls[1..] == rest;
  }

  /** `p` has created the file and not yet written to it; `q` is somewhere in its acquire. */
  function FileStillEmpty(p: Pid, pNow: int, q: Pid, pc: Pc): System {
    System(Some(0), [Unreadable], map[p := Created(pNow, 0), q := pc])
  }

  lemma ReadsTheEmptyFile(p: Pid, q: Pid, pNow: int, qNow: int, intervalS: real)
    requires p != q && Expired(qNow, intervalS)
    ensures var (idle, starting, blocked, reading, reaping) :=
              (FileStillEmpty(p, pNow, q, Idle), FileStillEmpty(p, pNow, q, Starting(qNow)),
               FileStillEmpty(p, pNow, q, Blocked(qNow)), FileStillEmpty(p, pNow, q, Opened(qNow, 0)),
               FileStillEmpty(p, pNow, q, Reaping(qNow)));
            && Enabled(idle, Begin(q, qNow)) && Next(idle, Begin(q, qNow), intervalS) == starting
            && Enabled(starting, Create(q)) && Next(starting, Create(q), intervalS) == blocked
            && Enabled(blocked, Open(q)) && Next(blocked, Open(q), intervalS) == reading
            && Enabled(reading, ReadRecord(q)) && Next(reading, ReadRecord(q), intervalS) == reaping
  {
    StaleIffExpired(Unreadable, qNow, intervalS);
    hide IsStale, Expired;
  }

  lemma CreatesTheFile(p: Pid, q: Pid, pNow: int, intervalS: real)
    requires p != q
    ensures var start := System(None, [], map[p := Idle, q := Idle]);
            var starting := System(None, [], map[p := Starting(pNow), q := Idle]);
            && Enabled(start, Begin(p, pNow)) && Next(start, Begin(p, pNow), intervalS) == starting
            && Enabled(starting, Create(p))
            && Next(starting, Create(p), intervalS) == FileStillEmpty(p, pNow, q, Idle)
  {
  }

  lemma BothInPlace(p: Pid, q: Pid, pNow: int, qNow: int)
    requires p != q
    ensures var start := System(None, [], map[p := Idle, q := Idle]);
            OwnersInPlace(start) && WellFormed(start)
    ensures var reaping := FileStillEmpty(p, pNow, q, Reaping(qNow));
            && OwnersInPlace(reaping)
            && p in reaping.pcs && reaping.pcs[p].Owns()
            && q in reaping.pcs && reaping.pcs[q].Reaping?
  {
  }

  /** Which is how the lock fails without anything being old: the file is empty between its
      creation and the write of the record, and an empty file counts as written at time 0. */
  lemma EmptyFileIsReaped(p: Pid, q: Pid, pNow: int, qNow: int, intervalS: real) returns (calls: seq<Call>)
    requires p != q && Expired(qNow, intervalS)
    ensures var start := System(None, [], map[p := Idle, q := Idle]);
            && OwnersInPlace(start)
            && PossibleRun(start, calls, intervalS)
            && !MutuallyExclusive(RunCalls(start, calls, intervalS))
  {
    hide *;
    BothInPlace(p, q, pNow, qNow);
    ReadsTheEmptyFile(p, q, pNow, qNow, intervalS);
    CreatesTheFile(p, q, pNow, intervalS);
    calls := LiveReapLeadsToTwoHolders(FileStillEmpty(p, pNow, q, Reaping(qNow)), q, p, intervalS);
    calls := Prepend(FileStillEmpty(p, pNow, q, Opened(qNow, 0)), ReadRecord(q), calls, intervalS);
    calls := Prepend(FileStillEmpty(p, pNow, q, Blocked(qNow)), Open(q), calls, intervalS);
    calls := Prepend(FileStillEmpty(p, pNow, q, Starting(qNow)), Create(q), calls, intervalS);
    calls := Prepend(FileStillEmpty(p, pNow, q, Idle), Begin(q, qNow), calls, intervalS);
    calls := Prepend(System(None, [], map[p := Starting(pNow), q := Idle]), Create(p), calls, intervalS);
    calls := Prepend(System(None, [], map[p := Idle, q := Idle]), Begin(p, pNow), calls, intervalS);
  }
}
