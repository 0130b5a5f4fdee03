/** The scheduler's lease lock, with each acquire and release as one step. */
module SchedulerLock {
  import opened Options

  type Pid = nat

  /** What the lock file holds: a record, or something that cannot be read as one. */
  datatype Content = Unreadable | Record(owner: Pid, mtimeMs: int)

  const STALE_ABSOLUTE_CAP_S: real := 5400.0

  function StaleAfterMs(intervalS: real): real {
    (if intervalS * 2.0 < STALE_ABSOLUTE_CAP_S then intervalS * 2.0 else STALE_ABSOLUTE_CAP_S) * 1000.0
  }

  function MtimeOf(content: Content): int {
    match content
    case Unreadable => 0
    case Record(_, mtimeMs) => mtimeMs
  }

  predicate IsStale(content: Content, nowMs: int, intervalS: real) {
    (nowMs - MtimeOf(content)) as real > StaleAfterMs(intervalS)
  }

  /** Older than twice the interval, in seconds, or than 90 minutes. */
  predicate Expired(ageMs: int, intervalS: real) {
    ageMs as real > 2000.0 * intervalS || ageMs > 5_400_000
  }

  lemma StaleIffExpired(content: Content, nowMs: int, intervalS: real)
    ensures IsStale(content, nowMs, intervalS) <==>
            Expired(if content.Record? then nowMs - content.mtimeMs else nowMs, intervalS)
  {
  }

  /** Whether an acquire at `nowMs` gets the lock. `mayUnlink` is whether unlink is permitted.
      What cannot be read as a record counts as written at time 0. */
  predicate Acquirable(file: Option<Content>, nowMs: int, intervalS: real, mayUnlink: bool) {
    match file
    case None => true
    case Some(Unreadable) => mayUnlink && Expired(nowMs, intervalS)
    case Some(Record(_, mtimeMs)) => mayUnlink && Expired(nowMs - mtimeMs, intervalS)
  }

  /** The lock file, shared by all processes. */
  class LockFile {
    var content: Option<Content>

    constructor ()
      ensures content == None
    {
      content := None;
    }
  }

  class SchedulerFileLock {
    const file: LockFile
    const intervalS: real
    const owner: Pid

    constructor (file: LockFile, intervalS: real, owner: Pid)
      ensures this.file == file && this.intervalS == intervalS && this.owner == owner
    {
      this.file := file;
      this.intervalS := intervalS;
      this.owner := owner;
    }

    /** Retries once after reaping a stale file; after that the file is gone. */
    method Acquire(nowMs: int, mayUnlink: bool) returns (ok: bool)
      modifies file
      ensures ok <==> Acquirable(old(file.content), nowMs, intervalS, mayUnlink)
      ensures file.content == if ok then Some(Record(owner, nowMs)) else old(file.content)
      decreases file.content.Some?
    {
      if file.content.None? {
        file.content := Some(Record(owner, nowMs));
        return true;
      }
      StaleIffExpired(file.content.value, nowMs, intervalS);
      var mtimeMs := if file.content.value.Record? then file.content.value.mtimeMs else 0;
      if (nowMs - mtimeMs) as real > StaleAfterMs(intervalS) {
        if !mayUnlink {
          return false;
        }
        file.content := None;
        ok := Acquire(nowMs, mayUnlink);
        return ok;
      }
      return false;
    }

    method Release(mayUnlink: bool)
      modifies file
      ensures file.content == if mayUnlink then None else old(file.content)
    {
      if mayUnlink {
        file.content := None;
      }
    }
  }

  // ---- Processes that take the lock, hold it, release it or crash ----

  /** `live` maps each live holder to the time at which it took the lock. */
  datatype State = State(file: Option<Content>, clockMs: int, live: map<Pid, int>)

  datatype Step =
    | Tick(ms: nat)
    | Acquire(p: Pid, mayUnlink: bool)
    | Release(p: Pid, mayUnlink: bool)
    | Crash(p: Pid)

  /** Only a holder releases; only a process that does not hold the lock asks for it. */
  predicate Enabled(s: State, step: Step) {
    match step
    case Tick(_) => true
    case Acquire(p, _) => p !in s.live
    case Release(p, _) => p in s.live
    case Crash(p) => p in s.live
  }

  function Next(s: State, step: Step, intervalS: real): State {
    match step
    case Tick(ms) => s.(clockMs := s.clockMs + ms)
    case Acquire(p, mayUnlink) =>
      if Acquirable(s.file, s.clockMs, intervalS, mayUnlink)
      then s.(file := Some(Record(p, s.clockMs)), live := s.live[p := s.clockMs])
      else s
    case Release(p, mayUnlink) =>
      s.(file := if mayUnlink then None else s.file, live := s.live - {p})
    case Crash(p) => s.(live := s.live - {p})
  }

  predicate Overdue(s: State, p: Pid, intervalS: real)
    requires p in s.live
  {
    Expired(s.clockMs - s.live[p], intervalS)
  }

  /** No live holder has kept the lock longer than the stale bound. */
  predicate Prompt(s: State, intervalS: real) {
    forall p :: p in s.live ==> !Overdue(s, p, intervalS)
  }

  /** At most one live holder, and its record is the one in the file. */
  ghost predicate Exclusive(s: State) {
    && (forall p, q :: p in s.live && q in s.live ==> p == q)
    && (forall p :: p in s.live ==> s.file == Some(Record(p, s.live[p])))
  }

  /** A run all of whose states are prompt. */
  ghost predicate PromptRun(s: State, steps: seq<Step>, intervalS: real)
    decreases steps
  {
    Prompt(s, intervalS) &&
    (steps == [] || (Enabled(s, steps[0]) && PromptRun(Next(s, steps[0], intervalS), steps[1..], intervalS)))
  }

  function RunSteps(s: State, steps: seq<Step>, intervalS: real): State
    decreases steps
  {
    if steps == [] then s else RunSteps(Next(s, steps[0], intervalS), steps[1..], intervalS)
  }

  /** If holders release in time, the lock is exclusive in every reachable state, whatever
      was in the file at the start and whoever crashes. */
  lemma {:induction false} PromptRunsAreExclusive(s: State, steps: seq<Step>, intervalS: real)
    requires Exclusive(s) && PromptRun(s, steps, intervalS)
    ensures Exclusive(RunSteps(s, steps, intervalS))
    decreases steps
  {
    if steps != [] {
      PromptRunsAreExclusive(Next(s, steps[0], intervalS), steps[1..], intervalS);
    }
  }

  /** The bound in numbers, for a record of any age: with unlink permitted, another process
      gets the lock if and only if the record is older than twice the interval or than 90
      minutes; without permission it never does. */
  lemma AcquiredIffExpired(owner: Pid, mtimeMs: int, nowMs: int, intervalS: real)
    ensures Acquirable(Some(Record(owner, mtimeMs)), nowMs, intervalS, true) <==>
            (nowMs - mtimeMs) as real > intervalS * 2000.0 || nowMs - mtimeMs > 90 * 60 * 1000
    ensures !Acquirable(Some(Record(owner, mtimeMs)), nowMs, intervalS, false)
    ensures IsStale(Record(owner, mtimeMs), nowMs, intervalS) <==>
            (nowMs - mtimeMs) as real > intervalS * 2000.0 || nowMs - mtimeMs > 90 * 60 * 1000
    ensures IsStale(Unreadable, nowMs, intervalS) <==> nowMs as real > intervalS * 2000.0 || nowMs > 90 * 60 * 1000
  {
  }

  /** The exclusion with the bound written out: as long as, in each state of a run, no live
      holder is older than that, there are never two. */
  lemma {:induction false} YoungHoldersExclude(s: State, steps: seq<Step>, intervalS: real)
    requires Exclusive(s)
    requires forall k :: 0 <= k <= |steps| ==> StaysYoung(RunSteps(s, steps[..k], intervalS), intervalS)
    requires forall k :: 0 <= k < |steps| ==> Enabled(RunSteps(s, steps[..k], intervalS), steps[k])
    ensures Exclusive(RunSteps(s, steps, intervalS))
    decreases steps
  {
    assert RunSteps(s, steps[..0], intervalS) == s;
    if steps != [] {
      var next, rest := Next(s, steps[0], intervalS), steps[1..];
      assert Enabled(RunSteps(s, steps[..0], intervalS), steps[0]);
      forall k | 0 <= k <= |rest|
        ensures RunSteps(next, rest[..k], intervalS) == RunSteps(s, steps[..k + 1], intervalS)
      {
        assert steps[..k + 1][1..] == rest[..k];
      }
      NextStaysExclusive(s, steps[0], intervalS);
      hide Next, Enabled, Exclusive, StaysYoung;
      forall k | 0 <= k < |rest|
        ensures Enabled(RunSteps(next, rest[..k], intervalS), rest[k])
      {
        assert rest[k] == steps[k + 1] && Enabled(RunSteps(s, steps[..k + 1], intervalS), steps[k + 1]);
      }
      YoungHoldersExclude(next, rest, intervalS);
    }
  }

  predicate StaysYoung(s: State, intervalS: real) {
    forall p :: p in s.live ==>
      (s.clockMs - s.live[p]) as real <= 2000.0 * intervalS && s.clockMs - s.live[p] <= 5_400_000
  }

  lemma NextStaysExclusive(s: State, step: Step, intervalS: real)
    requires Exclusive(s) && StaysYoung(s, intervalS) && Enabled(s, step)
    ensures Exclusive(Next(s, step, intervalS))
  {
  }

  /** So from any leftover file, readable or not, and any clock, with nobody holding the
      lock, no prompt run ever has two live holders. */
  lemma PromptRunsFromAnyStart(file: Option<Content>, clockMs: int, steps: seq<Step>, intervalS: real, p: Pid, q: Pid)
    requires PromptRun(State(file, clockMs, map[]), steps, intervalS)
    ensures var live := RunSteps(State(file, clockMs, map[]), steps, intervalS).live;
            p in live && q in live ==> p == q
  {
    PromptRunsAreExclusive(State(file, clockMs, map[]), steps, intervalS);
  }

  /** The bound is exact: with the lock held, another process gets it as well precisely
      when the holder is overdue. */
  lemma SecondHolderIffOverdue(s: State, p: Pid, q: Pid, intervalS: real)
    requires Exclusive(s) && p in s.live && q !in s.live
    ensures !Exclusive(Next(s, Acquire(q, true), intervalS)) <==> Overdue(s, p, intervalS)
  {
    var next := Next(s, Acquire(q, true), intervalS);
    if Overdue(s, p, intervalS) {
      assert p in next.live && q in next.live && p != q;
    }
  }

  /** After a crash the lock is refused up to the bound and granted as soon as it has passed. */
  lemma CrashedLockComesBack(s: State, steps: seq<Step>, p: Pid, waitMs: nat, q: Pid, intervalS: real)
    requires Exclusive(s) && PromptRun(s, steps, intervalS)
    requires p in RunSteps(s, steps, intervalS).live
    ensures var held := RunSteps(s, steps, intervalS);
            var waited := Next(Next(held, Crash(p), intervalS), Tick(waitMs), intervalS);
            && Enabled(waited, Acquire(q, true))
            && (q in Next(waited, Acquire(q, true), intervalS).live <==>
                (var ageMs := held.clockMs + waitMs - held.live[p];
                 ageMs as real > 2000.0 * intervalS || ageMs > 5_400_000))
            && Exclusive(Next(waited, Acquire(q, true), intervalS))
  {
    PromptRunsAreExclusive(s, steps, intervalS);
    var held := RunSteps(s, steps, intervalS);
    assert held.file == Some(Record(p, held.live[p]));
    assert held.live - {p} == map[];
  }
}
