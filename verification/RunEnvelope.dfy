/** The run-lifecycle envelope that agents and teams share: one try/except/finally cascade
    around a run, with the carrier's own callbacks and translations. */
module RunEnvelopes {
  import opened Options

  type RunId = nat

  const COMPLETED := "completed"
  const FAILED := "failed"
  const CANCELED := "canceled"

  datatype Result = Result(status: string, output: Option<string>, totalSteps: int, error: Option<string>)

  /** Cancelled and Other are not subclasses of Exception; LoopObligation and Failure are. */
  datatype Exc =
    | Cancelled
    | LoopObligation(reason: string, taken: Option<int>)
    | Failure(typeName: string, message: string)
    | Other(typeName: string)

  datatype Completion = Returned(result: Result) | Raised(exc: Exc)

  /** A call that yields a value or raises. */
  datatype Attempt<T> = Value(value: T) | Throws(exc: Exc)

  datatype Facts = Facts(status: string, output: string, steps: int, error: string, outcome: string)

  datatype Disposition = ReturnResult(result: Option<Result>) | Reraise

  datatype Translated = Translated(facts: Facts, disposition: Disposition)

  datatype Event =
    | IterationStart(run: RunId)
    | SectionBegin(run: RunId)
    | Started(run: RunId)
    | Resumed(run: RunId)
    | Finished(run: RunId, status: string, output: string, steps: int, error: string)
    | SectionEnd(run: RunId)
    | IterationEnd(run: RunId, outcome: string)

  /** What the recording callbacks raise, if anything; `start` and `close` are the emitters
      of the iteration's start and end. */
  datatype Callbacks = Callbacks(
    start: Option<Exc>, begin: Option<Exc>, started: Option<Exc>, resumed: Option<Exc>,
    finished: Option<Exc>, end: Option<Exc>, close: Option<Exc>)

  datatype Spec = Spec(
    callbacks: Callbacks,
    onSuccess: Result -> Attempt<Translated>,
    onCancelled: Attempt<Translated>,
    onLoopObligation: Exc -> Attempt<Translated>,
    onError: Exc -> Attempt<Translated>)

  /** In force when no translation was applied. */
  const DEFAULT_FACTS: Facts := Facts(CANCELED, "", 0, "", "success")

  const NO_RESULT: Exc := Failure("RuntimeError", "run_envelope: 'return' disposition without a result")

  // ---- What the cascade amounts to ----

  /** The except clauses. */
  function Handled(spec: Spec, exc: Exc): (Facts, Completion) {
    match exc
    case Cancelled =>
      (match spec.onCancelled
       case Throws(e) => (DEFAULT_FACTS, Raised(e))
       case Value(t) => (t.facts, Raised(exc)))
    case LoopObligation(_, _) =>
      (match spec.onLoopObligation(exc)
       case Throws(e) => (DEFAULT_FACTS, Raised(e))
       case Value(Translated(facts, Reraise)) => (facts, Raised(exc))
       case Value(Translated(facts, ReturnResult(None))) => (facts, Raised(NO_RESULT))
       case Value(Translated(facts, ReturnResult(Some(result)))) => (facts, Returned(result)))
    case Failure(_, _) =>
      (match spec.onError(exc)
       case Throws(e) => (DEFAULT_FACTS, Raised(e))
       case Value(t) => (t.facts, Raised(exc)))
    case Other(_) => (DEFAULT_FACTS, Raised(exc))
  }

  /** The try statement: a translation of success that raises is handled like the run. */
  function Inner(spec: Spec, execution: Completion): (Facts, Completion) {
    match execution
    case Returned(result) =>
      (match spec.onSuccess(result)
       case Value(t) => (t.facts, Returned(result))
       case Throws(e) => Handled(spec, e))
    case Raised(exc) => Handled(spec, exc)
  }

  function Closing(callbacks: Callbacks, run: RunId, facts: Facts, completion: Completion): (seq<Event>, Completion) {
    var finished := Finished(run, facts.status, facts.output, facts.steps, facts.error);
    if callbacks.finished.Some? then ([], Raised(callbacks.finished.value))
    else if callbacks.end.Some? then ([finished], Raised(callbacks.end.value))
    else if callbacks.close.Some? then ([finished, SectionEnd(run)], Raised(callbacks.close.value))
    else ([finished, SectionEnd(run), IterationEnd(run, facts.outcome)], completion)
  }

  /** Trace and completion of one envelope around an execution that emits `body`. */
  function Envelope(spec: Spec, run: RunId, body: seq<Event>, execution: Completion): (seq<Event>, Completion) {
    var callbacks := spec.callbacks;
    if callbacks.start.Some? then ([], Raised(callbacks.start.value))
    else if callbacks.begin.Some? then ([IterationStart(run)], Raised(callbacks.begin.value))
    else if callbacks.started.Some? then
      ([IterationStart(run), SectionBegin(run)], Raised(callbacks.started.value))
    else if callbacks.resumed.Some? then
      ([IterationStart(run), SectionBegin(run), Started(run)], Raised(callbacks.resumed.value))
    else
      var (facts, completion) := Inner(spec, execution);
      var (closing, end) := Closing(callbacks, run, facts, completion);
      ([IterationStart(run), SectionBegin(run), Started(run), Resumed(run)] + body + closing, end)
  }

  class Journal {
    var events: seq<Event>

    constructor ()
      ensures events == []
    {
      events := [];
    }

    /** `body` is what `execute` appends to the journal on its way to `execution`. */
    method RunEnvelope(spec: Spec, run: RunId, body: seq<Event>, execution: Completion) returns (r: Completion)
      modifies this
      ensures (events, r) == (var (trace, end) := Envelope(spec, run, body, execution); (old(events) + trace, end))
    {
      if spec.callbacks.start.Some? {
        assert events == old(events) + [];
        return Raised(spec.callbacks.start.value);
      }
      events := events + [IterationStart(run)];
      if spec.callbacks.begin.Some? {
        return Raised(spec.callbacks.begin.value);
      }
      events := events + [SectionBegin(run)];
      assert events == old(events) + [IterationStart(run), SectionBegin(run)];
      if spec.callbacks.started.Some? {
        return Raised(spec.callbacks.started.value);
      }
      events := events + [Started(run)];
      assert events == old(events) + [IterationStart(run), SectionBegin(run), Started(run)];
      if spec.callbacks.resumed.Some? {
        return Raised(spec.callbacks.resumed.value);
      }
      events := events + [Resumed(run)];
      var finish := DEFAULT_FACTS;
      events := events + body;
      var pending: Option<Exc> := None;
      match execution {
        case Returned(result) =>
          match spec.onSuccess(result) {
            case Value(t) =>
              finish := t.facts;
              r := Returned(result);
            case Throws(e) =>
              pending := Some(e);
          }
        case Raised(e) =>
          pending := Some(e);
      }
      if pending.Some? {
        r := Raised(pending.value);
        match pending.value {
          case Cancelled =>
            match spec.onCancelled {
              case Value(t) => finish := t.facts;
              case Throws(e) => r := Raised(e);
            }
          case LoopObligation(_, _) =>
            match spec.onLoopObligation(pending.value) {
              case Value(t) =>
                finish := t.facts;
                if t.disposition.ReturnResult? {
                  r := if t.disposition.result.None? then Raised(NO_RESULT) else Returned(t.disposition.result.value);
                }
              case Throws(e) => r := Raised(e);
            }
          case Failure(_, _) =>
            match spec.onError(pending.value) {
              case Value(t) => finish := t.facts;
              case Throws(e) => r := Raised(e);
            }
          case Other(_) =>
        }
      }
      ghost var prefix := [IterationStart(run), SectionBegin(run), Started(run), Resumed(run)] + body;
      assert events == old(events) + prefix;
      assert (finish, r) == Inner(spec, execution);
      ghost var closing := Closing(spec.callbacks, run, finish, r).0;
      assert old(events) + prefix + closing == old(events) + (prefix + closing);
      r := Finally(spec.callbacks, run, finish, r);
    }

    /** The finally clause; what it raises replaces what was on its way. */
    method Finally(callbacks: Callbacks, run: RunId, finish: Facts, completion: Completion) returns (r: Completion)
      modifies this
      ensures (events, r) ==
              (var (closing, end) := Closing(callbacks, run, finish, completion); (old(events) + closing, end))
    {
      ghost var finished := Finished(run, finish.status, finish.output, finish.steps, finish.error);
      if callbacks.finished.Some? {
        assert events == old(events) + [];
        return Raised(callbacks.finished.value);
      }
      events := events + [Finished(run, finish.status, finish.output, finish.steps, finish.error)];
      if callbacks.end.Some? {
        return Raised(callbacks.end.value);
      }
      events := events + [SectionEnd(run)];
      assert events == old(events) + [finished, SectionEnd(run)];
      if callbacks.close.Some? {
        return Raised(callbacks.close.value);
      }
      events := events + [IterationEnd(run, finish.outcome)];
      assert events == old(events) + [finished, SectionEnd(run), IterationEnd(run, finish.outcome)];
      r := completion;
    }
  }

  // ---- The two carriers ----

  function OrEmpty(text: Option<string>): string {
    match text
    case Some(value) => value
    case None => ""
  }

  function ErrorText(exc: Exc): string {
    match exc
    case Cancelled => "CancelledError: "
    case LoopObligation(reason, _) => "LoopObligationExceededError: " + reason
    case Failure(typeName, message) => typeName + ": " + message
    case Other(typeName) => typeName + ": "
  }

  function TeamFailed(exc: Exc): Attempt<Translated> {
    Value(Translated(Facts(FAILED, "", 0, ErrorText(exc), "failure"), Reraise))
  }

  function TeamSpec(callbacks: Callbacks): Spec {
    Spec(
      callbacks,
      (result: Result) =>
        Value(Translated(Facts(result.status, OrEmpty(result.output), result.totalSteps, "", "success"),
                         ReturnResult(Some(result)))),
      Value(Translated(Facts(CANCELED, "", 0, "", "success"), Reraise)),
      (exc: Exc) => TeamFailed(exc),
      (exc: Exc) => TeamFailed(exc))
  }

  /** `_loop_obligation_failed_result`: the fail-closed result of a run that did not converge. */
  function FailedResult(exc: Exc, partial: string): Result
    requires exc.LoopObligation?
  {
    Result(FAILED, if partial == "" then None else Some(partial),
           if exc.taken.Some? then exc.taken.value else 0, Some(ErrorText(exc)))
  }

  /** `partial` is the run's partial output at the time an exception is translated; `stamp`
      is what stamping a pause snapshot raises, if anything. */
  function AgentSpec(callbacks: Callbacks, partial: string, stamp: Option<Exc>): Spec {
    Spec(
      callbacks,
      (result: Result) =>
        if stamp.Some? then Throws(stamp.value)
        else Value(Translated(
          Facts(result.status, OrEmpty(result.output), result.totalSteps, OrEmpty(result.error), "success"),
          ReturnResult(Some(result)))),
      Value(Translated(Facts(CANCELED, partial, 0, "canceled", "cancelled"), Reraise)),
      (exc: Exc) =>
        if exc.LoopObligation?
        then Value(Translated(Facts(FAILED, partial, 0, ErrorText(exc), "failure"),
                              ReturnResult(Some(FailedResult(exc, partial)))))
        else Throws(exc),
      (exc: Exc) => Value(Translated(Facts(FAILED, partial, 0, ErrorText(exc), "failure"), Reraise)))
  }

  // ---- The team is what it was before the envelope was shared ----

  /** The older envelope: `except Exception` is its only clause. */
  function SimpleEnvelope(callbacks: Callbacks, run: RunId, body: seq<Event>, execution: Completion)
    : (seq<Event>, Completion)
  {
    var opening := [IterationStart(run), SectionBegin(run), Started(run), Resumed(run)];
    if callbacks.start.Some? then (opening[..0], Raised(callbacks.start.value))
    else if callbacks.begin.Some? then (opening[..1], Raised(callbacks.begin.value))
    else if callbacks.started.Some? then (opening[..2], Raised(callbacks.started.value))
    else if callbacks.resumed.Some? then (opening[..3], Raised(callbacks.resumed.value))
    else
      var facts :=
        if execution.Returned? then
          Facts(execution.result.status, OrEmpty(execution.result.output), execution.result.totalSteps, "", "success")
        else if execution.exc.LoopObligation? || execution.exc.Failure? then
          Facts(FAILED, "", 0, ErrorText(execution.exc), "failure")
        else
          DEFAULT_FACTS;
      var (closing, end) := Closing(callbacks, run, facts, execution);
      (opening + body + closing, end)
  }

  /** Same trace, same return value, same exception, for every way a run can go. */
  lemma TeamEqualsSimpleEnvelope(callbacks: Callbacks, run: RunId, body: seq<Event>, execution: Completion)
    ensures Envelope(TeamSpec(callbacks), run, body, execution) == SimpleEnvelope(callbacks, run, body, execution)
  {
    var opening := [IterationStart(run), SectionBegin(run), Started(run), Resumed(run)];
    assert opening[..1] == [IterationStart(run)];
    assert opening[..2] == [IterationStart(run), SectionBegin(run)];
    assert opening[..3] == [IterationStart(run), SectionBegin(run), Started(run)];
  }

  predicate Quiet(callbacks: Callbacks) {
    callbacks == Callbacks(None, None, None, None, None, None, None)
  }

  /** A cancelled team run is recorded as canceled by its Finished event and as a success by
      the end of its iteration. */
  lemma CancelledTeamReportsSuccess(callbacks: Callbacks, run: RunId, body: seq<Event>)
    requires Quiet(callbacks)
    ensures var (trace, end) := Envelope(TeamSpec(callbacks), run, body, Raised(Cancelled));
            && end == Raised(Cancelled) && |trace| == |body| + 7
            && trace[|body| + 4] == Finished(run, CANCELED, "", 0, "")
            && trace[|body| + 6] == IterationEnd(run, "success")
  {
  }

  // ---- What an agent's exit tells ----

  /** An agent that does not converge fails closed: callers see a failed result, never the
      exception; cancellation and errors are passed on unchanged. */
  lemma AgentFailsClosed(run: RunId, body: seq<Event>, execution: Completion, callbacks: Callbacks, partial: string)
    requires Quiet(callbacks)
    ensures var end := Envelope(AgentSpec(callbacks, partial, None), run, body, execution).1;
            && !(end.Raised? && end.exc.LoopObligation?)
            && (execution.Raised? && execution.exc.LoopObligation? <==> end != execution)
            && (end != execution ==> end.Returned? && end.result.status == FAILED && end.result.error.Some?)
  {
  }

  /** The Finished event of a run that returns mirrors the returned result. The step count
      does so exactly unless a run that did not converge had taken steps: then the event
      says 0 and the result says how many. */
  lemma FinishedMirrorsResult(
    run: RunId, body: seq<Event>, execution: Completion, callbacks: Callbacks, partial: string)
    requires Quiet(callbacks)
    requires Envelope(AgentSpec(callbacks, partial, None), run, body, execution).1.Returned?
    ensures var (trace, end) := Envelope(AgentSpec(callbacks, partial, None), run, body, execution);
            var finished := trace[4 + |body|];
            && |trace| == |body| + 7 && finished.Finished?
            && finished.status == end.result.status
            && finished.output == OrEmpty(end.result.output)
            && finished.error == OrEmpty(end.result.error)
            && (finished.steps == end.result.totalSteps <==>
                !(execution.Raised? && execution.exc.taken.Some? && execution.exc.taken.value != 0))
  {
  }

  // ---- What the journal says of a run, for every way it can go ----

  /** What the except clauses get to see: what the run raised, or what stamping its snapshot
      raised after it had returned. */
  function Escaped(execution: Completion, stamp: Option<Exc>): Option<Exc> {
    match execution
    case Raised(exc) => Some(exc)
    case Returned(_) => stamp
  }

  /** The two events of a quiet run that depend on how it went. */
  ghost predicate Records(trace: seq<Event>, run: RunId, before: nat, finished: Event, outcome: string) {
    && |trace| == before + 7
    && trace[before + 4] == finished
    && trace[before + 5] == SectionEnd(run)
    && trace[before + 6] == IterationEnd(run, outcome)
  }

  /** The journal of an agent's run. */
  lemma AgentJournal(
    run: RunId, body: seq<Event>, execution: Completion, callbacks: Callbacks, partial: string, stamp: Option<Exc>)
    requires Quiet(callbacks)
    ensures var trace := Envelope(AgentSpec(callbacks, partial, stamp), run, body, execution).0;
            match Escaped(execution, stamp)
            case Some(Cancelled) =>
              Records(trace, run, |body|, Finished(run, "canceled", partial, 0, "canceled"), "cancelled")
            case Some(LoopObligation(reason, _)) =>
              Records(trace, run, |body|,
                Finished(run, "failed", partial, 0, "LoopObligationExceededError: " + reason), "failure")
            case Some(Failure(typeName, message)) =>
              Records(trace, run, |body|, Finished(run, "failed", partial, 0, typeName + ": " + message), "failure")
            case Some(Other(_)) =>
              Records(trace, run, |body|, Finished(run, "canceled", "", 0, ""), "success")
            case None =>
              var result := execution.result;
              Records(trace, run, |body|,
                Finished(run, result.status, if result.output.Some? then result.output.value else "",
                         result.totalSteps, if result.error.Some? then result.error.value else ""), "success")
  {
  }

  /** In particular the outcome at the end of the iteration tells the three kinds apart. */
  lemma AgentOutcomeIff(
    run: RunId, body: seq<Event>, execution: Completion, callbacks: Callbacks, partial: string, stamp: Option<Exc>)
    requires Quiet(callbacks)
    ensures var (trace, escaped) :=
              (Envelope(AgentSpec(callbacks, partial, stamp), run, body, execution).0, Escaped(execution, stamp));
            && |trace| == |body| + 7
            && (trace[|body| + 6] == IterationEnd(run, "cancelled") <==> escaped == Some(Cancelled))
            && (trace[|body| + 6] == IterationEnd(run, "failure") <==>
                escaped.Some? && (escaped.value.Failure? || escaped.value.LoopObligation?))
            && (trace[|body| + 6] == IterationEnd(run, "success") <==>
                escaped.None? || escaped.value.Other?)
  {
    AgentJournal(run, body, execution, callbacks, partial, stamp);
  }

  /** What the caller of an agent's run gets. */
  lemma AgentCompletion(
    run: RunId, body: seq<Event>, execution: Completion, callbacks: Callbacks, partial: string, stamp: Option<Exc>)
    requires Quiet(callbacks)
    ensures var end := Envelope(AgentSpec(callbacks, partial, stamp), run, body, execution).1;
            match Escaped(execution, stamp)
            case None => end == execution
            case Some(LoopObligation(reason, taken)) =>
              end == Returned(Result("failed", if partial == "" then None else Some(partial),
                                     if taken.Some? then taken.value else 0,
                                     Some("LoopObligationExceededError: " + reason)))
            case Some(exc) => end == Raised(exc)
  {
  }

  /** The journal of a team's run. */
  lemma TeamJournal(run: RunId, body: seq<Event>, execution: Completion, callbacks: Callbacks)
    requires Quiet(callbacks)
    ensures var (trace, end) := Envelope(TeamSpec(callbacks), run, body, execution);
            && end == execution
            && match execution
               case Raised(LoopObligation(reason, _)) =>
                 Records(trace, run, |body|,
                   Finished(run, "failed", "", 0, "LoopObligationExceededError: " + reason), "failure")
               case Raised(Failure(typeName, message)) =>
                 Records(trace, run, |body|, Finished(run, "failed", "", 0, typeName + ": " + message), "failure")
               case Raised(_) =>
                 Records(trace, run, |body|, Finished(run, "canceled", "", 0, ""), "success")
               case Returned(result) =>
                 Records(trace, run, |body|,
                   Finished(run, result.status, if result.output.Some? then result.output.value else "",
                            result.totalSteps, ""), "success")
  {
  }

  // ---- The cascade, for any carrier ----

  /** The carrier's translation of an exception; there is none for other BaseExceptions. */
  function Translation(spec: Spec, exc: Exc): Option<Attempt<Translated>> {
    match exc
    case Cancelled => Some(spec.onCancelled)
    case LoopObligation(_, _) => Some(spec.onLoopObligation(exc))
    case Failure(_, _) => Some(spec.onError(exc))
    case Other(_) => None
  }

  /** A translation that raises while an exception is handled replaces it, and the run is
      recorded with the defaults. A translation of success that raises is handled in turn. */
  lemma RaisingTranslationsReplace(spec: Spec, run: RunId, body: seq<Event>, exc: Exc, e: Exc)
    requires Quiet(spec.callbacks)
    requires if exc.Other? then e == exc else Translation(spec, exc) == Some(Throws(e))
    ensures Envelope(spec, run, body, Raised(exc)).1 == Raised(e)
    ensures Records(Envelope(spec, run, body, Raised(exc)).0, run, |body|,
              Finished(run, "canceled", "", 0, ""), "success")
    ensures forall result :: spec.onSuccess(result) == Throws(exc) ==>
              Envelope(spec, run, body, Returned(result)) == Envelope(spec, run, body, Raised(exc))
  {
  }

  /** Returning without a result is an error of its own; only a loop obligation can return. */
  lemma OnlyObligationsReturn(spec: Spec, run: RunId, body: seq<Event>, exc: Exc, t: Translated)
    requires Quiet(spec.callbacks)
    requires Translation(spec, exc) == Some(Value(t))
    ensures var (trace, end) := Envelope(spec, run, body, Raised(exc));
            && Records(trace, run, |body|,
                 Finished(run, t.facts.status, t.facts.output, t.facts.steps, t.facts.error), t.facts.outcome)
            && (!exc.LoopObligation? || t.disposition.Reraise? ==> end == Raised(exc))
            && (exc.LoopObligation? && t.disposition.ReturnResult? ==>
                  if t.disposition.result.Some? then end == Returned(t.disposition.result.value)
                  else end == Raised(Failure(
                    "RuntimeError", "run_envelope: 'return' disposition without a result")))
  {
  }
}
