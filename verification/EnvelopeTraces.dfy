/** Traces of arbitrarily nested runs of teams and agents. */
module EnvelopeTraces {
  import opened Options
  import opened RunEnvelopes

  /** A run whose strategy starts the runs `children` and then ends with `own`, whatever
      they did: exceptions of a child may be caught, passed on or replaced. */
  datatype Tree = Node(run: RunId, spec: Spec, children: seq<Tree>, own: Completion)

  function Trace(t: Tree): seq<Event> {
    Envelope(t.spec, t.run, Traces(t.children), t.own).0
  }

  function Traces(ts: seq<Tree>): seq<Event> {
    if ts == [] then [] else Trace(ts[0]) + Traces(ts[1..])
  }

  // ---- An automaton that accepts exactly the balanced traces ----

  datatype Stage = New | Begun | Announced | Running | Reported | Closed

  /** A run that has started and not yet ended. */
  datatype Frame = Frame(run: RunId, stage: Stage)

  /** The stage an open run must be in for `event`, and the stage it goes to. */
  function Moves(event: Event): (Stage, Stage)
    requires !event.IterationStart? && !event.IterationEnd?
  {
    match event
    case SectionBegin(_) => (New, Begun)
    case Started(_) => (Begun, Announced)
    case Resumed(_) => (Announced, Running)
    case Finished(_, _, _, _, _) => (Running, Reported)
    case SectionEnd(_) => (Reported, Closed)
  }

  /** Runs open inside a running one; every other event belongs to the innermost open run. */
  function Accept(stack: seq<Frame>, event: Event): Option<seq<Frame>> {
    if event.IterationStart? then
      if stack == [] || stack[|stack| - 1].stage == Running then Some(stack + [Frame(event.run, New)]) else None
    else if stack == [] || stack[|stack| - 1].run != event.run then None
    else
      var top, below := stack[|stack| - 1], stack[..|stack| - 1];
      if event.IterationEnd? then if top.stage == Closed then Some(below) else None
      else
        var (from, to) := Moves(event);
        if top.stage == from then Some(below + [Frame(event.run, to)]) else None
  }

  function AcceptAll(stack: seq<Frame>, events: seq<Event>): Option<seq<Frame>>
    decreases events
  {
    if events == [] then Some(stack)
    else
      match Accept(stack, events[0])
      case None => None
      case Some(next) => AcceptAll(next, events[1..])
  }

  predicate Balanced(events: seq<Event>) {
    AcceptAll([], events) == Some([])
  }

  lemma {:induction false} AcceptConcat(stack: seq<Frame>, a: seq<Event>, b: seq<Event>)
    ensures AcceptAll(stack, a + b) ==
            match AcceptAll(stack, a)
            case None => None
            case Some(next) => AcceptAll(next, b)
    decreases a
  {
    if a == [] {
      assert a + b == b;
    } else {
      assert (a + b)[0] == a[0] && (a + b)[1..] == a[1..] + b;
      match Accept(stack, a[0])
      case None =>
      case Some(next) => AcceptConcat(next, a[1..], b);
    }
  }

  /** In every run of the tree whose iteration start is on record no recording callback
      raises. Translations may. */
  ghost predicate AllQuiet(t: Tree) {
    t.spec.callbacks.start.Some? || (Quiet(t.spec.callbacks) && forall child :: child in t.children ==> AllQuiet(child))
  }

  /** One accepted event at a time. */
  lemma {:induction false} AcceptFirst(stack: seq<Frame>, event: Event, rest: seq<Event>, next: seq<Frame>)
    requires Accept(stack, event) == Some(next)
    ensures AcceptAll(stack, [event] + rest) == AcceptAll(next, rest)
  {
    assert ([event] + rest)[1..] == rest;
  }

  /** An event of the innermost open run takes it to its next stage. */
  lemma {:induction false} Advances(stack: seq<Frame>, run: RunId, event: Event)
    requires !event.IterationStart? && !event.IterationEnd? && event.run == run
    ensures Accept(stack + [Frame(run, Moves(event).0)], event) == Some(stack + [Frame(run, Moves(event).1)])
  {
    assert (stack + [Frame(run, Moves(event).0)])[..|stack|] == stack;
  }

  lemma {:induction false} OpeningAccepted(stack: seq<Frame>, run: RunId)
    requires stack == [] || stack[|stack| - 1].stage == Running
    ensures AcceptAll(stack, [IterationStart(run), SectionBegin(run), Started(run), Resumed(run)]) ==
            Some(stack + [Frame(run, Running)])
  {
    var s1, s2, s3, s4 := stack + [Frame(run, New)], stack + [Frame(run, Begun)],
                          stack + [Frame(run, Announced)], stack + [Frame(run, Running)];
    assert Accept(stack, IterationStart(run)) == Some(s1);
    Advances(stack, run, SectionBegin(run));
    Advances(stack, run, Started(run));
    Advances(stack, run, Resumed(run));
    assert AcceptAll(s4, []) == Some(s4);
    hide *;
    AcceptFirst(s3, Resumed(run), [], s4);
    AcceptFirst(s2, Started(run), [Resumed(run)], s3);
    AcceptFirst(s1, SectionBegin(run), [Started(run), Resumed(run)], s2);
    AcceptFirst(stack, IterationStart(run), [SectionBegin(run), Started(run), Resumed(run)], s1);
    assert [Resumed(run)] + [] == [Resumed(run)];
    assert [Started(run)] + [Resumed(run)] == [Started(run), Resumed(run)];
    assert [SectionBegin(run)] + [Started(run), Resumed(run)] == [SectionBegin(run), Started(run), Resumed(run)];
    assert [IterationStart(run)] + [SectionBegin(run), Started(run), Resumed(run)] ==
           [IterationStart(run), SectionBegin(run), Started(run), Resumed(run)];
  }

  lemma {:induction false} ClosingAccepted(stack: seq<Frame>, run: RunId, finished: Event, outcome: string)
    requires finished.Finished? && finished.run == run
    ensures AcceptAll(stack + [Frame(run, Running)], [finished, SectionEnd(run), IterationEnd(run, outcome)]) ==
            Some(stack)
  {
    var s1, s2, s3 := stack + [Frame(run, Running)], stack + [Frame(run, Reported)], stack + [Frame(run, Closed)];
    Advances(stack, run, finished);
    Advances(stack, run, SectionEnd(run));
    assert s3[..|stack|] == stack;
    assert Accept(s3, IterationEnd(run, outcome)) == Some(stack);
    assert AcceptAll(stack, []) == Some(stack);
    hide *;
    AcceptFirst(s3, IterationEnd(run, outcome), [], stack);
    AcceptFirst(s2, SectionEnd(run), [IterationEnd(run, outcome)], s3);
    AcceptFirst(s1, finished, [SectionEnd(run), IterationEnd(run, outcome)], s2);
    assert [IterationEnd(run, outcome)] + [] == [IterationEnd(run, outcome)];
    assert [SectionEnd(run)] + [IterationEnd(run, outcome)] == [SectionEnd(run), IterationEnd(run, outcome)];
    assert [finished] + [SectionEnd(run), IterationEnd(run, outcome)] ==
           [finished, SectionEnd(run), IterationEnd(run, outcome)];
  }

  lemma {:induction false} QuietTraceAccepted(t: Tree, stack: seq<Frame>)
    requires AllQuiet(t)
    requires stack == [] || stack[|stack| - 1].stage == Running
    ensures AcceptAll(stack, Trace(t)) == Some(stack)
    decreases t
  {
    if t.spec.callbacks.start.Some? {
      return;
    }
    var opening := [IterationStart(t.run), SectionBegin(t.run), Started(t.run), Resumed(t.run)];
    var body := Traces(t.children);
    var facts := Inner(t.spec, t.own).0;
    var finished := Finished(t.run, facts.status, facts.output, facts.steps, facts.error);
    var closing := [finished, SectionEnd(t.run), IterationEnd(t.run, facts.outcome)];
    assert Trace(t) == opening + body + closing;
    OpeningAccepted(stack, t.run);
    QuietTracesAccepted(t.children, stack + [Frame(t.run, Running)]);
    ClosingAccepted(stack, t.run, finished, facts.outcome);
    AcceptConcat(stack, opening, body);
    AcceptConcat(stack, opening + body, closing);
  }

  lemma {:induction false} QuietTracesAccepted(ts: seq<Tree>, stack: seq<Frame>)
    requires forall t :: t in ts ==> AllQuiet(t)
    requires stack != [] && stack[|stack| - 1].stage == Running
    ensures AcceptAll(stack, Traces(ts)) == Some(stack)
    decreases ts
  {
    if ts != [] {
      QuietTraceAccepted(ts[0], stack);
      QuietTracesAccepted(ts[1..], stack);
      AcceptConcat(stack, Trace(ts[0]), Traces(ts[1..]));
    }
  }

  // ---- Conversely, a raising callback leaves a start without its end ----

  /** Starts minus ends. */
  function Surplus(events: seq<Event>): int {
    if events == [] then 0
    else (if events[0].IterationStart? then 1 else if events[0].IterationEnd? then -1 else 0) + Surplus(events[1..])
  }

  lemma {:induction false} SurplusConcat(a: seq<Event>, b: seq<Event>)
    ensures Surplus(a + b) == Surplus(a) + Surplus(b)
    decreases a
  {
    if a == [] {
      assert a + b == b;
    } else {
      assert (a + b)[1..] == a[1..] + b;
      SurplusConcat(a[1..], b);
    }
  }

  lemma {:induction false} StackCountsSurplus(stack: seq<Frame>, events: seq<Event>)
    requires AcceptAll(stack, events).Some?
    ensures |AcceptAll(stack, events).value| == |stack| + Surplus(events)
    decreases events
  {
    if events != [] {
      StackCountsSurplus(Accept(stack, events[0]).value, events[1..]);
    }
  }

  lemma SurplusOfThree(a: Event, b: Event, c: Event)
    ensures Surplus([a]) == Surplus([a]) + 0 && Surplus([a, b]) == Surplus([a]) + Surplus([b])
    ensures Surplus([a, b, c]) == Surplus([a]) + Surplus([b]) + Surplus([c])
  {
    assert [a, b] == [a] + [b] && [a, b, c] == [a, b] + [c];
    SurplusConcat([a], [b]);
    SurplusConcat([a, b], [c]);
  }

  lemma {:induction false} LoudTraceHasSurplus(t: Tree)
    ensures Surplus(Trace(t)) >= 0
    ensures !AllQuiet(t) ==> Surplus(Trace(t)) > 0
    decreases t
  {
    var run, callbacks := t.run, t.spec.callbacks;
    var start, section, started, resumed := IterationStart(run), SectionBegin(run), Started(run), Resumed(run);
    SurplusOfThree(start, section, started);
    if callbacks.start.None? && callbacks.begin.None? && callbacks.started.None? && callbacks.resumed.None? {
      var body := Traces(t.children);
      var (facts, completion) := Inner(t.spec, t.own);
      var closing := Closing(callbacks, run, facts, completion).0;
      var finished := Finished(run, facts.status, facts.output, facts.steps, facts.error);
      SurplusOfThree(finished, SectionEnd(run), IterationEnd(run, facts.outcome));
      var opening := [start, section, started, resumed];
      assert opening == [start, section, started] + [resumed];
      SurplusConcat([start, section, started], [resumed]);
      SurplusConcat(opening, body);
      SurplusConcat(opening + body, closing);
      LoudTracesHaveSurplus(t.children);
    }
  }

  lemma {:induction false} LoudTracesHaveSurplus(ts: seq<Tree>)
    ensures Surplus(Traces(ts)) >= 0
    ensures (exists t :: t in ts && !AllQuiet(t)) ==> Surplus(Traces(ts)) > 0
    decreases ts
  {
    if ts != [] {
      LoudTraceHasSurplus(ts[0]);
      LoudTracesHaveSurplus(ts[1..]);
      SurplusConcat(Trace(ts[0]), Traces(ts[1..]));
    }
  }

  /** The trace of a tree of runs is balanced exactly if no recording callback raises in any
      run whose start is on record: every start then has one Finished, section end and
      iteration end of its own, in that order, however each run ends and whatever the
      translations do. */
  lemma BalancedIffQuiet(t: Tree)
    ensures Balanced(Trace(t)) <==> AllQuiet(t)
  {
    if AllQuiet(t) {
      QuietTraceAccepted(t, []);
    } else {
      LoudTraceHasSurplus(t);
      if AcceptAll([], Trace(t)).Some? {
        StackCountsSurplus([], Trace(t));
      }
    }
  }
}
