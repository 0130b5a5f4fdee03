/** Calling the members of a team one after the other, each with a task made from what the
    one before it returned. */
module MemberRelay {
  import opened Options

  const COMPLETED := "completed"
  const FAILED := "failed"

  datatype Result = Result(status: string, output: string, totalSteps: int, error: string)

  /** What a call of a member does. */
  datatype Reply = Returns(result: Result) | Throws(message: string)

  /** The surroundings of the relay: what each member does with a task, the handoff block of
      the workspace at each point in time, and the removal of directive sentences. */
  datatype World = World(
    invoke: (nat, string) -> Reply,
    handoff: nat -> string,
    strip: string -> string)

  function WithHandoff(task: string, handoff: string): string {
    if handoff == "" then task else task + "\n\n" + handoff
  }

  function FailedResult(reason: string): Result {
    Result(FAILED, "", 0, reason)
  }

  /** One call: the member's index, the task it got and what it did. */
  datatype Call = Call(member: nat, task: string, reply: Reply)

  function NextTask(world: World, passOutput: bool, call: Call): string
    requires call.reply.Returns?
  {
    if passOutput && call.reply.result.output != ""
    then WithHandoff(world.strip(call.reply.result.output), world.handoff(call.member + 1))
    else call.task
  }

  predicate Wins(stopOnCompleted: bool, call: Call) {
    stopOnCompleted && call.reply.Returns? && call.reply.result.status == COMPLETED
  }

  function StepsOf(calls: seq<Call>): int {
    if calls == [] then 0
    else
      var last := calls[|calls| - 1];
      StepsOf(calls[..|calls| - 1]) + (if last.reply.Returns? then last.reply.result.totalSteps else 0)
  }

  predicate Follows(world: World, passOutput: bool, stopOnCompleted: bool, call: Call, next: Call) {
    && call.reply.Returns?
    && !Wins(stopOnCompleted, call)
    && next.task == NextTask(world, passOutput, call)
  }

  lemma StepsGrow(calls: seq<Call>, call: Call)
    ensures StepsOf(calls + [call]) ==
            StepsOf(calls) + (if call.reply.Returns? then call.reply.result.totalSteps else 0)
    ensures StepsOf([]) == 0
  {
    assert (calls + [call])[..|calls|] == calls;
  }

  /** The calls so far: members in order from the first, each given the task its predecessor's
      reply led to, and none after a win or an exception. */
  ghost predicate IsRelay(
    world: World, objective: string, passOutput: bool, stopOnCompleted: bool, calls: seq<Call>)
  {
    && (forall i :: 0 <= i < |calls| ==>
          calls[i].member == i && calls[i].reply == world.invoke(i, calls[i].task))
    && (calls != [] ==> calls[0].task == WithHandoff(objective, world.handoff(0)))
    && (forall i :: 0 <= i < |calls| - 1 ==> Follows(world, passOutput, stopOnCompleted, calls[i], calls[i + 1]))
  }

  lemma RelayGrows(
    world: World, objective: string, passOutput: bool, stopOnCompleted: bool, calls: seq<Call>, task: string)
    requires IsRelay(world, objective, passOutput, stopOnCompleted, calls)
    requires calls == [] ==> task == WithHandoff(objective, world.handoff(0))
    requires calls != [] ==>
               (var last := calls[|calls| - 1];
                last.reply.Returns? && !Wins(stopOnCompleted, last) && task == NextTask(world, passOutput, last))
    ensures IsRelay(world, objective, passOutput, stopOnCompleted,
              calls + [Call(|calls|, task, world.invoke(|calls|, task))])
  {
    var longer := calls + [Call(|calls|, task, world.invoke(|calls|, task))];
    forall i | 0 <= i < |longer| - 1
      ensures Follows(world, passOutput, stopOnCompleted, longer[i], longer[i + 1])
    {
      if i < |calls| - 1 {
        assert Follows(world, passOutput, stopOnCompleted, calls[i], calls[i + 1]);
      }
    }
  }

  /** The result that goes back to the team: the last one that arrived, with the steps of all. */
  function Answer(memberNames: seq<string>, calls: seq<Call>): Result
    requires calls != [] && |calls| <= |memberNames|
    requires |calls| > 1 ==> calls[|calls| - 2].reply.Returns?
  {
    var last := calls[|calls| - 1];
    if last.reply.Returns? then last.reply.result.(totalSteps := StepsOf(calls))
    else if |calls| > 1 then calls[|calls| - 2].reply.result.(totalSteps := StepsOf(calls))
    else FailedResult("member " + memberNames[0] + " failed: " + last.reply.message)
  }

  /** How a relay may end: with everybody called, or early after a win or an exception. */
  ghost predicate IsOutcome(
    memberNames: seq<string>, objective: string, passOutput: bool, stopOnCompleted: bool, world: World,
    calls: seq<Call>, result: Result)
  {
    && |calls| <= |memberNames| && IsRelay(world, objective, passOutput, stopOnCompleted, calls)
    && (calls == [] <==> memberNames == [])
    && (calls == [] ==> result == FailedResult("No members in team"))
    && (|calls| > 1 ==> calls[|calls| - 2].reply.Returns?)
    && (calls != [] ==> result == Answer(memberNames, calls))
    && (0 < |calls| < |memberNames| ==>
          calls[|calls| - 1].reply.Throws? || Wins(stopOnCompleted, calls[|calls| - 1]))
  }

  /** The state between two calls. */
  ghost predicate Between(
    objective: string, passOutput: bool, stopOnCompleted: bool, world: World, calls: seq<Call>,
    currentTask: string, lastResult: Option<Result>, totalSteps: int)
  {
    && IsRelay(world, objective, passOutput, stopOnCompleted, calls)
    && totalSteps == StepsOf(calls)
    && (|calls| > 1 ==> calls[|calls| - 2].reply.Returns?)
    && if calls == [] then lastResult == None && currentTask == WithHandoff(objective, world.handoff(0))
       else
         var last := calls[|calls| - 1];
         && last.reply.Returns? && !Wins(stopOnCompleted, last) && last.member == |calls| - 1
         && lastResult == Some(last.reply.result)
         && currentTask == NextTask(world, passOutput, last)
  }

  /** What one more call does to the facts between calls. */
  lemma OneMoreCall(
    objective: string, passOutput: bool, stopOnCompleted: bool, world: World, calls: seq<Call>,
    currentTask: string, lastResult: Option<Result>, totalSteps: int, call: Call)
    requires Between(objective, passOutput, stopOnCompleted, world, calls, currentTask, lastResult, totalSteps)
    requires call == Call(|calls|, currentTask, world.invoke(|calls|, currentTask))
    ensures IsRelay(world, objective, passOutput, stopOnCompleted, calls + [call])
    ensures StepsOf(calls + [call]) == totalSteps + (if call.reply.Returns? then call.reply.result.totalSteps else 0)
    ensures calls == [] <==> lastResult == None
    ensures calls != [] ==> calls[|calls| - 1].reply == Returns(lastResult.value)
  {
    hide IsRelay, StepsOf, WithHandoff, NextTask;
    RelayGrows(world, objective, passOutput, stopOnCompleted, calls, currentTask);
    StepsGrow(calls, call);
  }

  lemma AfterException(
    memberNames: seq<string>, objective: string, passOutput: bool, stopOnCompleted: bool, world: World,
    calls: seq<Call>, currentTask: string, lastResult: Option<Result>, totalSteps: int, call: Call)
    requires Between(objective, passOutput, stopOnCompleted, world, calls, currentTask, lastResult, totalSteps)
    requires |calls| < |memberNames| && call == Call(|calls|, currentTask, world.invoke(|calls|, currentTask))
    requires call.reply.Throws?
    ensures IsOutcome(memberNames, objective, passOutput, stopOnCompleted, world, calls + [call],
              if lastResult.Some? then lastResult.value.(totalSteps := totalSteps)
              else FailedResult("member " + memberNames[|calls|] + " failed: " + call.reply.message))
  {
    OneMoreCall(objective, passOutput, stopOnCompleted, world, calls, currentTask, lastResult, totalSteps, call);
    hide IsRelay, StepsOf, Between, Wins;
  }

  lemma AfterLast(
    memberNames: seq<string>, objective: string, passOutput: bool, stopOnCompleted: bool, world: World,
    calls: seq<Call>, currentTask: string, lastResult: Option<Result>, totalSteps: int, call: Call)
    requires Between(objective, passOutput, stopOnCompleted, world, calls, currentTask, lastResult, totalSteps)
    requires |calls| < |memberNames| && call == Call(|calls|, currentTask, world.invoke(|calls|, currentTask))
    requires call.reply.Returns? && (Wins(stopOnCompleted, call) || |calls| + 1 == |memberNames|)
    ensures IsOutcome(memberNames, objective, passOutput, stopOnCompleted, world, calls + [call],
              call.reply.result.(totalSteps := totalSteps + call.reply.result.totalSteps))
  {
    OneMoreCall(objective, passOutput, stopOnCompleted, world, calls, currentTask, lastResult, totalSteps, call);
    hide IsRelay, StepsOf, Between, Wins;
  }

  lemma AfterReturn(
    objective: string, passOutput: bool, stopOnCompleted: bool, world: World,
    calls: seq<Call>, currentTask: string, lastResult: Option<Result>, totalSteps: int, call: Call)
    requires Between(objective, passOutput, stopOnCompleted, world, calls, currentTask, lastResult, totalSteps)
    requires call == Call(|calls|, currentTask, world.invoke(|calls|, currentTask))
    requires call.reply.Returns? && !Wins(stopOnCompleted, call)
    ensures Between(objective, passOutput, stopOnCompleted, world, calls + [call],
              NextTask(world, passOutput, call), Some(call.reply.result), totalSteps + call.reply.result.totalSteps)
  {
    OneMoreCall(objective, passOutput, stopOnCompleted, world, calls, currentTask, lastResult, totalSteps, call);
    hide IsRelay, StepsOf, WithHandoff, NextTask, Wins;
  }

  lemma AfterReply(world: World, stopOnCompleted: bool, passOutput: bool, call: Call)
    requires call.reply.Returns?
    ensures Wins(stopOnCompleted, call) <==> stopOnCompleted && call.reply.result.status == COMPLETED
    ensures var (output, handoff) := (call.reply.result.output, world.handoff(call.member + 1));
            NextTask(world, passOutput, call) ==
            if !passOutput || output == "" then call.task
            else if handoff == "" then world.strip(output)
            else world.strip(output) + "\n\n" + handoff
  {
  }

  method InvokeSequential(
    memberNames: seq<string>, objective: string, passOutput: bool, stopOnCompleted: bool, world: World)
    returns (result: Result, calls: seq<Call>)
    ensures IsOutcome(memberNames, objective, passOutput, stopOnCompleted, world, calls, result)
  {
    calls := [];
    if memberNames == [] {
      return FailedResult("No members in team"), calls;
    }
    var currentTask := objective;
    var lastResult: Option<Result> := None;
    var totalSteps := 0;
    var handoff := world.handoff(0);
    if handoff != "" {
      currentTask := currentTask + "\n\n" + handoff;
    }
    assert currentTask == WithHandoff(objective, handoff);
    assert Between(objective, passOutput, stopOnCompleted, world, calls, currentTask, lastResult, totalSteps);
    result := FailedResult("");
    hide *;
    for i := 0 to |memberNames|
      invariant |calls| == i
      invariant Between(objective, passOutput, stopOnCompleted, world, calls, currentTask, lastResult, totalSteps)
      invariant i > 0 ==> lastResult.Some?
      invariant i == |memberNames| ==>
        IsOutcome(memberNames, objective, passOutput, stopOnCompleted, world, calls,
                  lastResult.value.(totalSteps := totalSteps))
    {
      var call := Call(i, currentTask, world.invoke(i, currentTask));
      if call.reply.Throws? {
        AfterException(memberNames, objective, passOutput, stopOnCompleted, world,
                       calls, currentTask, lastResult, totalSteps, call);
        calls := calls + [call];
        if lastResult.Some? {
          return lastResult.value.(totalSteps := totalSteps), calls;
        }
        return FailedResult("member " + memberNames[i] + " failed: " + call.reply.message), calls;
      }
      AfterReply(world, stopOnCompleted, passOutput, call);
      if Wins(stopOnCompleted, call) || i + 1 == |memberNames| {
        AfterLast(memberNames, objective, passOutput, stopOnCompleted, world,
                  calls, currentTask, lastResult, totalSteps, call);
      }
      if !Wins(stopOnCompleted, call) {
        AfterReturn(objective, passOutput, stopOnCompleted, world, calls, currentTask, lastResult, totalSteps, call);
      }
      calls := calls + [call];
      lastResult := Some(call.reply.result);
      totalSteps := totalSteps + call.reply.result.totalSteps;
      if stopOnCompleted && call.reply.result.status == COMPLETED {
        return call.reply.result.(totalSteps := totalSteps), calls;
      }
      if passOutput && call.reply.result.output != "" {
        currentTask := world.strip(call.reply.result.output);
        handoff := world.handoff(i + 1);
        if handoff != "" {
          currentTask := currentTask + "\n\n" + handoff;
        }
      }
      assert currentTask == NextTask(world, passOutput, call);
      assert Between(objective, passOutput, stopOnCompleted, world, calls, currentTask, lastResult, totalSteps);
    }
    result := lastResult.value.(totalSteps := totalSteps);
  }

  // ---- The relay has one outcome, and what a task is made of ----

  /** Two relays over the same world agree as far as both go. */
  lemma {:induction false} RelayIsDetermined(
    world: World, objective: string, passOutput: bool, stopOnCompleted: bool, a: seq<Call>, b: seq<Call>, k: nat)
    requires IsRelay(world, objective, passOutput, stopOnCompleted, a)
    requires IsRelay(world, objective, passOutput, stopOnCompleted, b)
    requires k < |a| && k < |b|
    ensures a[k] == b[k]
    decreases k
  {
    if k > 0 {
      assert Follows(world, passOutput, stopOnCompleted, a[k - 1], a[k - 1 + 1]);
      assert Follows(world, passOutput, stopOnCompleted, b[k - 1], b[k - 1 + 1]);
      RelayIsDetermined(world, objective, passOutput, stopOnCompleted, a, b, k - 1);
    }
  }

  /** A relay that goes further goes on after a reply that neither wins nor throws. */
  lemma OutcomeIsNoLonger(
    memberNames: seq<string>, objective: string, passOutput: bool, stopOnCompleted: bool, world: World,
    a: seq<Call>, b: seq<Call>, resultA: Result, resultB: Result)
    requires IsOutcome(memberNames, objective, passOutput, stopOnCompleted, world, a, resultA)
    requires IsOutcome(memberNames, objective, passOutput, stopOnCompleted, world, b, resultB)
    ensures |a| >= |b|
  {
    if 0 < |a| < |b| {
      var k := |a| - 1;
      GoesOn(world, objective, passOutput, stopOnCompleted, b, k);
      RelayIsDetermined(world, objective, passOutput, stopOnCompleted, a, b, k);
    }
  }

  lemma GoesOn(
    world: World, objective: string, passOutput: bool, stopOnCompleted: bool, calls: seq<Call>, k: nat)
    requires IsRelay(world, objective, passOutput, stopOnCompleted, calls) && k + 1 < |calls|
    ensures calls[k].reply.Returns? && !Wins(stopOnCompleted, calls[k])
  {
    assert Follows(world, passOutput, stopOnCompleted, calls[k], calls[k + 1]);
  }

  /** The specification fixes the whole relay: which members are called, every task, every
      reply and the result. */
  lemma OutcomeIsDetermined(
    memberNames: seq<string>, objective: string, passOutput: bool, stopOnCompleted: bool, world: World,
    a: seq<Call>, b: seq<Call>, resultA: Result, resultB: Result)
    requires IsOutcome(memberNames, objective, passOutput, stopOnCompleted, world, a, resultA)
    requires IsOutcome(memberNames, objective, passOutput, stopOnCompleted, world, b, resultB)
    ensures a == b && resultA == resultB
  {
    OutcomeIsNoLonger(memberNames, objective, passOutput, stopOnCompleted, world, a, b, resultA, resultB);
    OutcomeIsNoLonger(memberNames, objective, passOutput, stopOnCompleted, world, b, a, resultB, resultA);
    forall k: nat | k < |a|
      ensures a[k] == b[k]
    {
      RelayIsDetermined(world, objective, passOutput, stopOnCompleted, a, b, k);
    }
  }

  /** The index of the last call before `k` with output, if there is one. */
  function LastWithOutput(calls: seq<Call>, k: nat): (r: Option<nat>)
    requires k <= |calls| && forall i :: 0 <= i < k ==> calls[i].reply.Returns?
    ensures r.Some? ==> r.value < k && calls[r.value].reply.result.output != ""
    ensures forall i :: (if r.Some? then r.value + 1 else 0) <= i < k ==> calls[i].reply.result.output == ""
  {
    if k == 0 then None
    else if calls[k - 1].reply.result.output != "" then Some(k - 1)
    else LastWithOutput(calls, k - 1)
  }

  /** The task of call `k`: the stripped last non-empty output before it with the handoff of
      that moment, or else the objective; without passing on, always the objective. */
  lemma {:induction false} TaskComesFromLastOutput(
    world: World, objective: string, passOutput: bool, stopOnCompleted: bool, calls: seq<Call>, k: nat)
    requires IsRelay(world, objective, passOutput, stopOnCompleted, calls) && k < |calls|
    ensures forall i :: 0 <= i < k ==> calls[i].reply.Returns?
    ensures calls[k].task ==
            if passOutput && LastWithOutput(calls, k).Some?
            then (var m := LastWithOutput(calls, k).value;
                  var (own, handoff) := (world.strip(calls[m].reply.result.output), world.handoff(m + 1));
                  if handoff == "" then own else own + "\n\n" + handoff)
            else if world.handoff(0) == "" then objective
            else objective + "\n\n" + world.handoff(0)
    decreases k
  {
    forall i | 0 <= i < k
      ensures calls[i].reply.Returns?
    {
      assert Follows(world, passOutput, stopOnCompleted, calls[i], calls[i + 1]);
    }
    if k > 0 {
      assert Follows(world, passOutput, stopOnCompleted, calls[k - 1], calls[k - 1 + 1]);
      TaskComesFromLastOutput(world, objective, passOutput, stopOnCompleted, calls, k - 1);
    }
  }

  /** What goes back when no member returned: a failed result without output or steps. */
  lemma FailureIsReported(
    memberNames: seq<string>, objective: string, passOutput: bool, stopOnCompleted: bool, world: World,
    calls: seq<Call>, result: Result)
    requires IsOutcome(memberNames, objective, passOutput, stopOnCompleted, world, calls, result)
    ensures memberNames == [] ==> calls == [] && result == Result("failed", "", 0, "No members in team")
    ensures memberNames != [] ==> calls != []
    ensures calls != [] ==>
              calls[0].task == if world.handoff(0) == "" then objective else objective + "\n\n" + world.handoff(0)
    ensures |calls| == 1 && calls[0].reply.Throws? ==>
              result == Result("failed", "", 0, "member " + memberNames[0] + " failed: " + calls[0].reply.message)
  {
  }

  /** What goes back when some member returned: the last result that arrived, with the steps of
      all that returned. The relay ends early exactly when a member throws, or completes where
      that is enough. */
  lemma LastResultIsReturned(
    memberNames: seq<string>, objective: string, passOutput: bool, stopOnCompleted: bool, world: World,
    calls: seq<Call>, result: Result)
    requires IsOutcome(memberNames, objective, passOutput, stopOnCompleted, world, calls, result)
    requires calls != [] && (|calls| > 1 || calls[0].reply.Returns?)
    ensures var last := calls[|calls| - 1].reply;
            var from := if last.Returns? then last else calls[|calls| - 2].reply;
            && from.Returns?
            && result == Result(from.result.status, from.result.output, StepsOf(calls), from.result.error)
    ensures |calls| < |memberNames| ==>
              var last := calls[|calls| - 1].reply;
              last.Throws? || (stopOnCompleted && last.result.status == "completed")
    ensures forall i :: 0 <= i < |calls| - 1 ==>
              calls[i].reply.Returns? && !(stopOnCompleted && calls[i].reply.result.status == "completed")
  {
    forall i | 0 <= i < |calls| - 1
      ensures calls[i].reply.Returns? && !Wins(stopOnCompleted, calls[i])
    {
      GoesOn(world, objective, passOutput, stopOnCompleted, calls, i);
    }
  }
}
