/**
  Runs of the agent graph seen step by step: which call a step makes, what follows it, and who decided.
  States are told by the oracles' answers and the log, so these laws fix what the nodes and edges do.
*/
module AgentGraphTrace {
  import opened Wrappers
  import opened AgentGraph
  import opened AgentGraphRuns

  /** The state of a turn after its first n steps. */
  function At(cfg: Config, previous: Option<State>, image: bool, os: seq<Oracle>, n: nat): State
    requires n <= |os|
  {
    Exec(cfg, StartTurn(previous, image), os[..n])
  }

  lemma AtNext(cfg: Config, previous: Option<State>, image: bool, os: seq<Oracle>, n: nat)
    requires n < |os|
    ensures var s, s' := At(cfg, previous, image, os, n), At(cfg, previous, image, os, n + 1);
      s' == if s.next == End then s else Step(cfg, s, os[n])
  {
    hide Step, StartTurn;
    ExecSnoc(cfg, StartTurn(previous, image), os[..n], os[n]);
    assert os[..n + 1] == os[..n] + [os[n]];
  }

  lemma AtStart(cfg: Config, previous: Option<State>, image: bool, os: seq<Oracle>)
    ensures At(cfg, previous, image, os, 0) == StartTurn(previous, image)
  {
  }

  /** The records this turn has made after its first n steps. */
  ghost function LogAt(cfg: Config, previous: Option<State>, image: bool, os: seq<Oracle>, n: nat): seq<ToolCallRecord>
    requires n <= |os|
  {
    var s := At(cfg, previous, image, os, n);
    if StackBase(previous) <= |s.toolCallStack| then TurnLog(previous, s) else []
  }

  lemma InvStack(cfg: Config, previous: Option<State>, image: bool, os: seq<Oracle>, n: nat)
    requires n <= |os|
    ensures StackBase(previous) <= |At(cfg, previous, image, os, n).toolCallStack|
  {
    InvExec(cfg, previous, image, os[..n]);
  }

  // ---------------------------------------------------------------- one call

  /** The record of a call tells what was asked for and what came of it. */
  ghost predicate Tells(
    cfg: Config, r: ToolCallRecord, name: string, arguments: Json, attempt: int, outcome: ToolOutcome)
  {
    && r.toolName == name && r.arguments == arguments && r.attempt == attempt
    && match outcome
       case Returned(result) => r.status == Success && r.result == Some(result) && r.error == None
       case Raised(message) =>
         && r.status == (if attempt < cfg.maxAttempts then Retrying else Failed)
         && r.result == None && r.error == Some(message)
  }

  lemma CallStep(cfg: Config, s: State, o: Oracle)
    requires s.next == Executor
    ensures var s' := Step(cfg, s, o); var k := |s.toolCallStack|;
      && |s'.toolCallStack| == k + 1 && s'.toolCallStack[..k] == s.toolCallStack
      && var r := s'.toolCallStack[k];
      && (match s.pendingToolCall
          case None => Tells(cfg, r, o.plannedTool, o.plannedArguments, 1, o.outcome)
          case Some(p) => Tells(cfg, r, p.toolName, p.arguments, p.attempt + 1, o.outcome))
      && s'.pendingToolCall == (if r.status == Retrying then Some(r.(arguments := o.adjustedArguments)) else None)
      && s'.lastToolResult == (if r.status == Success then Some(cfg.sanitize(r.result.value)) else s.lastToolResult)
      && s'.intent == s.intent && s'.verificationPassed == s.verificationPassed && s'.finalResponse == s.finalResponse
      && s'.next in {Executor, Critic}
      && (s'.next == Executor <==> r.status == Retrying && s'.retryCount < cfg.maxAttempts)
  {
  }

  /**
    After a call.  The critic judges every call that succeeded, was given up, or used up the retry budget;
    the executor goes on only with the retry of a call that is pending.
  */
  lemma AfterCall(cfg: Config, previous: Option<State>, image: bool, os: seq<Oracle>, n: nat)
    requires n < |os| && At(cfg, previous, image, os, n).next == Executor
    ensures var s', log := At(cfg, previous, image, os, n + 1), LogAt(cfg, previous, image, os, n + 1);
      && log != []
      && s'.next == (if log[|log| - 1].status == Retrying && RetriesSinceSuccess(log) < cfg.maxAttempts
                     then Executor else Critic)
      && (s'.pendingToolCall == None ==> s'.next == Critic)
      && (os[n].outcome.Returned? ==> s'.next == Critic)
  {
    hide Step, StartTurn, Exec, Realisable, Parse, RetriesSinceSuccess, ErrorsOf, LastResult, NodeFacts, PendingMatches;
    InvExec(cfg, previous, image, os[..n]);
    InvExec(cfg, previous, image, os[..n + 1]);
    AtNext(cfg, previous, image, os, n);
    CallStep(cfg, At(cfg, previous, image, os, n), os[n]);
  }

  /** After a verdict: PASS ends the turn; FAIL ends it only if the retry budget is used up. */
  lemma AfterVerdict(cfg: Config, previous: Option<State>, image: bool, os: seq<Oracle>, n: nat)
    requires n < |os| && At(cfg, previous, image, os, n).next == Critic
    ensures var s, s' := At(cfg, previous, image, os, n), At(cfg, previous, image, os, n + 1);
      var log := LogAt(cfg, previous, image, os, n + 1);
      && s'.toolCallStack == s.toolCallStack && s'.pendingToolCall == s.pendingToolCall
      && s'.verificationPassed == Some(os[n].verdictPass)
      && s'.next == (if !os[n].verdictPass && RetriesSinceSuccess(log) < cfg.maxAttempts then Executor else End)
      && s'.finalResponse == (if os[n].verdictPass then Some(ComposeFinalResponse(s)) else None)
  {
    hide StartTurn, Exec, Realisable, Parse, RetriesSinceSuccess, ErrorsOf, LastResult, NodeFacts, PendingMatches;
    InvExec(cfg, previous, image, os[..n]);
    AtNext(cfg, previous, image, os, n);
  }

  // ---------------------------------------------------------------- why a call is made

  /** The n-th step makes the turn's first call. */
  ghost predicate FirstCall(cfg: Config, previous: Option<State>, image: bool, os: seq<Oracle>, n: nat)
    requires n < |os|
  {
    LogAt(cfg, previous, image, os, n) == [] && At(cfg, previous, image, os, n).pendingToolCall == None
  }

  /** The step before was a failed call, and the n-th repeats it with the arguments repaired after it. */
  ghost predicate RetryCall(cfg: Config, previous: Option<State>, image: bool, os: seq<Oracle>, n: nat)
    requires n < |os|
  {
    var log := LogAt(cfg, previous, image, os, n);
    && n > 0 && At(cfg, previous, image, os, n - 1).next == Executor
    && log != [] && os[n - 1].outcome.Raised?
    && At(cfg, previous, image, os, n).pendingToolCall ==
         Some(log[|log| - 1].(arguments := os[n - 1].adjustedArguments))
  }

  /** The step before was a FAIL verdict that left nothing pending. */
  ghost predicate ReplannedCall(cfg: Config, previous: Option<State>, image: bool, os: seq<Oracle>, n: nat)
    requires n < |os|
  {
    && n > 0 && At(cfg, previous, image, os, n - 1).next == Critic && !os[n - 1].verdictPass
    && At(cfg, previous, image, os, n).pendingToolCall == None
  }

  /** The three steps that lead to the executor. */
  lemma StepToExecutor(cfg: Config, s: State, n: nat, m: nat, o: Oracle)
    requires Inv(cfg, s, n, m) && s.next != End && Step(cfg, s, o).next == Executor
    ensures var s' := Step(cfg, s, o);
      if s.next == Executor then o.outcome.Raised? && s'.pendingToolCall.Some?
      else if s.next == Critic then !o.verdictPass && s'.pendingToolCall == None
      else s'.toolCallStack == s.toolCallStack && s.toolCallStack[n..] == [] && s'.pendingToolCall == None
  {
    hide Realisable, RetriesSinceSuccess, ErrorsOf, LastResult;
    EmptyOpens(s.toolCallStack[n..]);
    if s.next == Executor {
      CallStep(cfg, s, o);
    }
  }

  /** A call is made first in a turn, as the retry of the call before it, or right after a FAIL verdict. */
  lemma WhyCalled(cfg: Config, previous: Option<State>, image: bool, os: seq<Oracle>, n: nat)
    requires n < |os| && At(cfg, previous, image, os, n).next == Executor
    ensures || FirstCall(cfg, previous, image, os, n)
            || RetryCall(cfg, previous, image, os, n)
            || ReplannedCall(cfg, previous, image, os, n)
  {
    hide Exec, Step, Inv;
    AtStart(cfg, previous, image, os);
    InvExec(cfg, previous, image, os[..n - 1]);
    InvStack(cfg, previous, image, os, n - 1);
    AtNext(cfg, previous, image, os, n - 1);
    var before := At(cfg, previous, image, os, n - 1);
    StepToExecutor(cfg, before, StackBase(previous), ErrorBase(previous), os[n - 1]);
    if before.next == Executor {
      CallStep(cfg, before, os[n - 1]);
    }
  }

  lemma EmptyOpens(log: seq<ToolCallRecord>)
    ensures log == [] ==> Parse(log).open == []
  {
  }

  /**
    Which call is made.  The record a step appends names the planned tool and arguments, or those of the call
    it repeats with the repaired arguments and the next attempt, and tells the outcome the tool server gave.
  */
  lemma CallMade(cfg: Config, previous: Option<State>, image: bool, os: seq<Oracle>, n: nat)
    requires n < |os| && At(cfg, previous, image, os, n).next == Executor
    ensures var log, log' := LogAt(cfg, previous, image, os, n), LogAt(cfg, previous, image, os, n + 1);
      && |log'| == |log| + 1 && log'[..|log|] == log
      && var r := log'[|log|];
      && (FirstCall(cfg, previous, image, os, n) || ReplannedCall(cfg, previous, image, os, n) ==>
            Tells(cfg, r, os[n].plannedTool, os[n].plannedArguments, 1, os[n].outcome))
      && (RetryCall(cfg, previous, image, os, n) ==>
            Tells(cfg, r, log[|log| - 1].toolName, os[n - 1].adjustedArguments, log[|log| - 1].attempt + 1,
                  os[n].outcome))
  {
    hide Step, StartTurn, Exec, Inv, Tells;
    InvStack(cfg, previous, image, os, n);
    AtNext(cfg, previous, image, os, n);
    CallStep(cfg, At(cfg, previous, image, os, n), os[n]);
  }

  // ---------------------------------------------------------------- who decided

  /** The intent is the router's, from the first step on. */
  lemma {:induction false} IntentKept(cfg: Config, previous: Option<State>, image: bool, os: seq<Oracle>, n: nat)
    requires 0 < n <= |os|
    ensures At(cfg, previous, image, os, n).intent == Some(os[0].intent)
    ensures At(cfg, previous, image, os, n).next != Router
  {
    hide Exec;
    AtNext(cfg, previous, image, os, n - 1);
    if n == 1 {
      AtStart(cfg, previous, image, os);
    } else {
      IntentKept(cfg, previous, image, os, n - 1);
    }
  }

  /** The i-th step is the last verdict among the first n. */
  ghost predicate LastVerdictAt(
    cfg: Config, previous: Option<State>, image: bool, os: seq<Oracle>, n: nat, i: nat)
    requires i < n <= |os|
  {
    && At(cfg, previous, image, os, i).next == Critic
    && forall j :: i < j < n ==> At(cfg, previous, image, os, j).next != Critic
  }

  lemma VerdictStep(cfg: Config, s: State, o: Oracle)
    requires s.next != End
    ensures Step(cfg, s, o).verificationPassed ==
            if s.next == Critic then Some(o.verdictPass) else s.verificationPassed
  {
  }

  /** `verificationPassed` is the last verdict of the turn, and absent before the first. */
  lemma {:induction false} LastVerdict(cfg: Config, previous: Option<State>, image: bool, os: seq<Oracle>, n: nat)
    requires n <= |os|
    ensures match At(cfg, previous, image, os, n).verificationPassed
      case None => forall i :: 0 <= i < n ==> At(cfg, previous, image, os, i).next != Critic
      case Some(v) =>
        exists i :: 0 <= i < n && LastVerdictAt(cfg, previous, image, os, n, i) && os[i].verdictPass == v
  {
    hide Step, At;
    AtStart(cfg, previous, image, os);
    if n > 0 {
      LastVerdict(cfg, previous, image, os, n - 1);
      AtNext(cfg, previous, image, os, n - 1);
      var before := At(cfg, previous, image, os, n - 1);
      if before.next == Critic {
        VerdictStep(cfg, before, os[n - 1]);
        assert LastVerdictAt(cfg, previous, image, os, n, n - 1);
      } else {
        if before.next != End {
          VerdictStep(cfg, before, os[n - 1]);
        }
        if i :| 0 <= i < n - 1 && LastVerdictAt(cfg, previous, image, os, n - 1, i)
                && Some(os[i].verdictPass) == before.verificationPassed
        {
          assert LastVerdictAt(cfg, previous, image, os, n, i);
        }
      }
    }
  }

  /**
    The shortest turn: if the first call returns a result and the verdict is PASS, the turn ends there, with
    one record and an answer about that result.
  */
  lemma FirstCallPasses(cfg: Config, previous: Option<State>, image: bool, os: seq<Oracle>, k: nat, result: Json)
    requires k == (if cfg.visionEnabled && image then 3 else 2) && |os| == k + 2
    requires os[k].outcome == Returned(result) && os[k + 1].verdictPass
    ensures var e := At(cfg, previous, image, os, k + 2);
      && e.next == End && e.verificationPassed == Some(true)
      && e.finalResponse == Some(ActionDone(Some(os[0].intent), cfg.sanitize(result)))
      && LogAt(cfg, previous, image, os, k + 2) ==
           [ToolCallRecord(os[k].plannedTool, os[k].plannedArguments, 1, Success, Some(result), None)]
  {
    hide Exec, StartTurn, Step, Inv;
    PathToExecutor(cfg, previous, image, os[..k]);
    assert At(cfg, previous, image, os, k).next == Executor;
    AfterCall(cfg, previous, image, os, k);
    CallMade(cfg, previous, image, os, k);
    AtNext(cfg, previous, image, os, k);
    CallStep(cfg, At(cfg, previous, image, os, k), os[k]);
    AfterVerdict(cfg, previous, image, os, k + 1);
    InvStack(cfg, previous, image, os, k + 1);
    IntentKept(cfg, previous, image, os, k + 1);
  }

  // ---------------------------------------------------------------- streams

  /** The first n answers of the nodes. */
  ghost function Answers(nodes: nat -> Option<Oracle>, n: nat): (os: seq<Oracle>)
    requires forall k: nat :: k < n ==> nodes(k).Some?
    ensures |os| == n && forall k: nat :: k < n ==> os[k] == nodes(k).value
  {
    if n == 0 then [] else Answers(nodes, n - 1) + [nodes(n - 1).value]
  }

  /** Where a stream from `s` is after n steps. */
  ghost function Streaming(cfg: Config, s: State, nodes: nat -> Option<Oracle>, n: nat): State
    requires forall k: nat :: k < n ==> nodes(k).Some?
  {
    Exec(cfg, s, Answers(nodes, n))
  }

  /** It is over, or before an executor step; only the first step of a resumed stream is not interrupted there. */
  ghost predicate PausedAt(cfg: Config, s: State, nodes: nat -> Option<Oracle>, resumed: bool, n: nat)
    requires forall k: nat :: k < n ==> nodes(k).Some?
  {
    var at := Streaming(cfg, s, nodes, n).next;
    at == End || (at == Executor && !(resumed && n == 0))
  }

  /** The stream takes n steps: it is paused there, or the next node raises, and neither happened before. */
  ghost predicate Streamed(cfg: Config, s: State, nodes: nat -> Option<Oracle>, resumed: bool, n: nat) {
    && (forall k: nat :: k < n ==> nodes(k).Some?)
    && (forall k: nat :: k < n ==> !PausedAt(cfg, s, nodes, resumed, k))
    && (nodes(n) == None || PausedAt(cfg, s, nodes, resumed, n))
  }

  lemma StreamStart(cfg: Config, s: State, nodes: nat -> Option<Oracle>)
    ensures Streaming(cfg, s, nodes, 0) == s
  {
  }

  lemma StreamNext(cfg: Config, s: State, nodes: nat -> Option<Oracle>, n: nat)
    requires forall k: nat :: k <= n ==> nodes(k).Some?
    requires Streaming(cfg, s, nodes, n).next != End
    ensures Streaming(cfg, s, nodes, n + 1) == Step(cfg, Streaming(cfg, s, nodes, n), nodes(n).value)
  {
    hide Exec, Step;
    ExecSnoc(cfg, s, Answers(nodes, n), nodes(n).value);
  }

  /** The stream got to `at` in n steps without a pause. */
  ghost predicate OnTheWay(cfg: Config, s: State, nodes: nat -> Option<Oracle>, resumed: bool, n: nat, at: State) {
    && (forall k: nat :: k < n ==> nodes(k).Some?)
    && (forall k: nat :: k < n ==> !PausedAt(cfg, s, nodes, resumed, k))
    && at == Streaming(cfg, s, nodes, n)
  }

  lemma WayStarts(cfg: Config, s: State, nodes: nat -> Option<Oracle>, resumed: bool)
    ensures OnTheWay(cfg, s, nodes, resumed, 0, s)
  {
  }

  lemma WayGoesOn(cfg: Config, s: State, nodes: nat -> Option<Oracle>, resumed: bool, n: nat, at: State)
    requires OnTheWay(cfg, s, nodes, resumed, n, at) && nodes(n).Some?
    requires at.next != End && (at.next == Executor ==> resumed && n == 0)
    ensures OnTheWay(cfg, s, nodes, resumed, n + 1, Step(cfg, at, nodes(n).value))
  {
    hide Step, Exec, Streaming;
    StreamNext(cfg, s, nodes, n);
  }

  lemma WayEnds(cfg: Config, s: State, nodes: nat -> Option<Oracle>, resumed: bool, n: nat, at: State)
    requires OnTheWay(cfg, s, nodes, resumed, n, at)
    requires nodes(n) == None || at.next == End || (at.next == Executor && !(resumed && n == 0))
    ensures Streamed(cfg, s, nodes, resumed, n) && at == Streaming(cfg, s, nodes, n)
  {
  }

  /** How far a stream comes is settled by its nodes. */
  lemma StreamedUnique(cfg: Config, s: State, nodes: nat -> Option<Oracle>, resumed: bool, n: nat, m: nat)
    requires Streamed(cfg, s, nodes, resumed, n) && Streamed(cfg, s, nodes, resumed, m)
    ensures n == m
  {
    hide PausedAt;
  }

  /** If no node raises, a resumed stream that has not ended runs at least one step, to the next executor or the end. */
  lemma StreamedFar(cfg: Config, s: State, nodes: nat -> Option<Oracle>, n: nat)
    requires Streamed(cfg, s, nodes, true, n) && forall k :: nodes(k).Some?
    ensures s.next != End ==> n > 0
    ensures Streaming(cfg, s, nodes, n).next in {Executor, End}
  {
    hide Exec;
    StreamStart(cfg, s, nodes);
  }

  /**
    What an approval is for.  A parked call that returns and is passed ends the turn with an answer about its
    result; if it is failed, the stream is parked again before the next call, with nothing answered.
  */
  lemma ApprovedCall(cfg: Config, s: State, nodes: nat -> Option<Oracle>, n: nat, result: Json)
    requires Streamed(cfg, s, nodes, true, n) && s.next == Executor && 1 <= cfg.maxAttempts
    requires nodes(0).Some? && nodes(0).value.outcome == Returned(result) && nodes(1).Some?
    ensures n == 2
    ensures var e := Streaming(cfg, s, nodes, 2);
      if nodes(1).value.verdictPass
      then e.next == End && e.finalResponse == Some(ActionDone(s.intent, cfg.sanitize(result)))
      else e.next == Executor && e.finalResponse == None && e.pendingToolCall == None
  {
    hide Exec, Answers;
    StreamStart(cfg, s, nodes);
    assert forall k: nat :: k <= 1 ==> nodes(k).Some?;
    StreamNext(cfg, s, nodes, 0);
    StreamNext(cfg, s, nodes, 1);
    assert !PausedAt(cfg, s, nodes, true, 0) && !PausedAt(cfg, s, nodes, true, 1);
    assert PausedAt(cfg, s, nodes, true, 2);
  }

  // ---------------------------------------------------------------- what the gate is for

  /** The gate predicate would hold of a fresh plan for a gated tool, if a plan were ever emitted as pending. */
  lemma GateOnPlan(s: State, o: Oracle)
    ensures RequiresHumanApproval(s.(pendingToolCall := Some(PlanToolCall(o)))) <==>
            o.plannedTool == "process_high_value_refund" || o.plannedTool == "execute_order_action"
    ensures forall p: ToolCallRecord :: p.status != Pending ==> !RequiresHumanApproval(s.(pendingToolCall := Some(p)))
  {
  }
}
