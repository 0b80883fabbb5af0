/**
  What whole runs of the agent graph guarantee: the exact language of the tool-call log,
  the exact bound on a run, and what an unsuccessful end looks like.
*/
module AgentGraphRuns {
  import opened Wrappers
  import opened AgentGraph

  // ---------------------------------------------------------------- reachable states

  ghost function StackBase(previous: Option<State>): nat {
    match previous
    case None => 0
    case Some(p) => |p.toolCallStack|
  }

  ghost function ErrorBase(previous: Option<State>): nat {
    match previous
    case None => 0
    case Some(p) => |p.executionErrors|
  }

  /** The part of the tool-call stack a turn appended. */
  ghost function TurnLog(previous: Option<State>, s: State): seq<ToolCallRecord>
    requires StackBase(previous) <= |s.toolCallStack|
  {
    s.toolCallStack[StackBase(previous)..]
  }

  lemma ExecSnoc(cfg: Config, s: State, os: seq<Oracle>, o: Oracle)
    ensures Exec(cfg, s, os + [o]) ==
            var p := Exec(cfg, s, os); if p.next == End then p else Step(cfg, p, o)
  {
    assert (os + [o])[..|os|] == os;
  }

  lemma {:induction false} InvExec(cfg: Config, previous: Option<State>, image: bool, os: seq<Oracle>)
    ensures Inv(cfg, Exec(cfg, StartTurn(previous, image), os), StackBase(previous), ErrorBase(previous))
  {
    if os != [] {
      var prefix := os[..|os| - 1];
      InvExec(cfg, previous, image, prefix);
      var p := Exec(cfg, StartTurn(previous, image), prefix);
      if p.next != End {
        InvStep(cfg, p, StackBase(previous), ErrorBase(previous), os[|os| - 1]);
      }
    }
  }

  /** A turn never rewrites the logs of the turns before it. */
  lemma {:induction false} EarlierTurnsKept(cfg: Config, previous: State, image: bool, os: seq<Oracle>)
    ensures var s := Exec(cfg, StartTurn(Some(previous), image), os);
      previous.toolCallStack <= s.toolCallStack && previous.executionErrors <= s.executionErrors
  {
    if os != [] {
      EarlierTurnsKept(cfg, previous, image, os[..|os| - 1]);
    }
  }

  /**
    The way to the executor: two steps, or three through the photo inspection exactly if a photo came in and
    the graph was built to inspect it; nothing is called on the way and the router's intent is kept.
  */
  lemma PathToExecutor(cfg: Config, previous: Option<State>, image: bool, os: seq<Oracle>)
    requires |os| == if cfg.visionEnabled && image then 3 else 2
    ensures var s := Exec(cfg, StartTurn(previous, image), os);
      && s.next == Executor && s.intent == Some(os[0].intent) && s.pendingToolCall == None
      && StackBase(previous) == |s.toolCallStack| && ErrorBase(previous) == |s.executionErrors|
    ensures forall n :: 0 <= n < |os| ==> Exec(cfg, StartTurn(previous, image), os[..n]).next != Executor
    ensures cfg.visionEnabled && image <==> Exec(cfg, StartTurn(previous, image), os[..1]).next == Vision
  {
    hide Exec, Step, StartTurn;
    var start := StartTurn(previous, image);
    EarlySteps(cfg, previous, image, os[0], os[1], os[|os| - 1]);
    ExecNothing(cfg, start);
    assert os[..0] == [];
    ExecSnoc(cfg, start, [], os[0]);
    assert os[..1] == [] + [os[0]];
    ExecSnoc(cfg, start, os[..1], os[1]);
    assert os[..2] == os[..1] + [os[1]];
    if cfg.visionEnabled && image {
      ExecSnoc(cfg, start, os[..2], os[2]);
      assert os == os[..2] + [os[2]];
    } else {
      assert os == os[..2];
    }
  }

  lemma ExecNothing(cfg: Config, s: State)
    ensures Exec(cfg, s, []) == s
  {
  }

  lemma EarlySteps(cfg: Config, previous: Option<State>, image: bool, a: Oracle, b: Oracle, c: Oracle)
    ensures var s0 := StartTurn(previous, image);
      && s0.next == Router
      && var s1 := Step(cfg, s0, a);
      && s1 == s0.(next := if cfg.visionEnabled && image then Vision else Rag, intent := Some(a.intent))
      && var s2 := Step(cfg, s1, b);
      && s2 == s1.(next := if cfg.visionEnabled && image then Rag else Executor)
      && (s2.next == Rag ==> Step(cfg, s2, c) == s2.(next := Executor))
      && s0.pendingToolCall == None
      && StackBase(previous) == |s0.toolCallStack| && ErrorBase(previous) == |s0.executionErrors|
  {
  }

  // ---------------------------------------------------------------- what every emitted state satisfies

  /**
    Execution-log grammar.  Within a turn the log is a concatenation of plans, each with one
    tool and attempts 1, 2, ..., all but its last call a retry, and only the final plan may be
    cut off; the counters and the error log are functions of it.
  */
  lemma ExecutionLogGrammar(cfg: Config, previous: Option<State>, image: bool, os: seq<Oracle>)
    ensures var s := Exec(cfg, StartTurn(previous, image), os);
      && StackBase(previous) <= |s.toolCallStack| && ErrorBase(previous) <= |s.executionErrors|
      && var log := TurnLog(previous, s);
      && (exists closed: seq<seq<ToolCallRecord>>, open: seq<ToolCallRecord> ::
            && log == Flatten(closed) + open
            && (forall i :: 0 <= i < |closed| ==> ClosedBlock(cfg, closed[i]))
            && OpenBlock(cfg, open)
            && (open == [] <==> s.pendingToolCall == None))
      && s.retryCount == RetriesSinceSuccess(log)
      && s.executionErrors[ErrorBase(previous)..] == ErrorsOf(log)
      && s.lastToolResult == LastResult(cfg, log)
  {
    hide Exec, StartTurn, Parse, Flatten, RetriesSinceSuccess, ErrorsOf, LastResult, ClosedBlock, OpenBlock;
    InvExec(cfg, previous, image, os);
    var log := TurnLog(previous, Exec(cfg, StartTurn(previous, image), os));
    ParseFlattens(log);
    var b := Parse(log);
    assert log == Flatten(b.closed) + b.open && OpenBlock(cfg, b.open);
  }

  /** Retries counted since the last success include those of the plan still open. */
  lemma {:induction false} OpenRetriesCounted(cfg: Config, log: seq<ToolCallRecord>)
    requires Grammatical(cfg, log)
    ensures |Parse(log).open| <= RetriesSinceSuccess(log)
  {
    if log != [] {
      var r := log[|log| - 1];
      assert log == log[..|log| - 1] + [r];
      UnsnocGrammatical(cfg, log[..|log| - 1], r);
      SnocLog(cfg, log[..|log| - 1], r);
      OpenRetriesCounted(cfg, log[..|log| - 1]);
    }
  }

  /** The retry counter never exceeds the cap. */
  lemma {:induction false} RetriesCapped(cfg: Config, log: seq<ToolCallRecord>)
    requires Realisable(cfg, log)
    ensures RetriesSinceSuccess(log) <= cfg.maxAttempts || RetriesSinceSuccess(log) == 0
  {
    if log != [] {
      var prefix, r := log[..|log| - 1], log[|log| - 1];
      assert log == prefix + [r];
      UnsnocRealisable(cfg, prefix, r);
      SnocLog(cfg, prefix, r);
      RetriesCapped(cfg, prefix);
    }
  }

  /**
    Pending-call invariant.  In every emitted state a pending call is a retry within both caps;
    it reaches the critic only when the retry budget is used up; and so the gate predicate of
    the API layer is false in every emitted state.
  */
  lemma PendingCallInvariant(cfg: Config, previous: Option<State>, image: bool, os: seq<Oracle>)
    ensures var s := Exec(cfg, StartTurn(previous, image), os);
      && (s.pendingToolCall.Some? ==>
            && s.pendingToolCall.value.status == Retrying
            && 1 <= s.pendingToolCall.value.attempt <= s.retryCount <= cfg.maxAttempts
            && s.pendingToolCall.value.attempt < cfg.maxAttempts)
      && (s.pendingToolCall.Some? && s.next == Critic ==> s.retryCount == cfg.maxAttempts)
      && (s.pendingToolCall.Some? && s.next == Critic ==> forall o :: Step(cfg, s, o).next == End)
      && !RequiresHumanApproval(s)
  {
    InvExec(cfg, previous, image, os);
    var s := Exec(cfg, StartTurn(previous, image), os);
    var log := TurnLog(previous, s);
    PendingFacts(cfg, s, StackBase(previous), ErrorBase(previous));
  }

  lemma PendingFacts(cfg: Config, s: State, n: nat, m: nat)
    requires Inv(cfg, s, n, m)
    ensures s.pendingToolCall.Some? ==>
      && s.pendingToolCall.value.status == Retrying
      && 1 <= s.pendingToolCall.value.attempt <= s.retryCount <= cfg.maxAttempts
      && s.pendingToolCall.value.attempt < cfg.maxAttempts
    ensures !RequiresHumanApproval(s)
  {
    var log := s.toolCallStack[n..];
    var open := Parse(log).open;
    OpenRetriesCounted(cfg, log);
    RetriesCapped(cfg, log);
    if open != [] {
      assert RecordFits(cfg, open, |open| - 1);
    }
  }

  // ---------------------------------------------------------------- the exact language of the log

  lemma UnsnocGrammatical(cfg: Config, log: seq<ToolCallRecord>, r: ToolCallRecord)
    requires Grammatical(cfg, log + [r])
    ensures Grammatical(cfg, log)
    ensures var open := Parse(log).open; RecordFits(cfg, open + [r], |open|)
  {
    SnocLog(cfg, log, r);
    var b, b' := Parse(log), Parse(log + [r]);
    var block := b.open + [r];
    assert PlanBlock(cfg, block) by {
      if r.status != Retrying {
        assert ClosedBlock(cfg, b'.closed[|b'.closed| - 1]);
      }
    }
    forall i | 0 <= i < |b.open| ensures RecordFits(cfg, b.open, i) && b.open[i].status == Retrying {
      assert RecordFits(cfg, block, i);
    }
    forall i | 0 <= i < |b.closed| ensures ClosedBlock(cfg, b.closed[i]) {
      assert b.closed[i] == b'.closed[i];
    }
    assert RecordFits(cfg, block, |b.open|);
  }

  lemma UnsnocRealisable(cfg: Config, log: seq<ToolCallRecord>, r: ToolCallRecord)
    requires Realisable(cfg, log + [r])
    ensures Realisable(cfg, log)
    ensures log != [] ==> RetriesSinceSuccess(log) < cfg.maxAttempts
    ensures var open := Parse(log).open; RecordFits(cfg, open + [r], |open|)
  {
    UnsnocGrammatical(cfg, log, r);
    var log' := log + [r];
    forall n | 0 < n <= |log| ensures RetriesSinceSuccess(log[..n]) < cfg.maxAttempts {
      assert log'[..n] == log[..n];
    }
    assert log[..|log|] == log;
  }

  /** The oracle that makes the executor append exactly `r`, leaving `next` as the repaired arguments. */
  function Producing(r: ToolCallRecord, next: Json): Oracle {
    Oracle("", r.toolName, r.arguments,
           if r.status == Success then Returned(OrElse(r.result, "")) else Raised(OrElse(r.error, "")), next, false)
  }

  /** The run that stops before the first call. */
  lemma ReachExecutor() returns (os: seq<Oracle>)
    ensures forall cfg :: var s := Exec(cfg, StartTurn(None, false), os);
      s.toolCallStack == [] && s.next == Executor && s.pendingToolCall == None
  {
    var o := Oracle("", "", "", Raised(""), "", false);
    os := [o] + [o];
    forall cfg
      ensures var s := Exec(cfg, StartTurn(None, false), os);
        s.toolCallStack == [] && s.next == Executor && s.pendingToolCall == None
    {
      ExecSnoc(cfg, StartTurn(None, false), [], o);
      ExecSnoc(cfg, StartTurn(None, false), [o], o);
    }
  }

  /** An executor step makes its record and leaves the repaired arguments pending. */
  lemma ProducingStep(cfg: Config, s: State, r: ToolCallRecord, next: Json)
    requires s.next == Executor
    requires CallRecord(cfg, PlannedCall(s, Producing(r, next)), Producing(r, next).outcome) == r
    ensures var s' := Step(cfg, s, Producing(r, next));
      && s'.toolCallStack == s.toolCallStack + [r]
      && s'.next == RouteAfterExecutor(cfg, s')
      && (s'.pendingToolCall.Some? ==> s'.pendingToolCall.value.arguments == next)
  {
  }

  /** Every realisable log is produced by some run, which stops right after its last call. */
  lemma {:induction false} Realise(cfg: Config, log: seq<ToolCallRecord>, next: Json) returns (os: seq<Oracle>)
    requires Realisable(cfg, log)
    ensures var s := Exec(cfg, StartTurn(None, false), os);
      && s.toolCallStack == log
      && s.next == (if log == [] then Executor else RouteAfterExecutor(cfg, s))
      && (s.pendingToolCall.Some? ==> s.pendingToolCall.value.arguments == next)
  {
    hide Exec, StartTurn, Step, CallRecord, PlannedCall, Producing, RouteAfterExecutor;
    hide Realisable, Inv, RecordFits, Parse, RetriesSinceSuccess;
    var start := StartTurn(None, false);
    if log == [] {
      os := ReachExecutor();
    } else {
      var prefix, r := log[..|log| - 1], log[|log| - 1];
      assert log == prefix + [r];
      UnsnocRealisable(cfg, prefix, r);
      os := Realise(cfg, prefix, r.arguments);
      os := Reenter(cfg, prefix, r.arguments, os);
      ProducesRecord(cfg, Exec(cfg, start, os), r, next);
      ProducingStep(cfg, Exec(cfg, start, os), r, next);
      ExecSnoc(cfg, start, os, Producing(r, next));
      os := os + [Producing(r, next)];
    }
  }

  /** From the critic, a FAIL verdict leads back to the executor while there is budget. */
  lemma Reenter(cfg: Config, log: seq<ToolCallRecord>, arguments: Json, os: seq<Oracle>) returns (os': seq<Oracle>)
    requires log != [] ==> RetriesSinceSuccess(log) < cfg.maxAttempts
    requires var s := Exec(cfg, StartTurn(None, false), os);
      && s.toolCallStack == log
      && s.next == (if log == [] then Executor else RouteAfterExecutor(cfg, s))
      && (s.pendingToolCall.Some? ==> s.pendingToolCall.value.arguments == arguments)
    ensures var s := Exec(cfg, StartTurn(None, false), os');
      && s.toolCallStack == log && s.toolCallStack[0..] == log && s.next == Executor && Inv(cfg, s, 0, 0)
      && (s.pendingToolCall.Some? ==> s.pendingToolCall.value.arguments == arguments)
  {
    var start, fail := StartTurn(None, false), Oracle("", "", "", Raised(""), "", false);
    os' := os;
    InvExec(cfg, None, false, os);
    assert log[0..] == log;
    if Exec(cfg, start, os).next == Critic {
      ExecSnoc(cfg, start, os, fail);
      os' := os + [fail];
      InvExec(cfg, None, false, os');
    }
  }

  lemma ProducesRecord(cfg: Config, s: State, r: ToolCallRecord, next: Json)
    requires Inv(cfg, s, 0, 0)
    requires s.pendingToolCall.Some? ==> s.pendingToolCall.value.arguments == r.arguments
    requires var open := Parse(s.toolCallStack[0..]).open; RecordFits(cfg, open + [r], |open|)
    ensures CallRecord(cfg, PlannedCall(s, Producing(r, next)), Producing(r, next).outcome) == r
  {
    var open := Parse(s.toolCallStack[0..]).open;
    if open != [] {
      assert RecordFits(cfg, open, |open| - 1);
      assert RecordFits(cfg, open, 0);
    }
  }

  /** A record sequence is the log of some turn exactly when it is realisable. */
  lemma LogLanguage(cfg: Config, log: seq<ToolCallRecord>)
    ensures Realisable(cfg, log) <==>
      exists image: bool, os: seq<Oracle> :: Exec(cfg, StartTurn(None, image), os).toolCallStack == log
  {
    if Realisable(cfg, log) {
      var os := Realise(cfg, log, "");
      assert Exec(cfg, StartTurn(None, false), os).toolCallStack == log;
    }
    forall image: bool, os: seq<Oracle> | Exec(cfg, StartTurn(None, image), os).toolCallStack == log
      ensures Realisable(cfg, log)
    {
      InvExec(cfg, None, image, os);
      assert log[0..] == log;
    }
  }

  // ---------------------------------------------------------------- how long a run can be

  /** The number of calls since the last success. */
  function SinceSuccess(log: seq<ToolCallRecord>): nat {
    if log == [] || log[|log| - 1].status == Success then 0 else SinceSuccess(log[..|log| - 1]) + 1
  }

  /** The number of abandoned plans since the last success. */
  function FailuresSinceSuccess(log: seq<ToolCallRecord>): nat {
    if log == [] then 0
    else match log[|log| - 1].status
      case Success => 0
      case Failed => FailuresSinceSuccess(log[..|log| - 1]) + 1
      case _ => FailuresSinceSuccess(log[..|log| - 1])
  }

  lemma SnocEpoch(log: seq<ToolCallRecord>, r: ToolCallRecord)
    ensures SinceSuccess(log + [r]) == (if r.status == Success then 0 else SinceSuccess(log) + 1)
    ensures FailuresSinceSuccess(log + [r]) ==
            (match r.status
             case Success => 0
             case Failed => FailuresSinceSuccess(log) + 1
             case _ => FailuresSinceSuccess(log))
  {
    assert (log + [r])[..|log|] == log;
  }

  lemma EmptyLog(cfg: Config)
    ensures Parse([]) == Blocks([], []) && RetriesSinceSuccess([]) == 0 && Successes([]) == 0
    ensures SinceSuccess([]) == 0 && FailuresSinceSuccess([]) == 0
    ensures Realisable(cfg, [])
  {
  }

  /**
    Two counters in one law: an abandoned plan used up M-1 retries, which are not given back before
    a success, so there is at most one of them and the rest are the retries of the plan still open.
  */
  lemma {:induction false} EpochLaw(cfg: Config, log: seq<ToolCallRecord>)
    requires Realisable(cfg, log) && 2 <= cfg.maxAttempts
    ensures FailuresSinceSuccess(log) <= 1 && |Parse(log).open| < cfg.maxAttempts
    ensures RetriesSinceSuccess(log) ==
            (if FailuresSinceSuccess(log) == 1 then cfg.maxAttempts - 1 else 0) + |Parse(log).open| <= cfg.maxAttempts
    ensures SinceSuccess(log) == RetriesSinceSuccess(log) + FailuresSinceSuccess(log)
  {
    hide Realisable, Parse, RetriesSinceSuccess, Successes, SinceSuccess, FailuresSinceSuccess;
    EmptyLog(cfg);
    if log != [] {
      var prefix, r := log[..|log| - 1], log[|log| - 1];
      assert log == prefix + [r];
      UnsnocRealisable(cfg, prefix, r);
      EpochLaw(cfg, prefix);
      SnocLog(cfg, prefix, r);
      SnocEpoch(prefix, r);
      var open := Parse(prefix).open;
      assert RecordFits(cfg, open + [r], |open|);
      assert r.status == Retrying ==> |open| + 1 < cfg.maxAttempts;
      assert r.status == Failed ==> cfg.maxAttempts <= |open| + 1;
    }
  }

  lemma OneMore(s: int, k: int)
    ensures (s + 1) * k == s * k + k
  {
  }

  /** One more call either goes on with a stretch or closes it. */
  lemma EpochStep(n: int, s: int, k: int, since: int, s': int, since': int)
    requires n <= s * k + since && since + 1 <= k
    requires (s' == s && since' == since + 1) || (s' == s + 1 && since' == 0)
    ensures n + 1 <= s' * k + since'
  {
    OneMore(s, k);
  }

  /** What one more record does to the two counts of the bound. */
  lemma EpochCounts(cfg: Config, log: seq<ToolCallRecord>, r: ToolCallRecord)
    requires Realisable(cfg, log + [r]) && 2 <= cfg.maxAttempts
    ensures Realisable(cfg, log) && SinceSuccess(log) + 1 <= cfg.maxAttempts + 1
    ensures var s, since := Successes(log), SinceSuccess(log);
      var s', since' := Successes(log + [r]), SinceSuccess(log + [r]);
      (s' == s && since' == since + 1) || (s' == s + 1 && since' == 0)
  {
    hide Realisable, RecordFits, Parse, RetriesSinceSuccess, Successes, SinceSuccess, FailuresSinceSuccess;
    EmptyLog(cfg);
    UnsnocRealisable(cfg, log, r);
    EpochLaw(cfg, log);
    SnocLog(cfg, log, r);
    SnocEpoch(log, r);
  }

  /** Each success closes a stretch of at most M+1 calls. */
  lemma {:induction false} EpochCount(cfg: Config, log: seq<ToolCallRecord>)
    requires Realisable(cfg, log) && 2 <= cfg.maxAttempts
    ensures |log| <= Successes(log) * (cfg.maxAttempts + 1) + SinceSuccess(log)
  {
    hide Realisable, Successes, SinceSuccess;
    EmptyLog(cfg);
    if log != [] {
      var prefix, r := log[..|log| - 1], log[|log| - 1];
      assert log == prefix + [r];
      EpochCounts(cfg, prefix, r);
      EpochCount(cfg, prefix);
      EpochStep(|prefix|, Successes(prefix), cfg.maxAttempts + 1, SinceSuccess(prefix),
                Successes(log), SinceSuccess(log));
    }
  }

  /**
    Run bound.  With at least two attempts allowed, a turn that is always resumed makes at most
    (s+1)(M+1) tool calls, where s of them succeeded.
  */
  lemma RunBound(cfg: Config, previous: Option<State>, image: bool, os: seq<Oracle>)
    requires 2 <= cfg.maxAttempts
    ensures var s := Exec(cfg, StartTurn(previous, image), os);
      && StackBase(previous) <= |s.toolCallStack|
      && var log := TurnLog(previous, s);
      |log| <= (Successes(log) + 1) * (cfg.maxAttempts + 1)
  {
    hide Exec, StartTurn, Realisable, Parse, RetriesSinceSuccess, Successes, ErrorsOf, LastResult;
    hide NodeFacts, PendingMatches;
    InvExec(cfg, previous, image, os);
    LogBound(cfg, TurnLog(previous, Exec(cfg, StartTurn(previous, image), os)));
  }

  lemma LogBound(cfg: Config, log: seq<ToolCallRecord>)
    requires Realisable(cfg, log) && 2 <= cfg.maxAttempts
    ensures |log| <= (Successes(log) + 1) * (cfg.maxAttempts + 1)
  {
    hide Realisable, Parse, RetriesSinceSuccess, Successes, SinceSuccess, FailuresSinceSuccess;
    EpochLaw(cfg, log);
    EpochCount(cfg, log);
    OneMore(Successes(log), cfg.maxAttempts + 1);
  }

  /** Every call is followed by at most one verdict, so steps are bounded by calls. */
  lemma {:induction false} StepsVersusCalls(cfg: Config, previous: Option<State>, image: bool, os: seq<Oracle>)
    ensures var s := Exec(cfg, StartTurn(previous, image), os);
      && StackBase(previous) <= |s.toolCallStack|
      && var calls := |TurnLog(previous, s)|;
      match s.next
      case End => true
      case Router => |os| == 0
      case Vision => |os| == 1
      case Rag => |os| <= 2
      case Executor => |os| <= 3 + 2 * calls
      case Critic => |os| <= 2 + 2 * calls
  {
    hide Realisable, Parse, RetriesSinceSuccess, Successes, ErrorsOf, LastResult, PendingMatches;
    InvExec(cfg, previous, image, os);
    if os != [] {
      InvExec(cfg, previous, image, os[..|os| - 1]);
      StepsVersusCalls(cfg, previous, image, os[..|os| - 1]);
    }
  }

  /** Termination: a run whose calls succeed at most s times has ended after 3 + 2(s+1)(M+1) steps. */
  lemma RunTerminates(cfg: Config, previous: Option<State>, image: bool, os: seq<Oracle>)
    requires 2 <= cfg.maxAttempts
    ensures var s := Exec(cfg, StartTurn(previous, image), os);
      && StackBase(previous) <= |s.toolCallStack|
      && var successes := Successes(TurnLog(previous, s));
      |os| > 3 + 2 * ((successes + 1) * (cfg.maxAttempts + 1)) ==> s.next == End
  {
    RunBound(cfg, previous, image, os);
    StepsVersusCalls(cfg, previous, image, os);
  }

  // ---------------------------------------------------------------- the bound is met, and needs its s

  function Record(status: Status, attempt: int): ToolCallRecord {
    ToolCallRecord("query_knowledge_base", "", attempt, status,
                   if status == Success then Some("") else None, if status == Success then None else Some(""))
  }

  /** What may follow a log, written with the block it continues. */
  lemma Extend(cfg: Config, log: seq<ToolCallRecord>, status: Status)
    requires Realisable(cfg, log)
    requires log != [] ==> RetriesSinceSuccess(log) < cfg.maxAttempts
    requires forall i :: 0 <= i < |Parse(log).open| ==> Parse(log).open[i].toolName == "query_knowledge_base"
    requires status != Pending
    requires status == Retrying ==> |Parse(log).open| + 1 < cfg.maxAttempts
    requires status == Failed ==> cfg.maxAttempts <= |Parse(log).open| + 1
    ensures var log' := log + [Record(status, |Parse(log).open| + 1)];
      && Realisable(cfg, log')
      && Successes(log') == Successes(log) + (if status == Success then 1 else 0)
      && RetriesSinceSuccess(log') ==
         (if status == Success then 0 else RetriesSinceSuccess(log) + if status == Retrying then 1 else 0)
      && Parse(log').open ==
           (if status == Retrying then Parse(log).open + [Record(status, |Parse(log).open| + 1)] else [])
  {
    hide Realisable, Parse, RetriesSinceSuccess, Successes, ErrorsOf, LastResult;
    var r := Record(status, |Parse(log).open| + 1);
    SnocRealisable(cfg, log, r);
    SnocLog(cfg, log, r);
  }

  /** Appends `k` retries to a log whose open plan has room for them. */
  lemma {:induction false} ExtendRetries(cfg: Config, log: seq<ToolCallRecord>, k: nat)
    returns (log': seq<ToolCallRecord>)
    requires Realisable(cfg, log) && Parse(log).open == []
    requires k < cfg.maxAttempts && RetriesSinceSuccess(log) + k <= cfg.maxAttempts
    requires log != [] && k == 0 ==> RetriesSinceSuccess(log) < cfg.maxAttempts
    ensures Realisable(cfg, log') && |log'| == |log| + k && Successes(log') == Successes(log)
    ensures RetriesSinceSuccess(log') == RetriesSinceSuccess(log) + k
    ensures |Parse(log').open| == k
    ensures forall i :: 0 <= i < k ==> Parse(log').open[i].toolName == "query_knowledge_base"
  {
    hide Realisable, Parse, RetriesSinceSuccess, Successes;
    if k == 0 {
      log' := log;
    } else {
      log' := ExtendRetries(cfg, log, k - 1);
      Extend(cfg, log', Retrying);
      log' := log' + [Record(Retrying, k)];
    }
  }

  /** M-1 retries and an abandoned plan: M calls that leave one retry in the budget. */
  lemma SpendOnePlan(cfg: Config, log: seq<ToolCallRecord>) returns (log': seq<ToolCallRecord>)
    requires 2 <= cfg.maxAttempts
    requires Realisable(cfg, log) && Parse(log).open == [] && RetriesSinceSuccess(log) == 0
    ensures Realisable(cfg, log') && |log'| == |log| + cfg.maxAttempts && Successes(log') == Successes(log)
    ensures RetriesSinceSuccess(log') == cfg.maxAttempts - 1 && Parse(log').open == []
  {
    hide Realisable, Parse, RetriesSinceSuccess, Successes;
    log' := ExtendRetries(cfg, log, cfg.maxAttempts - 1);
    Extend(cfg, log', Failed);
    log' := log' + [Record(Failed, cfg.maxAttempts)];
  }

  lemma {:induction false} TightPrefix(cfg: Config, s: nat) returns (log: seq<ToolCallRecord>)
    requires 2 <= cfg.maxAttempts
    ensures Realisable(cfg, log) && Successes(log) == s && |log| == s * (cfg.maxAttempts + 1)
    ensures Parse(log).open == [] && RetriesSinceSuccess(log) == 0
  {
    hide Realisable, Parse, RetriesSinceSuccess, Successes;
    log := [];
    EmptyLog(cfg);
    if s > 0 {
      log := TightPrefix(cfg, s - 1);
      log := SpendOnePlan(cfg, log);
      Extend(cfg, log, Success);
      log := log + [Record(Success, 1)];
      OneMore(s - 1, cfg.maxAttempts + 1);
    }
  }

  /** The bound is exact: for every cap and every number of successes a run meets it and then ends. */
  lemma RunBoundIsTight(cfg: Config, s: nat)
    requires 2 <= cfg.maxAttempts
    ensures exists os: seq<Oracle> ::
      var e := Exec(cfg, StartTurn(None, false), os);
      && e.next == End && Successes(e.toolCallStack) == s
      && |e.toolCallStack| == (s + 1) * (cfg.maxAttempts + 1)
  {
    var log := TightPrefix(cfg, s);
    log := SpendOnePlan(cfg, log);
    log := ExtendRetries(cfg, log, 1);
    OneMore(s, cfg.maxAttempts + 1);
    var os := Realise(cfg, log, "");
    var start, o := StartTurn(None, false), Producing(log[0], "");
    InvExec(cfg, None, false, os);
    var p := Exec(cfg, start, os);
    assert p.toolCallStack[0..] == log;
    ExecSnoc(cfg, start, os, o);
    var e := Exec(cfg, start, os + [o]);
    assert e.next == End && e.toolCallStack == log;
  }

  lemma {:induction false} Repeated(cfg: Config, status: Status, n: nat) returns (log: seq<ToolCallRecord>)
    requires 1 <= cfg.maxAttempts && (status == Success || (status == Failed && cfg.maxAttempts == 1))
    ensures Realisable(cfg, log) && |log| == n && Successes(log) == (if status == Success then n else 0)
    ensures Parse(log).open == [] && RetriesSinceSuccess(log) == 0
  {
    hide Realisable, Parse, RetriesSinceSuccess, Successes;
    log := [];
    EmptyLog(cfg);
    if n > 0 {
      log := Repeated(cfg, status, n - 1);
      Extend(cfg, log, status);
      log := log + [Record(status, 1)];
    }
  }

  ghost predicate RunsBoundedBy(cfg: Config, bound: nat) {
    forall os: seq<Oracle> :: |Exec(cfg, StartTurn(None, false), os).toolCallStack| <= bound
  }

  /** Success followed by a FAIL verdict can repeat any number of times: a bound on runs must mention s. */
  lemma SuccessLoop(cfg: Config, n: nat)
    requires 1 <= cfg.maxAttempts
    ensures exists os: seq<Oracle> ::
      var e := Exec(cfg, StartTurn(None, false), os);
      e.next != End && |e.toolCallStack| == n == Successes(e.toolCallStack)
  {
    var log := Repeated(cfg, Success, n);
    var os := Realise(cfg, log, "");
    assert Exec(cfg, StartTurn(None, false), os).toolCallStack == log;
  }

  /** So the calls of a turn are bounded for every oracle only when not even one retry is budgeted. */
  lemma RunsBounded(cfg: Config)
    ensures (exists bound: nat :: RunsBoundedBy(cfg, bound)) <==> cfg.maxAttempts < 1
  {
    if cfg.maxAttempts < 1 {
      forall os: seq<Oracle> ensures |Exec(cfg, StartTurn(None, false), os).toolCallStack| <= 1 {
        OneCallWithoutBudget(cfg, os);
      }
      assert RunsBoundedBy(cfg, 1);
    } else {
      forall bound: nat ensures !RunsBoundedBy(cfg, bound) {
        SuccessLoop(cfg, bound + 1);
      }
    }
  }

  lemma OneCallWithoutBudget(cfg: Config, os: seq<Oracle>)
    requires cfg.maxAttempts < 1
    ensures |Exec(cfg, StartTurn(None, false), os).toolCallStack| <= 1
  {
    var log := Exec(cfg, StartTurn(None, false), os).toolCallStack;
    InvExec(cfg, None, false, os);
    assert log[0..] == log;
    var first := if log == [] then log else log[..1];
    assert 0 <= RetriesSinceSuccess(first);
  }

  ghost predicate ZeroSuccessRunsBoundedBy(cfg: Config, bound: nat) {
    forall os: seq<Oracle> ::
      var log := Exec(cfg, StartTurn(None, false), os).toolCallStack;
      Successes(log) == 0 ==> |log| <= bound
  }

  lemma ZeroSuccessRun(cfg: Config, os: seq<Oracle>)
    requires 2 <= cfg.maxAttempts
    ensures var log := Exec(cfg, StartTurn(None, false), os).toolCallStack;
      Successes(log) == 0 ==> |log| <= cfg.maxAttempts + 1
  {
    hide Exec, StartTurn, Successes;
    RunBound(cfg, None, false, os);
    var log := Exec(cfg, StartTurn(None, false), os).toolCallStack;
    assert log[0..] == log;
  }

  lemma ZeroSuccessLoop(cfg: Config, bound: nat)
    requires cfg.maxAttempts == 1
    ensures !ZeroSuccessRunsBoundedBy(cfg, bound)
  {
    hide Exec, StartTurn, Realisable, Successes;
    var log := Repeated(cfg, Failed, bound + 1);
    var os := Realise(cfg, log, "");
    assert Exec(cfg, StartTurn(None, false), os).toolCallStack == log;
  }

  /**
    Runs in which no call succeeds are bounded exactly when the cap is not 1: with a cap of 1 a
    failed call spends no retry, so a FAIL verdict replans for ever.
  */
  lemma ZeroSuccessRunsBounded(cfg: Config)
    ensures (exists bound: nat :: ZeroSuccessRunsBoundedBy(cfg, bound)) <==> cfg.maxAttempts != 1
  {
    hide Exec, StartTurn, Successes;
    if cfg.maxAttempts == 1 {
      forall bound: nat ensures !ZeroSuccessRunsBoundedBy(cfg, bound) {
        ZeroSuccessLoop(cfg, bound);
      }
    } else {
      var bound := if cfg.maxAttempts < 1 then 1 else cfg.maxAttempts + 1;
      forall os: seq<Oracle>
        ensures var log := Exec(cfg, StartTurn(None, false), os).toolCallStack;
          Successes(log) == 0 ==> |log| <= bound
      {
        if cfg.maxAttempts >= 2 {
          ZeroSuccessRun(cfg, os);
        } else {
          OneCallWithoutBudget(cfg, os);
        }
      }
      assert ZeroSuccessRunsBoundedBy(cfg, bound);
    }
  }

  // ---------------------------------------------------------------- how a turn ends

  /** The answer a passed turn gives is about the last call that succeeded, never about a failed one. */
  lemma PassedEnd(cfg: Config, previous: Option<State>, image: bool, os: seq<Oracle>)
    ensures var s := Exec(cfg, StartTurn(previous, image), os);
      && StackBase(previous) <= |s.toolCallStack|
      && (s.finalResponse.Some? <==> s.next == End && s.verificationPassed == Some(true))
      && (s.finalResponse.Some? ==>
            match LastResult(cfg, TurnLog(previous, s))
            case None => s.finalResponse == Some(NoActionNeeded(s.intent))
            case Some(result) => s.finalResponse == Some(ActionDone(s.intent, result)))
  {
    InvExec(cfg, previous, image, os);
  }

  /** A log whose retry budget is used up ends with the first retry of a new plan. */
  lemma SpentBudget(cfg: Config, log: seq<ToolCallRecord>)
    requires Realisable(cfg, log) && 2 <= cfg.maxAttempts <= RetriesSinceSuccess(log)
    ensures RetriesSinceSuccess(log) == cfg.maxAttempts && SinceSuccess(log) == cfg.maxAttempts + 1
    ensures FailuresSinceSuccess(log) == 1 && log != []
    ensures var r := log[|log| - 1]; r.status == Retrying && r.attempt == 1 && Parse(log).open == [r]
  {
    hide Realisable, Parse, RetriesSinceSuccess, Successes, ErrorsOf, LastResult, SinceSuccess, FailuresSinceSuccess;
    EmptyLog(cfg);
    EpochLaw(cfg, log);
    var prefix, r := log[..|log| - 1], log[|log| - 1];
    assert log == prefix + [r];
    UnsnocRealisable(cfg, prefix, r);
    SnocLog(cfg, prefix, r);
    EpochLaw(cfg, prefix);
    SnocEpoch(prefix, r);
  }

  /**
    A turn that ends without an answer has used its retry budget exactly: since the last success it
    made M+1 calls, one of which closed a plan, and it leaves the last call pending.
  */
  lemma UnsuccessfulEnd(cfg: Config, previous: Option<State>, image: bool, os: seq<Oracle>)
    requires 2 <= cfg.maxAttempts
    ensures var s := Exec(cfg, StartTurn(previous, image), os);
      && StackBase(previous) <= |s.toolCallStack|
      && var log := TurnLog(previous, s);
      s.next == End && s.finalResponse == None ==>
        && s.retryCount == cfg.maxAttempts
        && SinceSuccess(log) == cfg.maxAttempts + 1 && FailuresSinceSuccess(log) == 1
        && log[|log| - 1].status == Retrying && log[|log| - 1].attempt == 1
        && s.pendingToolCall.Some?
        && s.pendingToolCall.value == log[|log| - 1].(arguments := s.pendingToolCall.value.arguments)
  {
    hide Exec, StartTurn, Realisable, Parse, RetriesSinceSuccess, Successes, ErrorsOf, LastResult;
    hide SinceSuccess, FailuresSinceSuccess;
    InvExec(cfg, previous, image, os);
    var s := Exec(cfg, StartTurn(previous, image), os);
    if s.next == End && s.finalResponse == None {
      SpentBudget(cfg, TurnLog(previous, s));
    }
  }
}
