/**
  The support agent's graph as a step machine: router, optional photo inspection,
  policy retrieval, tool executor and verification critic.

  Every answer that comes from outside the graph (the language model's plan, the tool
  server's outcome, the repaired arguments, the critic's verdict) is an oracle, so each
  theorem holds for all of them.  Nodes return partial updates and `Apply` merges them:
  the two logs are appended to, every other field is overwritten when it is present.
*/
module AgentGraph {
  import opened Wrappers

  type Json = string

  datatype Status = Pending | Success | Failed | Retrying

  datatype ToolCallRecord = ToolCallRecord(
    toolName: string,
    arguments: Json,
    attempt: int,
    status: Status,
    result: Option<Json>,
    error: Option<string>)

  datatype ExecutionError = ExecutionError(message: string, attempt: int)

  datatype FinalResponse =
    | NoActionNeeded(intent: Option<string>)
    | ActionDone(intent: Option<string>, toolResult: Json)

  datatype Node = Router | Vision | Rag | Executor | Critic | End

  datatype State = State(
    next: Node,
    imageAttached: bool,
    intent: Option<string>,
    toolCallStack: seq<ToolCallRecord>,
    pendingToolCall: Option<ToolCallRecord>,
    executionErrors: seq<ExecutionError>,
    retryCount: int,
    lastToolResult: Option<Json>,
    verificationPassed: Option<bool>,
    finalResponse: Option<FinalResponse>)

  /** What a node returns: absent fields are `None`, an absent log entry is `[]`. */
  datatype Update = Update(
    intent: Option<string> := None,
    toolCallStack: seq<ToolCallRecord> := [],
    pendingToolCall: Option<Option<ToolCallRecord>> := None,
    executionErrors: seq<ExecutionError> := [],
    retryCount: Option<int> := None,
    lastToolResult: Option<Json> := None,
    verificationPassed: Option<bool> := None,
    finalResponse: Option<Option<FinalResponse>> := None)

  datatype ToolOutcome = Returned(result: Json) | Raised(message: string)

  /** The outside world's answers for one step. */
  datatype Oracle = Oracle(
    intent: string,
    plannedTool: string,
    plannedArguments: Json,
    outcome: ToolOutcome,
    adjustedArguments: Json,
    verdictPass: bool)

  datatype Config = Config(maxAttempts: int, visionEnabled: bool, sanitize: Json -> Json)

  // ---------------------------------------------------------------- the nodes

  function OrElse<T>(field: Option<T>, current: T): T {
    match field
    case Some(v) => v
    case None => current
  }

  function Apply(s: State, u: Update): State {
    s.(intent := if u.intent.Some? then u.intent else s.intent,
       toolCallStack := s.toolCallStack + u.toolCallStack,
       pendingToolCall := OrElse(u.pendingToolCall, s.pendingToolCall),
       executionErrors := s.executionErrors + u.executionErrors,
       retryCount := OrElse(u.retryCount, s.retryCount),
       lastToolResult := if u.lastToolResult.Some? then u.lastToolResult else s.lastToolResult,
       verificationPassed := if u.verificationPassed.Some? then u.verificationPassed else s.verificationPassed,
       finalResponse := OrElse(u.finalResponse, s.finalResponse))
  }

  function PlanToolCall(o: Oracle): ToolCallRecord {
    ToolCallRecord(o.plannedTool, o.plannedArguments, 0, Pending, None, None)
  }

  /** The record the executor appends for one call of `pending`. */
  function CallRecord(cfg: Config, pending: ToolCallRecord, outcome: ToolOutcome): ToolCallRecord {
    var attempt := pending.attempt + 1;
    match outcome
    case Returned(result) =>
      ToolCallRecord(pending.toolName, pending.arguments, attempt, Success, Some(result), None)
    case Raised(message) =>
      ToolCallRecord(pending.toolName, pending.arguments, attempt,
                     if attempt < cfg.maxAttempts then Retrying else Failed, None, Some(message))
  }

  /** The call the executor is about to make: the pending one, or a fresh plan. */
  function PlannedCall(s: State, o: Oracle): ToolCallRecord {
    match s.pendingToolCall
    case Some(p) => p
    case None => PlanToolCall(o)
  }

  function ActionExecutorNode(cfg: Config, s: State, o: Oracle): Update {
    var pending := PlannedCall(s, o);
    var record := CallRecord(cfg, pending, o.outcome);
    match o.outcome
    case Returned(result) =>
      Update(toolCallStack := [record], pendingToolCall := Some(None), retryCount := Some(0),
             lastToolResult := Some(cfg.sanitize(result)))
    case Raised(message) =>
      var error := ExecutionError(message, record.attempt);
      if record.attempt < cfg.maxAttempts then
        Update(toolCallStack := [record],
               pendingToolCall := Some(Some(record.(arguments := o.adjustedArguments))),
               retryCount := Some(s.retryCount + 1), executionErrors := [error])
      else
        Update(toolCallStack := [record], pendingToolCall := Some(None), executionErrors := [error])
  }

  function ComposeFinalResponse(s: State): FinalResponse {
    match s.lastToolResult
    case None => NoActionNeeded(s.intent)
    case Some(r) => ActionDone(s.intent, r)
  }

  function VerificationCriticNode(s: State, o: Oracle): Update {
    Update(verificationPassed := Some(o.verdictPass),
           finalResponse := Some(if o.verdictPass then Some(ComposeFinalResponse(s)) else None))
  }

  // ---------------------------------------------------------------- the edges

  function RouteAfterRouter(cfg: Config, s: State): Node {
    if cfg.visionEnabled && s.imageAttached then Vision else Rag
  }

  function RouteAfterExecutor(cfg: Config, s: State): Node {
    if s.pendingToolCall.Some? && s.retryCount < cfg.maxAttempts then Executor else Critic
  }

  function RouteAfterVerification(cfg: Config, s: State): Node {
    if s.verificationPassed == Some(false) && s.retryCount < cfg.maxAttempts then Executor else End
  }

  function Step(cfg: Config, s: State, o: Oracle): State
    requires s.next != End
  {
    match s.next
    case Router =>
      var s' := Apply(s, Update(intent := Some(o.intent)));
      s'.(next := RouteAfterRouter(cfg, s'))
    case Vision => s.(next := Rag)
    case Rag => s.(next := Executor)
    case Executor =>
      var s' := Apply(s, ActionExecutorNode(cfg, s, o));
      s'.(next := RouteAfterExecutor(cfg, s'))
    case Critic =>
      var s' := Apply(s, VerificationCriticNode(s, o));
      s'.(next := RouteAfterVerification(cfg, s'))
  }

  /** The gate predicate the API layer evaluates on every emitted state. */
  predicate RequiresHumanApproval(s: State) {
    s.pendingToolCall.Some?
    && s.pendingToolCall.value.toolName in {"process_high_value_refund", "execute_order_action"}
    && s.pendingToolCall.value.status == Pending
  }

  /** A new turn on a thread: the logs of earlier turns stay, all else is reset. */
  function StartTurn(previous: Option<State>, imageAttached: bool): State {
    var (stack, errors) := match previous
      case None => ([], [])
      case Some(p) => (p.toolCallStack, p.executionErrors);
    State(Router, imageAttached, None, stack, None, errors, 0, None, None, None)
  }

  /** The state after the oracles `os`, resuming through every interrupt, and stopping at `End`. */
  function Exec(cfg: Config, s: State, os: seq<Oracle>): State {
    if os == [] then s
    else
      var p := Exec(cfg, s, os[..|os| - 1]);
      if p.next == End then p else Step(cfg, p, os[|os| - 1])
  }

  // ---------------------------------------------------------------- the shape of a log

  function RetriesSinceSuccess(log: seq<ToolCallRecord>): nat {
    if log == [] then 0
    else match log[|log| - 1].status
      case Success => 0
      case Retrying => RetriesSinceSuccess(log[..|log| - 1]) + 1
      case _ => RetriesSinceSuccess(log[..|log| - 1])
  }

  function Successes(log: seq<ToolCallRecord>): nat {
    if log == [] then 0
    else Successes(log[..|log| - 1]) + if log[|log| - 1].status == Success then 1 else 0
  }

  /** The errors a log accounts for: one per call that did not succeed, in order. */
  function ErrorsOf(log: seq<ToolCallRecord>): seq<ExecutionError> {
    if log == [] then []
    else
      var last := log[|log| - 1];
      ErrorsOf(log[..|log| - 1]) +
      if last.status == Success then [] else [ExecutionError(OrElse(last.error, ""), last.attempt)]
  }

  /** The sanitised result of the last successful call. */
  function LastResult(cfg: Config, log: seq<ToolCallRecord>): Option<Json> {
    if log == [] then None
    else if log[|log| - 1].status == Success then Some(cfg.sanitize(OrElse(log[|log| - 1].result, "")))
    else LastResult(cfg, log[..|log| - 1])
  }

  datatype Blocks = Blocks(closed: seq<seq<ToolCallRecord>>, open: seq<ToolCallRecord>)

  /** Cuts a log after every record that is not a retry: one block per plan. */
  function Parse(log: seq<ToolCallRecord>): Blocks {
    if log == [] then Blocks([], [])
    else
      var b := Parse(log[..|log| - 1]);
      var last := log[|log| - 1];
      if last.status == Retrying then b.(open := b.open + [last])
      else Blocks(b.closed + [b.open + [last]], [])
  }

  function Flatten(bs: seq<seq<ToolCallRecord>>): seq<ToolCallRecord> {
    if bs == [] then [] else Flatten(bs[..|bs| - 1]) + bs[|bs| - 1]
  }

  /** One plan's calls so far: a single tool, attempts 1, 2, ..., and only the last one not a retry. */
  ghost predicate PlanBlock(cfg: Config, b: seq<ToolCallRecord>) {
    forall i :: 0 <= i < |b| ==> RecordFits(cfg, b, i)
  }

  ghost predicate RecordFits(cfg: Config, b: seq<ToolCallRecord>, i: nat)
    requires i < |b|
  {
    var r := b[i];
    && r.toolName == b[0].toolName
    && r.attempt == i + 1
    && (i < |b| - 1 ==> r.status == Retrying)
    && match r.status
       case Pending => false
       case Success => r.result.Some? && r.error.None?
       case Retrying => r.attempt < cfg.maxAttempts && r.result.None? && r.error.Some?
       case Failed => cfg.maxAttempts <= r.attempt && r.result.None? && r.error.Some?
  }

  ghost predicate ClosedBlock(cfg: Config, b: seq<ToolCallRecord>) {
    PlanBlock(cfg, b) && b != [] && b[|b| - 1].status != Retrying
  }

  ghost predicate OpenBlock(cfg: Config, b: seq<ToolCallRecord>) {
    PlanBlock(cfg, b) && (b != [] ==> b[|b| - 1].status == Retrying)
  }

  /** A sequence of plans, each one closed except possibly the last. */
  ghost predicate Grammatical(cfg: Config, log: seq<ToolCallRecord>) {
    var b := Parse(log);
    && (forall i :: 0 <= i < |b.closed| ==> ClosedBlock(cfg, b.closed[i]))
    && OpenBlock(cfg, b.open)
  }

  /** The loop edges were taken only while the retry budget was not used up. */
  ghost predicate WithinBudget(cfg: Config, log: seq<ToolCallRecord>) {
    forall n :: 0 < n < |log| ==> RetriesSinceSuccess(log[..n]) < cfg.maxAttempts
  }

  ghost predicate Realisable(cfg: Config, log: seq<ToolCallRecord>) {
    Grammatical(cfg, log) && WithinBudget(cfg, log)
  }

  lemma ParseSnoc(log: seq<ToolCallRecord>, r: ToolCallRecord)
    ensures Parse(log + [r]) ==
            if r.status == Retrying then Parse(log).(open := Parse(log).open + [r])
            else Blocks(Parse(log).closed + [Parse(log).open + [r]], [])
  {
    assert (log + [r])[..|log|] == log;
  }

  lemma FlattenSnoc(bs: seq<seq<ToolCallRecord>>, b: seq<ToolCallRecord>)
    ensures Flatten(bs + [b]) == Flatten(bs) + b
  {
    assert (bs + [b])[..|bs|] == bs;
  }

  lemma {:induction false} ParseFlattens(log: seq<ToolCallRecord>)
    ensures Flatten(Parse(log).closed) + Parse(log).open == log
  {
    hide Parse, Flatten;
    if log == [] {
      ParseEmpty();
    } else {
      var prefix, last := log[..|log| - 1], log[|log| - 1];
      var b := Parse(prefix);
      assert log == prefix + [last];
      ParseFlattens(prefix);
      ParseSnoc(prefix, last);
      FlattenSnoc(b.closed, b.open + [last]);
      assert Flatten(b.closed) + (b.open + [last]) == (Flatten(b.closed) + b.open) + [last];
    }
  }

  lemma ParseEmpty()
    ensures Parse([]) == Blocks([], []) && Flatten([]) == []
  {
  }

  // ---------------------------------------------------------------- the invariant

  /**
    What every state of a turn satisfies, when `log` is the part of the tool-call stack
    that this turn appended after the first `n` records and `m` errors.
  */
  ghost predicate Inv(cfg: Config, s: State, n: nat, m: nat) {
    && n <= |s.toolCallStack| && m <= |s.executionErrors|
    && var log := s.toolCallStack[n..];
    && Realisable(cfg, log)
    && s.executionErrors[m..] == ErrorsOf(log)
    && s.retryCount == RetriesSinceSuccess(log)
    && s.lastToolResult == LastResult(cfg, log)
    && PendingMatches(s, Parse(log).open)
    && NodeFacts(cfg, s, log)
  }

  ghost predicate PendingMatches(s: State, open: seq<ToolCallRecord>) {
    if open == [] then s.pendingToolCall == None
    else
      && s.pendingToolCall.Some?
      && s.pendingToolCall.value == open[|open| - 1].(arguments := s.pendingToolCall.value.arguments)
  }

  ghost predicate NodeFacts(cfg: Config, s: State, log: seq<ToolCallRecord>) {
    match s.next
    case End =>
      && log != []
      && s.verificationPassed.Some?
      && (s.verificationPassed.value ==> s.finalResponse == Some(ComposeFinalResponse(s)))
      && (!s.verificationPassed.value ==> s.finalResponse == None && cfg.maxAttempts <= s.retryCount)
    case Critic =>
      && log != []
      && s.verificationPassed != Some(true) && s.finalResponse == None
      && (s.pendingToolCall.Some? ==> cfg.maxAttempts <= s.retryCount)
    case Executor =>
      && s.verificationPassed != Some(true) && s.finalResponse == None
      && (log != [] ==> s.retryCount < cfg.maxAttempts)
      && (log != [] ==> s.pendingToolCall.Some? || s.verificationPassed == Some(false))
    case _ =>
      log == [] && s.verificationPassed == None && s.finalResponse == None
  }

  /** How the log functions change when one record is appended. */
  lemma SnocLog(cfg: Config, log: seq<ToolCallRecord>, r: ToolCallRecord)
    ensures var log' := log + [r];
      && RetriesSinceSuccess(log') ==
         (match r.status
          case Success => 0
          case Retrying => RetriesSinceSuccess(log) + 1
          case _ => RetriesSinceSuccess(log))
      && Successes(log') == Successes(log) + (if r.status == Success then 1 else 0)
      && ErrorsOf(log') == ErrorsOf(log) +
           (if r.status == Success then [] else [ExecutionError(OrElse(r.error, ""), r.attempt)])
      && LastResult(cfg, log') ==
           (if r.status == Success then Some(cfg.sanitize(OrElse(r.result, ""))) else LastResult(cfg, log))
      && Parse(log') ==
           (if r.status == Retrying then Parse(log).(open := Parse(log).open + [r])
            else Blocks(Parse(log).closed + [Parse(log).open + [r]], []))
  {
    assert (log + [r])[..|log|] == log;
  }

  lemma SnocBlock(cfg: Config, b: seq<ToolCallRecord>, r: ToolCallRecord)
    requires OpenBlock(cfg, b)
    requires RecordFits(cfg, b + [r], |b|)
    ensures PlanBlock(cfg, b + [r])
  {
    var b' := b + [r];
    forall i | 0 <= i < |b'| ensures RecordFits(cfg, b', i) {
      if i < |b| {
        assert RecordFits(cfg, b, i);
      }
    }
  }

  lemma SnocRealisable(cfg: Config, log: seq<ToolCallRecord>, r: ToolCallRecord)
    requires Realisable(cfg, log)
    requires log != [] ==> RetriesSinceSuccess(log) < cfg.maxAttempts
    requires var open := Parse(log).open; RecordFits(cfg, open + [r], |open|)
    ensures Realisable(cfg, log + [r])
  {
    hide Parse, RetriesSinceSuccess, Successes, ErrorsOf, LastResult;
    SnocLog(cfg, log, r);
    SnocBlock(cfg, Parse(log).open, r);
    var log' := log + [r];
    forall n | 0 < n < |log'| ensures RetriesSinceSuccess(log'[..n]) < cfg.maxAttempts {
      assert log'[..n] == log[..n];
      assert n == |log| ==> log[..n] == log;
    }
  }

  lemma InvStep(cfg: Config, s: State, n: nat, m: nat, o: Oracle)
    requires Inv(cfg, s, n, m) && s.next != End
    ensures Inv(cfg, Step(cfg, s, o), n, m)
  {
    var s' := Step(cfg, s, o);
    if s.next == Executor {
      InvExecutor(cfg, s, n, m, o);
    } else {
      assert s'.toolCallStack == s.toolCallStack && s'.executionErrors == s.executionErrors;
    }
  }

  lemma OpenFits(cfg: Config, log: seq<ToolCallRecord>)
    requires Realisable(cfg, log)
    ensures var open := Parse(log).open;
      open != [] ==>
        && RecordFits(cfg, open, 0) && RecordFits(cfg, open, |open| - 1)
        && open[|open| - 1].status == Retrying
  {
    hide Parse;
  }

  /** What one executor step appends and counts. */
  lemma ExecutorLog(cfg: Config, s: State, n: nat, m: nat, o: Oracle)
    requires s.next == Executor && n <= |s.toolCallStack| && m <= |s.executionErrors|
    requires var log := s.toolCallStack[n..];
      && s.executionErrors[m..] == ErrorsOf(log)
      && s.retryCount == RetriesSinceSuccess(log)
      && s.lastToolResult == LastResult(cfg, log)
    ensures var s', log := Step(cfg, s, o), s.toolCallStack[n..] + [CallRecord(cfg, PlannedCall(s, o), o.outcome)];
      && n <= |s'.toolCallStack| && m <= |s'.executionErrors|
      && s'.toolCallStack[n..] == log
      && s'.executionErrors[m..] == ErrorsOf(log)
      && s'.retryCount == RetriesSinceSuccess(log)
      && s'.lastToolResult == LastResult(cfg, log)
  {
    hide Parse, RetriesSinceSuccess, Successes, ErrorsOf, LastResult;
    var s' := Step(cfg, s, o);
    var log, r := s.toolCallStack[n..], CallRecord(cfg, PlannedCall(s, o), o.outcome);
    assert s'.toolCallStack[n..] == log + [r];
    SnocLog(cfg, log, r);
    assert s'.executionErrors[m..] ==
           s.executionErrors[m..] +
           if r.status == Success then [] else [ExecutionError(OrElse(r.error, ""), r.attempt)];
  }

  /** An open plan is the one whose call is pending. */
  lemma ExecutorPending(cfg: Config, s: State, open: seq<ToolCallRecord>, o: Oracle)
    requires s.next == Executor && PendingMatches(s, open)
    requires open != [] ==>
               && RecordFits(cfg, open, 0) && RecordFits(cfg, open, |open| - 1)
               && open[|open| - 1].status == Retrying
    ensures var r := CallRecord(cfg, PlannedCall(s, o), o.outcome);
      && RecordFits(cfg, open + [r], |open|)
      && PendingMatches(Step(cfg, s, o), if r.status == Retrying then open + [r] else [])
  {
  }

  lemma ExecutorFacts(cfg: Config, s: State, log: seq<ToolCallRecord>, o: Oracle)
    requires s.next == Executor && NodeFacts(cfg, s, log)
    ensures NodeFacts(cfg, Step(cfg, s, o), log + [CallRecord(cfg, PlannedCall(s, o), o.outcome)])
  {
  }

  lemma InvExecutor(cfg: Config, s: State, n: nat, m: nat, o: Oracle)
    requires Inv(cfg, s, n, m) && s.next == Executor
    ensures Inv(cfg, Step(cfg, s, o), n, m)
  {
    hide Step, CallRecord, PlannedCall, RecordFits, PendingMatches;
    hide Parse, RetriesSinceSuccess, Successes, ErrorsOf, LastResult, Realisable;
    var log, r := s.toolCallStack[n..], CallRecord(cfg, PlannedCall(s, o), o.outcome);
    OpenFits(cfg, log);
    ExecutorLog(cfg, s, n, m, o);
    ExecutorPending(cfg, s, Parse(log).open, o);
    ExecutorFacts(cfg, s, log, o);
    ParseSnoc(log, r);
    SnocRealisable(cfg, log, r);
  }
}
