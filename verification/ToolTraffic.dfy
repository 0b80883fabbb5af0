/**
  The executor on top of the client: a graph run in which every executor step is one tool call, and every
  tool call up to three requests.
*/
module ToolTraffic {
  import opened AgentGraph
  import AgentGraphRuns
  import McpClient
  import opened Wrappers

  datatype Client = Client(world: McpClient.World, registry: map<string, McpClient.Tool>)

  /** A step's oracle, whose outcome the client decides, and what the handler around a tool call may add. */
  datatype Input = Input(oracle: Oracle, sanitizerRaises: bool, message: string)

  /** What a call of a tool gives if its first request is the k-th. */
  function Answer(c: Client, k: nat, name: string): Result<McpClient.Payload, McpClient.Failure> {
    if name in c.registry then McpClient.CallResult(c.world, k) else Err(McpClient.Protocol)
  }

  /** Requests made by one tool call whose first request would be the k-th. */
  function CallRequests(c: Client, k: nat, name: string): nat {
    if name in c.registry then McpClient.LastSend(c.world, k) + 1 - k else 0
  }

  /** The executor sees the result, unless the call raises or, inside the same handler, the sanitizer does. */
  function OutcomeOf(c: Client, k: nat, name: string, x: Input): ToolOutcome {
    match Answer(c, k, name)
    case Ok(p) => if x.sanitizerRaises then Raised(x.message) else Returned(p.body)
    case Err(_) => Raised(x.message)
  }

  /** The oracle of the next step, with the client's answer in it. */
  function Answered(c: Client, k: nat, s: State, x: Input): Oracle {
    x.oracle.(outcome := OutcomeOf(c, k, PlannedCall(s, x.oracle).toolName, x))
  }

  /** A run so far, and the requests of each of its executor steps. */
  datatype Progress = Progress(state: State, requests: seq<nat>)

  function Sum(xs: seq<nat>): nat {
    if xs == [] then 0 else Sum(xs[..|xs| - 1]) + xs[|xs| - 1]
  }

  function DriveStep(cfg: Config, c: Client, p: Progress, x: Input, k: nat): Progress {
    if p.state.next == End then p
    else
      var at := k + Sum(p.requests);
      Progress(Step(cfg, p.state, Answered(c, at, p.state, x)),
               p.requests + if p.state.next == Executor
                            then [CallRequests(c, at, PlannedCall(p.state, x.oracle).toolName)] else [])
  }

  /** A run whose tool calls go through the client, the next request being the k-th. */
  function Drive(cfg: Config, c: Client, s: State, xs: seq<Input>, k: nat): Progress {
    if xs == [] then Progress(s, [])
    else DriveStep(cfg, c, Drive(cfg, c, s, xs[..|xs| - 1], k), xs[|xs| - 1], k)
  }

  /** A driven turn: `StartTurn` with the tool calls going through the client. */
  function Turn(cfg: Config, c: Client, previous: Option<State>, image: bool, xs: seq<Input>, k: nat): Progress {
    Drive(cfg, c, StartTurn(previous, image), xs, k)
  }

  /** A driven run is one of the runs of the graph, so all that holds of those holds of it. */
  lemma {:induction false} DriveIsRun(cfg: Config, c: Client, s: State, xs: seq<Input>, k: nat)
    returns (os: seq<Oracle>)
    ensures |os| == |xs| && Exec(cfg, s, os) == Drive(cfg, c, s, xs, k).state
  {
    hide Step, Answered, CallRequests;
    if xs == [] {
      os := [];
    } else {
      var n := |xs| - 1;
      var p := Drive(cfg, c, s, xs[..n], k);
      os := DriveIsRun(cfg, c, s, xs[..n], k);
      AgentGraphRuns.ExecSnoc(cfg, s, os, Answered(c, k + Sum(p.requests), p.state, xs[n]));
      os := os + [Answered(c, k + Sum(p.requests), p.state, xs[n])];
    }
  }

  lemma {:induction false} SumAtMost(xs: seq<nat>, each: nat)
    requires forall i :: 0 <= i < |xs| ==> xs[i] <= each
    ensures Sum(xs) <= |xs| * each
  {
    if xs != [] {
      SumAtMost(xs[..|xs| - 1], each);
      assert |xs| * each == (|xs| - 1) * each + each;
    }
  }

  lemma AtMostThree(c: Client, k: nat, name: string)
    ensures CallRequests(c, k, name) <= 3
  {
  }

  lemma NothingAppended(previous: Option<State>, image: bool)
    ensures |StartTurn(previous, image).toolCallStack| == AgentGraphRuns.StackBase(previous)
  {
  }

  /** What a step appends to the log. */
  lemma StackAppend(cfg: Config, s: State, o: Oracle)
    requires s.next != End
    ensures Step(cfg, s, o).toolCallStack ==
            s.toolCallStack + if s.next == Executor then [CallRecord(cfg, PlannedCall(s, o), o.outcome)] else []
  {
  }

  /** One entry per record this turn appended to the log, none above three. */
  lemma {:induction false} RequestsPerRecord(
    cfg: Config, c: Client, previous: Option<State>, image: bool, xs: seq<Input>, k: nat)
    ensures var p := Turn(cfg, c, previous, image, xs, k);
      && AgentGraphRuns.StackBase(previous) + |p.requests| == |p.state.toolCallStack|
      && forall i :: 0 <= i < |p.requests| ==> p.requests[i] <= 3
  {
    hide Step, StartTurn, CallRequests, PlannedCall, CallRecord, Answered, Sum;
    if xs == [] {
      NothingAppended(previous, image);
    } else {
      var rest, x := xs[..|xs| - 1], xs[|xs| - 1];
      var p := Turn(cfg, c, previous, image, rest, k);
      RequestsPerRecord(cfg, c, previous, image, rest, k);
      AtMostThree(c, k + Sum(p.requests), PlannedCall(p.state, x.oracle).toolName);
      if p.state.next != End {
        StackAppend(cfg, p.state, Answered(c, k + Sum(p.requests), p.state, x));
      }
    }
  }

  /**
    Two retry layers together: with s successful calls and M attempts a plan, a turn sends at most
    3 (s + 1) (M + 1) requests.
  */
  lemma TurnRequests(cfg: Config, c: Client, previous: Option<State>, image: bool, xs: seq<Input>, k: nat)
    requires 2 <= cfg.maxAttempts
    ensures var p := Turn(cfg, c, previous, image, xs, k);
      && AgentGraphRuns.StackBase(previous) <= |p.state.toolCallStack|
      && Sum(p.requests) <=
           3 * ((Successes(AgentGraphRuns.TurnLog(previous, p.state)) + 1) * (cfg.maxAttempts + 1))
  {
    hide Exec, Drive, StartTurn, Successes, Sum;
    RequestsPerRecord(cfg, c, previous, image, xs, k);
    SumAtMost(Turn(cfg, c, previous, image, xs, k).requests, 3);
    var os := DriveIsRun(cfg, c, StartTurn(previous, image), xs, k);
    AgentGraphRuns.RunBound(cfg, previous, image, os);
  }

  /** The record of a call agrees with its answer: what one call of the executor leaves behind. */
  ghost predicate RecordOf(c: Client, at: nat, sent: nat, r: ToolCallRecord, x: Input) {
    var a := Answer(c, at, r.toolName);
    && sent == (if r.toolName in c.registry then McpClient.LastSend(c.world, at) + 1 - at else 0)
    && (r.status == Success <==> a.Ok? && !x.sanitizerRaises)
    && (r.status == Success ==> r.toolName in c.registry && r.result == Some(a.value.body))
    && (r.status != Success ==> r.result == None && r.error == Some(x.message))
  }

  lemma RecordTells(cfg: Config, c: Client, at: nat, s: State, x: Input)
    ensures var o := Answered(c, at, s, x);
      RecordOf(c, at, CallRequests(c, at, PlannedCall(s, o).toolName), CallRecord(cfg, PlannedCall(s, o), o.outcome), x)
  {
  }

  lemma AnsweredPlan(c: Client, at: nat, s: State, x: Input)
    ensures PlannedCall(s, Answered(c, at, s, x)) == PlannedCall(s, x.oracle)
  {
  }

  /**
    Every record of a turn is one tool call: it is a success exactly if the tool is registered, its call was
    answered with a result and the sanitizer took it, and then it holds that result.
  */
  lemma {:induction false} RecordsAreAnswers(
    cfg: Config, c: Client, previous: Option<State>, image: bool, xs: seq<Input>, k: nat, i: nat)
    requires AgentGraphRuns.StackBase(previous) + i < |Turn(cfg, c, previous, image, xs, k).state.toolCallStack|
    ensures var p := Turn(cfg, c, previous, image, xs, k);
      && i < |p.requests|
      && exists j :: 0 <= j < |xs| &&
           RecordOf(c, k + Sum(p.requests[..i]), p.requests[i],
                    p.state.toolCallStack[AgentGraphRuns.StackBase(previous) + i], xs[j])
  {
    hide Step, StartTurn, CallRequests, PlannedCall, CallRecord, Answered, Sum, RecordOf;
    var base := AgentGraphRuns.StackBase(previous);
    RequestsPerRecord(cfg, c, previous, image, xs, k);
    if xs == [] {
      NothingAppended(previous, image);
      assert false;
    } else {
      var n := |xs| - 1;
      var p, p' := Turn(cfg, c, previous, image, xs[..n], k), Turn(cfg, c, previous, image, xs, k);
      var at := k + Sum(p.requests);
      RequestsPerRecord(cfg, c, previous, image, xs[..n], k);
      if p.state.next != End {
        StackAppend(cfg, p.state, Answered(c, at, p.state, xs[n]));
      }
      if i < |p.requests| {
        RecordsAreAnswers(cfg, c, previous, image, xs[..n], k, i);
        assert p'.requests[..i] == p.requests[..i];
        var j :| 0 <= j < n
                 && RecordOf(c, k + Sum(p.requests[..i]), p.requests[i], p.state.toolCallStack[base + i], xs[..n][j]);
        assert xs[j] == xs[..n][j];
      } else {
        RecordTells(cfg, c, at, p.state, xs[n]);
        AnsweredPlan(c, at, p.state, xs[n]);
        assert p'.requests[..i] == p.requests;
      }
    }
  }

  // ---------------------------------------------------------------- the bound is met

  /** Servers that fail every call twice and then give the result that the log tells of, if any. */
  function Reluctant(log: seq<ToolCallRecord>): Client {
    Client((k: nat) => if k % 3 == 2 && k / 3 < |log| && log[k / 3].result.Some?
                       then McpClient.Replied(None, Some(McpClient.Payload([], log[k / 3].result.value)))
                       else McpClient.TransportFailed,
           map name | name in set i | 0 <= i < |log| :: log[i].toolName :: McpClient.Tool(name, ""))
  }

  lemma ReluctantCall(log: seq<ToolCallRecord>, i: nat)
    requires i < |log|
    ensures var c, name := Reluctant(log), log[i].toolName;
      && CallRequests(c, 3 * i, name) == 3
      && Answer(c, 3 * i, name) ==
           match log[i].result
           case Some(r) => Ok(McpClient.Payload([], r))
           case None => Err(McpClient.Transport)
  {
    var w := Reluctant(log).world;
    assert (3 * i) % 3 == 0 && (3 * i + 1) % 3 == 1 && (3 * i + 2) % 3 == 2 && (3 * i + 2) / 3 == i;
    assert w(3 * i).TransportFailed? && w(3 * i + 1).TransportFailed?;
    assert log[i].toolName in set j | 0 <= j < |log| :: log[j].toolName;
  }

  lemma SumSnoc(xs: seq<nat>, x: nat)
    ensures Sum(xs + [x]) == Sum(xs) + x
  {
    assert (xs + [x])[..|xs|] == xs;
  }

  /** The inputs that leave the outcomes to the client, with the messages of the failures. */
  function Inputs(os: seq<Oracle>): (xs: seq<Input>)
    ensures |xs| == |os|
  {
    if os == [] then []
    else Inputs(os[..|os| - 1]) + [InputOf(os[|os| - 1])]
  }

  function InputOf(o: Oracle): Input {
    Input(o, false, if o.outcome.Raised? then o.outcome.message else "")
  }

  /** The reluctant servers give a step the outcome that its record in the log tells of. */
  lemma ReluctantStep(cfg: Config, log: seq<ToolCallRecord>, s: State, o: Oracle)
    requires s.next != End
    requires s.next == Executor ==>
               |s.toolCallStack| < |log| && log[|s.toolCallStack|] == CallRecord(cfg, PlannedCall(s, o), o.outcome)
    ensures var c, at, x := Reluctant(log), 3 * |s.toolCallStack|, InputOf(o);
      && Step(cfg, s, Answered(c, at, s, x)) == Step(cfg, s, o)
      && (s.next == Executor ==> CallRequests(c, at, PlannedCall(s, x.oracle).toolName) == 3)
  {
    hide Reluctant, CallRequests, Answer;
    if s.next == Executor {
      ReluctantCall(log, |s.toolCallStack|);
    }
  }

  lemma {:induction false} ReluctantRun(cfg: Config, log: seq<ToolCallRecord>, os: seq<Oracle>)
    requires Exec(cfg, StartTurn(None, false), os).toolCallStack <= log
    ensures var e, p := Exec(cfg, StartTurn(None, false), os), Turn(cfg, Reluctant(log), None, false, Inputs(os), 0);
      p.state == e && Sum(p.requests) == 3 * |e.toolCallStack|
  {
    hide Step, StartTurn, CallRequests, PlannedCall, CallRecord, Answered, Sum, Reluctant, InputOf;
    if os == [] {
      NothingAppended(None, false);
      SumNothing();
    } else {
      var n := |os| - 1;
      var e := Exec(cfg, StartTurn(None, false), os[..n]);
      assert Inputs(os)[..n] == Inputs(os[..n]);
      if e.next != End {
        StackAppend(cfg, e, os[n]);
      }
      ReluctantRun(cfg, log, os[..n]);
      if e.next != End {
        var c := Reluctant(log);
        var before, after := Turn(cfg, c, None, false, Inputs(os[..n]), 0), Turn(cfg, c, None, false, Inputs(os), 0);
        ReluctantStep(cfg, log, e, os[n]);
        SumSnoc(before.requests, 3);
        assert after == DriveStep(cfg, c, before, InputOf(os[n]), 0);
        assert after.requests == if e.next == Executor then before.requests + [3] else before.requests;
      }
    }
  }

  lemma SumNothing()
    ensures Sum([]) == 0
  {
  }

  /** For every M and s some servers and some turn with s successes send exactly 3 (s + 1) (M + 1) requests. */
  lemma TurnRequestsTight(cfg: Config, s: nat)
    requires 2 <= cfg.maxAttempts
    ensures exists c: Client, xs: seq<Input> ::
      var p := Turn(cfg, c, None, false, xs, 0);
      && p.state.next == End && Successes(p.state.toolCallStack) == s
      && Sum(p.requests) == 3 * ((s + 1) * (cfg.maxAttempts + 1))
  {
    hide Exec, StartTurn, Turn, Reluctant, Successes, Sum, Inputs;
    AgentGraphRuns.RunBoundIsTight(cfg, s);
    var os: seq<Oracle> :|
      var e := Exec(cfg, StartTurn(None, false), os);
      && e.next == End && Successes(e.toolCallStack) == s
      && |e.toolCallStack| == (s + 1) * (cfg.maxAttempts + 1);
    ReluctantRun(cfg, Exec(cfg, StartTurn(None, false), os).toolCallStack, os);
  }

  // ---------------------------------------------------------------- plan by plan

  /** Where the i-th closed plan starts in the log. */
  function Offset(closed: seq<seq<ToolCallRecord>>, i: nat): nat
    requires i <= |closed|
  {
    |Flatten(closed[..i])|
  }

  lemma {:induction false} FlattenAt(closed: seq<seq<ToolCallRecord>>, i: nat)
    requires i < |closed|
    ensures Offset(closed, i + 1) == Offset(closed, i) + |closed[i]| <= |Flatten(closed)|
    ensures Flatten(closed)[Offset(closed, i)..Offset(closed, i + 1)] == closed[i]
  {
    var n := |closed| - 1;
    assert closed[..i + 1][..i] == closed[..i];
    if i == n {
      assert closed[..n + 1] == closed;
    } else {
      FlattenAt(closed[..n], i);
      assert closed[..n][..i] == closed[..i] && closed[..n][..i + 1] == closed[..i + 1];
    }
  }

  lemma BlockLength(cfg: Config, b: seq<ToolCallRecord>)
    requires PlanBlock(cfg, b)
    ensures |b| <= if cfg.maxAttempts > 1 then cfg.maxAttempts else 1
  {
    if |b| > 1 {
      assert RecordFits(cfg, b, |b| - 2);
    }
  }

  /** The plans a turn has closed. */
  ghost function ClosedPlans(previous: Option<State>, s: State): seq<seq<ToolCallRecord>> {
    if AgentGraphRuns.StackBase(previous) <= |s.toolCallStack| then Parse(AgentGraphRuns.TurnLog(previous, s)).closed
    else []
  }

  lemma PlanInLog(cfg: Config, previous: Option<State>, s: State, m: nat, i: nat)
    requires AgentGraphRuns.StackBase(previous) <= |s.toolCallStack|
    requires Inv(cfg, s, AgentGraphRuns.StackBase(previous), m)
    requires i < |ClosedPlans(previous, s)|
    ensures var closed := ClosedPlans(previous, s); var from, to := Offset(closed, i), Offset(closed, i + 1);
      && from < to <= |s.toolCallStack| - AgentGraphRuns.StackBase(previous)
      && to - from <= if cfg.maxAttempts > 1 then cfg.maxAttempts else 1
  {
    hide Parse, Flatten, PlanBlock, RetriesSinceSuccess, ErrorsOf, LastResult, NodeFacts, PendingMatches;
    var log := AgentGraphRuns.TurnLog(previous, s);
    var closed := Parse(log).closed;
    ParseFlattens(log);
    FlattenAt(closed, i);
    assert ClosedBlock(cfg, closed[i]);
    BlockLength(cfg, closed[i]);
  }

  /** One plan sends at most three requests for each of its at most max(M, 1) attempts. */
  lemma PlanRequests(
    cfg: Config, c: Client, previous: Option<State>, image: bool, xs: seq<Input>, k: nat, i: nat)
    requires i < |ClosedPlans(previous, Turn(cfg, c, previous, image, xs, k).state)|
    ensures var p := Turn(cfg, c, previous, image, xs, k);
      var closed := ClosedPlans(previous, p.state);
      var from, to := Offset(closed, i), Offset(closed, i + 1);
      && from < to <= |p.requests|
      && Sum(p.requests[from..to]) <= 3 * if cfg.maxAttempts > 1 then cfg.maxAttempts else 1
  {
    hide Exec, StartTurn, Drive, Sum, Offset, Inv, ClosedPlans;
    var p := Turn(cfg, c, previous, image, xs, k);
    var closed := ClosedPlans(previous, p.state);
    var os := DriveIsRun(cfg, c, StartTurn(previous, image), xs, k);
    AgentGraphRuns.InvExec(cfg, previous, image, os);
    RequestsPerRecord(cfg, c, previous, image, xs, k);
    PlanInLog(cfg, previous, p.state, AgentGraphRuns.ErrorBase(previous), i);
    SumAtMost(p.requests[Offset(closed, i)..Offset(closed, i + 1)], 3);
  }
}
