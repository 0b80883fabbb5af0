/**
  Consequences of the interleaved system: the gate bound is exact, no answer of the graph is ever
  delivered or cached, the turn loop never queues an approval, and a queue row is committed twice
  only when two decisions on it were in flight at once.
*/
module SupportSystemFacts {
  import opened Wrappers
  import opened AgentGraph
  import opened SupportSystem
  import AgentGraphRuns

  // ---------------------------------------------------------------- the gate bound is reached

  /** A thread parked before its executor, with n approvals and n calls behind it. */
  ghost predicate Parked(sys: System, t: ThreadId, n: nat) {
    && t in sys.checkpoints
    && sys.checkpoints[t].next == Executor
    && (forall id :: id in sys.rows ==> |id| < n)
    && ToolCallsOf(sys.toolCalls, t) == n == ApprovalsOf(sys.commits, t)
  }

  function SomeOracle(): Oracle {
    Oracle("", "query_knowledge_base", "", Returned(""), "", false)
  }

  lemma QueueAndRead(cfg: Config, sys: System, t: ThreadId, id: RowId)
    requires id !in sys.rows
    ensures Next(cfg, Next(cfg, sys, InsertRow(id, t)), ReadRow(id, Approve)) ==
            sys.(rows := sys.rows[id := Row(t, Awaiting)], tasks := sys.tasks + [Deciding(id, Approve)])
  {
  }

  lemma CommitAndStart(cfg: Config, sys: System, i: nat, t: ThreadId, id: RowId)
    requires i < |sys.tasks| && sys.tasks[i] == Deciding(id, Approve)
    requires id in sys.rows && sys.rows[id].thread == t && t in sys.checkpoints
    ensures Next(cfg, Next(cfg, sys, CommitDecision(i)), StartResume(i)) ==
            sys.(rows := sys.rows[id := Row(t, Decided(Approve))],
                 commits := sys.commits + [Commit(id, t, Approve)],
                 tasks := sys.tasks[i := Resumed(t, sys.checkpoints[t], true)])
  {
    var s1 := Next(cfg, sys, CommitDecision(i));
    assert s1.tasks[i] == Approved(t) && s1.checkpoints == sys.checkpoints;
    assert s1.tasks[i := Resumed(t, sys.checkpoints[t], true)] == sys.tasks[i := Resumed(t, sys.checkpoints[t], true)];
  }

  /** Queue a row, approve it and start its stream: one more approval, no call yet. */
  lemma ApproveAndResume(cfg: Config, events: seq<Event>, t: ThreadId, n: nat) returns (events': seq<Event>)
    requires Parked(Run(cfg, events), t, n)
    ensures var sys, sys' := Run(cfg, events), Run(cfg, events');
      && sys'.checkpoints == sys.checkpoints
      && sys'.tasks == sys.tasks + [Resumed(t, sys.checkpoints[t], true)]
      && sys'.toolCalls == sys.toolCalls
      && ApprovalsOf(sys'.commits, t) == n + 1
      && (forall id :: id in sys'.rows ==> |id| < n + 1)
  {
    hide Run, Next, ToolCallsOf, ApprovalsOf;
    var s0 := Run(cfg, events);
    var id, i := seq(n, _ => 'r'), |s0.tasks|;
    QueueAndRead(cfg, s0, t, id);
    RunSnoc(cfg, events, InsertRow(id, t));
    RunSnoc(cfg, events + [InsertRow(id, t)], ReadRow(id, Approve));
    events' := events + [InsertRow(id, t)] + [ReadRow(id, Approve)];
    CommitAndStart(cfg, Run(cfg, events'), i, t, id);
    RunSnoc(cfg, events', CommitDecision(i));
    RunSnoc(cfg, events' + [CommitDecision(i)], StartResume(i));
    events' := events' + [CommitDecision(i)] + [StartResume(i)];
    ApprovalsSnoc(s0.commits, Commit(id, t, Approve), t);
  }

  lemma ResumedStep(cfg: Config, events: seq<Event>, i: nat, o: Oracle)
    requires i < |Run(cfg, events).tasks| && Run(cfg, events).tasks[i].Resumed? && !Paused(Run(cfg, events).tasks[i])
    ensures var sys, sys' := Run(cfg, events), Run(cfg, events + [TaskStep(i, o, "")]);
      var (t, state) := (sys.tasks[i].thread, sys.tasks[i].state);
      var state' := Step(cfg, state, o);
      && sys' == Advance(sys, t, state, state').(tasks := sys.tasks[i := Resumed(t, state', false)])
  {
    hide Run, Step, StartTurn, OpenTurn;
    RunSnoc(cfg, events, TaskStep(i, o, ""));
  }

  /** A new turn parks its thread before the executor again, whatever was there before. */
  lemma ParkAgain(cfg: Config, events: seq<Event>, t: ThreadId) returns (events': seq<Event>)
    ensures var sys, sys' := Run(cfg, events), Run(cfg, events');
      && t in sys'.checkpoints && sys'.checkpoints[t].next == Executor
      && sys'.rows == sys.rows && sys'.toolCalls == sys.toolCalls && sys'.commits == sys.commits
  {
    var sys, o := Run(cfg, events), SomeOracle();
    var previous := if t in sys.checkpoints then Some(sys.checkpoints[t]) else None;
    var i, s0 := |sys.tasks|, StartTurn(previous, false);
    AgentGraphRuns.EarlySteps(cfg, previous, false, o, o, o);
    hide Run, StartTurn, Step;
    RunSnoc(cfg, events, BeginTurn(t, false, ""));
    var e1 := events + [BeginTurn(t, false, "")];
    assert Run(cfg, e1).tasks[i] == Turn(t, s0);
    var s1 := TurnStep(cfg, e1, i, t, s0, o);
    var e2 := e1 + [TaskStep(i, o, "")];
    var s2 := TurnStep(cfg, e2, i, t, s1, o);
    events' := e2 + [TaskStep(i, o, "")];
  }

  /** A turn's step that asks for no approval. */
  lemma TurnStep(cfg: Config, events: seq<Event>, i: nat, t: ThreadId, state: State, o: Oracle) returns (state': State)
    requires i < |Run(cfg, events).tasks| && Run(cfg, events).tasks[i] == Turn(t, state)
    requires state.next != Executor && state.next != End && !RequiresHumanApproval(Step(cfg, state, o))
    ensures state' == Step(cfg, state, o)
    ensures var sys, sys' := Run(cfg, events), Run(cfg, events + [TaskStep(i, o, "")]);
      && |sys'.tasks| == |sys.tasks| && sys'.tasks[i] == Turn(t, state')
      && sys'.checkpoints == sys.checkpoints[t := state']
      && sys'.rows == sys.rows && sys'.toolCalls == sys.toolCalls && sys'.commits == sys.commits
  {
    hide Run, StartTurn, Step;
    RunSnoc(cfg, events, TaskStep(i, o, ""));
    state' := Step(cfg, state, o);
  }

  lemma ApproveOnce(cfg: Config, events: seq<Event>, t: ThreadId, n: nat) returns (events': seq<Event>)
    requires Parked(Run(cfg, events), t, n)
    ensures Parked(Run(cfg, events'), t, n + 1)
  {
    hide Run, Step;
    var i, o := |Run(cfg, events).tasks|, SomeOracle();
    events' := ApproveAndResume(cfg, events, t, n);
    ResumedStep(cfg, events', i, o);
    ToolCallsSnoc(Run(cfg, events').toolCalls, t, t);
    events' := events' + [TaskStep(i, o, "")];
    events' := ParkAgain(cfg, events', t);
  }

  /** The gate bound is exact: n approvals can let n calls through, for every n and every retry cap. */
  lemma {:induction false} GateReached(cfg: Config, t: ThreadId, n: nat) returns (events: seq<Event>)
    ensures var sys := Run(cfg, events); ToolCallsOf(sys.toolCalls, t) == n == ApprovalsOf(sys.commits, t)
    ensures Parked(Run(cfg, events), t, n)
  {
    if n == 0 {
      events := ParkAgain(cfg, [], t);
    } else {
      events := GateReached(cfg, t, n - 1);
      events := ApproveOnce(cfg, events, t, n - 1);
    }
  }

  // ---------------------------------------------------------------- no answer is delivered

  ghost predicate GoodState(cfg: Config, s: State) {
    exists n: nat, m: nat :: Inv(cfg, s, n, m)
  }

  /** A turn's stream never gets past the interrupt, so it has produced no answer. */
  ghost predicate BeforeExecutor(s: State) {
    s.next != Critic && s.next != End && s.finalResponse == None
  }

  ghost predicate TaskOk(cfg: Config, t: Task) {
    match t
    case Turn(_, state) => GoodState(cfg, state) && BeforeExecutor(state)
    case Resumed(_, state, _) => GoodState(cfg, state)
    case Audited(answer) => answer == None
    case Cached(answer) => answer == None
    case _ => true
  }

  ghost predicate SystemOk(cfg: Config, sys: System, inserted: set<RowId>) {
    && (forall t :: t in sys.checkpoints ==> GoodState(cfg, sys.checkpoints[t]))
    && (forall i :: 0 <= i < |sys.tasks| ==> TaskOk(cfg, sys.tasks[i]))
    && (forall i :: 0 <= i < |sys.audit| ==> sys.audit[i] == None)
    && (forall i :: 0 <= i < |sys.cache| ==> sys.cache[i] == None)
    && (forall i :: 0 <= i < |sys.outputs| ==> sys.outputs[i] == None)
    && sys.rows.Keys <= inserted
  }

  /** The rows the environment (a refund tool, say) put into the queue. */
  function Inserted(events: seq<Event>): set<RowId> {
    if events == [] then {}
    else
      var e := events[|events| - 1];
      Inserted(events[..|events| - 1]) + if e.InsertRow? then {e.row} else {}
  }

  lemma GoodStart(cfg: Config, previous: Option<State>, image: bool)
    ensures GoodState(cfg, StartTurn(previous, image)) && BeforeExecutor(StartTurn(previous, image))
    ensures !RequiresHumanApproval(StartTurn(previous, image))
  {
    AgentGraphRuns.InvExec(cfg, previous, image, []);
  }

  lemma GoodStep(cfg: Config, s: State, o: Oracle)
    requires GoodState(cfg, s) && s.next != End
    ensures GoodState(cfg, Step(cfg, s, o)) && !RequiresHumanApproval(Step(cfg, s, o))
    ensures BeforeExecutor(s) && s.next != Executor ==> BeforeExecutor(Step(cfg, s, o))
  {
    var n: nat, m: nat :| Inv(cfg, s, n, m);
    InvStep(cfg, s, n, m, o);
    AgentGraphRuns.PendingFacts(cfg, Step(cfg, s, o), n, m);
  }

  lemma StreamStepOk(cfg: Config, sys: System, i: nat, state': State, newRow: RowId, inserted: set<RowId>)
    requires SystemOk(cfg, sys, inserted)
    requires i < |sys.tasks| && (sys.tasks[i].Turn? || sys.tasks[i].Resumed?)
    requires GoodState(cfg, state') && !RequiresHumanApproval(state')
    requires sys.tasks[i].Turn? && !Paused(sys.tasks[i]) ==> BeforeExecutor(state')
    ensures SystemOk(cfg, StreamStep(sys, i, state', newRow), inserted)
  {
    assert TaskOk(cfg, sys.tasks[i]);
  }

  /** Storing and sending an answer that is not there. */
  lemma AnswerStepOk(cfg: Config, sys: System, i: nat, o: Oracle, newRow: RowId, inserted: set<RowId>)
    requires SystemOk(cfg, sys, inserted) && i < |sys.tasks| && !sys.tasks[i].Turn? && !sys.tasks[i].Resumed?
    ensures SystemOk(cfg, Next(cfg, sys, TaskStep(i, o, newRow)), inserted)
  {
    hide Step, StreamStep, OpenTurn, StartTurn, Paused, GoodState, BeforeExecutor;
    assert TaskOk(cfg, sys.tasks[i]);
  }

  lemma OpenTurnOk(cfg: Config, sys: System, thread: ThreadId, state: State, newRow: RowId, inserted: set<RowId>)
    requires SystemOk(cfg, sys, inserted)
    requires GoodState(cfg, state) && BeforeExecutor(state) && !RequiresHumanApproval(state)
    ensures SystemOk(cfg, OpenTurn(sys, thread, state, newRow), inserted)
  {
  }

  lemma DecisionOk(cfg: Config, sys: System, e: Event, inserted: set<RowId>)
    requires SystemOk(cfg, sys, inserted)
    requires !e.BeginTurn? && !e.TaskStep?
    ensures SystemOk(cfg, Next(cfg, sys, e), inserted + if e.InsertRow? then {e.row} else {})
  {
    hide Step, StreamStep, OpenTurn, StartTurn, Paused, GoodState, BeforeExecutor;
  }

  lemma SystemOkNext(cfg: Config, sys: System, e: Event, inserted: set<RowId>)
    requires SystemOk(cfg, sys, inserted)
    ensures SystemOk(cfg, Next(cfg, sys, e), inserted + if e.InsertRow? then {e.row} else {})
  {
    match e
    case BeginTurn(thread, image, newRow) =>
      var previous := if thread in sys.checkpoints then Some(sys.checkpoints[thread]) else None;
      GoodStart(cfg, previous, image);
      OpenTurnOk(cfg, sys, thread, StartTurn(previous, image), newRow, inserted);
    case TaskStep(i, o, newRow) =>
      if i < |sys.tasks| && (sys.tasks[i].Turn? || sys.tasks[i].Resumed?) {
        var state' := StreamTarget(cfg, sys, i, o, inserted);
        StreamStepOk(cfg, sys, i, state', newRow, inserted);
      } else if i < |sys.tasks| {
        AnswerStepOk(cfg, sys, i, o, newRow, inserted);
      }
    case _ => DecisionOk(cfg, sys, e, inserted);
  }

  /** Where a stream step leads, and what is known of that state. */
  lemma StreamTarget(cfg: Config, sys: System, i: nat, o: Oracle, inserted: set<RowId>) returns (state': State)
    requires SystemOk(cfg, sys, inserted)
    requires i < |sys.tasks| && (sys.tasks[i].Turn? || sys.tasks[i].Resumed?)
    ensures forall newRow :: Next(cfg, sys, TaskStep(i, o, newRow)) == StreamStep(sys, i, state', newRow)
    ensures GoodState(cfg, state') && !RequiresHumanApproval(state')
    ensures sys.tasks[i].Turn? && !Paused(sys.tasks[i]) ==> BeforeExecutor(state')
  {
    assert TaskOk(cfg, sys.tasks[i]);
    var state := sys.tasks[i].state;
    if state.next == End {
      state' := state;
      var n: nat, m: nat :| Inv(cfg, state, n, m);
      AgentGraphRuns.PendingFacts(cfg, state, n, m);
    } else {
      state' := Step(cfg, state, o);
      GoodStep(cfg, state, o);
    }
  }

  lemma {:induction false} SystemOkRun(cfg: Config, events: seq<Event>)
    ensures SystemOk(cfg, Run(cfg, events), Inserted(events))
  {
    if events != [] {
      SystemOkRun(cfg, events[..|events| - 1]);
      SystemOkNext(cfg, Run(cfg, events[..|events| - 1]), events[|events| - 1], Inserted(events[..|events| - 1]));
    }
  }

  /**
    Because the interrupt is unconditional and only an approval resumes, a chat turn always stops before
    the executor: what it audits, caches and sends to its client never holds an answer.
  */
  lemma NoAnswerDelivered(cfg: Config, events: seq<Event>)
    ensures var sys := Run(cfg, events);
      && (forall i :: 0 <= i < |sys.outputs| ==> sys.outputs[i] == None)
      && (forall i :: 0 <= i < |sys.cache| ==> sys.cache[i] == None)
      && (forall i :: 0 <= i < |sys.audit| ==> sys.audit[i] == None)
  {
    SystemOkRun(cfg, events);
  }

  /** The turn loop's own hold-for-approval branch never fires: every queue row comes from elsewhere. */
  lemma TurnsNeverQueue(cfg: Config, events: seq<Event>)
    ensures Run(cfg, events).rows.Keys <= Inserted(events)
  {
    SystemOkRun(cfg, events);
  }

  // ---------------------------------------------------------------- how often a row is decided

  function CommitsOf(commits: seq<Commit>, id: RowId): nat {
    if commits == [] then 0
    else CommitsOf(commits[..|commits| - 1], id) + if commits[|commits| - 1].row == id then 1 else 0
  }

  /** At no time are two decisions on one row between their read and their commit. */
  ghost predicate NoRace(cfg: Config, events: seq<Event>, id: RowId) {
    forall n :: 0 <= n <= |events| ==> AtMostOneDeciding(Run(cfg, events[..n]).tasks, id)
  }

  ghost predicate AtMostOneDeciding(tasks: seq<Task>, id: RowId) {
    forall i, j :: 0 <= i < j < |tasks| ==> !(DecidesRow(tasks[i], id) && DecidesRow(tasks[j], id))
  }

  ghost predicate DecidesRow(t: Task, id: RowId) {
    t.Deciding? && t.row == id
  }

  /** A row's status tells whether it was ever committed; while undecided it never was. */
  ghost predicate RowAccount(sys: System, id: RowId) {
    && (id !in sys.rows || sys.rows[id].status == Awaiting ==> CommitsOf(sys.commits, id) == 0)
    && (id in sys.rows && sys.rows[id].status != Awaiting ==> CommitsOf(sys.commits, id) >= 1)
    && (forall i :: 0 <= i < |sys.tasks| && DecidesRow(sys.tasks[i], id) ==> id in sys.rows)
  }

  /** Without a race a decided row has no decision left in flight, so it is never committed again. */
  ghost predicate Settled(sys: System, id: RowId) {
    id in sys.rows && sys.rows[id].status != Awaiting ==>
      && CommitsOf(sys.commits, id) == 1
      && forall i :: 0 <= i < |sys.tasks| ==> !DecidesRow(sys.tasks[i], id)
  }

  lemma CommitsSnoc(commits: seq<Commit>, c: Commit, id: RowId)
    ensures CommitsOf(commits + [c], id) == CommitsOf(commits, id) + if c.row == id then 1 else 0
  {
    assert (commits + [c])[..|commits|] == commits;
  }

  lemma RowAccountCommit(cfg: Config, sys: System, i: nat, id: RowId)
    requires RowAccount(sys, id)
    ensures RowAccount(Next(cfg, sys, CommitDecision(i)), id)
    ensures Settled(sys, id) && AtMostOneDeciding(sys.tasks, id) ==> Settled(Next(cfg, sys, CommitDecision(i)), id)
  {
    hide Step, StreamStep, OpenTurn, StartTurn, Paused, CommitsOf;
    if i < |sys.tasks| && sys.tasks[i].Deciding? && sys.tasks[i].row in sys.rows {
      var Deciding(row, decision) := sys.tasks[i];
      CommitsSnoc(sys.commits, Commit(row, sys.rows[row].thread, decision), id);
      assert row == id ==> DecidesRow(sys.tasks[i], id);
    }
  }

  lemma RowAccountNext(cfg: Config, sys: System, e: Event, id: RowId, inserted: set<RowId>)
    requires RowAccount(sys, id) && SystemOk(cfg, sys, inserted)
    ensures RowAccount(Next(cfg, sys, e), id)
    ensures Settled(sys, id) && AtMostOneDeciding(sys.tasks, id) ==> Settled(Next(cfg, sys, e), id)
  {
    match e
    case CommitDecision(i) => RowAccountCommit(cfg, sys, i, id);
    case BeginTurn(thread, image, newRow) =>
      var previous := if thread in sys.checkpoints then Some(sys.checkpoints[thread]) else None;
      GoodStart(cfg, previous, image);
      RowAccountOpen(sys, thread, StartTurn(previous, image), newRow, id);
    case TaskStep(i, o, newRow) =>
      if i < |sys.tasks| && (sys.tasks[i].Turn? || sys.tasks[i].Resumed?) {
        var state' := StreamTarget(cfg, sys, i, o, inserted);
        RowAccountStream(sys, i, state', newRow, id);
      } else if i < |sys.tasks| {
        RowAccountAnswer(cfg, sys, i, o, newRow, id);
      }
    case _ => RowAccountOther(cfg, sys, e, id);
  }

  lemma RowAccountAnswer(cfg: Config, sys: System, i: nat, o: Oracle, newRow: RowId, id: RowId)
    requires RowAccount(sys, id) && i < |sys.tasks| && !sys.tasks[i].Turn? && !sys.tasks[i].Resumed?
    ensures RowAccount(Next(cfg, sys, TaskStep(i, o, newRow)), id)
    ensures Settled(sys, id) ==> Settled(Next(cfg, sys, TaskStep(i, o, newRow)), id)
  {
    hide Step, StreamStep, OpenTurn, StartTurn, Paused, CommitsOf;
  }

  lemma RowAccountOther(cfg: Config, sys: System, e: Event, id: RowId)
    requires RowAccount(sys, id)
    requires !e.BeginTurn? && !e.TaskStep? && !e.CommitDecision?
    ensures RowAccount(Next(cfg, sys, e), id)
    ensures Settled(sys, id) ==> Settled(Next(cfg, sys, e), id)
  {
    hide Step, StreamStep, OpenTurn, StartTurn, Paused, CommitsOf;
  }

  lemma RowAccountOpen(sys: System, thread: ThreadId, state: State, newRow: RowId, id: RowId)
    requires RowAccount(sys, id) && !RequiresHumanApproval(state)
    ensures RowAccount(OpenTurn(sys, thread, state, newRow), id)
    ensures Settled(sys, id) ==> Settled(OpenTurn(sys, thread, state, newRow), id)
  {
  }

  lemma RowAccountStream(sys: System, i: nat, state': State, newRow: RowId, id: RowId)
    requires RowAccount(sys, id)
    requires i < |sys.tasks| && (sys.tasks[i].Turn? || sys.tasks[i].Resumed?)
    requires Paused(sys.tasks[i]) || !RequiresHumanApproval(state')
    ensures RowAccount(StreamStep(sys, i, state', newRow), id)
    ensures Settled(sys, id) ==> Settled(StreamStep(sys, i, state', newRow), id)
  {
  }

  lemma {:induction false} RowAccountRun(cfg: Config, events: seq<Event>, id: RowId)
    ensures RowAccount(Run(cfg, events), id)
    ensures NoRace(cfg, events, id) ==> Settled(Run(cfg, events), id)
  {
    if events != [] {
      var prefix := events[..|events| - 1];
      RowAccountRun(cfg, prefix, id);
      SystemOkRun(cfg, prefix);
      RowAccountNext(cfg, Run(cfg, prefix), events[|events| - 1], id, Inserted(prefix));
      if NoRace(cfg, events, id) {
        forall n | 0 <= n <= |prefix| ensures AtMostOneDeciding(Run(cfg, prefix[..n]).tasks, id) {
          assert prefix[..n] == events[..n];
        }
        assert AtMostOneDeciding(Run(cfg, events[..|events| - 1]).tasks, id);
      }
    }
  }

  /**
    Decisions per row: a row is decided exactly when something was committed for it, and if no two
    decisions on it overlap it is committed at most once.
  */
  lemma RowDecisions(cfg: Config, events: seq<Event>, id: RowId)
    ensures var sys := Run(cfg, events);
      && (CommitsOf(sys.commits, id) > 0 <==> id in sys.rows && sys.rows[id].status.Decided?)
      && (NoRace(cfg, events, id) ==> CommitsOf(sys.commits, id) <= 1)
  {
    RowAccountRun(cfg, events, id);
  }

  /** A new row and two decisions that read it, as events. */
  lemma TwoReads(cfg: Config, id: RowId, thread: ThreadId) returns (events: seq<Event>)
    ensures var sys := Run(cfg, events);
      && id in sys.rows && sys.rows[id].thread == thread && sys.commits == []
      && sys.tasks == [Deciding(id, Approve)] + [Deciding(id, Approve)]
  {
    var e1: seq<Event> := [] + [InsertRow(id, thread)];
    RunSnoc(cfg, [], InsertRow(id, thread));
    var e2 := e1 + [ReadRow(id, Approve)];
    RunSnoc(cfg, e1, ReadRow(id, Approve));
    events := e2 + [ReadRow(id, Approve)];
    RunSnoc(cfg, e2, ReadRow(id, Approve));
  }

  lemma TwoCommits(cfg: Config, events: seq<Event>, id: RowId)
    requires var sys := Run(cfg, events);
      && id in sys.rows && sys.commits == []
      && sys.tasks == [Deciding(id, Approve)] + [Deciding(id, Approve)]
    ensures var c := Commit(id, Run(cfg, events).rows[id].thread, Approve);
      Run(cfg, events + [CommitDecision(0)] + [CommitDecision(1)]).commits == [] + [c] + [c]
  {
    hide Run;
    RunSnoc(cfg, events, CommitDecision(0));
    RunSnoc(cfg, events + [CommitDecision(0)], CommitDecision(1));
  }

  /** Two decisions that both read the row before either commits are both accepted. */
  lemma OverlappingDecisions(cfg: Config)
    ensures exists events: seq<Event>, id: RowId ::
      CommitsOf(Run(cfg, events).commits, id) == 2 == ApprovalsOf(Run(cfg, events).commits, "t")
  {
    hide Run, Next;
    var id := "r";
    var events := TwoReads(cfg, id, "t");
    TwoCommits(cfg, events, id);
    var c := Commit(id, "t", Approve);
    CommitsSnoc([], c, id);
    CommitsSnoc([] + [c], c, id);
    ApprovalsSnoc([], c, "t");
    ApprovalsSnoc([] + [c], c, "t");
    assert CommitsOf(Run(cfg, events + [CommitDecision(0)] + [CommitDecision(1)]).commits, id) == 2;
  }
}
