/**
  The API server around the agent graph as an interleaved system: chat turns, the
  checkpoint of each thread, the approval queue and the two halves of an approval decision.

  The graph runtime is taken at its documented word: the run is interrupted before every
  executor step, a run started with `None` continues from the thread's checkpoint and is exempt
  from the interrupt for its first step only, and a checkpoint is written after every step.
  Any number of turns and decisions may be in flight, on one thread or on many.
*/
module SupportSystem {
  import opened Wrappers
  import opened AgentGraph

  type ThreadId = string
  type RowId = string

  datatype Decision = Approve | Reject

  datatype RowStatus = Awaiting | Decided(decision: Decision)

  datatype Row = Row(thread: ThreadId, status: RowStatus)

  datatype Commit = Commit(row: RowId, thread: ThreadId, decision: Decision)

  datatype Task =
    | Turn(thread: ThreadId, state: State)                  // the event loop of _run_turn
    | Audited(answer: Option<FinalResponse>)                // the turn's audit row is committed
    | Cached(answer: Option<FinalResponse>)                 // and its answer stored in the cache
    | Deciding(row: RowId, decision: Decision)              // decide_approval between read and commit
    | Approved(thread: ThreadId)                            // committed, not yet streaming
    | Resumed(thread: ThreadId, state: State, exempt: bool)  // the stream decide_approval drives
    | Finished

  datatype System = System(
    checkpoints: map<ThreadId, State>,
    rows: map<RowId, Row>,
    tasks: seq<Task>,
    commits: seq<Commit>,
    toolCalls: seq<ThreadId>,               // one entry per executor step run
    audit: seq<Option<FinalResponse>>,      // final_response of each "complete_turn" row
    cache: seq<Option<FinalResponse>>,      // final_response of each stored cache entry
    outputs: seq<Option<FinalResponse>>)    // final_response of each final_output sent to a client

  datatype Event =
    | BeginTurn(thread: ThreadId, image: bool, newRow: RowId)
    | ServeFromCache(entry: nat)
    | TaskStep(task: nat, o: Oracle, newRow: RowId)
    | TaskFails(task: nat)
    | InsertRow(row: RowId, rowThread: ThreadId)
    | ReadRow(read: RowId, decision: Decision)
    | CommitDecision(task: nat)
    | StartResume(task: nat)

  const Initial := System(map[], map[], [], [], [], [], [], [])

  // ---------------------------------------------------------------- transitions

  predicate Paused(t: Task)
    requires t.Turn? || t.Resumed?
  {
    t.state.next == End || (t.state.next == Executor && !(t.Resumed? && t.exempt))
  }

  /** What _run_turn does with an emitted state: queue an approval and stop, or go on. */
  function AfterEmit(sys: System, task: nat, thread: ThreadId, state: State, newRow: RowId): System
    requires task < |sys.tasks|
  {
    if RequiresHumanApproval(state) then
      sys.(rows := sys.rows[newRow := Row(thread, Awaiting)], tasks := sys.tasks[task := Finished])
    else sys.(tasks := sys.tasks[task := Turn(thread, state)])
  }

  /** A turn whose stream is over commits its audit row, then stores its answer, then sends it. */
  function AuditTurn(sys: System, task: nat, answer: Option<FinalResponse>): System
    requires task < |sys.tasks|
  {
    sys.(tasks := sys.tasks[task := Audited(answer)], audit := sys.audit + [answer])
  }

  function CacheAnswer(sys: System, task: nat, answer: Option<FinalResponse>): System
    requires task < |sys.tasks|
  {
    sys.(tasks := sys.tasks[task := Cached(answer)], cache := sys.cache + [answer])
  }

  function SendAnswer(sys: System, task: nat, answer: Option<FinalResponse>): System
    requires task < |sys.tasks|
  {
    sys.(tasks := sys.tasks[task := Finished], outputs := sys.outputs + [answer])
  }

  /** A graph step of a stream to `state'`: an executor call is logged and the checkpoint written. */
  function Advance(sys: System, thread: ThreadId, state: State, state': State): System {
    sys.(checkpoints := sys.checkpoints[thread := state'],
         toolCalls := if state.next == Executor then sys.toolCalls + [thread] else sys.toolCalls)
  }

  /** Task `i` goes on to `state'`, or ends because it is paused. */
  function StreamStep(sys: System, i: nat, state': State, newRow: RowId): System
    requires i < |sys.tasks| && (sys.tasks[i].Turn? || sys.tasks[i].Resumed?)
  {
    match sys.tasks[i]
    case Turn(thread, state) =>
      if Paused(sys.tasks[i]) then AuditTurn(sys, i, state.finalResponse)
      else AfterEmit(Advance(sys, thread, state, state'), i, thread, state', newRow)
    case Resumed(thread, state, _) =>
      if Paused(sys.tasks[i]) then sys.(tasks := sys.tasks[i := Finished])
      else Advance(sys, thread, state, state').(tasks := sys.tasks[i := Resumed(thread, state', false)])
  }

  /** The next step of a stream, or of what a turn does after its stream. */
  function StepTask(cfg: Config, sys: System, i: nat, o: Oracle, newRow: RowId): System
    requires i < |sys.tasks|
  {
    match sys.tasks[i]
    case Audited(answer) => CacheAnswer(sys, i, answer)
    case Cached(answer) => SendAnswer(sys, i, answer)
    case Turn(_, state) => StreamStep(sys, i, if state.next == End then state else Step(cfg, state, o), newRow)
    case Resumed(_, state, _) => StreamStep(sys, i, if state.next == End then state else Step(cfg, state, o), newRow)
    case _ => sys
  }

  /** The next step of this task is an executor step that nothing interrupts; if it fails the tool may have run. */
  predicate RunsTool(t: Task) {
    (t.Turn? || t.Resumed?) && !Paused(t) && t.state.next == Executor
  }

  /** A new stream whose first emitted state is the turn's input. */
  function OpenTurn(sys: System, thread: ThreadId, state: State, newRow: RowId): System {
    AfterEmit(sys.(checkpoints := sys.checkpoints[thread := state], tasks := sys.tasks + [Finished]),
              |sys.tasks|, thread, state, newRow)
  }

  /** One step of the whole system; an event that is not enabled changes nothing. */
  function Next(cfg: Config, sys: System, e: Event): System {
    match e
    case BeginTurn(thread, image, newRow) =>
      var state := StartTurn(if thread in sys.checkpoints then Some(sys.checkpoints[thread]) else None, image);
      OpenTurn(sys, thread, state, newRow)
    case ServeFromCache(entry) =>
      if entry < |sys.cache| then sys.(outputs := sys.outputs + [sys.cache[entry]]) else sys
    case TaskStep(i, o, newRow) => if i < |sys.tasks| then StepTask(cfg, sys, i, o, newRow) else sys
    case TaskFails(i) =>
      if i >= |sys.tasks| then sys
      else
        var t := sys.tasks[i];
        sys.(tasks := sys.tasks[i := Finished],
             toolCalls := if RunsTool(t) then sys.toolCalls + [t.thread] else sys.toolCalls)
    case InsertRow(id, thread) =>
      if id in sys.rows then sys else sys.(rows := sys.rows[id := Row(thread, Awaiting)])
    case ReadRow(id, decision) =>
      if id in sys.rows && sys.rows[id].status == Awaiting
      then sys.(tasks := sys.tasks + [Deciding(id, decision)])
      else sys  // 404 or 409
    case CommitDecision(i) =>
      if i >= |sys.tasks| || !sys.tasks[i].Deciding? || sys.tasks[i].row !in sys.rows then sys
      else
        var Deciding(id, decision) := sys.tasks[i];
        var row := sys.rows[id];
        sys.(rows := sys.rows[id := row.(status := Decided(decision))],
             commits := sys.commits + [Commit(id, row.thread, decision)],
             tasks := sys.tasks[i := if decision == Approve then Approved(row.thread) else Finished])
    case StartResume(i) =>
      if i >= |sys.tasks| || !sys.tasks[i].Approved? then sys
      else
        var thread := sys.tasks[i].thread;
        sys.(tasks := sys.tasks[i :=
               if thread in sys.checkpoints then Resumed(thread, sys.checkpoints[thread], true) else Finished])
  }

  function Run(cfg: Config, events: seq<Event>): System {
    if events == [] then Initial
    else Next(cfg, Run(cfg, events[..|events| - 1]), events[|events| - 1])
  }

  lemma RunSnoc(cfg: Config, events: seq<Event>, e: Event)
    ensures Run(cfg, events + [e]) == Next(cfg, Run(cfg, events), e)
  {
    assert (events + [e])[..|events|] == events;
  }

  // ---------------------------------------------------------------- the human gate

  function ToolCallsOf(calls: seq<ThreadId>, t: ThreadId): nat {
    if calls == [] then 0 else ToolCallsOf(calls[..|calls| - 1], t) + if calls[|calls| - 1] == t then 1 else 0
  }

  function ApprovalsOf(commits: seq<Commit>, t: ThreadId): nat {
    if commits == [] then 0
    else
      var c := commits[|commits| - 1];
      ApprovalsOf(commits[..|commits| - 1], t) + if c.thread == t && c.decision == Approve then 1 else 0
  }

  /** A task that may still run one executor step without being interrupted. */
  function Permit(task: Task, t: ThreadId): nat {
    if task == Approved(t) || (task.Resumed? && task.exempt && task.thread == t) then 1 else 0
  }

  function Permits(tasks: seq<Task>, t: ThreadId): nat {
    if tasks == [] then 0 else Permits(tasks[..|tasks| - 1], t) + Permit(tasks[|tasks| - 1], t)
  }

  lemma {:induction false} PermitsUpdate(tasks: seq<Task>, i: nat, task: Task, t: ThreadId)
    requires i < |tasks|
    ensures Permits(tasks[i := task], t) == Permits(tasks, t) - Permit(tasks[i], t) + Permit(task, t)
  {
    var n := |tasks| - 1;
    if i == n {
      assert tasks[i := task][..n] == tasks[..n];
    } else {
      assert tasks[i := task][..n] == tasks[..n][i := task];
      PermitsUpdate(tasks[..n], i, task, t);
    }
  }

  /** Calls already made plus calls still permitted are covered by committed approvals. */
  ghost predicate GatedFor(sys: System, t: ThreadId) {
    ToolCallsOf(sys.toolCalls, t) + Permits(sys.tasks, t) <= ApprovalsOf(sys.commits, t)
  }

  lemma ToolCallsSnoc(calls: seq<ThreadId>, thread: ThreadId, t: ThreadId)
    ensures ToolCallsOf(calls + [thread], t) == ToolCallsOf(calls, t) + if thread == t then 1 else 0
  {
    assert (calls + [thread])[..|calls|] == calls;
  }

  lemma ApprovalsSnoc(commits: seq<Commit>, c: Commit, t: ThreadId)
    ensures ApprovalsOf(commits + [c], t) ==
            ApprovalsOf(commits, t) + if c.thread == t && c.decision == Approve then 1 else 0
  {
    assert (commits + [c])[..|commits|] == commits;
  }

  lemma PermitsSnoc(tasks: seq<Task>, task: Task, t: ThreadId)
    ensures Permits(tasks + [task], t) == Permits(tasks, t) + Permit(task, t)
  {
    assert (tasks + [task])[..|tasks|] == tasks;
  }

  /** A stream step uses up the permit it needs: only an exempt stream gets past the interrupt. */
  lemma GatedStreamStep(sys: System, i: nat, state': State, newRow: RowId, t: ThreadId)
    requires GatedFor(sys, t)
    requires i < |sys.tasks| && (sys.tasks[i].Turn? || sys.tasks[i].Resumed?)
    ensures GatedFor(StreamStep(sys, i, state', newRow), t)
  {
    hide RequiresHumanApproval, ToolCallsOf, ApprovalsOf, Permits;
    var sys' := StreamStep(sys, i, state', newRow);
    PermitsUpdate(sys.tasks, i, sys'.tasks[i], t);
    ToolCallsSnoc(sys.toolCalls, sys.tasks[i].thread, t);
  }

  lemma GatedTaskFails(cfg: Config, sys: System, i: nat, t: ThreadId)
    requires GatedFor(sys, t)
    ensures GatedFor(Next(cfg, sys, TaskFails(i)), t)
  {
    hide Step, StartTurn, StreamStep, OpenTurn, ToolCallsOf, ApprovalsOf, Permits;
    if i < |sys.tasks| {
      PermitsUpdate(sys.tasks, i, Finished, t);
      if RunsTool(sys.tasks[i]) {
        ToolCallsSnoc(sys.toolCalls, sys.tasks[i].thread, t);
      }
    }
  }

  lemma GatedStep(cfg: Config, sys: System, i: nat, o: Oracle, newRow: RowId, t: ThreadId)
    requires GatedFor(sys, t)
    ensures GatedFor(Next(cfg, sys, TaskStep(i, o, newRow)), t)
  {
    hide Step, StartTurn, StreamStep, OpenTurn, ToolCallsOf, ApprovalsOf, Permits;
    if i < |sys.tasks| {
      match sys.tasks[i]
      case Audited(answer) => PermitsUpdate(sys.tasks, i, Cached(answer), t);
      case Cached(answer) => PermitsUpdate(sys.tasks, i, Finished, t);
      case Turn(_, state) =>
        GatedStreamStep(sys, i, if state.next == End then state else Step(cfg, state, o), newRow, t);
      case Resumed(_, state, _) =>
        GatedStreamStep(sys, i, if state.next == End then state else Step(cfg, state, o), newRow, t);
      case _ =>
    }
  }

  lemma GatedDecision(cfg: Config, sys: System, i: nat, t: ThreadId)
    requires GatedFor(sys, t)
    ensures GatedFor(Next(cfg, sys, CommitDecision(i)), t)
    ensures GatedFor(Next(cfg, sys, StartResume(i)), t)
  {
    hide Step, StartTurn, StreamStep, OpenTurn, Paused, ToolCallsOf, ApprovalsOf, Permits;
    if i < |sys.tasks| {
      PermitsUpdate(sys.tasks, i, Next(cfg, sys, CommitDecision(i)).tasks[i], t);
      PermitsUpdate(sys.tasks, i, Next(cfg, sys, StartResume(i)).tasks[i], t);
      if sys.tasks[i].Deciding? && sys.tasks[i].row in sys.rows {
        var task := sys.tasks[i];
        ApprovalsSnoc(sys.commits, Commit(task.row, sys.rows[task.row].thread, task.decision), t);
      }
    }
  }

  lemma GatedNext(cfg: Config, sys: System, e: Event, t: ThreadId)
    requires GatedFor(sys, t)
    ensures GatedFor(Next(cfg, sys, e), t)
  {
    hide RequiresHumanApproval, Step, StartTurn, StreamStep, ToolCallsOf, ApprovalsOf, Permits;
    match e
    case BeginTurn(_, _, _) =>
      var sys' := Next(cfg, sys, e);
      PermitsSnoc(sys.tasks, sys'.tasks[|sys.tasks|], t);
      assert sys'.tasks == sys.tasks + [sys'.tasks[|sys.tasks|]];
    case ReadRow(id, decision) =>
      PermitsSnoc(sys.tasks, Deciding(id, decision), t);
    case TaskStep(i, o, newRow) => GatedStep(cfg, sys, i, o, newRow, t);
    case TaskFails(i) => GatedTaskFails(cfg, sys, i, t);
    case CommitDecision(i) => GatedDecision(cfg, sys, i, t);
    case StartResume(i) => GatedDecision(cfg, sys, i, t);
    case ServeFromCache(_) =>
    case InsertRow(_, _) =>
  }

  /**
    Human gate.  However turns, decisions, resumes, crashes and queue inserts interleave, the number of
    executor steps run on a thread never exceeds the number of decisions committed as approved for it.
  */
  lemma {:induction false} HumanGate(cfg: Config, events: seq<Event>, t: ThreadId)
    ensures var sys := Run(cfg, events); ToolCallsOf(sys.toolCalls, t) <= ApprovalsOf(sys.commits, t)
    ensures GatedFor(Run(cfg, events), t)
  {
    if events != [] {
      HumanGate(cfg, events[..|events| - 1], t);
      GatedNext(cfg, Run(cfg, events[..|events| - 1]), events[|events| - 1], t);
    }
  }
}
