/**
  The two API endpoints that touch the graph, as methods on the server's state: a chat turn and an approval
  decision, each run without interruption.  Every action is recorded as an event of the interleaved system,
  so whatever is proved of all its runs holds of this object.
*/
module SupportApi {
  import opened AgentGraph
  import opened AgentGraphTrace
  import opened SupportSystem
  import opened SupportSystemFacts
  import opened Wrappers

  datatype Reply = NotFound | Conflict | Done(status: RowStatus)

  /** Steps left before a stream must pause: only its first step may be an executor step. */
  function StepsLeft(node: Node, exempt: bool): nat {
    if exempt then 5
    else match node
      case Router => 4
      case Vision => 3
      case Rag => 2
      case Critic => 1
      case _ => 0
  }

  /**
    A resumed stream drove one thread from its checkpoint as far as the nodes answer: to the end, to the next
    executor step, or to the first node that raises; the checkpoint is the last state it wrote.
  */
  ghost predicate Drove(cfg: Config, before: map<ThreadId, State>, thread: ThreadId, nodes: nat -> Option<Oracle>,
                        after: map<ThreadId, State>)
    requires thread in before
  {
    exists n: nat ::
      Streamed(cfg, before[thread], nodes, true, n) &&
      after == before[thread := Streaming(cfg, before[thread], nodes, n)]
  }

  /** If no node raises, that is at least one step, and to the next executor step or the end. */
  lemma DroveFar(cfg: Config, before: map<ThreadId, State>, thread: ThreadId, nodes: nat -> Option<Oracle>,
                 after: map<ThreadId, State>)
    requires thread in before && Drove(cfg, before, thread, nodes, after)
    requires before[thread].next != End && forall k :: nodes(k).Some?
    ensures exists n: nat ::
      n > 0 && after == before[thread := Exec(cfg, before[thread], Answers(nodes, n))]
    ensures thread in after && after[thread].next in {Executor, End}
  {
    var n: nat :| Streamed(cfg, before[thread], nodes, true, n) &&
                  after == before[thread := Streaming(cfg, before[thread], nodes, n)];
    StreamedFar(cfg, before[thread], nodes, n);
    assert after == before[thread := Exec(cfg, before[thread], Answers(nodes, n))];
  }

  /** The nodes a turn runs before it is paused. */
  function NodesBefore(cfg: Config, image: bool): nat {
    if cfg.visionEnabled && image then 3 else 2
  }

  /** Where a turn is after k of them. */
  predicate Passed(cfg: Config, image: bool, k: nat, s: State) {
    && s.imageAttached == image
    && match s.next
       case Router => k == 0
       case Vision => cfg.visionEnabled && image && k == 1
       case Rag => k == NodesBefore(cfg, image) - 1
       case Executor => k == NodesBefore(cfg, image)
       case _ => false
  }

  lemma PassedStart(cfg: Config, previous: Option<State>, image: bool)
    ensures Passed(cfg, image, 0, StartTurn(previous, image))
  {
  }

  lemma PassedStep(cfg: Config, image: bool, k: nat, s: State, o: Oracle)
    requires Passed(cfg, image, k, s) && s.next != Executor
    ensures k < NodesBefore(cfg, image) && Passed(cfg, image, k + 1, Step(cfg, s, o))
  {
  }

  /** A turn's stream after k nodes, from its first state. */
  ghost predicate TurnAt(
    cfg: Config, start: State, image: bool, nodes: nat -> Option<Oracle>, k: nat, state: State)
  {
    && Passed(cfg, image, k, state) && GoodState(cfg, state) && BeforeExecutor(state)
    && OnTheWay(cfg, start, nodes, false, k, state)
  }

  lemma TurnStarts(cfg: Config, previous: Option<State>, image: bool, nodes: nat -> Option<Oracle>)
    ensures var start := StartTurn(previous, image);
      TurnAt(cfg, start, image, nodes, 0, start) && !RequiresHumanApproval(start)
  {
    GoodStart(cfg, previous, image);
    PassedStart(cfg, previous, image);
    WayStarts(cfg, StartTurn(previous, image), nodes, false);
  }

  lemma TurnPasses(
    cfg: Config, start: State, image: bool, nodes: nat -> Option<Oracle>, k: nat, state: State)
    requires TurnAt(cfg, start, image, nodes, k, state) && state.next != Executor && nodes(k).Some?
    ensures var state' := Step(cfg, state, nodes(k).value);
      TurnAt(cfg, start, image, nodes, k + 1, state') && !RequiresHumanApproval(state')
  {
    hide Step, Passed, GoodState, OnTheWay, RequiresHumanApproval;
    GoodStep(cfg, state, nodes(k).value);
    PassedStep(cfg, image, k, state, nodes(k).value);
    WayGoesOn(cfg, start, nodes, false, k, state);
  }

  /** Where the stream stops: before the executor if all nodes on the way answer, else at the first that raises. */
  lemma TurnStops(
    cfg: Config, start: State, image: bool, nodes: nat -> Option<Oracle>, k: nat, state: State)
    requires TurnAt(cfg, start, image, nodes, k, state) && (state.next == Executor || nodes(k) == None)
    ensures Streamed(cfg, start, nodes, false, k) && state == Streaming(cfg, start, nodes, k)
    ensures state.next == Executor <==> forall j: nat :: j < NodesBefore(cfg, image) ==> nodes(j).Some?
    ensures BeforeExecutor(state)
  {
    hide GoodState, PausedAt, Streaming;
    WayEnds(cfg, start, nodes, false, k, state);
  }

  lemma NeverOver(
    cfg: Config, start: State, image: bool, nodes: nat -> Option<Oracle>, k: nat, state: State)
    requires TurnAt(cfg, start, image, nodes, k, state)
    ensures state.next != End
  {
  }

  /** The state a turn's stream leaves: as far as the nodes answer, up to the first executor step. */
  ghost predicate StoppedTurn(cfg: Config, start: State, nodes: nat -> Option<Oracle>, state: State) {
    exists n: nat :: Streamed(cfg, start, nodes, false, n) && state == Streaming(cfg, start, nodes, n)
  }

  lemma AuditStep(cfg: Config, sys: System, task: nat, thread: ThreadId, state: State)
    requires task < |sys.tasks| && sys.tasks[task] == Turn(thread, state) && Paused(sys.tasks[task])
    ensures Next(cfg, sys, TaskStep(task, SomeOracle(), "")) == AuditTurn(sys, task, state.finalResponse)
  {
  }

  lemma CacheStep(cfg: Config, sys: System, task: nat, answer: Option<FinalResponse>)
    requires task < |sys.tasks| && sys.tasks[task] == Audited(answer)
    ensures Next(cfg, sys, TaskStep(task, SomeOracle(), "")) == CacheAnswer(sys, task, answer)
  {
  }

  lemma SendStep(cfg: Config, sys: System, task: nat, answer: Option<FinalResponse>)
    requires task < |sys.tasks| && sys.tasks[task] == Cached(answer)
    ensures Next(cfg, sys, TaskStep(task, SomeOracle(), "")) == SendAnswer(sys, task, answer)
  {
  }

  /** A system with one more turn in it, at a state. */
  ghost function WithTurn(sys: System, thread: ThreadId, state: State): System {
    sys.(checkpoints := sys.checkpoints[thread := state], tasks := sys.tasks + [Turn(thread, state)])
  }

  lemma TurnOpens(sys: System, thread: ThreadId, state: State, newRow: RowId)
    requires !RequiresHumanApproval(state)
    ensures OpenTurn(sys, thread, state, newRow) == WithTurn(sys, thread, state)
  {
  }

  lemma TurnGoesOn(sys: System, thread: ThreadId, state: State, state': State, newRow: RowId)
    requires !RequiresHumanApproval(state')
    ensures var s := WithTurn(sys, thread, state);
      AfterEmit(s.(checkpoints := s.checkpoints[thread := state']), |sys.tasks|, thread, state', newRow)
        == WithTurn(sys, thread, state')
  {
    var s := WithTurn(sys, thread, state);
    assert s.checkpoints[thread := state'] == sys.checkpoints[thread := state'];
  }

  /** One answer if the stage was reached, else none. */
  function UpTo(answer: Option<FinalResponse>, stage: nat, reached: nat): seq<Option<FinalResponse>> {
    if stage <= reached then [answer] else []
  }

  class SupportApi {
    const cfg: Config
    var checkpoints: map<ThreadId, State>
    var rows: map<RowId, Row>
    var audit: seq<Option<FinalResponse>>
    var cache: seq<Option<FinalResponse>>
    var outputs: seq<Option<FinalResponse>>
    ghost var tasks: seq<Task>
    ghost var commits: seq<Commit>
    ghost var toolCalls: seq<ThreadId>
    ghost var events: seq<Event>

    ghost function Sys(): System
      reads this
    {
      System(checkpoints, rows, tasks, commits, toolCalls, audit, cache, outputs)
    }

    /** The object's state is the one its events lead to. */
    ghost predicate Valid()
      reads this
    {
      Sys() == Run(cfg, events)
    }

    constructor (cfg: Config)
      ensures Valid() && this.cfg == cfg && events == []
    {
      this.cfg := cfg;
      checkpoints, rows, audit, cache, outputs := map[], map[], [], [], [];
      tasks, commits, toolCalls, events := [], [], [], [];
    }

    ghost method Record(e: Event, before: System)
      requires before == Run(cfg, events) && Sys() == Next(cfg, before, e)
      modifies this`events
      ensures Valid() && events == old(events) + [e]
    {
      RunSnoc(cfg, events, e);
      events := events + [e];
    }

    /** What the turn's loop does with an emitted state. */
    method Emit(ghost task: nat, thread: ThreadId, state: State, newRow: RowId) returns (stop: bool)
      requires task < |tasks|
      modifies this`rows, this`tasks
      ensures stop == RequiresHumanApproval(state)
      ensures Sys() == AfterEmit(old(Sys()), task, thread, state, newRow)
    {
      stop := RequiresHumanApproval(state);
      if stop {
        rows := rows[newRow := Row(thread, Awaiting)];
        tasks := tasks[task := Finished];
      } else {
        tasks := tasks[task := Turn(thread, state)];
      }
    }

    /** A turn that found a cached trajectory only passes it on. */
    method ServeFromCache(entry: nat)
      requires Valid() && entry < |cache|
      modifies this
      ensures Valid() && events == old(events) + [Event.ServeFromCache(entry)]
      ensures Sys() == old(Sys()).(outputs := old(outputs) + [old(cache)[entry]])
    {
      ghost var before := Sys();
      outputs := outputs + [cache[entry]];
      Record(Event.ServeFromCache(entry), before);
    }

    method Begin(thread: ThreadId, image: bool, newRow: RowId) returns (state: State, stop: bool)
      requires Valid()
      modifies this
      ensures Valid() && old(events) < events
      ensures state == StartTurn(if thread in old(checkpoints) then Some(old(checkpoints)[thread]) else None, image)
      ensures stop == RequiresHumanApproval(state)
      ensures Sys() == OpenTurn(old(Sys()), thread, state, newRow)
    {
      hide Step, StartTurn, Run, RequiresHumanApproval;
      ghost var before := Sys();
      state := StartTurn(if thread in checkpoints then Some(checkpoints[thread]) else None, image);
      checkpoints := checkpoints[thread := state];
      tasks := tasks + [Finished];
      stop := Emit(|tasks| - 1, thread, state, newRow);
      Record(BeginTurn(thread, image, newRow), before);
    }

    /** One step of a turn's stream. */
    method Advance(ghost task: nat, thread: ThreadId, state: State, o: Oracle, newRow: RowId)
      returns (state': State, stop: bool)
      requires Valid() && task < |tasks| && tasks[task] == Turn(thread, state)
      requires state.next != Executor && state.next != End
      modifies this
      ensures Valid() && old(events) < events
      ensures state' == Step(cfg, state, o) && stop == RequiresHumanApproval(state')
      ensures Sys() ==
              AfterEmit(old(Sys()).(checkpoints := old(checkpoints)[thread := state']), task, thread, state', newRow)
    {
      ghost var before := Sys();
      state' := Step(cfg, state, o);
      checkpoints := checkpoints[thread := state'];
      stop := Emit(task, thread, state', newRow);
      Record(TaskStep(task, o, newRow), before);
    }

    /** A task fails where it is: nothing more is written, but a tool whose step fails may have run. */
    ghost method Crash(task: nat)
      requires Valid() && task < |tasks|
      modifies this`tasks, this`toolCalls, this`events
      ensures Valid() && old(events) < events
      ensures tasks == old(tasks)[task := Finished]
      ensures toolCalls ==
              if RunsTool(old(tasks)[task]) then old(toolCalls) + [old(tasks)[task].thread] else old(toolCalls)
    {
      var before := Sys();
      if RunsTool(tasks[task]) {
        toolCalls := toolCalls + [tasks[task].thread];
      }
      tasks := tasks[task := Finished];
      Record(TaskFails(task), before);
    }

    /** The audit row of a turn whose stream is over. */
    method Audit(ghost task: nat, thread: ThreadId, state: State)
      requires Valid() && task < |tasks| && tasks[task] == Turn(thread, state) && Paused(tasks[task])
      modifies this`audit, this`tasks, this`events
      ensures Valid() && old(events) < events
      ensures audit == old(audit) + [state.finalResponse]
      ensures tasks == old(tasks)[task := Audited(state.finalResponse)]
    {
      hide Run, Next;
      ghost var before := Sys();
      audit := audit + [state.finalResponse];
      tasks := tasks[task := Audited(state.finalResponse)];
      AuditStep(cfg, before, task, thread, state);
      Record(TaskStep(task, SomeOracle(), ""), before);
    }

    method StoreAnswer(ghost task: nat, answer: Option<FinalResponse>)
      requires Valid() && task < |tasks| && tasks[task] == Audited(answer)
      modifies this`cache, this`tasks, this`events
      ensures Valid() && old(events) < events
      ensures cache == old(cache) + [answer] && tasks == old(tasks)[task := Cached(answer)]
    {
      hide Run, Next;
      ghost var before := Sys();
      cache := cache + [answer];
      tasks := tasks[task := Cached(answer)];
      CacheStep(cfg, before, task, answer);
      Record(TaskStep(task, SomeOracle(), ""), before);
    }

    method Send(ghost task: nat, answer: Option<FinalResponse>)
      requires Valid() && task < |tasks| && tasks[task] == Cached(answer)
      modifies this`outputs, this`tasks, this`events
      ensures Valid() && old(events) < events
      ensures outputs == old(outputs) + [answer] && tasks == old(tasks)[task := Finished]
    {
      hide Run, Next;
      ghost var before := Sys();
      outputs := outputs + [answer];
      tasks := tasks[task := Finished];
      SendStep(cfg, before, task, answer);
      Record(TaskStep(task, SomeOracle(), ""), before);
    }

    /** After the stream: the audit row, the cache entry and the final output, up to the first that fails. */
    method Finish(ghost task: nat, thread: ThreadId, state: State, fails: nat -> bool) returns (reached: nat)
      requires Valid() && task < |tasks| && tasks[task] == Turn(thread, state) && Paused(tasks[task])
      modifies this`audit, this`cache, this`outputs, this`tasks, this`toolCalls, this`events
      ensures Valid() && old(events) < events
      ensures reached == if fails(0) then 0 else if fails(1) then 1 else if fails(2) then 2 else 3
      ensures audit == old(audit) + UpTo(state.finalResponse, 1, reached)
      ensures cache == old(cache) + UpTo(state.finalResponse, 2, reached)
      ensures outputs == old(outputs) + UpTo(state.finalResponse, 3, reached)
      ensures toolCalls == old(toolCalls)
    {
      hide Step, Run, Next;
      var answer := state.finalResponse;
      if fails(0) {
        Crash(task);
        return 0;
      }
      Audit(task, thread, state);
      if fails(1) {
        Crash(task);
        return 1;
      }
      StoreAnswer(task, answer);
      if fails(2) {
        Crash(task);
        return 2;
      }
      Send(task, answer);
      return 3;
    }

    ghost function Previous(thread: ThreadId): Option<State>
      reads this
    {
      if thread in checkpoints then Some(checkpoints[thread]) else None
    }

    /** The stream of a turn: nodes run one by one until the turn is parked before the executor or one raises. */
    method StreamTurn(thread: ThreadId, image: bool, nodes: nat -> Option<Oracle>, newRow: RowId)
      returns (state: State, raised: bool)
      requires Valid()
      modifies this
      ensures Valid() && old(events) < events
      ensures raised <==> exists k: nat :: k < NodesBefore(cfg, image) && nodes(k).None?
      ensures BeforeExecutor(state) && (state.next == Executor <==> !raised)
      ensures StoppedTurn(cfg, StartTurn(old(Previous(thread)), image), nodes, state)
      ensures var t := WithTurn(old(Sys()), thread, state);
        Sys() == if raised then t.(tasks := t.tasks[|old(tasks)| := Finished]) else t
    {
      hide Step, StartTurn, RequiresHumanApproval, Run, Next, TurnAt, OpenTurn, AfterEmit, Streamed, Streaming;
      ghost var task := |tasks|;
      TurnStarts(cfg, Previous(thread), image, nodes);
      var stop;
      state, stop := Begin(thread, image, newRow);
      ghost var start := state;
      TurnOpens(old(Sys()), thread, state, newRow);
      var k := 0;
      while !stop && state.next != Executor && state.next != End
        invariant Valid() && old(events) < events && !stop
        invariant k >= 0 && TurnAt(cfg, start, image, nodes, k, state)
        invariant Sys() == WithTurn(old(Sys()), thread, state)
        decreases StepsLeft(state.next, false)
      {
        var answer := nodes(k);
        if answer == None {
          TurnStops(cfg, start, image, nodes, k, state);
          Crash(task);
          return state, true;
        }
        TurnPasses(cfg, start, image, nodes, k, state);
        StepProgress(cfg, state, answer.value);
        TurnGoesOn(old(Sys()), thread, state, Step(cfg, state, answer.value), newRow);
        state, stop := Advance(task, thread, state, answer.value, newRow);
        k := k + 1;
      }
      NeverOver(cfg, start, image, nodes, k, state);
      TurnStops(cfg, start, image, nodes, k, state);
      raised := false;
    }

    /**
      A chat turn that misses the cache.  It runs no tool, queues nothing, parks the thread before the
      executor, and then audits, stores and sends an answer that is not there, in this order and up to the
      first of these that fails; or a node raises and it does none of them.
    */
    method RunTurn(thread: ThreadId, image: bool, nodes: nat -> Option<Oracle>, fails: nat -> bool, newRow: RowId)
      returns (reached: nat)
      requires Valid()
      modifies this
      ensures Valid() && old(events) < events && reached <= 3
      ensures toolCalls == old(toolCalls) && commits == old(commits) && rows == old(rows)
      ensures thread in checkpoints && BeforeExecutor(checkpoints[thread])
      ensures checkpoints == old(checkpoints)[thread := checkpoints[thread]]
      ensures StoppedTurn(cfg, StartTurn(old(Previous(thread)), image), nodes, checkpoints[thread])
      ensures var raised := exists k: nat :: k < NodesBefore(cfg, image) && nodes(k).None?;
        && (checkpoints[thread].next == Executor <==> !raised)
        && reached == if raised || fails(0) then 0 else if fails(1) then 1 else if fails(2) then 2 else 3
      ensures audit == old(audit) + UpTo(None, 1, reached)
      ensures cache == old(cache) + UpTo(None, 2, reached)
      ensures outputs == old(outputs) + UpTo(None, 3, reached)
    {
      hide Step, StartTurn, RequiresHumanApproval, Inv, Run, Next, NodesBefore, StoppedTurn;
      ghost var task := |tasks|;
      var state, raised := StreamTurn(thread, image, nodes, newRow);
      reached := 0;
      if !raised {
        reached := Finish(task, thread, state, fails);
      }
    }

    method Commit(id: RowId, decision: Decision)
      requires Valid() && id in rows && rows[id].status == Awaiting
      modifies this
      ensures Valid() && old(events) < events
      ensures Sys() == old(Sys()).(
                rows := old(rows)[id := Row(old(rows)[id].thread, Decided(decision))],
                commits := old(commits) + [SupportSystem.Commit(id, old(rows)[id].thread, decision)],
                tasks := old(tasks) + [if decision == Approve then Approved(old(rows)[id].thread) else Finished])
    {
      hide Step, StartTurn, Run;
      ghost var before, i := Sys(), |tasks|;
      tasks := tasks + [Deciding(id, decision)];
      Record(ReadRow(id, decision), before);
      before := Sys();
      var thread := rows[id].thread;
      rows := rows[id := Row(thread, Decided(decision))];
      commits := commits + [SupportSystem.Commit(id, thread, decision)];
      tasks := tasks[i := if decision == Approve then Approved(thread) else Finished];
      Record(CommitDecision(i), before);
    }

    /** One step of the stream that an approval drives. */
    method ResumeStep(ghost task: nat, thread: ThreadId, state: State, ghost exempt: bool, o: Oracle)
      returns (state': State)
      requires Valid() && task < |tasks| && tasks[task] == Resumed(thread, state, exempt) && !Paused(tasks[task])
      modifies this`checkpoints, this`tasks, this`toolCalls, this`events
      ensures Valid() && old(events) < events && state' == Step(cfg, state, o)
      ensures checkpoints == old(checkpoints)[thread := state']
      ensures tasks == old(tasks)[task := Resumed(thread, state', false)]
      ensures toolCalls == if state.next == Executor then old(toolCalls) + [thread] else old(toolCalls)
    {
      ghost var before := Sys();
      state' := Step(cfg, state, o);
      checkpoints := checkpoints[thread := state'];
      if state.next == Executor {
        toolCalls := toolCalls + [thread];
      }
      tasks := tasks[task := Resumed(thread, state', false)];
      Record(TaskStep(task, o, ""), before);
    }

    /** The loop over a resumed stream: the first step is not interrupted. */
    method DriveStream(ghost task: nat, thread: ThreadId, nodes: nat -> Option<Oracle>)
      requires Valid() && task < |tasks| && thread in checkpoints
      requires tasks[task] == Resumed(thread, checkpoints[thread], true)
      modifies this`checkpoints, this`tasks, this`toolCalls, this`events
      ensures Valid() && old(events) < events
      ensures toolCalls == old(toolCalls) + if old(checkpoints)[thread].next == Executor then [thread] else []
      ensures Drove(cfg, old(checkpoints), thread, nodes, checkpoints)
    {
      hide Step, Run, Next, Streaming, Streamed, OnTheWay;
      var state, k, exempt := checkpoints[thread], 0, true;
      ghost var start := state;
      WayStarts(cfg, start, nodes, true);
      while state.next != End && (exempt || state.next != Executor)
        invariant Valid() && old(events) <= events && |tasks| == |old(tasks)|
        invariant tasks[task] == Resumed(thread, state, exempt)
        invariant k >= 0 && (exempt <==> k == 0) && OnTheWay(cfg, start, nodes, true, k, state)
        invariant checkpoints == old(checkpoints)[thread := state] && (exempt ==> state == start)
        invariant toolCalls == old(toolCalls) + if !exempt && start.next == Executor then [thread] else []
        decreases StepsLeft(state.next, exempt)
      {
        var answer := nodes(k);
        if answer == None {
          WayEnds(cfg, start, nodes, true, k, state);
          Crash(task);
          return;
        }
        WayGoesOn(cfg, start, nodes, true, k, state);
        StepProgress(cfg, state, answer.value);
        state := ResumeStep(task, thread, state, exempt, answer.value);
        exempt := false;
        k := k + 1;
      }
      WayEnds(cfg, start, nodes, true, k, state);
      StopStream(task);
    }

    /** Streaming with no input from the thread's checkpoint, if it has one. */
    method Resume(ghost task: nat, thread: ThreadId, nodes: nat -> Option<Oracle>)
      requires Valid() && task < |tasks| && tasks[task] == Approved(thread)
      modifies this`checkpoints, this`tasks, this`toolCalls, this`events
      ensures Valid() && old(events) < events
      ensures toolCalls == old(toolCalls) +
                if thread in old(checkpoints) && old(checkpoints)[thread].next == Executor then [thread] else []
      ensures thread !in old(checkpoints) ==> checkpoints == old(checkpoints)
      ensures thread in old(checkpoints) ==> Drove(cfg, old(checkpoints), thread, nodes, checkpoints)
    {
      hide Run, Next, Drove;
      ghost var before := Sys();
      ghost var known := thread in checkpoints;
      tasks := tasks[task := if known then Resumed(thread, checkpoints[thread], true) else Finished];
      ResumeStarts(cfg, before, task);
      Record(StartResume(task), before);
      if thread in checkpoints {
        DriveStream(task, thread, nodes);
      }
    }

    /** A stream that is paused ends; its thread stays where it is. */
    ghost method StopStream(task: nat)
      requires Valid() && task < |tasks| && tasks[task].Resumed? && Paused(tasks[task])
      modifies this`tasks, this`events
      ensures Valid() && old(events) < events
    {
      var before := Sys();
      tasks := tasks[task := Finished];
      Record(TaskStep(task, SomeOracle(), ""), before);
    }

    /**
      A decision.  An unknown row is not found and a decided one refused, and then nothing changes.  Otherwise
      the decision is committed, and an approval lets exactly one executor step run if the thread waits for one.
    */
    method DecideApproval(id: RowId, decision: Decision, nodes: nat -> Option<Oracle>) returns (reply: Reply)
      requires Valid()
      modifies this
      ensures Valid()
      ensures reply == (if id !in old(rows) then NotFound else if old(rows)[id].status != Awaiting then Conflict
                        else Done(Decided(decision)))
      ensures !reply.Done? ==> Sys() == old(Sys()) && events == old(events)
      ensures reply.Done? ==>
        && rows == old(rows)[id := Row(old(rows)[id].thread, Decided(decision))]
        && commits == old(commits) + [SupportSystem.Commit(id, old(rows)[id].thread, decision)]
        && audit == old(audit) && cache == old(cache) && outputs == old(outputs)
      ensures reply.Done? ==>
        var thread := old(rows)[id].thread;
        toolCalls == old(toolCalls) +
          if decision == Approve && thread in old(checkpoints) && old(checkpoints)[thread].next == Executor
          then [thread] else []
      ensures reply.Done? ==>
        var thread := old(rows)[id].thread;
        if decision == Approve && thread in old(checkpoints)
        then Drove(cfg, old(checkpoints), thread, nodes, checkpoints)
        else checkpoints == old(checkpoints)
    {
      if id !in rows {
        return NotFound;
      }
      if rows[id].status != Awaiting {
        return Conflict;
      }
      var thread := rows[id].thread;
      ghost var task := |tasks|;
      Commit(id, decision);
      if decision == Approve {
        Resume(task, thread, nodes);
      }
      return Done(Decided(decision));
    }

    /** The human gate holds of this object at all times, for it holds of every run. */
    lemma Gated(t: ThreadId)
      requires Valid()
      ensures ToolCallsOf(toolCalls, t) <= ApprovalsOf(commits, t)
    {
      HumanGate(cfg, events, t);
    }
  }

  lemma ResumeStarts(cfg: Config, sys: System, task: nat)
    requires task < |sys.tasks| && sys.tasks[task].Approved?
    ensures var thread := sys.tasks[task].thread;
      Next(cfg, sys, StartResume(task)) == sys.(tasks := sys.tasks[task :=
        if thread in sys.checkpoints then Resumed(thread, sys.checkpoints[thread], true) else Finished])
  {
  }

  /** Each step leads closer to a pause. */
  lemma StepProgress(cfg: Config, s: State, o: Oracle)
    requires s.next != End
    ensures s.next != Executor ==> StepsLeft(Step(cfg, s, o).next, false) < StepsLeft(s.next, false)
    ensures StepsLeft(Step(cfg, s, o).next, false) < 5
  {
  }
}
