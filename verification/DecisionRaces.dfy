/**
  When one approval can be decided twice: exactly as long as two decisions on it can be between their read
  and their commit, and that is until it is decided with no more than one of them left in flight.
*/
module DecisionRaces {
  import opened AgentGraph
  import opened SupportSystem
  import opened SupportSystemFacts
  import opened Wrappers

  /** Two decisions on the row are between their read and their commit. */
  ghost predicate Racing(sys: System, id: RowId) {
    !AtMostOneDeciding(sys.tasks, id)
  }

  /** A decision on the row would still be accepted, if need be after the row is queued. */
  predicate Undecided(sys: System, id: RowId) {
    id !in sys.rows || sys.rows[id].status == Awaiting
  }

  /** Some continuation commits two more decisions on the row. */
  ghost predicate CanCommitTwice(cfg: Config, events: seq<Event>, id: RowId) {
    exists more: seq<Event> ::
      CommitsOf(Run(cfg, events + more).commits, id) >= CommitsOf(Run(cfg, events).commits, id) + 2
  }

  /** Some continuation has two decisions on the row in flight. */
  ghost predicate CanRace(cfg: Config, events: seq<Event>, id: RowId) {
    exists more: seq<Event> :: Racing(Run(cfg, events + more), id)
  }

  // ---------------------------------------------------------------- two in flight are both accepted

  lemma CommitStep(cfg: Config, events: seq<Event>, i: nat, id: RowId)
    requires i < |Run(cfg, events).tasks| && DecidesRow(Run(cfg, events).tasks[i], id)
    ensures var sys, sys' := Run(cfg, events), Run(cfg, events + [CommitDecision(i)]);
      && |sys'.tasks| == |sys.tasks|
      && (forall j :: 0 <= j < |sys.tasks| && j != i ==> sys'.tasks[j] == sys.tasks[j])
      && CommitsOf(sys'.commits, id) == CommitsOf(sys.commits, id) + 1
  {
    hide Run, Step, StreamStep, OpenTurn, StartTurn, Paused, CommitsOf;
    var sys := Run(cfg, events);
    RowAccountRun(cfg, events, id);
    RunSnoc(cfg, events, CommitDecision(i));
    CommitsSnoc(sys.commits, Commit(id, sys.rows[id].thread, sys.tasks[i].decision), id);
  }

  /** From any state, two decisions in flight on one row can both be committed. */
  lemma BothCommit(cfg: Config, events: seq<Event>, i: nat, j: nat, id: RowId)
    requires i < j < |Run(cfg, events).tasks|
    requires DecidesRow(Run(cfg, events).tasks[i], id) && DecidesRow(Run(cfg, events).tasks[j], id)
    ensures CommitsOf(Run(cfg, events + [CommitDecision(i)] + [CommitDecision(j)]).commits, id) ==
            CommitsOf(Run(cfg, events).commits, id) + 2
  {
    hide Run, CommitsOf;
    CommitStep(cfg, events, i, id);
    CommitStep(cfg, events + [CommitDecision(i)], j, id);
  }

  /** While a row is undecided, two reads of it can be in flight. */
  lemma ReadTwice(cfg: Config, events: seq<Event>, id: RowId) returns (more: seq<Event>)
    requires Undecided(Run(cfg, events), id)
    ensures Racing(Run(cfg, events + more), id)
  {
    hide Run, Step, StreamStep, OpenTurn, StartTurn, Paused;
    more := [];
    assert events + [] == events;
    if id !in Run(cfg, events).rows {
      RunSnoc(cfg, events, InsertRow(id, ""));
      more := [InsertRow(id, "")];
    }
    var e0 := events + more;
    var read, n := ReadRow(id, Approve), |Run(cfg, e0).tasks|;
    RunSnoc(cfg, e0, read);
    RunSnoc(cfg, e0 + [read], read);
    assert DecidesRow(Run(cfg, e0 + [read] + [read]).tasks[n], id);
    assert DecidesRow(Run(cfg, e0 + [read] + [read]).tasks[n + 1], id);
    assert events + (more + [read, read]) == e0 + [read] + [read];
    more := more + [read, read];
  }

  // ---------------------------------------------------------------- a decided row stays so

  /** The row stays decided, and no task takes up a decision on it that was not in flight. */
  ghost predicate Stays(sys: System, sys': System, id: RowId) {
    && id in sys'.rows && sys'.rows[id].status.Decided?
    && forall k :: 0 <= k < |sys'.tasks| && DecidesRow(sys'.tasks[k], id) ==>
         k < |sys.tasks| && DecidesRow(sys.tasks[k], id)
  }

  lemma StreamStays(sys: System, i: nat, state': State, newRow: RowId, id: RowId)
    requires id in sys.rows && sys.rows[id].status.Decided?
    requires i < |sys.tasks| && (sys.tasks[i].Turn? || sys.tasks[i].Resumed?)
    requires !RequiresHumanApproval(state')
    ensures var sys' := StreamStep(sys, i, state', newRow); Stays(sys, sys', id) && sys'.commits == sys.commits
  {
  }

  lemma OtherStays(cfg: Config, sys: System, e: Event, id: RowId)
    requires id in sys.rows && sys.rows[id].status.Decided?
    requires !e.BeginTurn? && !e.CommitDecision?
    requires e.TaskStep? && e.task < |sys.tasks| ==> !sys.tasks[e.task].Turn? && !sys.tasks[e.task].Resumed?
    ensures Stays(sys, Next(cfg, sys, e), id) && Next(cfg, sys, e).commits == sys.commits
  {
    hide Step, StreamStep, OpenTurn, StartTurn, Paused, CommitsOf;
  }

  /** A commit on the row uses up its decision. */
  lemma CommitStays(cfg: Config, sys: System, i: nat, id: RowId)
    requires id in sys.rows && sys.rows[id].status.Decided?
    ensures var sys' := Next(cfg, sys, CommitDecision(i));
      && Stays(sys, sys', id)
      && (if i < |sys.tasks| && DecidesRow(sys.tasks[i], id)
          then !DecidesRow(sys'.tasks[i], id) && CommitsOf(sys'.commits, id) == CommitsOf(sys.commits, id) + 1
          else CommitsOf(sys'.commits, id) == CommitsOf(sys.commits, id))
  {
    hide Step, StreamStep, OpenTurn, StartTurn, Paused, CommitsOf;
    if i < |sys.tasks| && sys.tasks[i].Deciding? && sys.tasks[i].row in sys.rows {
      var Deciding(row, decision) := sys.tasks[i];
      CommitsSnoc(sys.commits, Commit(row, sys.rows[row].thread, decision), id);
    }
  }

  lemma NextStays(cfg: Config, sys: System, e: Event, id: RowId, inserted: set<RowId>)
    requires SystemOk(cfg, sys, inserted) && id in sys.rows && sys.rows[id].status.Decided?
    ensures Stays(sys, Next(cfg, sys, e), id)
    ensures !e.CommitDecision? ==> Next(cfg, sys, e).commits == sys.commits
  {
    match e
    case CommitDecision(i) => CommitStays(cfg, sys, i, id);
    case BeginTurn(thread, image, newRow) =>
      GoodStart(cfg, if thread in sys.checkpoints then Some(sys.checkpoints[thread]) else None, image);
      hide StartTurn, RequiresHumanApproval;
    case TaskStep(i, o, newRow) =>
      if i < |sys.tasks| && (sys.tasks[i].Turn? || sys.tasks[i].Resumed?) {
        var state' := StreamTarget(cfg, sys, i, o, inserted);
        StreamStays(sys, i, state', newRow, id);
      } else {
        OtherStays(cfg, sys, e, id);
      }
    case _ => OtherStays(cfg, sys, e, id);
  }

  /** Decided, with at most one decision in flight: at most one more is ever committed. */
  ghost predicate NearlyDone(sys: System, id: RowId, before: nat) {
    && id in sys.rows && sys.rows[id].status.Decided? && !Racing(sys, id)
    && (|| CommitsOf(sys.commits, id) == before
        || (&& CommitsOf(sys.commits, id) == before + 1
            && forall k :: 0 <= k < |sys.tasks| ==> !DecidesRow(sys.tasks[k], id)))
  }

  lemma NearlyDoneNext(cfg: Config, sys: System, e: Event, id: RowId, before: nat, inserted: set<RowId>)
    requires SystemOk(cfg, sys, inserted) && NearlyDone(sys, id, before)
    ensures NearlyDone(Next(cfg, sys, e), id, before)
  {
    hide SystemOk, Next, CommitsOf, DecidesRow;
    NextStays(cfg, sys, e, id, inserted);
    if e.CommitDecision? {
      CommitStays(cfg, sys, e.task, id);
    }
  }

  lemma {:induction false} NearlyDoneRun(cfg: Config, events: seq<Event>, more: seq<Event>, id: RowId)
    requires !Undecided(Run(cfg, events), id) && !Racing(Run(cfg, events), id)
    ensures NearlyDone(Run(cfg, events + more), id, CommitsOf(Run(cfg, events).commits, id))
    decreases |more|
  {
    hide Run, Next, CommitsOf, Racing;
    if more == [] {
      assert events + more == events;
    } else {
      var rest, e := more[..|more| - 1], more[|more| - 1];
      NearlyDoneRun(cfg, events, rest, id);
      SystemOkRun(cfg, events + rest);
      var before := CommitsOf(Run(cfg, events).commits, id);
      NearlyDoneNext(cfg, Run(cfg, events + rest), e, id, before, Inserted(events + rest));
      RunSnoc(cfg, events + rest, e);
      assert events + rest + [e] == events + more;
    }
  }

  // ---------------------------------------------------------------- the law

  lemma {:induction false} CommitsGrow(cfg: Config, events: seq<Event>, more: seq<Event>, id: RowId)
    ensures CommitsOf(Run(cfg, events + more).commits, id) >= CommitsOf(Run(cfg, events).commits, id)
    decreases |more|
  {
    hide Run, Next, CommitsOf;
    if more == [] {
      assert events + more == events;
    } else {
      var rest, e := more[..|more| - 1], more[|more| - 1];
      CommitsGrow(cfg, events, rest, id);
      RunSnoc(cfg, events + rest, e);
      assert events + rest + [e] == events + more;
      CommitsNext(cfg, Run(cfg, events + rest), e, id);
    }
  }

  lemma CommitsNext(cfg: Config, sys: System, e: Event, id: RowId)
    ensures CommitsOf(Next(cfg, sys, e).commits, id) >= CommitsOf(sys.commits, id)
  {
    hide Step, OpenTurn, StartTurn, Paused, CommitsOf;
    match e
    case CommitDecision(i) =>
      if i < |sys.tasks| && sys.tasks[i].Deciding? && sys.tasks[i].row in sys.rows {
        var Deciding(row, decision) := sys.tasks[i];
        CommitsSnoc(sys.commits, Commit(row, sys.rows[row].thread, decision), id);
      }
    case BeginTurn(_, _, _) => OpenKeepsCommits(cfg, sys, e);
    case _ =>
  }

  lemma OpenKeepsCommits(cfg: Config, sys: System, e: Event)
    requires e.BeginTurn?
    ensures Next(cfg, sys, e).commits == sys.commits
  {
    hide StartTurn, RequiresHumanApproval;
  }

  lemma RaceCommitsTwice(cfg: Config, events: seq<Event>, id: RowId)
    requires CanRace(cfg, events, id)
    ensures CanCommitTwice(cfg, events, id)
  {
    hide Run, CommitsOf, DecidesRow;
    var more: seq<Event> :| Racing(Run(cfg, events + more), id);
    var tasks := Run(cfg, events + more).tasks;
    var i, j :| 0 <= i < j < |tasks| && DecidesRow(tasks[i], id) && DecidesRow(tasks[j], id);
    BothCommit(cfg, events + more, i, j, id);
    CommitsGrow(cfg, events, more, id);
    var all := more + [CommitDecision(i)] + [CommitDecision(j)];
    assert events + all == events + more + [CommitDecision(i)] + [CommitDecision(j)];
    assert CommitsOf(Run(cfg, events + all).commits, id) >= CommitsOf(Run(cfg, events).commits, id) + 2;
  }

  /**
    From any point of any run, two more decisions on a row can be committed if and only if two can be in
    flight, and that if and only if the row is undecided or two are in flight already.
  */
  lemma CommittedTwice(cfg: Config, events: seq<Event>, id: RowId)
    ensures CanCommitTwice(cfg, events, id) <==> CanRace(cfg, events, id)
    ensures CanRace(cfg, events, id) <==> Undecided(Run(cfg, events), id) || Racing(Run(cfg, events), id)
  {
    hide Run, CommitsOf, Racing, Undecided, SystemOk;
    if CanRace(cfg, events, id) {
      RaceCommitsTwice(cfg, events, id);
    }
    if Undecided(Run(cfg, events), id) {
      var more := ReadTwice(cfg, events, id);
    } else if Racing(Run(cfg, events), id) {
      assert events + [] == events;
      assert Racing(Run(cfg, events + []), id);
    } else {
      forall more: seq<Event>
        ensures !Racing(Run(cfg, events + more), id)
        ensures CommitsOf(Run(cfg, events + more).commits, id) < CommitsOf(Run(cfg, events).commits, id) + 2
      {
        NearlyDoneRun(cfg, events, more, id);
      }
    }
  }
}
