/**
  The stdio transport: any number of callers, one lock, one child process at a time and its two pipes.

  A send takes the lock, starts a child if none is known to run, writes one line, reads one line and lets
  the lock go.  Requests are numbered in the order in which they take the lock.  The child answers the
  lines of its input in order, one line each; it may exit at any moment, and the parent may notice later.
*/
module StdioTransport {
  import opened Wrappers

  datatype Process =
    | Absent     // never started, or known to have exited
    | Running
    | Exited     // gone, but the parent has not noticed; what it wrote can still be read

  datatype Holder = Holder(request: nat, wrote: bool)

  /** A send that is over: what it was given to return, and how many reads had been given up on its child. */
  datatype Completion = Completion(request: nat, reply: Option<nat>, abandoned: nat)

  datatype Transport = Transport(
    holder: Option<Holder>,
    next: nat,               // the number of the next request
    process: Process,
    input: seq<nat>,         // lines the child has not answered
    output: seq<nat>,        // answers not yet read, by the request they answer
    written: seq<nat>,       // every line written to this child
    read: nat,               // lines read from this child
    abandoned: nat,          // reads of this child that timed out or were cancelled
    completions: seq<Completion>)

  datatype Event =
    | Acquire
    | Write          // start a child if needed, then write
    | WriteFails     // a write to a child that has gone raises
    | Cancel         // starting the child fails, or the caller is cancelled before it has written
    | ChildAnswers
    | ChildExits
    | ExitNoticed
    | Read
    | ReadEnds       // end of file
    | Abandon        // the read times out, or the caller is cancelled

  const Initial := Transport(None, 0, Absent, [], [], [], 0, 0, [])

  predicate Reading(t: Transport) { t.holder.Some? && t.holder.value.wrote }

  predicate Writing(t: Transport) { t.holder.Some? && !t.holder.value.wrote }

  /** The child a write goes to: a new one unless the old one is thought to run. */
  function EnsureStarted(t: Transport): Transport {
    if t.process == Absent
    then t.(process := Running, input := [], output := [], written := [], read := 0, abandoned := 0)
    else t
  }

  function WriteLine(t: Transport, request: nat): Transport {
    t.(input := if t.process == Running then t.input + [request] else t.input,
       written := t.written + [request], holder := Some(Holder(request, true)))
  }

  /** The lock is let go and the send is over. */
  function Complete(t: Transport, reply: Option<nat>): Transport
    requires t.holder.Some?
  {
    t.(holder := None, completions := t.completions + [Completion(t.holder.value.request, reply, t.abandoned)])
  }

  /** One step; an event that is not enabled changes nothing. */
  function Next(t: Transport, e: Event): Transport {
    match e
    case Acquire => if t.holder == None then t.(holder := Some(Holder(t.next, false)), next := t.next + 1) else t
    case Write => if Writing(t) then WriteLine(EnsureStarted(t), t.holder.value.request) else t
    case WriteFails => if Writing(t) && t.process == Exited then Complete(t, None) else t
    case Cancel => if Writing(t) then Complete(t, None) else t
    case ChildAnswers =>
      if t.process == Running && t.input != [] then t.(input := t.input[1..], output := t.output + [t.input[0]]) else t
    case ChildExits => if t.process == Running then t.(process := Exited, input := []) else t
    case ExitNoticed => if t.process == Exited then t.(process := Absent) else t
    case Read =>
      if Reading(t) && t.output != []
      then Complete(t.(output := t.output[1..], read := t.read + 1), Some(t.output[0]))
      else t
    case ReadEnds => if Reading(t) && t.output == [] && t.process != Running then Complete(t, None) else t
    case Abandon => if Reading(t) then Complete(t, None).(abandoned := t.abandoned + 1) else t
  }

  function Run(events: seq<Event>): Transport {
    if events == [] then Initial else Next(Run(events[..|events| - 1]), events[|events| - 1])
  }

  lemma NothingRun()
    ensures Run([]) == Initial
  {
  }

  lemma RunSnoc(events: seq<Event>, e: Event)
    ensures Run(events + [e]) == Next(Run(events), e)
  {
    assert (events + [e])[..|events|] == events;
  }

  // ---------------------------------------------------------------- the pipes are a queue

  predicate Increasing(xs: seq<nat>) {
    forall i, j :: 0 <= i < j < |xs| ==> xs[i] < xs[j]
  }

  /** What is in the pipes is what was written and not yet read, in order; a child that exits loses its input. */
  ghost predicate Queue(t: Transport) {
    && t.read <= |t.written|
    && (t.process == Running ==> t.output + t.input == t.written[t.read..])
    && (t.process != Running ==> t.input == [] && t.output <= t.written[t.read..])
    && Increasing(t.written)
    && (forall i :: 0 <= i < |t.written| ==> t.written[i] < t.next)
  }

  /** The holder's own line is the last one written. */
  ghost predicate Owner(t: Transport) {
    && (t.holder.Some? ==> t.holder.value.request < t.next)
    && (Reading(t) ==> t.written != [] && t.written[|t.written| - 1] == t.holder.value.request)
    && (Writing(t) ==> forall i :: 0 <= i < |t.written| ==> t.written[i] < t.holder.value.request)
  }

  /** Lines written and not read: one for each read given up, and one for the send in progress. */
  ghost predicate Backlog(t: Transport) {
    || |t.written| - t.read == t.abandoned + (if Reading(t) then 1 else 0)
    || (t.process != Running && t.output == [])
  }

  ghost predicate Inv(t: Transport) { Queue(t) && Owner(t) && Backlog(t) }

  /** A reply is paired with its own request exactly when no read of its child was given up before. */
  ghost predicate Paired(c: Completion) {
    c.reply.Some? ==> if c.abandoned == 0 then c.reply.value == c.request else c.reply.value < c.request
  }

  lemma InvStarted(t: Transport)
    requires Inv(t) && Writing(t)
    ensures Inv(EnsureStarted(t)) && EnsureStarted(t).holder == t.holder
  {
  }

  lemma InvWriteLine(t: Transport)
    requires Inv(t) && Writing(t)
    ensures Inv(WriteLine(t, t.holder.value.request))
  {
    var request := t.holder.value.request;
    var t' := WriteLine(t, request);
    assert t'.written[t'.read..] == t.written[t.read..] + [request];
    assert t.output + (t.input + [request]) == (t.output + t.input) + [request];
  }

  lemma InvWrite(t: Transport)
    requires Inv(t)
    ensures Inv(Next(t, Write))
  {
    hide Inv, WriteLine, EnsureStarted;
    if Writing(t) {
      InvStarted(t);
      InvWriteLine(EnsureStarted(t));
    }
  }

  lemma InvAnswers(t: Transport)
    requires Inv(t)
    ensures Inv(Next(t, ChildAnswers))
  {
    if t.process == Running && t.input != [] {
      assert t.output + [t.input[0]] + t.input[1..] == t.output + t.input;
    }
  }

  lemma InvRead(t: Transport)
    requires Inv(t)
    ensures Inv(Next(t, Read))
  {
    if Reading(t) && t.output != [] {
      assert t.written[t.read + 1..] == t.written[t.read..][1..];
      assert t.output[1..] + t.input == (t.output + t.input)[1..];
    }
  }

  lemma InvNext(t: Transport, e: Event)
    requires Inv(t)
    ensures Inv(Next(t, e))
  {
    match e
    case Write => InvWrite(t);
    case ChildAnswers => InvAnswers(t);
    case Read => InvRead(t);
    case _ =>
  }

  lemma {:induction false} InvRun(events: seq<Event>)
    ensures Inv(Run(events))
  {
    if events != [] {
      InvRun(events[..|events| - 1]);
      InvNext(Run(events[..|events| - 1]), events[|events| - 1]);
    }
  }

  /** A read takes the oldest answer: the reader's own if nothing is left over, an older one otherwise. */
  lemma ReadPaired(t: Transport)
    requires Inv(t) && Reading(t) && t.output != []
    ensures Paired(Completion(t.holder.value.request, Some(t.output[0]), t.abandoned))
    ensures t.read + t.abandoned < |t.written|
    ensures t.output[0] == t.written[t.read] && t.holder.value.request == t.written[t.read + t.abandoned]
  {
    assert t.output[0] == t.written[t.read..][0] by {
      assert t.process == Running ==> (t.output + t.input)[0] == t.output[0];
    }
  }

  ghost predicate AllPaired(cs: seq<Completion>) {
    forall i :: 0 <= i < |cs| ==> Paired(cs[i])
  }

  lemma PairedNext(t: Transport, e: Event)
    requires Inv(t) && AllPaired(t.completions)
    ensures AllPaired(Next(t, e).completions)
  {
    hide Queue, Owner, Backlog, Paired;
    var cs := Next(t, e).completions;
    if e == Read && Reading(t) && t.output != [] {
      ReadPaired(t);
      assert cs[|t.completions|] == Completion(t.holder.value.request, Some(t.output[0]), t.abandoned);
    } else if |cs| > |t.completions| {
      UnansweredPaired(cs[|t.completions|]);
    }
  }

  lemma UnansweredPaired(c: Completion)
    requires c.reply == None
    ensures Paired(c)
  {
  }

  /**
    Pairing, for any number of callers and child restarts: every reply belongs to its own request exactly
    when no earlier read of the same child was given up; after one was, every reply is an older one.
  */
  lemma {:induction false} Pairing(events: seq<Event>)
    ensures AllPaired(Run(events).completions)
  {
    if events != [] {
      var rest, e := events[..|events| - 1], events[|events| - 1];
      var t := Run(rest);
      Pairing(rest);
      InvRun(rest);
      PairedNext(t, e);
    }
  }

  // ---------------------------------------------------------------- without timeouts

  predicate Patient(events: seq<Event>) {
    forall i :: 0 <= i < |events| ==> events[i] != Abandon
  }

  /** The lock keeps written minus read at zero or one while a child runs, and every reply is its sender's own. */
  lemma {:induction false} PatientRuns(events: seq<Event>)
    requires Patient(events)
    ensures var t := Run(events);
      && t.abandoned == 0
      && (t.process == Running ==> t.read <= |t.written| <= t.read + 1)
      && (t.process == Running ==> (|t.written| == t.read + 1 <==> Reading(t)))
      && forall i :: 0 <= i < |t.completions| && t.completions[i].reply.Some? ==>
           t.completions[i].reply.value == t.completions[i].request
  {
    var t := Run(events);
    InvRun(events);
    Pairing(events);
    NoneAbandoned(events);
    forall i | 0 <= i < |t.completions| && t.completions[i].reply.Some?
      ensures t.completions[i].reply.value == t.completions[i].request
    {
      assert Paired(t.completions[i]);
    }
  }

  lemma {:induction false} NoneAbandoned(events: seq<Event>)
    requires Patient(events)
    ensures var t := Run(events);
      && t.abandoned == 0
      && forall i :: 0 <= i < |t.completions| ==> t.completions[i].abandoned == 0
  {
    if events != [] {
      NoneAbandoned(events[..|events| - 1]);
    }
  }

  // ---------------------------------------------------------------- after a timeout

  function TimedOut(): seq<Event> {
    [Acquire, Write, Abandon, ChildAnswers, Acquire, Write, Read]
  }

  /** One timeout is enough: the next sender is handed the late answer to somebody else's request. */
  lemma TimeoutMispairs()
    ensures var cs := Run(TimedOut()).completions; |cs| == 2 && cs[1].request == 1 && cs[1].reply == Some(0)
  {
    hide Run;
    NothingRun();
    var e1: seq<Event> := [] + [Acquire];
    RunSnoc([], Acquire);
    var e2 := e1 + [Write];
    RunSnoc(e1, Write);
    var e3 := e2 + [Abandon];
    RunSnoc(e2, Abandon);
    var e4 := e3 + [ChildAnswers];
    RunSnoc(e3, ChildAnswers);
    var e5 := e4 + [Acquire];
    RunSnoc(e4, Acquire);
    var e6 := e5 + [Write];
    RunSnoc(e5, Write);
    var e7 := e6 + [Read];
    RunSnoc(e6, Read);
    assert e7 == TimedOut();
  }

  // ---------------------------------------------------------------- after an exit

  /**
    A restart heals: from any state between sends, if the child exits and that is noticed, the next send starts
    a new one and is handed its own answer, however many reads of the old child were given up.
  */
  lemma RestartHeals(events: seq<Event>)
    requires Run(events).holder == None && Run(events).process == Running
    ensures var t := Run(events);
      var e := Run(events + [ChildExits] + [ExitNoticed] + [Acquire] + [Write] + [ChildAnswers] + [Read]);
      && e.completions == t.completions + [Completion(t.next, Some(t.next), 0)]
      && e.holder == None && e.process == Running && e.input == e.output == []
  {
    hide Run;
    var e1 := events + [ChildExits];
    RunSnoc(events, ChildExits);
    var e2 := e1 + [ExitNoticed];
    RunSnoc(e1, ExitNoticed);
    var e3 := e2 + [Acquire];
    RunSnoc(e2, Acquire);
    var e4 := e3 + [Write];
    RunSnoc(e3, Write);
    var e5 := e4 + [ChildAnswers];
    RunSnoc(e4, ChildAnswers);
    RunSnoc(e5, Read);
  }

  /**
    An exit that is not noticed costs the next send: it is written to the old child, or fails to be, and ends
    without an answer once what the old child had written is read; the lock is let go.
  */
  lemma UnnoticedExit(events: seq<Event>)
    requires Run(events).holder == None && Run(events).process == Running && Run(events).output == []
    ensures var t := Run(events);
      var written := Run(events + [ChildExits] + [Acquire] + [Write] + [ReadEnds]);
      var failed := Run(events + [ChildExits] + [Acquire] + [WriteFails]);
      && written.completions == failed.completions == t.completions + [Completion(t.next, None, t.abandoned)]
      && written.holder == failed.holder == None && written.process == failed.process == Exited
  {
    hide Run;
    var e1 := events + [ChildExits];
    RunSnoc(events, ChildExits);
    var e2 := e1 + [Acquire];
    RunSnoc(e1, Acquire);
    var e3 := e2 + [Write];
    RunSnoc(e2, Write);
    RunSnoc(e3, ReadEnds);
    RunSnoc(e2, WriteFails);
  }

  /** What a child wrote before it exited can still be read. */
  lemma AnswerOutlivesExit(events: seq<Event>)
    requires Reading(Run(events)) && Run(events).process == Running && Run(events).output != []
    ensures var t, e := Run(events), Run(events + [ChildExits] + [Read]);
      e.completions == t.completions + [Completion(t.holder.value.request, Some(t.output[0]), t.abandoned)]
  {
    hide Run;
    RunSnoc(events, ChildExits);
    RunSnoc(events + [ChildExits], Read);
  }

  /** A send given up before it has written leaves the pipes and the pairing alone. */
  lemma CancelledEarly(events: seq<Event>)
    requires Run(events).holder == None
    ensures var t, e := Run(events), Run(events + [Acquire] + [Cancel]);
      e == t.(next := t.next + 1, completions := t.completions + [Completion(t.next, None, t.abandoned)])
  {
    hide Run;
    RunSnoc(events, Acquire);
    RunSnoc(events + [Acquire], Cancel);
  }
}
