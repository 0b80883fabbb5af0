/**
  Any number of calls in flight on one client, interleaved at their awaits: they share the id counter, and
  each keeps the law of a call that runs alone.
*/
module McpCalls {
  import opened McpClient
  import opened Wrappers

  /** A coroutine inside `_call`; outcomes are those of its requests so far. */
  datatype Call = Call(endpoint: Endpoint, rpc: string, waiting: bool, outcomes: seq<Outcome>,
                       result: Option<Result<Payload, Failure>>)

  datatype Sent = Sent(call: nat, request: Request)

  datatype Calls = Calls(calls: seq<Call>, nextId: nat, sent: seq<Sent>)

  datatype Event =
    | Begin(endpoint: Endpoint, rpc: string)
    | Send(call: nat)                       // an envelope is built and handed to the transport
    | Meet(call: nat, outcome: Outcome)     // what the transport does with it

  const Initial := Calls([], 1, [])

  /** Retried after a transport failure, twice at most. */
  function AfterOutcome(c: Call, o: Outcome): Call {
    var outcomes := c.outcomes + [o];
    var again := o.TransportFailed? && |outcomes| < 3;
    c.(waiting := false, outcomes := outcomes, result := if again then None else Some(Unwrap(o)))
  }

  function Next(s: Calls, e: Event): Calls {
    match e
    case Begin(endpoint, rpc) => s.(calls := s.calls + [Call(endpoint, rpc, false, [], None)])
    case Send(i) =>
      if i >= |s.calls| || s.calls[i].waiting || s.calls[i].result.Some? then s
      else
        s.(calls := s.calls[i := s.calls[i].(waiting := true)], nextId := s.nextId + 1,
           sent := s.sent + [Sent(i, Request(s.nextId, s.calls[i].endpoint, s.calls[i].rpc))])
    case Meet(i, o) =>
      if i < |s.calls| && s.calls[i].waiting then s.(calls := s.calls[i := AfterOutcome(s.calls[i], o)]) else s
  }

  function Run(events: seq<Event>): Calls {
    if events == [] then Initial else Next(Run(events[..|events| - 1]), events[|events| - 1])
  }

  /** The requests of one call. */
  function CountOf(sent: seq<Sent>, call: nat): nat {
    if sent == [] then 0 else CountOf(sent[..|sent| - 1], call) + if sent[|sent| - 1].call == call then 1 else 0
  }

  lemma CountSnoc(sent: seq<Sent>, x: Sent, call: nat)
    ensures CountOf(sent + [x], call) == CountOf(sent, call) + if x.call == call then 1 else 0
  {
    assert (sent + [x])[..|sent|] == sent;
  }

  /** The outcomes of a call as a world of its own. */
  function Own(outcomes: seq<Outcome>): World {
    (k: nat) => if k < |outcomes| then outcomes[k] else TransportFailed
  }

  /** A call goes on only after transport failures, and ends as one that met the same outcomes alone would. */
  ghost predicate Lawful(c: Call) {
    && |c.outcomes| + (if c.waiting then 1 else 0) <= 3
    && match c.result
       case None => forall k :: 0 <= k < |c.outcomes| ==> c.outcomes[k].TransportFailed?
       case Some(r) =>
         && !c.waiting && c.outcomes != []
         && r == CallResult(Own(c.outcomes), 0) && |c.outcomes| == LastSend(Own(c.outcomes), 0) + 1
  }

  ghost predicate Numbered(s: Calls) {
    && s.nextId == |s.sent| + 1
    && forall k :: 0 <= k < |s.sent| ==>
         s.sent[k].request.id == k + 1 && s.sent[k].call < |s.calls|
         && s.sent[k].request.endpoint == s.calls[s.sent[k].call].endpoint
         && s.sent[k].request.rpc == s.calls[s.sent[k].call].rpc
  }

  ghost predicate Counted(s: Calls) {
    forall i :: 0 <= i < |s.calls| ==>
      CountOf(s.sent, i) == |s.calls[i].outcomes| + if s.calls[i].waiting then 1 else 0
  }

  ghost predicate AllLawful(s: Calls) {
    forall i :: 0 <= i < |s.calls| ==> Lawful(s.calls[i])
  }

  lemma OutcomeLawful(c: Call, o: Outcome)
    requires Lawful(c) && c.waiting
    ensures Lawful(AfterOutcome(c, o))
  {
    var c' := AfterOutcome(c, o);
    var own := Own(c'.outcomes);
    assert c.result == None;
    if c'.result.Some? {
      LastSendUnique(own, 0, |c.outcomes|);
    }
  }

  lemma SendLawful(c: Call)
    requires Lawful(c) && !c.waiting && c.result.None?
    ensures Lawful(c.(waiting := true)) <==> |c.outcomes| < 3
  {
  }

  /** Without a result a call has requests to spare. */
  ghost predicate Spare(c: Call) {
    c.result.None? && !c.waiting ==> |c.outcomes| < 3
  }

  ghost predicate AllSpare(s: Calls) {
    forall i :: 0 <= i < |s.calls| ==> Spare(s.calls[i])
  }

  lemma {:induction false} NothingSent(sent: seq<Sent>, call: nat)
    requires forall k :: 0 <= k < |sent| ==> sent[k].call < call
    ensures CountOf(sent, call) == 0
  {
    if sent != [] {
      NothingSent(sent[..|sent| - 1], call);
    }
  }

  lemma CountedNext(s: Calls, e: Event)
    requires Numbered(s) && Counted(s)
    ensures Numbered(Next(s, e)) && Counted(Next(s, e))
  {
    hide CountOf;
    var s' := Next(s, e);
    match e
    case Begin(_, _) => NothingSent(s.sent, |s.calls|);
    case Send(i) =>
      if |s'.sent| > |s.sent| {
        forall j | 0 <= j < |s.calls| ensures CountOf(s'.sent, j) == CountOf(s.sent, j) + if j == i then 1 else 0 {
          CountSnoc(s.sent, s'.sent[|s.sent|], j);
        }
      }
    case Meet(_, _) =>
  }

  lemma LawfulNext(s: Calls, e: Event)
    requires AllLawful(s) && AllSpare(s)
    ensures AllLawful(Next(s, e)) && AllSpare(Next(s, e))
  {
    hide Lawful;
    match e
    case Begin(endpoint, rpc) =>
      assert Lawful(Call(endpoint, rpc, false, [], None)) by {
        FreshLawful(endpoint, rpc);
      }
    case Send(i) =>
      if i < |s.calls| && !s.calls[i].waiting && s.calls[i].result.None? {
        assert Spare(s.calls[i]);
        SendLawful(s.calls[i]);
      }
    case Meet(i, o) =>
      if i < |s.calls| && s.calls[i].waiting {
        OutcomeLawful(s.calls[i], o);
        OutcomeSpare(s.calls[i], o);
      }
  }

  lemma FreshLawful(endpoint: Endpoint, rpc: string)
    ensures Lawful(Call(endpoint, rpc, false, [], None))
  {
  }

  lemma OutcomeSpare(c: Call, o: Outcome)
    ensures Spare(AfterOutcome(c, o))
  {
  }

  lemma {:induction false} CallsRun(events: seq<Event>)
    ensures var s := Run(events); Numbered(s) && Counted(s) && AllLawful(s) && AllSpare(s)
  {
    if events != [] {
      var rest := events[..|events| - 1];
      CallsRun(rest);
      CountedNext(Run(rest), events[|events| - 1]);
      LawfulNext(Run(rest), events[|events| - 1]);
    }
  }

  /**
    However calls interleave: ids grow from request to request over all calls, every call sends at most three
    requests, all to its own endpoint, and a finished call has the result and the number of requests of one
    that met the same outcomes alone.
  */
  lemma ConcurrentCalls(events: seq<Event>)
    ensures var s := Run(events);
      && (forall j, k :: 0 <= j < k < |s.sent| ==> s.sent[j].request.id < s.sent[k].request.id)
      && (forall k :: 0 <= k < |s.sent| ==>
            s.sent[k].call < |s.calls| && s.sent[k].request.endpoint == s.calls[s.sent[k].call].endpoint)
      && forall i :: 0 <= i < |s.calls| ==>
           && CountOf(s.sent, i) <= 3
           && (s.calls[i].result.Some? ==>
                 && s.calls[i].result.value == CallResult(Own(s.calls[i].outcomes), 0)
                 && CountOf(s.sent, i) == LastSend(Own(s.calls[i].outcomes), 0) + 1)
  {
    hide CountOf, LastSend, CallResult, Run;
    CallsRun(events);
    var s := Run(events);
    forall i | 0 <= i < |s.calls|
      ensures CountOf(s.sent, i) <= 3
      ensures s.calls[i].result.Some? ==>
        && s.calls[i].result.value == CallResult(Own(s.calls[i].outcomes), 0)
        && CountOf(s.sent, i) == LastSend(Own(s.calls[i].outcomes), 0) + 1
    {
      assert Lawful(s.calls[i]);
    }
  }
}
