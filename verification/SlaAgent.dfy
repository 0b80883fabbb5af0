/**
  The background agent that escalates approvals left pending too long.  Times are in seconds; the clock,
  the rows in the approval queue and the failures of the notification sink are the environment's.
*/
module SlaAgent {

  datatype Row = Row(id: string, pending: bool, createdAt: int)

  /** One call of the sink; it may raise, and the call is remembered all the same. */
  datatype Escalation = Escalation(id: string, at: int, delivered: bool)

  /** One sweep: the clock when the queue is read, the clock when it is acted on, the queue, the failing ids. */
  datatype Sweep = Sweep(queried: int, now: int, queue: seq<Row>, raisesOn: set<string>)

  datatype Memory = Memory(last: map<string, int>, log: seq<Escalation>)

  function Stale(queue: seq<Row>, cutoff: int): seq<Row> {
    if queue == [] then []
    else
      (if queue[0].pending && queue[0].createdAt < cutoff then [queue[0]] else []) + Stale(queue[1..], cutoff)
  }

  predicate Cooling(last: map<string, int>, id: string, now: int, cooldown: int) {
    id in last && now - last[id] < cooldown
  }

  function Escalate(m: Memory, id: string, now: int, delivered: bool): Memory {
    Memory(m.last[id := now], m.log + [Escalation(id, now, delivered)])
  }

  /** Visiting the stale rows; a raising sink abandons the rest. */
  function Visit(m: Memory, rows: seq<Row>, now: int, raisesOn: set<string>, cooldown: int): Memory
    decreases |rows|
  {
    if rows == [] then m
    else
      var id := rows[0].id;
      if Cooling(m.last, id, now, cooldown) then Visit(m, rows[1..], now, raisesOn, cooldown)
      else if id in raisesOn then Escalate(m, id, now, false)
      else Visit(Escalate(m, id, now, true), rows[1..], now, raisesOn, cooldown)
  }

  function AfterSweep(m: Memory, s: Sweep, sla: int, cooldown: int): Memory {
    Visit(m, Stale(s.queue, s.queried - sla), s.now, s.raisesOn, cooldown)
  }

  function AfterSweeps(m: Memory, sweeps: seq<Sweep>, sla: int, cooldown: int): Memory {
    if sweeps == [] then m
    else AfterSweep(AfterSweeps(m, sweeps[..|sweeps| - 1], sla, cooldown), sweeps[|sweeps| - 1], sla, cooldown)
  }

  // ---------------------------------------------------------------- why an approval is escalated

  /** The queue that the sweep read says so: the approval was pending, and longer than it may be. */
  ghost predicate Justified(e: Escalation, s: Sweep, sla: int) {
    && e.at == s.now && (e.delivered <==> e.id !in s.raisesOn)
    && exists i :: 0 <= i < |s.queue| && s.queue[i].id == e.id && s.queue[i].pending
                   && s.queue[i].createdAt + sla < s.queried
  }

  lemma {:induction false} StaleRows(queue: seq<Row>, cutoff: int)
    ensures forall r :: r in Stale(queue, cutoff) <==> r in queue && r.pending && r.createdAt < cutoff
  {
    if queue != [] {
      StaleRows(queue[1..], cutoff);
      assert queue == [queue[0]] + queue[1..];
    }
  }

  ghost predicate OfVisit(e: Escalation, rows: seq<Row>, now: int, raisesOn: set<string>) {
    e.at == now && (e.delivered <==> e.id !in raisesOn) && exists r :: r in rows && r.id == e.id
  }

  /** A visit adds entries of its own time, for rows it was given. */
  lemma {:induction false} VisitAdds(m: Memory, rows: seq<Row>, now: int, raisesOn: set<string>, cooldown: int)
    ensures var m' := Visit(m, rows, now, raisesOn, cooldown);
      && m.log <= m'.log
      && forall i :: |m.log| <= i < |m'.log| ==> OfVisit(m'.log[i], rows, now, raisesOn)
    decreases |rows|
  {
    if rows != [] {
      var id := rows[0].id;
      assert rows[0] in rows && forall r :: r in rows[1..] ==> r in rows;
      if Cooling(m.last, id, now, cooldown) {
        VisitAdds(m, rows[1..], now, raisesOn, cooldown);
      } else if id !in raisesOn {
        VisitAdds(Escalate(m, id, now, true), rows[1..], now, raisesOn, cooldown);
      }
    }
  }

  lemma SweepJustified(m: Memory, s: Sweep, sla: int, cooldown: int)
    ensures var m' := AfterSweep(m, s, sla, cooldown);
      m.log <= m'.log && forall i :: |m.log| <= i < |m'.log| ==> Justified(m'.log[i], s, sla)
  {
    hide Visit, Stale;
    var m', rows := AfterSweep(m, s, sla, cooldown), Stale(s.queue, s.queried - sla);
    VisitAdds(m, rows, s.now, s.raisesOn, cooldown);
    StaleRows(s.queue, s.queried - sla);
    forall i | |m.log| <= i < |m'.log| ensures Justified(m'.log[i], s, sla) {
      assert OfVisit(m'.log[i], rows, s.now, s.raisesOn);
      var r :| r in rows && r.id == m'.log[i].id;
      assert r in s.queue && r.pending && r.createdAt < s.queried - sla;
      var k :| 0 <= k < |s.queue| && s.queue[k] == r;
    }
  }

  /** Only approvals that are pending past their deadline are ever escalated, by the sweep that read them so. */
  lemma {:induction false} EscalationsJustified(m: Memory, sweeps: seq<Sweep>, sla: int, cooldown: int)
    ensures var m' := AfterSweeps(m, sweeps, sla, cooldown);
      && m.log <= m'.log
      && forall i :: |m.log| <= i < |m'.log| ==>
           exists k :: 0 <= k < |sweeps| && Justified(m'.log[i], sweeps[k], sla)
  {
    hide AfterSweep, Justified;
    if sweeps != [] {
      var n := |sweeps| - 1;
      var m1, m2 := AfterSweeps(m, sweeps[..n], sla, cooldown), AfterSweeps(m, sweeps, sla, cooldown);
      EscalationsJustified(m, sweeps[..n], sla, cooldown);
      SweepJustified(m1, sweeps[n], sla, cooldown);
      forall i | |m.log| <= i < |m2.log|
        ensures exists k :: 0 <= k < |sweeps| && Justified(m2.log[i], sweeps[k], sla)
      {
        if i < |m1.log| {
          var k :| 0 <= k < n && Justified(m1.log[i], sweeps[..n][k], sla);
          assert Justified(m2.log[i], sweeps[k], sla);
        }
      }
    }
  }

  lemma VisitAt(m: Memory, rows: seq<Row>, i: nat, now: int, raisesOn: set<string>, cooldown: int)
    requires i < |rows|
    ensures var id, rest := rows[i].id, rows[i + 1..];
      Visit(m, rows[i..], now, raisesOn, cooldown) ==
      if Cooling(m.last, id, now, cooldown) then Visit(m, rest, now, raisesOn, cooldown)
      else if id in raisesOn then Escalate(m, id, now, false)
      else Visit(Escalate(m, id, now, true), rest, now, raisesOn, cooldown)
  {
    assert rows[i..][0] == rows[i] && rows[i..][1..] == rows[i + 1..];
  }

  lemma VisitNothing(m: Memory, now: int, raisesOn: set<string>, cooldown: int)
    ensures Visit(m, [], now, raisesOn, cooldown) == m
  {
  }

  class ProactiveSLAAgent {
    const sla: int
    const cooldown: int
    var lastEscalated: map<string, int>
    /** The calls made to the sink. */
    ghost var log: seq<Escalation>

    ghost function Remembered(): Memory
      reads this
    {
      Memory(lastEscalated, log)
    }

    constructor (slaMinutes: int := 30, cooldownMinutes: int := 15)
      ensures Remembered() == Memory(map[], []) && sla == slaMinutes * 60 && cooldown == cooldownMinutes * 60
    {
      sla, cooldown := slaMinutes * 60, cooldownMinutes * 60;
      lastEscalated, log := map[], [];
    }

    method SweepStaleApprovals(s: Sweep) returns (raised: bool)
      modifies this
      ensures Remembered() == AfterSweep(old(Remembered()), s, sla, cooldown)
      ensures old(log) <= log && forall i :: |old(log)| <= i < |log| ==> Justified(log[i], s, sla)
      ensures raised <==> exists i :: |old(log)| <= i < |log| && log[i].id in s.raisesOn
    {
      hide Justified, Visit, Stale;
      SweepJustified(Remembered(), s, sla, cooldown);
      raised := false;
      var stale := Stale(s.queue, s.queried - sla);
      var i := 0;
      while i < |stale|
        invariant 0 <= i <= |stale| && |old(log)| <= |log|
        invariant forall j :: |old(log)| <= j < |log| ==> log[j].id !in s.raisesOn
        invariant Visit(Remembered(), stale[i..], s.now, s.raisesOn, cooldown)
               == Visit(old(Remembered()), stale, s.now, s.raisesOn, cooldown)
      {
        var row := stale[i];
        VisitAt(Remembered(), stale, i, s.now, s.raisesOn, cooldown);
        i := i + 1;
        if Cooling(lastEscalated, row.id, s.now, cooldown) {
          continue;
        }
        lastEscalated := lastEscalated[row.id := s.now];
        log := log + [Escalation(row.id, s.now, row.id !in s.raisesOn)];
        if row.id in s.raisesOn {
          assert log[|log| - 1].id == row.id;
          return true;
        }
      }
      assert stale[|stale|..] == [];
      VisitNothing(Remembered(), s.now, s.raisesOn, cooldown);
    }

    /** The loop swallows a sweep's failure and goes on until it is told to stop. */
    method RunLoop(sweeps: seq<Sweep>)
      modifies this
      ensures Remembered() == AfterSweeps(old(Remembered()), sweeps, sla, cooldown)
    {
      for i := 0 to |sweeps|
        invariant Remembered() == AfterSweeps(old(Remembered()), sweeps[..i], sla, cooldown)
      {
        assert sweeps[..i + 1][..i] == sweeps[..i];
        var raised := SweepStaleApprovals(sweeps[i]);
      }
      assert sweeps[..|sweeps|] == sweeps;
    }
  }

  // ---------------------------------------------------------------- how often

  /** Two escalations of one approval are at least the cooldown apart. */
  ghost predicate Spaced(log: seq<Escalation>, cooldown: int) {
    forall i, j :: 0 <= i < j < |log| && log[i].id == log[j].id ==> log[j].at - log[i].at >= cooldown
  }

  /** The map remembers a time no earlier than any escalation, and none later than the clock. */
  ghost predicate Tracks(m: Memory, clock: int) {
    forall i :: 0 <= i < |m.log| ==> m.log[i].id in m.last && m.log[i].at <= m.last[m.log[i].id] <= clock
  }

  lemma EscalateSpaced(m: Memory, id: string, now: int, delivered: bool, clock: int, cooldown: int)
    requires Spaced(m.log, cooldown) && Tracks(m, clock) && clock <= now
    requires !Cooling(m.last, id, now, cooldown)
    ensures Spaced(Escalate(m, id, now, delivered).log, cooldown) && Tracks(Escalate(m, id, now, delivered), now)
  {
  }

  lemma {:induction false} VisitSpaced(m: Memory, rows: seq<Row>, now: int, raisesOn: set<string>, cooldown: int)
    requires Spaced(m.log, cooldown) && Tracks(m, now)
    ensures var m' := Visit(m, rows, now, raisesOn, cooldown); Spaced(m'.log, cooldown) && Tracks(m', now)
    decreases |rows|
  {
    if rows != [] {
      var id := rows[0].id;
      if Cooling(m.last, id, now, cooldown) {
        VisitSpaced(m, rows[1..], now, raisesOn, cooldown);
      } else {
        EscalateSpaced(m, id, now, id !in raisesOn, now, cooldown);
        if id !in raisesOn {
          VisitSpaced(Escalate(m, id, now, true), rows[1..], now, raisesOn, cooldown);
        }
      }
    }
  }

  /** The clock never runs backwards. */
  predicate Ordered(sweeps: seq<Sweep>) {
    && (forall i :: 0 <= i < |sweeps| ==> sweeps[i].queried <= sweeps[i].now)
    && (forall i :: 0 < i < |sweeps| ==> sweeps[i - 1].now <= sweeps[i].queried)
  }

  function Run(sweeps: seq<Sweep>, sla: int, cooldown: int): Memory {
    AfterSweeps(Memory(map[], []), sweeps, sla, cooldown)
  }

  /** In every run, whatever fails, escalations of one approval are at least the cooldown apart. */
  lemma {:induction false} EscalationsSpaced(sweeps: seq<Sweep>, sla: int, cooldown: int)
    requires Ordered(sweeps)
    ensures Spaced(Run(sweeps, sla, cooldown).log, cooldown)
    ensures sweeps != [] ==> Tracks(Run(sweeps, sla, cooldown), sweeps[|sweeps| - 1].now)
    ensures sweeps == [] ==> Run(sweeps, sla, cooldown).log == []
  {
    if sweeps != [] {
      var n := |sweeps| - 1;
      EscalationsSpaced(sweeps[..n], sla, cooldown);
      var m, s := Run(sweeps[..n], sla, cooldown), sweeps[n];
      assert Tracks(m, s.now) by {
        assert n > 0 ==> sweeps[n - 1].now <= s.queried;
      }
      VisitSpaced(m, Stale(s.queue, s.queried - sla), s.now, s.raisesOn, cooldown);
    }
  }

  /** Escalations of one approval between two times, both included. */
  function CountIn(log: seq<Escalation>, id: string, from: int, to: int): nat {
    if log == [] then 0
    else
      var e := log[|log| - 1];
      CountIn(log[..|log| - 1], id, from, to) + if e.id == id && from <= e.at <= to then 1 else 0
  }

  lemma {:induction false} CountBefore(log: seq<Escalation>, id: string, from: int, to: int, bound: int)
    requires bound <= to && forall i :: 0 <= i < |log| && log[i].id == id ==> log[i].at <= bound
    ensures CountIn(log, id, from, to) == CountIn(log, id, from, bound)
  {
    if log != [] {
      CountBefore(log[..|log| - 1], id, from, to, bound);
    }
  }

  lemma SpacedSnoc(log: seq<Escalation>, cooldown: int)
    requires Spaced(log, cooldown) && log != []
    ensures var rest, e := log[..|log| - 1], log[|log| - 1];
      && Spaced(rest, cooldown)
      && forall i :: 0 <= i < |rest| && rest[i].id == e.id ==> rest[i].at <= e.at - cooldown
  {
    var rest := log[..|log| - 1];
    assert forall i :: 0 <= i < |rest| ==> rest[i] == log[i];
  }

  lemma {:induction false} CountSpaced(log: seq<Escalation>, id: string, from: int, to: int, cooldown: int)
    requires Spaced(log, cooldown) && cooldown > 0
    ensures var n := CountIn(log, id, from, to); n == 0 || n * cooldown <= to - from + cooldown
  {
    hide Spaced;
    if log != [] {
      var rest, e := log[..|log| - 1], log[|log| - 1];
      SpacedSnoc(log, cooldown);
      CountSpaced(rest, id, from, to, cooldown);
      if e.id == id && from <= e.at <= to {
        CountBefore(rest, id, from, to, e.at - cooldown);
        CountSpaced(rest, id, from, e.at - cooldown, cooldown);
        var n := CountIn(rest, id, from, to);
        assert (n + 1) * cooldown == n * cooldown + cooldown;
      }
    }
  }

  /** A window of length L holds at most L / cooldown + 1 escalations of one approval. */
  lemma WindowBound(sweeps: seq<Sweep>, sla: int, cooldown: int, id: string, from: int, length: nat)
    requires Ordered(sweeps) && cooldown > 0
    ensures CountIn(Run(sweeps, sla, cooldown).log, id, from, from + length) <= length / cooldown + 1
  {
    var log := Run(sweeps, sla, cooldown).log;
    EscalationsSpaced(sweeps, sla, cooldown);
    CountSpaced(log, id, from, from + length, cooldown);
    Divide(CountIn(log, id, from, from + length), length, cooldown);
  }

  lemma Multiples(a: int, b: int, c: int)
    requires c > 0
    ensures a <= b ==> a * c <= b * c
  {
  }

  lemma Divide(n: nat, length: nat, cooldown: int)
    requires cooldown > 0 && (n == 0 || n * cooldown <= length + cooldown)
    ensures n <= length / cooldown + 1
  {
    var q := length / cooldown;
    assert length + cooldown < (q + 2) * cooldown by {
      assert (q + 2) * cooldown == q * cooldown + 2 * cooldown;
    }
    Multiples(q + 2, n, cooldown);
  }

  // ---------------------------------------------------------------- the bound is met

  /** Sweeps exactly one cooldown apart over a queue that holds one overdue approval. */
  function Metronome(n: nat, sla: int, cooldown: int, id: string): seq<Sweep> {
    if n == 0 then []
    else
      var t := (n - 1) * cooldown;
      Metronome(n - 1, sla, cooldown, id) + [Sweep(t, t, [Row(id, true, -sla - 1)], {})]
  }

  lemma MetronomeStep(m: Memory, t: int, sla: int, cooldown: int, id: string, to: int)
    requires cooldown > 0 && 0 <= t <= to
    requires !Cooling(m.last, id, t, cooldown)
    ensures var m' := AfterSweep(m, Sweep(t, t, [Row(id, true, -sla - 1)], {}), sla, cooldown);
      m'.last == m.last[id := t] && CountIn(m'.log, id, 0, to) == CountIn(m.log, id, 0, to) + 1
  {
    var queue := [Row(id, true, -sla - 1)];
    assert queue[1..] == [];
    assert Stale(queue, t - sla) == queue;
    assert Visit(m, queue, t, {}, cooldown) == Escalate(m, id, t, true);
    assert (m.log + [Escalation(id, t, true)])[..|m.log|] == m.log;
  }

  lemma NothingCounted(id: string, to: int)
    ensures CountIn([], id, 0, to) == 0
  {
  }

  lemma {:induction false} MetronomeRun(n: nat, sla: int, cooldown: int, id: string, to: int)
    requires cooldown > 0 && (n - 1) * cooldown <= to
    ensures var sweeps := Metronome(n, sla, cooldown, id);
      && |sweeps| == n && Ordered(sweeps)
      && (n > 0 ==> sweeps[n - 1].now == (n - 1) * cooldown)
      && Run(sweeps, sla, cooldown).last == (if n == 0 then map[] else map[id := (n - 1) * cooldown])
      && CountIn(Run(sweeps, sla, cooldown).log, id, 0, to) == n
  {
    hide AfterSweep, CountIn;
    if n == 0 {
      NothingCounted(id, to);
    } else {
      MetronomeTick(n, cooldown);
      MetronomeRun(n - 1, sla, cooldown, id, to);
      var sweeps, rest := Metronome(n, sla, cooldown, id), Metronome(n - 1, sla, cooldown, id);
      assert sweeps[..n - 1] == rest;
      MetronomeStep(Run(rest, sla, cooldown), (n - 1) * cooldown, sla, cooldown, id, to);
    }
  }

  lemma MetronomeTick(n: nat, cooldown: int)
    requires n > 0 && cooldown > 0
    ensures 0 <= (n - 1) * cooldown
    ensures (n - 1) * cooldown == (n - 2) * cooldown + cooldown
  {
  }

  /** For every cooldown and every window there is a run that escalates exactly as often as the bound allows. */
  lemma WindowBoundTight(sla: int, cooldown: int, id: string, length: nat)
    requires cooldown > 0
    ensures var sweeps := Metronome(length / cooldown + 1, sla, cooldown, id);
      Ordered(sweeps) && CountIn(Run(sweeps, sla, cooldown).log, id, 0, length) == length / cooldown + 1
  {
    assert length / cooldown * cooldown <= length;
    MetronomeRun(length / cooldown + 1, sla, cooldown, id, length);
  }

  // ---------------------------------------------------------------- how soon

  predicate Lists(rows: seq<Row>, id: string) {
    exists i :: 0 <= i < |rows| && rows[i].id == id
  }

  /** The approval is pending and past its deadline when the queue is read, and no notification fails. */
  predicate Overdue(s: Sweep, id: string, sla: int) {
    Lists(Stale(s.queue, s.queried - sla), id) && s.raisesOn == {}
  }

  lemma ListsTail(rows: seq<Row>, id: string)
    requires rows != []
    ensures Lists(rows, id) <==> rows[0].id == id || Lists(rows[1..], id)
  {
    if Lists(rows, id) && rows[0].id != id {
      var i :| 0 <= i < |rows| && rows[i].id == id;
      assert rows[1..][i - 1].id == id;
    }
  }

  /** The log only grows. */
  lemma {:induction false} VisitGrows(m: Memory, rows: seq<Row>, now: int, raisesOn: set<string>, cooldown: int)
    ensures m.log <= Visit(m, rows, now, raisesOn, cooldown).log
    decreases |rows|
  {
    if rows != [] {
      var id := rows[0].id;
      if Cooling(m.last, id, now, cooldown) {
        VisitGrows(m, rows[1..], now, raisesOn, cooldown);
      } else if id !in raisesOn {
        VisitGrows(Escalate(m, id, now, true), rows[1..], now, raisesOn, cooldown);
      }
    }
  }

  /** What one visit does to one approval: it is escalated exactly if it is listed and not cooling. */
  lemma {:induction false} VisitServes(m: Memory, rows: seq<Row>, now: int, cooldown: int, id: string)
    requires cooldown > 0
    ensures var m', served := Visit(m, rows, now, {}, cooldown), Lists(rows, id) && !Cooling(m.last, id, now, cooldown);
      && (served ==> id in m'.last && m'.last[id] == now && Escalation(id, now, true) in m'.log)
      && (!served ==> (id in m'.last <==> id in m.last) && (id in m.last ==> m'.last[id] == m.last[id]))
    decreases |rows|
  {
    if rows != [] {
      var head := rows[0].id;
      ListsTail(rows, id);
      if Cooling(m.last, head, now, cooldown) {
        VisitServes(m, rows[1..], now, cooldown, id);
      } else {
        var next := Escalate(m, head, now, true);
        VisitServes(next, rows[1..], now, cooldown, id);
        if head == id {
          VisitGrows(next, rows[1..], now, {}, cooldown);
          assert next.log[|m.log|] == Escalation(id, now, true);
        }
      }
    }
  }

  /** Consecutive sweeps from i to j act at most gap apart. */
  predicate Frequent(sweeps: seq<Sweep>, i: nat, j: nat, gap: int) {
    j < |sweeps| && forall l :: i < l <= j ==> sweeps[l].now <= sweeps[l - 1].now + gap
  }

  /** What one more sweep of a run does to one approval. */
  lemma RunServes(sweeps: seq<Sweep>, i: nat, sla: int, cooldown: int, id: string)
    requires i < |sweeps| && cooldown > 0 && sweeps[i].raisesOn == {}
    ensures var m, m', s := Run(sweeps[..i], sla, cooldown), Run(sweeps[..i + 1], sla, cooldown), sweeps[i];
      var served := Lists(Stale(s.queue, s.queried - sla), id) && !Cooling(m.last, id, s.now, cooldown);
      && (served ==> id in m'.last && m'.last[id] == s.now && Escalation(id, s.now, true) in m'.log)
      && (!served ==> (id in m'.last <==> id in m.last) && (id in m.last ==> m'.last[id] == m.last[id]))
  {
    var s := sweeps[i];
    assert sweeps[..i + 1][..i] == sweeps[..i];
    VisitServes(Run(sweeps[..i], sla, cooldown), Stale(s.queue, s.queried - sla), s.now, cooldown, id);
  }

  /**
    An approval escalated at time t that stays overdue is escalated again by the first sweep after the
    cooldown, less than the cooldown and one gap later.
  */
  lemma {:induction false} NextEscalation(
    sweeps: seq<Sweep>, i: nat, j: nat, sla: int, cooldown: int, gap: int, id: string, t: int)
    returns (k: nat)
    requires cooldown > 0 && i < j && Frequent(sweeps, i, j, gap)
    requires forall l :: i < l <= j ==> Overdue(sweeps[l], id, sla)
    requires var m := Run(sweeps[..i + 1], sla, cooldown); id in m.last && m.last[id] == t
    requires sweeps[i].now < t + cooldown <= sweeps[j].now
    ensures i < k <= j && t + cooldown <= sweeps[k].now < t + cooldown + gap
    ensures Escalation(id, sweeps[k].now, true) in Run(sweeps[..k + 1], sla, cooldown).log
    decreases j - i
  {
    hide Run, Stale, Lists;
    var s := sweeps[i + 1];
    assert Overdue(s, id, sla);
    RunServes(sweeps, i + 1, sla, cooldown, id);
    if s.now >= t + cooldown {
      k := i + 1;
    } else {
      k := NextEscalation(sweeps, i + 1, j, sla, cooldown, gap, id, t);
    }
  }

  /** All that the queue ever says about an approval is one pending row. */
  predicate Pending(s: Sweep, id: string, createdAt: int) {
    && (exists i :: 0 <= i < |s.queue| && s.queue[i] == Row(id, true, createdAt))
    && (forall i :: 0 <= i < |s.queue| && s.queue[i].id == id ==> s.queue[i] == Row(id, true, createdAt))
  }

  lemma {:induction false} StaleLists(queue: seq<Row>, cutoff: int, id: string, createdAt: int)
    requires forall i :: 0 <= i < |queue| && queue[i].id == id ==> queue[i] == Row(id, true, createdAt)
    ensures Lists(Stale(queue, cutoff), id) <==> Lists(queue, id) && createdAt < cutoff
  {
    if queue != [] {
      var rest := Stale(queue[1..], cutoff);
      StaleLists(queue[1..], cutoff, id, createdAt);
      ListsTail(queue, id);
      if queue[0].pending && queue[0].createdAt < cutoff {
        ListsTail([queue[0]] + rest, id);
        assert ([queue[0]] + rest)[1..] == rest;
      } else {
        assert Stale(queue, cutoff) == rest;
      }
    }
  }

  lemma PendingLists(s: Sweep, sla: int, id: string, createdAt: int)
    requires Pending(s, id, createdAt)
    ensures Lists(Stale(s.queue, s.queried - sla), id) <==> createdAt + sla < s.queried
  {
    StaleLists(s.queue, s.queried - sla, id, createdAt);
    var p :| 0 <= p < |s.queue| && s.queue[p] == Row(id, true, createdAt);
    assert s.queue[p].id == id;
  }

  /**
    A pending approval that was within its deadline when the queue was read is escalated by the first sweep
    that reads the queue past it, at most one gap late.
  */
  lemma {:induction false} FirstEscalation(
    sweeps: seq<Sweep>, i: nat, j: nat, sla: int, cooldown: int, gap: int, id: string, createdAt: int)
    returns (k: nat)
    requires cooldown > 0 && i < j < |sweeps|
    requires forall l :: i < l <= j ==> Pending(sweeps[l], id, createdAt) && sweeps[l].raisesOn == {}
    requires forall l :: i < l <= j ==> sweeps[l].queried <= sweeps[l - 1].queried + gap
    requires id !in Run(sweeps[..i + 1], sla, cooldown).last
    requires sweeps[i].queried <= createdAt + sla < sweeps[j].queried
    ensures i < k <= j && createdAt + sla < sweeps[k].queried <= createdAt + sla + gap
    ensures Escalation(id, sweeps[k].now, true) in Run(sweeps[..k + 1], sla, cooldown).log
    decreases j - i
  {
    hide Run, Stale, Lists;
    var s := sweeps[i + 1];
    PendingLists(s, sla, id, createdAt);
    RunServes(sweeps, i + 1, sla, cooldown, id);
    if createdAt + sla < s.queried {
      k := i + 1;
    } else {
      k := FirstEscalation(sweeps, i + 1, j, sla, cooldown, gap, id, createdAt);
    }
  }
}
