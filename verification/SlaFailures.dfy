/**
  Sweeps whose notification sink raises.  A raising approval abandons the rest of its sweep, but it has been
  remembered, so it cools down and cannot do so again for a while: each one costs the others one sweep.
*/
module SlaFailures {
  import opened SlaAgent

  /** One visit seen from one approval: what it did to it, or which other approval's failure kept it away. */
  lemma {:induction false} VisitOutcome(
    m: Memory, rows: seq<Row>, now: int, raisesOn: set<string>, cooldown: int, id: string)
    requires cooldown > 0
    ensures var m' := Visit(m, rows, now, raisesOn, cooldown);
      Unmoved(m, m', id) || (id in m'.last && m'.last[id] == now && Escalation(id, now, id !in raisesOn) in m'.log)
    ensures var m' := Visit(m, rows, now, raisesOn, cooldown);
      Lists(rows, id) && !Cooling(m.last, id, now, cooldown) ==>
        || Escalation(id, now, id !in raisesOn) in m'.log
        || exists r ::
             r in raisesOn && r != id && !Cooling(m.last, r, now, cooldown) && r in m'.last && m'.last[r] == now
    decreases |rows|
  {
    if rows != [] {
      var head := rows[0].id;
      ListsTail(rows, id);
      if Cooling(m.last, head, now, cooldown) {
        VisitOutcome(m, rows[1..], now, raisesOn, cooldown, id);
      } else {
        var next := Escalate(m, head, now, head !in raisesOn);
        assert next.log[|m.log|] == Escalation(head, now, head !in raisesOn);
        if head !in raisesOn {
          VisitOutcome(next, rows[1..], now, raisesOn, cooldown, id);
          VisitGrows(next, rows[1..], now, raisesOn, cooldown);
          assert Escalation(head, now, true) in Visit(next, rows[1..], now, raisesOn, cooldown).log;
        }
      }
    }
  }

  predicate Unmoved(m: Memory, m': Memory, id: string) {
    (id in m'.last <==> id in m.last) && (id in m.last ==> m'.last[id] == m.last[id])
  }

  /** An approval that will be cooling until the given time. */
  predicate Hot(m: Memory, id: string, until: int, cooldown: int) {
    id in m.last && until - m.last[id] < cooldown
  }

  function ColdOnes(m: Memory, ids: set<string>, until: int, cooldown: int): set<string> {
    set r | r in ids && !Hot(m, r, until, cooldown)
  }

  lemma SubsetSize(a: set<string>, b: set<string>)
    requires a <= b
    ensures |a| <= |b|
  {
    assert b == (b - a) + a;
  }

  /** A sweep that does not get to an approval that is due has one cold failing approval less to come. */
  lemma OneLess(m: Memory, s: Sweep, sla: int, cooldown: int, id: string, failing: set<string>, until: int)
    requires cooldown > 0 && s.now <= until < s.now + cooldown && s.raisesOn <= failing
    requires Lists(Stale(s.queue, s.queried - sla), id) && !Cooling(m.last, id, s.now, cooldown)
    requires Escalation(id, s.now, id !in s.raisesOn) !in AfterSweep(m, s, sla, cooldown).log
    ensures var m' := AfterSweep(m, s, sla, cooldown);
      && Unmoved(m, m', id)
      && |ColdOnes(m', failing - {id}, until, cooldown)| < |ColdOnes(m, failing - {id}, until, cooldown)|
  {
    hide Visit, Stale;
    var m', rows := AfterSweep(m, s, sla, cooldown), Stale(s.queue, s.queried - sla);
    VisitOutcome(m, rows, s.now, s.raisesOn, cooldown, id);
    var r :| r in s.raisesOn && r != id && !Cooling(m.last, r, s.now, cooldown) && r in m'.last && m'.last[r] == s.now;
    var before, after := ColdOnes(m, failing - {id}, until, cooldown), ColdOnes(m', failing - {id}, until, cooldown);
    forall x | x in after ensures x in before - {r} {
      VisitOutcome(m, rows, s.now, s.raisesOn, cooldown, x);
    }
    SubsetSize(after, before - {r});
  }

  /** An approval is due for the sweep: it was never escalated, or not within the cooldown. */
  predicate Due(m: Memory, s: Sweep, id: string, cooldown: int) {
    !Cooling(m.last, id, s.now, cooldown)
  }

  lemma RunSnoc(sweeps: seq<Sweep>, i: nat, sla: int, cooldown: int)
    requires i < |sweeps|
    ensures Run(sweeps[..i + 1], sla, cooldown) == AfterSweep(Run(sweeps[..i], sla, cooldown), sweeps[i], sla, cooldown)
  {
    assert sweeps[..i + 1][..i] == sweeps[..i];
  }

  lemma {:induction false} ServedBy(
    sweeps: seq<Sweep>, i: nat, j: nat, sla: int, cooldown: int, id: string, failing: set<string>)
    returns (k: nat)
    requires cooldown > 0 && Ordered(sweeps) && i <= j < |sweeps| && sweeps[j].now < sweeps[i].now + cooldown
    requires forall l :: i <= l <= j ==>
               Lists(Stale(sweeps[l].queue, sweeps[l].queried - sla), id) && sweeps[l].raisesOn <= failing
    requires Due(Run(sweeps[..i], sla, cooldown), sweeps[i], id, cooldown)
    requires |ColdOnes(Run(sweeps[..i], sla, cooldown), failing - {id}, sweeps[j].now, cooldown)| <= j - i
    ensures i <= k <= j
    ensures Escalation(id, sweeps[k].now, id !in sweeps[k].raisesOn) in Run(sweeps[..k + 1], sla, cooldown).log
    decreases j - i
  {
    hide Run, AfterSweep, Stale, Lists, ColdOnes;
    var m, s := Run(sweeps[..i], sla, cooldown), sweeps[i];
    RunSnoc(sweeps, i, sla, cooldown);
    OrderedTimes(sweeps, i, j);
    if Escalation(id, s.now, id !in s.raisesOn) in AfterSweep(m, s, sla, cooldown).log {
      k := i;
    } else {
      OneLess(m, s, sla, cooldown, id, failing, sweeps[j].now);
      OrderedTimes(sweeps, i, i + 1);
      k := ServedBy(sweeps, i + 1, j, sla, cooldown, id, failing);
    }
  }

  lemma {:induction false} OrderedTimes(sweeps: seq<Sweep>, i: nat, j: nat)
    requires Ordered(sweeps) && i <= j
    ensures j < |sweeps| ==> sweeps[i].now <= sweeps[j].now
    decreases j - i
  {
    if i < j < |sweeps| {
      OrderedTimes(sweeps, i, j - 1);
    }
  }

  /**
    Delay by failures.  If at most p other approvals ever make the sink raise, and p + 1 sweeps fall within one
    cooldown, an approval that is due and listed in all of them is escalated in one of them; with sweeps at most
    a gap apart, no more than p gaps late.
  */
  lemma FailuresDelay(
    sweeps: seq<Sweep>, i: nat, p: nat, sla: int, cooldown: int, gap: int, id: string, failing: set<string>)
    returns (k: nat)
    requires cooldown > 0 && Ordered(sweeps) && Frequent(sweeps, i, i + p, gap)
    requires |failing - {id}| <= p && sweeps[i + p].now < sweeps[i].now + cooldown
    requires forall l :: i <= l <= i + p ==>
               Lists(Stale(sweeps[l].queue, sweeps[l].queried - sla), id) && sweeps[l].raisesOn <= failing
    requires Due(Run(sweeps[..i], sla, cooldown), sweeps[i], id, cooldown)
    ensures i <= k <= i + p && sweeps[k].now <= sweeps[i].now + (k - i) * gap
    ensures Escalation(id, sweeps[k].now, id !in sweeps[k].raisesOn) in Run(sweeps[..k + 1], sla, cooldown).log
  {
    hide Run, Stale, Lists;
    SubsetSize(ColdOnes(Run(sweeps[..i], sla, cooldown), failing - {id}, sweeps[i + p].now, cooldown), failing - {id});
    k := ServedBy(sweeps, i, i + p, sla, cooldown, id, failing);
    FrequentSpan(sweeps, i, k, i + p, gap);
  }

  lemma {:induction false} FrequentSpan(sweeps: seq<Sweep>, i: nat, k: nat, j: nat, gap: int)
    requires Frequent(sweeps, i, j, gap) && i <= k <= j
    ensures sweeps[k].now <= sweeps[i].now + (k - i) * gap
    decreases k - i
  {
    if i < k {
      FrequentSpan(sweeps, i, k - 1, j, gap);
      assert (k - i) * gap == (k - 1 - i) * gap + gap;
    }
  }

  // ---------------------------------------------------------------- the window is needed

  function Members(ids: seq<string>): set<string> {
    set id | id in ids
  }

  /** Approvals past their deadline before the first sweep. */
  function Rows(ids: seq<string>, sla: int): seq<Row> {
    if ids == [] then [] else [Row(ids[0], true, -sla - 1)] + Rows(ids[1..], sla)
  }

  /** The first n sweeps at 0, gap, 2 gap, and so on, over failing approvals and another one behind them. */
  function Even(n: nat, gap: int, sla: int, bads: seq<string>, id: string): seq<Sweep> {
    if n == 0 then []
    else Even(n - 1, gap, sla, bads, id) + [EvenSweep((n - 1) * gap, sla, bads, id)]
  }

  function EvenSweep(t: int, sla: int, bads: seq<string>, id: string): Sweep {
    Sweep(t, t, Rows(bads + [id], sla), Members(bads))
  }

  lemma {:induction false} RowsStale(ids: seq<string>, sla: int, t: nat)
    ensures |Rows(ids, sla)| == |ids| && forall i :: 0 <= i < |ids| ==> Rows(ids, sla)[i].id == ids[i]
    ensures Stale(Rows(ids, sla), t - sla) == Rows(ids, sla)
  {
    if ids != [] {
      RowsStale(ids[1..], sla, t);
      assert Rows(ids, sla)[1..] == Rows(ids[1..], sla);
    }
  }

  lemma {:induction false} EvenShape(n: nat, gap: nat, sla: int, bads: seq<string>, id: string)
    ensures var sweeps := Even(n, gap, sla, bads, id);
      && |sweeps| == n && Ordered(sweeps)
      && forall l :: 0 <= l < n ==>
           && sweeps[l].now == l * gap && sweeps[l].raisesOn == Members(bads)
           && Lists(Stale(sweeps[l].queue, sweeps[l].queried - sla), id)
  {
    hide Stale, Members, Lists;
    if n > 0 {
      EvenShape(n - 1, gap, sla, bads, id);
      assert (n - 1) * gap == (n - 2) * gap + gap;
      RowsStale(bads + [id], sla, (n - 1) * gap);
      ListsAt(Rows(bads + [id], sla), |bads|, id);
    }
  }

  lemma ListsAt(rows: seq<Row>, i: nat, id: string)
    requires i < |rows| && rows[i].id == id
    ensures Lists(rows, id)
  {
  }

  /** The first failing approval that is not cooling takes the sweep. */
  lemma {:induction false} VisitFails(
    m: Memory, bads: seq<string>, id: string, sla: int, now: int, failing: set<string>, cooldown: int)
    returns (b: string)
    requires forall x :: x in bads ==> x in failing
    requires exists x :: x in bads && !Cooling(m.last, x, now, cooldown)
    ensures b in bads && Visit(m, Rows(bads + [id], sla), now, failing, cooldown) == Escalate(m, b, now, false)
    decreases |bads|
  {
    b := bads[0];
    assert (bads + [id])[1..] == bads[1..] + [id];
    if Cooling(m.last, b, now, cooldown) {
      b := VisitFails(m, bads[1..], id, sla, now, failing, cooldown);
    }
  }

  function Names(log: seq<Escalation>): set<string> {
    set i | 0 <= i < |log| :: log[i].id
  }

  lemma {:induction false} NamesSize(log: seq<Escalation>)
    ensures |Names(log)| <= |log|
  {
    if log != [] {
      var n := |log| - 1;
      NamesSize(log[..n]);
      SubsetSize(Names(log), Names(log[..n]) + {log[n].id});
    }
  }

  /** What the map holds of an approval is the time of some escalation of it. */
  ghost predicate Logged(m: Memory, id: string) {
    id in m.last ==> exists j :: 0 <= j < |m.log| && m.log[j].id == id && m.log[j].at == m.last[id]
  }

  /** One escalation a sweep, of failing approvals only. */
  ghost predicate FailuresOnly(m: Memory, n: nat, gap: int, bads: seq<string>) {
    && |m.log| == n
    && (forall j :: 0 <= j < n ==> m.log[j].at == j * gap && m.log[j].id in bads)
    && forall id :: Logged(m, id)
  }

  lemma Sooner(a: int, b: int, gap: nat)
    requires a * gap < b * gap
    ensures a < b
  {
  }

  /** An approval that cools down was escalated by one of the last p - 1 sweeps, if p gaps span the cooldown. */
  lemma CoolingIsRecent(m: Memory, n: nat, gap: nat, cooldown: int, bads: seq<string>, x: string, p: nat)
    returns (j: nat)
    requires FailuresOnly(m, n, gap, bads) && Cooling(m.last, x, n * gap, cooldown)
    requires n < p || p * gap >= cooldown
    ensures j < n < j + p && m.log[j].id == x
  {
    assert Logged(m, x);
    j :| 0 <= j < |m.log| && m.log[j].id == x && m.log[j].at == m.last[x];
    if p <= n {
      assert (n - j) * gap == n * gap - j * gap;
      Sooner(n - j, p, gap);
    }
  }

  /** So with p failing approvals, or with fewer sweeps than that, one of them is not cooling. */
  lemma SomeCold(m: Memory, n: nat, gap: nat, cooldown: int, bads: seq<string>)
    requires cooldown > 0 && FailuresOnly(m, n, gap, bads)
    requires n < |Members(bads)| || |Members(bads)| * gap >= cooldown
    ensures exists x :: x in bads && !Cooling(m.last, x, n * gap, cooldown)
  {
    hide FailuresOnly, Cooling;
    var p := |Members(bads)|;
    if forall x :: x in bads ==> Cooling(m.last, x, n * gap, cooldown) {
      FailuresLength(m, n, gap, bads);
      var from := if p <= n then n - p + 1 else 0;
      SomeSweeps(p, gap, cooldown, n);
      var late := m.log[from..];
      forall x | x in Members(bads) ensures x in Names(late) {
        var j := CoolingIsRecent(m, n, gap, cooldown, bads, x, p);
        assert late[j - from] == m.log[j];
      }
      SubsetSize(Members(bads), Names(late));
      NamesSize(late);
      assert false;
    }
  }

  lemma FailuresLength(m: Memory, n: nat, gap: int, bads: seq<string>)
    requires FailuresOnly(m, n, gap, bads)
    ensures |m.log| == n
  {
  }

  lemma SomeSweeps(p: nat, gap: int, cooldown: int, n: nat)
    requires cooldown > 0 && (n < p || p * gap >= cooldown)
    ensures p > 0
  {
  }

  lemma EscalateLogged(m: Memory, id: string, now: int)
    requires forall x :: Logged(m, x)
    ensures forall x :: Logged(Escalate(m, id, now, false), x)
  {
    var m' := Escalate(m, id, now, false);
    forall x ensures Logged(m', x) {
      assert Logged(m, x);
      if x == id {
        assert m'.log[|m.log|].id == id;
      } else if x in m.last {
        var j :| 0 <= j < |m.log| && m.log[j].id == x && m.log[j].at == m.last[x];
        assert m'.log[j] == m.log[j];
      }
    }
  }

  lemma StarvedSweep(m: Memory, n: nat, gap: nat, sla: int, cooldown: int, bads: seq<string>, id: string)
    requires cooldown > 0 && FailuresOnly(m, n, gap, bads)
    requires n < |Members(bads)| || |Members(bads)| * gap >= cooldown
    ensures FailuresOnly(AfterSweep(m, EvenSweep(n * gap, sla, bads, id), sla, cooldown), n + 1, gap, bads)
  {
    hide Rows, Stale, Visit, Logged;
    SomeCold(m, n, gap, cooldown, bads);
    RowsStale(bads + [id], sla, n * gap);
    var b := VisitFails(m, bads, id, sla, n * gap, Members(bads), cooldown);
    EscalateLogged(m, b, n * gap);
  }

  /**
    Starvation.  Over n even sweeps the failing approvals take every sweep, if there are at least n of them or
    if as many sweeps as there are failing approvals span a cooldown.
  */
  lemma {:induction false} Starved(n: nat, gap: nat, sla: int, cooldown: int, bads: seq<string>, id: string)
    requires cooldown > 0
    requires n <= |Members(bads)| || |Members(bads)| * gap >= cooldown
    ensures FailuresOnly(Run(Even(n, gap, sla, bads, id), sla, cooldown), n, gap, bads)
  {
    hide AfterSweep, EvenSweep, Members, FailuresOnly;
    if n == 0 {
      FailuresNothing(gap, bads);
    } else {
      Starved(n - 1, gap, sla, cooldown, bads, id);
      var sweeps, rest := Even(n, gap, sla, bads, id), Even(n - 1, gap, sla, bads, id);
      assert sweeps[..|sweeps| - 1] == rest;
      StarvedSweep(Run(rest, sla, cooldown), n - 1, gap, sla, cooldown, bads, id);
    }
  }

  lemma FailuresNothing(gap: int, bads: seq<string>)
    ensures FailuresOnly(Memory(map[], []), 0, gap, bads)
  {
  }

  predicate Escalated(log: seq<Escalation>, id: string) {
    exists i :: 0 <= i < |log| && log[i].id == id
  }

  lemma {:induction false} EvenGrows(k: nat, n: nat, gap: int, sla: int, cooldown: int, bads: seq<string>, id: string)
    requires k <= n
    ensures Run(Even(k, gap, sla, bads, id), sla, cooldown).log <= Run(Even(n, gap, sla, bads, id), sla, cooldown).log
    decreases n
  {
    hide Rows, Stale, Visit;
    if k < n {
      EvenGrows(k, n - 1, gap, sla, cooldown, bads, id);
      var sweeps, rest := Even(n, gap, sla, bads, id), Even(n - 1, gap, sla, bads, id);
      var s := EvenSweep((n - 1) * gap, sla, bads, id);
      assert sweeps[..|sweeps| - 1] == rest;
      VisitGrows(Run(rest, sla, cooldown), Stale(s.queue, s.queried - sla), s.now, s.raisesOn, cooldown);
    }
  }

  lemma {:induction false} EvenPrefix(k: nat, n: nat, gap: int, sla: int, bads: seq<string>, id: string)
    requires k <= n
    ensures |Even(n, gap, sla, bads, id)| == n
    ensures Even(n, gap, sla, bads, id)[..k] == Even(k, gap, sla, bads, id)
  {
    if n > 0 {
      EvenPrefix(if k < n then k else n - 1, n - 1, gap, sla, bads, id);
    }
  }

  /** With fewer than a cooldown's worth of failing approvals the other one is reached by the sweep after them. */
  lemma EvenServed(gap: nat, sla: int, cooldown: int, bads: seq<string>, id: string)
    requires cooldown > 0 && |Members(bads)| * gap < cooldown
    ensures var n := |Members(bads)| + 1; Escalated(Run(Even(n, gap, sla, bads, id), sla, cooldown).log, id)
  {
    hide Run, Stale, Lists, Even, EvenSweep, Members, Rows;
    var p := |Members(bads)|;
    var sweeps := Even(p + 1, gap, sla, bads, id);
    EvenShape(p + 1, gap, sla, bads, id);
    SubsetSize(Members(bads) - {id}, Members(bads));
    assert Frequent(sweeps, 0, p, gap) by {
      forall l | 0 < l <= p ensures sweeps[l].now == sweeps[l - 1].now + gap {
        assert l * gap == (l - 1) * gap + gap;
      }
    }
    RunNothing(sla, cooldown);
    assert sweeps[..0] == [];
    var k := FailuresDelay(sweeps, 0, p, sla, cooldown, gap, id, Members(bads));
    EvenPrefix(k + 1, p + 1, gap, sla, bads, id);
    EvenGrows(k + 1, p + 1, gap, sla, cooldown, bads, id);
  }

  lemma RunNothing(sla: int, cooldown: int)
    ensures Run([], sla, cooldown).last == map[]
  {
  }

  /**
    Even sweeps, exactly: behind p failing approvals another one is escalated by the sweep after the p-th and by
    none before, if p gaps are less than the cooldown, and otherwise never.
  */
  lemma EvenSweeps(n: nat, gap: nat, sla: int, cooldown: int, bads: seq<string>, id: string)
    requires cooldown > 0 && id !in bads
    ensures var p, sweeps := |Members(bads)|, Even(n, gap, sla, bads, id);
      && |sweeps| == n && Ordered(sweeps)
      && (Escalated(Run(sweeps, sla, cooldown).log, id) <==> p < n && p * gap < cooldown)
  {
    hide Run, Even, Members, Stale, Lists, Ordered;
    var p := |Members(bads)|;
    EvenShape(n, gap, sla, bads, id);
    if p < n && p * gap < cooldown {
      EvenServed(gap, sla, cooldown, bads, id);
      EvenGrows(p + 1, n, gap, sla, cooldown, bads, id);
    } else {
      Starved(n, gap, sla, cooldown, bads, id);
    }
  }
}
