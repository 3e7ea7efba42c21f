/** The ticket ledger under any interleaving: tickets are handed out and given back by the recording thread, and any
    number of calls report retired tickets, each a load and then weak compare-exchanges that may fail for no reason
    and may see an older value. */
module Tickets {

  datatype Stage = Begun | Trying(before: nat) | Returned

  datatype Call = Call(ticket: nat, stage: Stage)

  datatype Ledger = Ledger(last: nat, done: nat, calls: seq<Call>)
  {
    /** A wait on the ticket has nothing to wait for. */
    predicate Settled(t: nat) { t == 0 || t > last || t <= done }
  }

  datatype Step =
    | Take
    | GiveBack
    | Begin(ticket: nat)
    | Load(i: nat, seen: nat)
    | Win(i: nat)
    | Fail(i: nat, seen: nat)

  /** Only a ticket that was handed out is reported, and only the last one, unreported, is given back.
      A load sees a value the ledger has had, and a later load of one thread no older one. */
  predicate Enabled(l: Ledger, step: Step) {
    match step
    case Take => true
    case GiveBack => l.last > l.done && forall i | 0 <= i < |l.calls| :: l.calls[i].ticket != l.last
    case Begin(t) => t <= l.last
    case Load(i, seen) => i < |l.calls| && l.calls[i].stage.Begun? && seen <= l.done
    case Win(i) => i < |l.calls| && l.calls[i].stage.Trying? && l.calls[i].stage.before < l.calls[i].ticket
        && l.calls[i].stage.before == l.done
    case Fail(i, seen) =>
      && i < |l.calls| && l.calls[i].stage.Trying? && l.calls[i].stage.before < l.calls[i].ticket
      && l.calls[i].stage.before <= seen <= l.done
  }

  function Apply(l: Ledger, step: Step): Ledger
    requires Enabled(l, step)
  {
    match step
    case Take => l.(last := l.last + 1)
    case GiveBack => l.(last := l.last - 1)
    case Begin(t) => l.(calls := l.calls + [Call(t, Begun)])
    case Load(i, seen) => Seen(l, i, seen)
    case Win(i) => l.(done := l.calls[i].ticket, calls := l.calls[i := Call(l.calls[i].ticket, Returned)])
    case Fail(i, seen) => Seen(l, i, seen)
  }

  /** The loop goes on while the value seen is below the ticket. */
  function Seen(l: Ledger, i: nat, seen: nat): Ledger
    requires i < |l.calls|
  {
    var t := l.calls[i].ticket;
    l.(calls := l.calls[i := Call(t, if seen < t then Trying(seen) else Returned)])
  }

  /** What holds of a call: it is of a ticket handed out, has seen nothing newer than the ledger, and has its ticket
      settled when it returns. */
  ghost predicate CallOk(c: Call, l: Ledger) {
    && c.ticket <= l.last
    && (c.stage.Trying? ==> c.stage.before <= l.done && c.stage.before < c.ticket)
    && (c.stage.Returned? ==> c.ticket <= l.done)
  }

  ghost predicate Inv(l: Ledger, start: nat) {
    && start <= l.done <= l.last
    && (forall i | 0 <= i < |l.calls| :: CallOk(l.calls[i], l))
    && (l.done == start || exists i :: 0 <= i < |l.calls| && l.calls[i].ticket == l.done)
  }

  /** What a step never undoes: the retired mark only rises, and a retired ticket stays settled. */
  ghost predicate Onward(l: Ledger, after: Ledger) {
    && l.done <= after.done
    && |l.calls| <= |after.calls| && (forall i | 0 <= i < |l.calls| :: after.calls[i].ticket == l.calls[i].ticket)
    && (forall i | 0 <= i < |l.calls| :: l.calls[i].stage.Returned? ==> after.calls[i].stage.Returned?)
    && forall t: nat | t <= l.done :: after.Settled(t)
  }

  lemma StepKeeps(l: Ledger, step: Step, start: nat)
    requires Inv(l, start) && Enabled(l, step)
    ensures Inv(Apply(l, step), start) && Onward(l, Apply(l, step))
  {
    var after := Apply(l, step);
    assert forall i | 0 <= i < |l.calls| :: after.calls[i].ticket == l.calls[i].ticket;
    if l.done != start && !step.Win? {
      var k :| 0 <= k < |l.calls| && l.calls[k].ticket == l.done;
      assert after.calls[k].ticket == after.done;
    }
    if step.Win? {
      assert after.calls[step.i].ticket == after.done;
    }
  }

  ghost predicate Runs(l: Ledger, steps: seq<Step>)
    decreases |steps|
  {
    steps != [] ==> Enabled(l, steps[0]) && Runs(Apply(l, steps[0]), steps[1..])
  }

  ghost function After(l: Ledger, steps: seq<Step>): Ledger
    requires Runs(l, steps)
    decreases |steps|
  {
    if steps == [] then l else After(Apply(l, steps[0]), steps[1..])
  }

  lemma {:induction false} RunKeeps(l: Ledger, steps: seq<Step>, start: nat)
    requires Inv(l, start) && Runs(l, steps)
    ensures Inv(After(l, steps), start) && Onward(l, After(l, steps))
    decreases |steps|
  {
    if steps != [] {
      StepKeeps(l, steps[0], start);
      RunKeeps(Apply(l, steps[0]), steps[1..], start);
      var next, last := Apply(l, steps[0]), After(l, steps);
      forall i | 0 <= i < |l.calls|
        ensures last.calls[i].ticket == l.calls[i].ticket
                && (l.calls[i].stage.Returned? ==> last.calls[i].stage.Returned?)
      {
        assert next.calls[i].ticket == l.calls[i].ticket;
      }
      forall t: nat | t <= l.done
        ensures last.Settled(t)
      {
        assert t <= next.done;
      }
    }
  }

  /** The run but its last step is a run, and that step is taken where it leads. */
  lemma {:induction false} RunsBack(l: Ledger, steps: seq<Step>)
    requires steps != [] && Runs(l, steps)
    ensures var n := |steps| - 1;
            && Runs(l, steps[..n]) && Enabled(After(l, steps[..n]), steps[n])
            && After(l, steps) == Apply(After(l, steps[..n]), steps[n])
    decreases |steps|
  {
    if |steps| > 1 {
      var next, rest := Apply(l, steps[0]), steps[1..];
      RunsBack(next, rest);
      assert rest[..|rest| - 1] == steps[..|steps| - 1][1..];
    } else {
      assert steps[..0] == [];
    }
  }

  /** The places of the steps that hand a ticket out, and of those that give one back. */
  ghost function Taken(steps: seq<Step>): set<nat> { set k: nat | k < |steps| && steps[k].Take? }

  ghost function Given(steps: seq<Step>): set<nat> { set k: nat | k < |steps| && steps[k].GiveBack? }

  /** The tickets the steps report, in order. */
  ghost function Reports(steps: seq<Step>): seq<nat> {
    if steps == [] then [] else
      var n := |steps| - 1;
      Reports(steps[..n]) + (if steps[n].Begin? then [steps[n].ticket] else [])
  }

  lemma {:induction false} ReportsAre(steps: seq<Step>)
    ensures forall k | 0 <= k < |steps| && steps[k].Begin? :: steps[k].ticket in Reports(steps)
    ensures forall t | t in Reports(steps) :: exists k :: 0 <= k < |steps| && steps[k] == Begin(t)
  {
    if steps != [] {
      var n := |steps| - 1;
      var front := steps[..n];
      ReportsAre(front);
      forall k | 0 <= k < |steps| && steps[k].Begin?
        ensures steps[k].ticket in Reports(steps)
      {
        assert k < n ==> front[k] == steps[k];
      }
      forall t | t in Reports(steps)
        ensures exists k :: 0 <= k < |steps| && steps[k] == Begin(t)
      {
        if t in Reports(front) {
          var k :| 0 <= k < |front| && front[k] == Begin(t);
          assert steps[k] == Begin(t);
        } else {
          assert steps[n] == Begin(t);
        }
      }
    }
  }

  /** The calls are of the tickets reported, in order. */
  ghost predicate CallsOf(calls: seq<Call>, tickets: seq<nat>) {
    |calls| == |tickets| && forall i | 0 <= i < |calls| :: calls[i].ticket == tickets[i]
  }

  lemma StepCalls(l: Ledger, step: Step, tickets: seq<nat>)
    requires Enabled(l, step) && CallsOf(l.calls, tickets)
    ensures CallsOf(Apply(l, step).calls, if step.Begin? then tickets + [step.ticket] else tickets)
  {
  }

  lemma {:induction false} RunCalls(l: Ledger, steps: seq<Step>)
    requires l.calls == [] && Runs(l, steps)
    ensures CallsOf(After(l, steps).calls, Reports(steps))
    decreases |steps|
  {
    if steps != [] {
      var n := |steps| - 1;
      RunsBack(l, steps);
      RunCalls(l, steps[..n]);
      StepCalls(After(l, steps[..n]), steps[n], Reports(steps[..n]));
      assert Reports(steps[..n]) + [] == Reports(steps[..n]);
    }
  }

  lemma CountsNext(steps: seq<Step>)
    requires steps != []
    ensures var n := |steps| - 1;
            && |Taken(steps)| == |Taken(steps[..n])| + (if steps[n].Take? then 1 else 0)
            && |Given(steps)| == |Given(steps[..n])| + (if steps[n].GiveBack? then 1 else 0)
  {
    var n := |steps| - 1;
    assert Taken(steps) == if steps[n].Take? then Taken(steps[..n]) + {n} else Taken(steps[..n]);
    assert Given(steps) == if steps[n].GiveBack? then Given(steps[..n]) + {n} else Given(steps[..n]);
  }

  /** The last ticket is the first one on by those taken less those given back. */
  lemma {:induction false} RunCounts(l: Ledger, steps: seq<Step>)
    requires Runs(l, steps)
    ensures After(l, steps).last == l.last + |Taken(steps)| - |Given(steps)|
    decreases |steps|
  {
    if steps == [] {
      assert Taken(steps) == {} && Given(steps) == {};
    } else {
      RunsBack(l, steps);
      CountsNext(steps);
      hide Taken, Given;
      RunCounts(l, steps[..|steps| - 1]);
    }
  }

  /** When every call has returned, whatever the interleaving: every ticket reported is retired, the mark is the start's
      or one reported, the last ticket counts those taken and given back, and a wait has nothing to wait for exactly
      where there is no ticket, or it is not handed out, or the mark has reached it. */
  lemma EndsAtGreatest(l: Ledger, steps: seq<Step>)
    requires l.done <= l.last && l.calls == [] && Runs(l, steps)
    requires forall i | 0 <= i < |After(l, steps).calls| :: After(l, steps).calls[i].stage.Returned?
    ensures var end := After(l, steps);
            && l.done <= end.done <= end.last
            && (forall k | 0 <= k < |steps| && steps[k].Begin? :: steps[k].ticket <= end.done)
            && (end.done == l.done || exists k :: 0 <= k < |steps| && steps[k] == Begin(end.done))
            && end.last == l.last + |set k: nat | k < |steps| && steps[k].Take?|
                         - |set k: nat | k < |steps| && steps[k].GiveBack?|
            && forall t: nat :: end.Settled(t) <==> t == 0 || t > end.last || t <= end.done
  {
    RunKeeps(l, steps, l.done);
    RunCounts(l, steps);
    RunCalls(l, steps);
    ReportsAre(steps);
    hide Runs, After, Reports;
    var end := After(l, steps);
    forall t | t in Reports(steps)
      ensures t <= end.done
    {
      var i :| 0 <= i < |Reports(steps)| && Reports(steps)[i] == t;
      assert CallOk(end.calls[i], end);
    }
    if end.done != l.done {
      var i :| 0 <= i < |end.calls| && end.calls[i].ticket == end.done;
      assert Reports(steps)[i] == end.done;
    }
  }

  /** A call that has not returned can take its next step, so no call waits for another. */
  lemma NeverBlocked(l: Ledger, start: nat, i: nat)
    requires Inv(l, start) && i < |l.calls| && !l.calls[i].stage.Returned?
    ensures l.calls[i].stage.Begun? ==> Enabled(l, Load(i, l.done))
    ensures l.calls[i].stage.Trying? ==> Enabled(l, Win(i)) || Enabled(l, Fail(i, l.done))
  {
    assert CallOk(l.calls[i], l);
  }

  /** How far below its ticket the value a call goes on from is. */
  function Below(c: Call): nat { if c.stage.Trying? && c.stage.before < c.ticket then c.ticket - c.stage.before else 0 }

  /** A try fails for no reason, or because another call has raised the mark since: then the call is nearer its end. */
  lemma FailureIsProgress(l: Ledger, start: nat, i: nat, seen: nat)
    requires Inv(l, start) && Enabled(l, Fail(i, seen)) && seen != l.calls[i].stage.before
    ensures l.done > l.calls[i].stage.before
    ensures Below(Apply(l, Fail(i, seen)).calls[i]) < Below(l.calls[i])
  {
  }
}
