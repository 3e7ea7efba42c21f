/** The rounds that keep passes in flight, as the tool runs them, over the invariants of InFlight. */
module Rounds {
  import opened Pipeline
  import opened InFlight

  class Flight<St, A, Row> {
    const model: Split<St, A, Row>
    const work: seq<seq<Planned>>    // each sequence's entries, in order
    // The context's storage: a state per stage, a handoff buffer per slot, PER logits rows per slot.
    var ctx: Context<St, A, Row>
    // The scheduler's.
    var slots: seq<Slot>
    var next: seq<nat>
    var flying: seq<bool>
    var formed: seq<Pass>            // every pass, in formation order
    var rows: seq<seq<Row>>          // its logits rows, once retired
    ghost var retired: nat           // passes [0, retired) have ended
    ghost var slotOf: seq<nat>       // the slot each pass was formed in
    ghost var done: seq<nat>         // how many passes each stage has run

    /** The queue and the context's storage agree. */
    ghost predicate Machine()
      reads this
    {
      && Queued(model.stages, formed, retired, slotOf, done, slots)
      && StatesFolded(model, formed, done, ctx.states)
      && HandedOff(model, formed, slots, ctx.handoff)
      && RowsWritten(model, formed, slots, ctx.logits)
    }

    ghost predicate Valid()
      reads this
    {
      && (forall q | 0 <= q < |work| :: forall e | 0 <= e < |work[q]| :: work[q][e].sequence == q)
      && 0 < model.stages && 0 < |slots| && 0 < |work|
      && Machine()
      && Collected(model, formed, retired, rows)
      && Supplied(work, formed, retired, next, flying)
    }

    /** Between rounds every formed pass has run its first stage. */
    ghost predicate Settled()
      reads this
    {
      Valid() && done[0] == |formed|
    }

    /** Buffers of P slots, holding whatever they were allocated with. */
    constructor (model: Split<St, A, Row>, work: seq<seq<Planned>>, P: nat, handoff: seq<A>, logits: seq<Row>)
      requires 0 < model.stages && 0 < P && 0 < |work|
      requires forall q | 0 <= q < |work| :: forall e | 0 <= e < |work[q]| :: work[q][e].sequence == q
      requires |handoff| == P && |logits| == P * PER
      ensures Settled() && formed == [] && |slots| == P
      ensures this.model == model && this.work == work
      ensures forall q | 0 <= q < |work| :: next[q] == 0
    {
      this.model, this.work := model, work;
      ctx := Context(seq(model.stages, (s: nat) => model.initial(s)), handoff, logits);
      slots := seq(P, _ => Slot(false, 0, 0, []));
      next := seq(|work|, _ => 0);
      flying := seq(|work|, _ => false);
      formed, rows, retired, slotOf := [], [], 0, [];
      done := seq(model.stages, _ => 0);
      new;
      assert forall k: nat :: !LiveAt(slots, k);
    }

    /** Slot k's pass through stage s, which must be the pass's next and the stage's next pass. */
    method RunPassStage(k: nat, s: nat)
      requires Machine()
      requires LiveAt(slots, k) && slots[k].ran == s < model.stages
      requires s < |done| && slots[k].formed - 1 == done[s]
      modifies this`ctx, this`slots, this`done
      ensures Machine()
      ensures done == old(done[s := done[s] + 1])
      ensures slots == old(slots[k := slots[k].(ran := s + 1)])
    {
      hide Queued, StatesFolded, HandedOff, RowsWritten;
      StageKeeps(model, formed, retired, slotOf, done, slots, ctx, k);
      ctx, slots, done := StageOn(model, ctx, slots[k], k), slots[k := slots[k].(ran := s + 1)], done[s := done[s] + 1];
    }

    /** The oldest pass, past its last stage, ends: its rows are read, its sequences and its slot are free. */
    method Retire(k: nat)
      requires Valid()
      requires retired < done[model.stages - 1] && k == slotOf[retired]
      modifies this`rows, this`flying, this`slots, this`retired
      ensures Valid()
      ensures retired == old(retired) + 1
      ensures k < |old(slots)| && slots == old(slots)[k := old(slots)[k].(live := false)]
    {
      NextToRetire(model, formed, retired, slotOf, done, slots, ctx.logits);
      assert WellFormed(formed[retired], |work|) && |flying| == |work|;
      hide Queued, StatesFolded, HandedOff, RowsWritten, Collected, Supplied;
      var entries := slots[k].entries;
      var got := ReadRows(Range(ctx.logits, k), entries);
      var flying' := Mark(flying, entries, false);
      RetireKeeps(model, formed, retired, slotOf, done, slots, ctx, rows, k, got, work, next, flying, flying');
      rows, flying, slots := rows[slots[k].formed - 1 := got], flying', slots[k := slots[k].(live := false)];
      retired := retired + 1;
    }

    /** A pass formed in free slot k, none of its stages run, its sequences in flight and moved on. */
    method BeginPass(k: nat, entries: Pass, flying': seq<bool>, next': seq<nat>)
      requires Valid() && k < |slots| && !slots[k].live
      requires Formable(work, next, flying, entries) && |next'| == |flying'| == |work|
      requires forall q | 0 <= q < |work| :: next'[q] == if Holds(entries, q) then next[q] + 1 else next[q]
      requires forall q | 0 <= q < |work| :: flying'[q] == (flying[q] || Holds(entries, q))
      modifies this`rows, this`flying, this`slots, this`next, this`formed, this`slotOf
      ensures Valid()
      ensures formed == old(formed) + [entries] && next == next'
      ensures slots == old(slots)[k := Slot(true, |formed|, 0, entries)]
    {
      hide Queued, StatesFolded, HandedOff, RowsWritten, Collected, Supplied;
      FormKeeps(model, formed, retired, slotOf, done, slots, ctx, rows, k, entries, work, next, flying, next', flying');
      flying, next, slots := flying', next', slots[k := Slot(true, |formed| + 1, 0, entries)];
      formed, rows, slotOf := formed + [entries], rows + [[]], slotOf + [k];
    }

    /** A pass of the next eligible sequences in turn from q0, formed in free slot k and run through its first stage;
        nothing where no sequence is eligible. */
    method Form(k: nat, q0: nat) returns (some: bool)
      requires Settled()
      requires k < |slots| && !slots[k].live && q0 < |work|
      modifies this`ctx, this`rows, this`flying, this`slots, this`next, this`formed, this`slotOf, this`done
      ensures Settled()
      ensures !some ==> formed == old(formed) && next == old(next) && slots == old(slots) && done == old(done)
      ensures !some ==> forall q | 0 <= q < |work| :: !Eligible(work, next, flying, q)
      ensures some ==> formed == old(formed + [FirstFour(Chosen(work, next, flying, q0, |work|))])
      ensures some ==> InTurn(work, old(next), old(flying), q0, formed[|formed| - 1])
      ensures some ==> |slots| == |old(slots)| && slots[k].live && forall j | 0 <= j < |slots| && j != k ::
              slots[j] == old(slots)[j]
      ensures some ==> done == old(done)[0 := |formed|]
      ensures some ==> Sum(old(next)) < Sum(next)
    {
      hide InTurn, Chosen, FirstFour;
      var entries, flying', next' := Prepare(work, next, flying, q0);
      if entries == [] {
        return false;
      }
      BeginPass(k, entries, flying', next');
      RunPassStage(k, 0);
      return true;
    }

    /** A pass formed from any start: the source draws it at random. */
    method FormNext(k: nat) returns (some: bool)
      requires Settled()
      requires k < |slots| && !slots[k].live
      modifies this`ctx, this`rows, this`flying, this`slots, this`next, this`formed, this`slotOf, this`done
      ensures Settled()
      ensures !some ==> formed == old(formed) && next == old(next) && slots == old(slots) && done == old(done)
      ensures !some ==> forall q | 0 <= q < |work| :: !Eligible(work, next, flying, q)
      ensures some ==> |formed| == |old(formed)| + 1 && old(formed) <= formed
      ensures some ==> |slots| == |old(slots)| && slots[k].live
      ensures some ==> forall j | 0 <= j < |slots| && j != k :: slots[j] == old(slots)[j]
      ensures some ==> done == old(done)[0 := |formed|]
      ensures some ==> Sum(old(next)) < Sum(next)
    {
      hide InTurn, Chosen, FirstFour, Queued, StatesFolded, HandedOff, RowsWritten, Collected, Supplied;
      var q0: nat :| q0 < |work|;
      some := Form(k, q0);
    }

    /** Every advance of a round's snapshot: each stage above the first with a pass waiting has run one more. */
    method AdvanceAll(advance: seq<(nat, nat)>)
      requires Machine() && 0 < model.stages
      requires Pending(slotOf, done, done, model.stages - 1, advance)
      modifies this`ctx, this`slots, this`done
      ensures Machine() && |slots| == |old(slots)|
      ensures done == Stepped(old(done))
    {
      hide Queued, StatesFolded, HandedOff, RowsWritten, Pending;
      assert advance[0..] == advance;
      ghost var s: nat := model.stages - 1;
      for a := 0 to |advance|
        invariant Machine() && |slots| == |old(slots)|
        invariant Pending(slotOf, done, old(done), s, advance[a..])
      {
        PendingStep(model.stages, formed, retired, slotOf, done, slots, old(done), s, advance[a..]);
        assert advance[a..][0] == advance[a] && advance[a..][1..] == advance[a + 1..];
        RunPassStage(advance[a].0, advance[a].1);
        s := advance[a].1 - 1;
      }
      PendingEnd(slotOf, done, old(done), s);
    }

    /** Every retirement of a round's snapshot. */
    method RetireAll(retire: seq<nat>, ghost until: nat)
      requires Valid() && |done| == model.stages && retired <= until <= done[model.stages - 1] && until <= |slotOf|
      requires retire == slotOf[retired..until]
      modifies this`rows, this`flying, this`slots, this`retired
      ensures Valid() && |slots| == |old(slots)|
      ensures retired == until
    {
      hide Queued, StatesFolded, HandedOff, RowsWritten, Collected, Supplied;
      for i := 0 to |retire|
        invariant Valid() && |slots| == |old(slots)|
        invariant retired == old(retired) + i
      {
        assert retire[i] == slotOf[retired];
        Retire(retire[i]);
      }
    }

    /** The first half of a round: both snapshots are taken before any stage runs. */
    method Drain()
      requires Settled()
      modifies this`ctx, this`rows, this`flying, this`slots, this`done, this`retired
      ensures Settled() && |slots| == |old(slots)|
      ensures retired == old(done[model.stages - 1])
      ensures done == Stepped(old(done))
    {
      var advance := Advances(model.stages, slots, formed, retired, slotOf, done);
      var retire := Retirements(model.stages, slots, formed, retired, slotOf, done);
      AdvanceAll(advance);
      RetireAll(retire, old(done[model.stages - 1]));
    }

    /** New passes in the free slots, until a slot finds no sequence to take. */
    method FormAll()
      requires Settled()
      modifies this`ctx, this`rows, this`flying, this`slots, this`next, this`formed, this`slotOf, this`done
      ensures Settled() && |slots| == |old(slots)|
      ensures old(formed) <= formed && done == old(done)[0 := |formed|]
      ensures (forall k | 0 <= k < |slots| :: slots[k].live) || forall q | 0 <= q < |work| ::
              !Eligible(work, next, flying, q)
      ensures Sum(next) - Sum(old(next)) >= |formed| - |old(formed)|
      ensures formed == old(formed) ==> next == old(next) && done == old(done)
    {
      assert 0 < |done|;
      hide InTurn, Chosen, FirstFour, Queued, StatesFolded, HandedOff, RowsWritten, Collected, Supplied;
      for k := 0 to |slots|
        invariant Settled() && |slots| == |old(slots)| && 0 < |old(done)|
        invariant old(formed) <= formed && done == old(done)[0 := |formed|]
        invariant forall j | 0 <= j < k :: slots[j].live
        invariant Sum(next) - Sum(old(next)) >= |formed| - |old(formed)|
        invariant formed == old(formed) ==> next == old(next) && done == old(done)
      {
        if !slots[k].live {
          var some := FormNext(k);
          if !some {
            break;
          }
        }
      }
    }

    /** One round: from the last stage down each stage advances its oldest waiting pass, the passes whose last stage
        ran in an earlier round retire in formation order, then free slots take new passes. */
    method Round()
      requires Settled()
      modifies this`ctx, this`rows, this`flying, this`slots, this`next, this`formed, this`slotOf, this`done,
               this`retired
      ensures Settled() && |slots| == |old(slots)|
      ensures old(formed) <= formed
      ensures retired == old(done[model.stages - 1])
      ensures done == Stepped(old(done))[0 := |formed|]
      ensures (forall k | 0 <= k < |slots| :: slots[k].live) || forall q | 0 <= q < |work| ::
              !Eligible(work, next, flying, q)
      ensures Sum(next) - Sum(old(next)) >= |formed| - |old(formed)|
      ensures formed == old(formed) ==> next == old(next)
    {
      Drain();
      FormAll();
    }

    /** Rounds until nothing is in flight and no work is left; it ends for every model, work list and choice of
        starts. */
    method Run()
      requires Settled() && formed == []
      modifies this`ctx, this`rows, this`flying, this`slots, this`next, this`formed, this`slotOf, this`done,
               this`retired
      ensures Settled() && retired == |formed|
      ensures forall q | 0 <= q < |work| :: Entries(formed, q) == work[q]
      ensures |rows| == |formed| && forall p | 0 <= p < |formed| :: rows[p] == SerialRows(model, formed, p)
      ensures forall p | 0 <= p < |formed| :: |rows[p]| == |set i | 0 <= i < |formed[p]| && formed[p][i].want|
      ensures forall p, w | 0 <= p < |formed| && 0 <= w < |rows[p]| ::
                rows[p][w] == model.head(ActAt(model, formed, model.stages, p), formed[p], w)
    {
      assert |next| == |flying| == |work| && |done| == model.stages;
      hide StatesFolded, HandedOff, RowsWritten, Queued, Supplied, Collected, Unfinished, Left;
      var more := true;
      while more
        invariant Settled() && |next| == |flying| == |work| && |done| == model.stages
        invariant !more ==> !Unfinished(work, slots, next)
        decreases Left(model.stages, work, |formed|, retired, done, next), more
      {
        ghost var formed0, retired0, slotOf0, done0, slots0, next0, flying0 := formed, retired, slotOf, done, slots,
            next, flying;
        Round();
        RoundMeasures(model.stages, work, formed0, retired0, slotOf0, done0, slots0, next0, flying0,
                      formed, retired, slotOf, done, slots, next, flying);
        more := More(work, slots, next);
      }
      AllDone(model.stages, work, formed, retired, slotOf, done, slots, next, flying);
      CollectedSerial(model, formed, rows);
      forall p | 0 <= p < |formed|
        ensures HeadRows(model, formed, p, rows[p])
      {
      }
    }
  }

  /** Every sequence's work, planned from where its tokens start and how many its prompt has. */
  method PlanAll(starts: seq<nat>, lengths: seq<nat>) returns (work: seq<seq<Planned>>)
    requires |starts| == |lengths|
    ensures |work| == |starts| && forall q | 0 <= q < |work| :: IsPlan(work[q], q, starts[q], lengths[q])
  {
    work := [];
    for q := 0 to |starts|
      invariant |work| == q && forall p | 0 <= p < q :: IsPlan(work[p], p, starts[p], lengths[p])
    {
      var entries := PlanSequence(q, starts[q], lengths[q]);
      work := work + [entries];
    }
  }

  /** The entries cover the sequence's prompt and generated tokens. */
  ghost predicate IsPlan(entries: seq<Planned>, q: nat, start: nat, length: nat) {
    Covers(entries, q, start, length, start + length + 8)
  }

  /** The tool's check: the work planned, the passes run in flight, then one after another on the split and on the
      single device, rows compared. The passes formed take every sequence's tokens from its first to its last without
      a gap. */
  method InFlightCheck<St, A, St1(!new), A1, Row(==)>(
      one: Split<St1, A1, Row>, two: Split<St, A, Row>, ghost parts: St1 -> seq<St>,
      starts: seq<nat>, lengths: seq<nat>, P: nat, handoff: seq<A>, logits: seq<Row>)
    returns (formed: seq<Pass>, splitDiffer: nat, oneDiffer: nat)
    requires 0 < two.stages && 0 < P && |starts| == |lengths| == 2 * P
    requires |handoff| == P && |logits| == P * PER
    ensures splitDiffer == 0
    ensures SameModel(one, two, parts) ==> oneDiffer == 0
    ensures forall q | 0 <= q < 2 * P :: IsPlan(Entries(formed, q), q, starts[q], lengths[q])
  {
    var work: seq<seq<Planned>> := PlanAll(starts, lengths);
    forall q | 0 <= q < |work|
      ensures forall e | 0 <= e < |work[q]| :: work[q][e].sequence == q
    {
      assert IsPlan(work[q], q, starts[q], lengths[q]);
    }
    var flight := new Flight(two, work, P, handoff, logits);
    flight.Run();
    formed := flight.formed;
    var rows := flight.rows;
    NoDifferences(two, formed, rows, |formed|);
    splitDiffer := Serial(two, formed, rows);
    if SameModel(one, two, parts) {
      forall p | 0 <= p < |formed|
        ensures rows[p] == SerialRows(one, formed, p)
      {
        SingleDevice(one, two, parts, formed, p);
      }
      NoDifferences(one, formed, rows, |formed|);
    }
    oneDiffer := Serial(one, formed, rows);
  }
}
