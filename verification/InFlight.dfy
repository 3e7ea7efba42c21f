/** Passes in flight over a split model: P slots, S stages, rounds that advance the oldest waiting pass at each stage
    from the last stage down, retire finished passes and form new ones from sequences not in flight.
    The interleaved run gives every pass the rows of the serial run. */
module InFlight {
  import opened Pipeline

  /** The most entries of a pass, and the logits rows a slot owns. */
  const PER: nat := 4

  datatype Slot = Slot(live: bool, formed: nat, ran: nat, entries: Pass)

  /** The context's storage: a state per stage, a handoff buffer per slot, PER logits rows per slot. */
  datatype Context<St, A, Row> = Context(states: seq<St>, handoff: seq<A>, logits: seq<Row>)

  predicate LiveAt(slots: seq<Slot>, k: nat) {
    k < |slots| && slots[k].live
  }

  /** A live slot holds the pass it says. */
  ghost predicate Holding(formed: seq<Pass>, slot: Slot) {
    0 < slot.formed <= |formed| && slot.entries == formed[slot.formed - 1] && |slot.entries| <= PER
  }

  /** A pass has run exactly the stages that have run it. */
  ghost predicate Placed(stages: nat, done: seq<nat>, slot: Slot) {
    && |done| == stages && slot.ran <= stages
    && forall s | 0 <= s < stages :: s < slot.ran <==> slot.formed <= done[s]
  }

  /** The queue: live slots hold exactly the passes [retired, |formed|), and `done[s]` passes have run stage s, always
      the oldest ones. `slotOf[p]` is the slot pass p was formed in. */
  ghost predicate Queued(stages: nat, formed: seq<Pass>, retired: nat, slotOf: seq<nat>, done: seq<nat>,
                         slots: seq<Slot>)
  {
    && retired <= |formed| == |slotOf|
    && |done| == stages
    && (forall s | 0 <= s < stages :: retired <= done[s] <= |formed|)
    && (forall k | 0 <= k < |slots| && slots[k].live ::
          retired < slots[k].formed && Holding(formed, slots[k]) && Placed(stages, done, slots[k]))
    && (forall p | retired <= p < |formed| ::
          slotOf[p] < |slots| && slots[slotOf[p]].live && slots[slotOf[p]].formed == p + 1)
    && (forall k: nat {:trigger LiveAt(slots, k)} | LiveAt(slots, k) :: slotOf[slots[k].formed - 1] == k)
  }

  /** Every stage's state is the fold over the passes it has run. */
  ghost predicate StatesFolded<St, A, Row>(m: Split<St, A, Row>, formed: seq<Pass>, done: seq<nat>, states: seq<St>)
  {
    && |states| == |done| == m.stages
    && forall s | 0 <= s < m.stages :: done[s] <= |formed| && states[s] == StageState(m, formed, s, done[s])
  }

  /** Every live slot between two stages holds its pass's activation. */
  ghost predicate HandedOff<St, A, Row>(m: Split<St, A, Row>, formed: seq<Pass>, slots: seq<Slot>, handoff: seq<A>)
  {
    && |handoff| == |slots|
    && forall k | 0 <= k < |slots| && slots[k].live && 0 < slots[k].ran < m.stages ::
         && 0 < slots[k].formed <= |formed|
         && handoff[k] == ActAt(m, formed, slots[k].ran, slots[k].formed - 1)
  }

  /** A pass formed earlier has run at least as many stages as one formed later, so every stage runs passes in
      formation order. */
  lemma EarlierRanFurther(stages: nat, formed: seq<Pass>, retired: nat, slotOf: seq<nat>, done: seq<nat>,
                          slots: seq<Slot>, a: nat, b: nat)
    requires Queued(stages, formed, retired, slotOf, done, slots)
    requires LiveAt(slots, a) && LiveAt(slots, b) && slots[a].formed <= slots[b].formed
    ensures slots[b].ran <= slots[a].ran
    ensures slots[a].formed == slots[b].formed ==> a == b
  {
    assert Placed(stages, done, slots[a]) && Placed(stages, done, slots[b]);
    if slots[b].ran > 0 {
      assert slots[b].formed <= done[slots[b].ran - 1];
    }
  }

  /** The logits rows slot k's pass may write. */
  function Range<Row>(logits: seq<Row>, k: nat): (r: seq<Row>)
    requires (k + 1) * PER <= |logits|
    ensures |r| == PER
  {
    logits[k * PER..k * PER + PER]
  }

  /** The logits once slot k's pass wrote its rows, its wanting entries' in turn, from the start of its own range. */
  function WithRows<St, A, Row>(m: Split<St, A, Row>, logits: seq<Row>, k: nat, entries: Pass, act: A): (r: seq<Row>)
    requires (k + 1) * PER <= |logits| && |entries| <= PER
    ensures |r| == |logits|
    ensures Range(r, k)[..Wants(entries)] == RowsOf(m, act, entries)
    ensures forall j: nat | (j + 1) * PER <= |logits| && j != k :: Range(r, j) == Range(logits, j)
  {
    logits[..k * PER] + RowsOf(m, act, entries) + logits[k * PER + Wants(entries)..]
  }

  /** Every live slot past its last stage has its pass's rows in its own range. */
  ghost predicate RowsWritten<St, A, Row>(m: Split<St, A, Row>, formed: seq<Pass>, slots: seq<Slot>, logits: seq<Row>)
  {
    && |logits| == |slots| * PER
    && forall k | 0 <= k < |slots| && slots[k].live && slots[k].ran == m.stages ::
         && 0 < slots[k].formed <= |formed|
         && HasRows(m, formed, slots[k].formed - 1, Range(logits, k))
  }

  ghost predicate HasRows<St, A, Row>(m: Split<St, A, Row>, formed: seq<Pass>, p: nat, range: seq<Row>)
    requires p < |formed|
  {
    Wants(formed[p]) <= |range| && range[..Wants(formed[p])] == PassRows(m, formed, p)
  }

  /** The rows collected so far: every retired pass's, in full, and nothing of a pass in flight. */
  ghost predicate Collected<St, A, Row>(m: Split<St, A, Row>, formed: seq<Pass>, retired: nat, rows: seq<seq<Row>>)
  {
    && retired <= |formed| == |rows|
    && forall p | 0 <= p < |formed| :: rows[p] == if p < retired then PassRows(m, formed, p) else []
  }

  /** A pass in flight holds sequence q. */
  ghost predicate InFlightWith(formed: seq<Pass>, retired: nat, q: nat) {
    exists p :: retired <= p < |formed| && Holds(formed[p], q)
  }

  /** The supply: each sequence's formed entries are a prefix of its work, no pass repeats a sequence, no two passes in
      flight share one, and `flying` says which sequences are in flight. */
  ghost predicate Supplied(work: seq<seq<Planned>>, formed: seq<Pass>, retired: nat, next: seq<nat>, flying: seq<bool>)
  {
    && retired <= |formed|
    && |next| == |flying| == |work|
    && (forall q | 0 <= q < |work| :: next[q] <= |work[q]| && Entries(formed, q) == work[q][..next[q]])
    && (forall q | 0 <= q < |work| :: flying[q] <==> InFlightWith(formed, retired, q))
    && (forall p | 0 <= p < |formed| :: WellFormed(formed[p], |work|))
    && (forall p, r, q | retired <= p < r < |formed| :: !(Holds(formed[p], q) && Holds(formed[r], q)))
  }

  /** One to four entries of distinct sequences. */
  ghost predicate WellFormed(pass: Pass, K: nat) {
    && 0 < |pass| <= PER
    && (forall i | 0 <= i < |pass| :: pass[i].sequence < K)
    && (forall i, j | 0 <= i < j < |pass| :: pass[i].sequence != pass[j].sequence)
  }

  // ----- what each step keeps -----

  lemma AfterStage(stages: nat, formed: seq<Pass>, retired: nat, slotOf: seq<nat>, done: seq<nat>, slots: seq<Slot>,
                   k: nat)
    requires Queued(stages, formed, retired, slotOf, done, slots)
    requires k < |slots| && slots[k].live && slots[k].ran < stages
    requires slots[k].formed - 1 == done[slots[k].ran]
    ensures var s := slots[k].ran;
            Queued(stages, formed, retired, slotOf, done[s := done[s] + 1], slots[k := slots[k].(ran := s + 1)])
  {
    var s := slots[k].ran;
    var slots', done' := slots[k := slots[k].(ran := s + 1)], done[s := done[s] + 1];
    forall j: nat | LiveAt(slots', j)
      ensures slotOf[slots'[j].formed - 1] == j && Placed(stages, done', slots'[j])
    {
      assert LiveAt(slots, j) && LiveAt(slots, k);
    }
    forall p | retired <= p < |formed|
      ensures slotOf[p] < |slots'| && slots'[slotOf[p]].live && slots'[slotOf[p]].formed == p + 1
    {
      assert LiveAt(slots, slotOf[p]);
    }
    forall j | 0 <= j < |slots'| && slots'[j].live
      ensures Placed(stages, done', slots'[j])
    {
      assert LiveAt(slots', j);
    }
  }

  /** Slot k's stage s writes its own buffers and leaves every other slot's alone. */
  lemma AfterStageData<St, A, Row>(m: Split<St, A, Row>, formed: seq<Pass>, slots: seq<Slot>, k: nat,
                                   handoff: seq<A>, handoff': seq<A>, logits: seq<Row>, logits': seq<Row>)
    requires k < |slots| && slots[k].ran < m.stages && 0 < slots[k].formed <= |formed|
    requires HandedOff(m, formed, slots, handoff) && |handoff'| == |handoff|
    requires forall j | 0 <= j < |slots| && j != k :: handoff'[j] == handoff[j]
    requires slots[k].ran + 1 < m.stages ==> handoff'[k] == ActAt(m, formed, slots[k].ran + 1, slots[k].formed - 1)
    requires RowsWritten(m, formed, slots, logits) && |logits'| == |logits|
    requires forall j | 0 <= j < |slots| && j != k :: Range(logits', j) == Range(logits, j)
    requires slots[k].ran + 1 == m.stages ==> HasRows(m, formed, slots[k].formed - 1, Range(logits', k))
    ensures var slots' := slots[k := slots[k].(ran := slots[k].ran + 1)];
            HandedOff(m, formed, slots', handoff') && RowsWritten(m, formed, slots', logits')
  {
  }

  lemma AfterStageStates<St, A, Row>(m: Split<St, A, Row>, formed: seq<Pass>, done: seq<nat>, states: seq<St>,
                                     s: nat, state: St)
    requires StatesFolded(m, formed, done, states)
    requires s < m.stages && done[s] < |formed|
    requires state == StageState(m, formed, s, done[s] + 1)
    ensures StatesFolded(m, formed, done[s := done[s] + 1], states[s := state])
  {
    hide StageState, ActAt;
  }

  /** Slot k's pass through its next stage: the stage reads its state and what the stage before handed over, and the
      last stage writes the pass's logits rows. */
  function StageOn<St, A, Row>(m: Split<St, A, Row>, ctx: Context<St, A, Row>, slot: Slot, k: nat): Context<St, A, Row>
    requires slot.ran < m.stages == |ctx.states| && k < |ctx.handoff|
    requires (k + 1) * PER <= |ctx.logits| && |slot.entries| <= PER
  {
    var s := slot.ran;
    var out := m.step(s, ctx.states[s], if s == 0 then m.embed(slot.entries) else ctx.handoff[k], slot.entries);
    if s + 1 < m.stages then
      Context(ctx.states[s := out.0], ctx.handoff[k := out.1], ctx.logits)
    else
      Context(ctx.states[s := out.0], ctx.handoff, WithRows(m, ctx.logits, k, slot.entries, out.1))
  }

  /** A stage run writes slot k's own places alone: every other slot's activation and logits rows, and every other
      stage's state, are as they were. */
  lemma StageLeavesOthers<St, A, Row>(m: Split<St, A, Row>, ctx: Context<St, A, Row>, slot: Slot, k: nat, j: nat)
    requires slot.ran < m.stages == |ctx.states| && k < |ctx.handoff|
    requires (k + 1) * PER <= |ctx.logits| && |slot.entries| <= PER
    ensures var ctx' := StageOn(m, ctx, slot, k);
            && |ctx'.states| == m.stages && |ctx'.handoff| == |ctx.handoff| && |ctx'.logits| == |ctx.logits|
            && (j < |ctx.handoff| && j != k ==> ctx'.handoff[j] == ctx.handoff[j])
            && ((j + 1) * PER <= |ctx.logits| && j != k ==> Range(ctx'.logits, j) == Range(ctx.logits, j))
            && (j < m.stages && j != slot.ran ==> ctx'.states[j] == ctx.states[j])
  {
    hide WithRows;
  }

  lemma StageKeeps<St, A, Row>(m: Split<St, A, Row>, formed: seq<Pass>, retired: nat, slotOf: seq<nat>,
                               done: seq<nat>, slots: seq<Slot>,
                               ctx: Context<St, A, Row>, k: nat)
    requires Queued(m.stages, formed, retired, slotOf, done, slots) && StatesFolded(m, formed, done, ctx.states)
    requires HandedOff(m, formed, slots, ctx.handoff) && RowsWritten(m, formed, slots, ctx.logits)
    requires LiveAt(slots, k) && slots[k].ran < m.stages && slots[k].formed - 1 == done[slots[k].ran]
    ensures |ctx.states| == |done| == m.stages && k < |slots| == |ctx.handoff| && |ctx.logits| == |slots| * PER
            && |slots[k].entries| <= PER
    ensures var s := slots[k].ran; var ctx' := StageOn(m, ctx, slots[k], k);
            var done' := done[s := done[s] + 1]; var slots' := slots[k := slots[k].(ran := s + 1)];
            && Queued(m.stages, formed, retired, slotOf, done', slots') && StatesFolded(m, formed, done', ctx'.states)
            && HandedOff(m, formed, slots', ctx'.handoff) && RowsWritten(m, formed, slots', ctx'.logits)
  {
    var s, p := slots[k].ran, slots[k].formed - 1;
    var ctx' := StageOn(m, ctx, slots[k], k);
    assert slots[k].entries == formed[p];
    var out := m.step(s, ctx.states[s], if s == 0 then m.embed(formed[p]) else ctx.handoff[k], formed[p]);
    assert ActAt(m, formed, s + 1, p) == out.1;
    AfterStage(m.stages, formed, retired, slotOf, done, slots, k);
    AfterStageData(m, formed, slots, k, ctx.handoff, ctx'.handoff, ctx.logits, ctx'.logits);
    assert out.0 == StageState(m, formed, s, done[s] + 1);
    hide StageState, ActAt;
    AfterStageStates(m, formed, done, ctx.states, s, out.0);
  }

  lemma RetiredData<St, A, Row>(m: Split<St, A, Row>, formed: seq<Pass>, retired: nat, slots: seq<Slot>,
                                ctx: Context<St, A, Row>,
                                rows: seq<seq<Row>>, k: nat, got: seq<Row>)
    requires HandedOff(m, formed, slots, ctx.handoff) && RowsWritten(m, formed, slots, ctx.logits)
             && Collected(m, formed, retired, rows)
    requires LiveAt(slots, k) && slots[k].ran == m.stages && slots[k].formed == retired + 1 <= |formed|
    requires Wants(formed[retired]) <= PER && got == Range(ctx.logits, k)[..Wants(formed[retired])]
    ensures var slots' := slots[k := slots[k].(live := false)];
            && HandedOff(m, formed, slots', ctx.handoff) && RowsWritten(m, formed, slots', ctx.logits)
            && Collected(m, formed, retired + 1, rows[retired := got])
  {
  }

  lemma RetiredQueue(stages: nat, formed: seq<Pass>, retired: nat, slotOf: seq<nat>, done: seq<nat>,
                     slots: seq<Slot>, k: nat)
    requires Queued(stages, formed, retired, slotOf, done, slots)
    requires retired < |formed| && k == slotOf[retired] && slots[k].ran == stages
    ensures Queued(stages, formed, retired + 1, slotOf, done, slots[k := slots[k].(live := false)])
  {
    var slots' := slots[k := slots[k].(live := false)];
    forall j: nat | LiveAt(slots', j)
      ensures slotOf[slots'[j].formed - 1] == j && slots'[j].formed > retired + 1
    {
      assert LiveAt(slots, j) && LiveAt(slots, k);
    }
    forall p | retired < p < |formed|
      ensures slotOf[p] < |slots'| && slots'[slotOf[p]].live && slots'[slotOf[p]].formed == p + 1
    {
      assert LiveAt(slots, slotOf[p]);
    }
  }

  lemma FormedQueue(stages: nat, formed: seq<Pass>, retired: nat, slotOf: seq<nat>, done: seq<nat>, slots: seq<Slot>,
                    k: nat, pass: Pass)
    requires Queued(stages, formed, retired, slotOf, done, slots)
    requires k < |slots| && !slots[k].live && |pass| <= PER
    ensures Queued(stages, formed + [pass], retired, slotOf + [k], done, slots[k := Slot(true, |formed| + 1, 0, pass)])
  {
    var slots' := slots[k := Slot(true, |formed| + 1, 0, pass)];
    assert forall j: nat :: LiveAt(slots', j) && j != k ==> LiveAt(slots, j);
    forall p | retired <= p <= |formed|
      ensures var j := (slotOf + [k])[p];
              j < |slots'| && slots'[j].live && slots'[j].formed == p + 1
    {
      if p < |formed| {
        assert LiveAt(slots, slotOf[p]);
      }
    }
  }

  /** A new pass leaves what the older ones compute alone. */
  lemma FormedData<St, A, Row>(m: Split<St, A, Row>, formed: seq<Pass>, retired: nat, slotOf: seq<nat>, done: seq<nat>,
                               slots: seq<Slot>, states: seq<St>, handoff: seq<A>, logits: seq<Row>,
                               rows: seq<seq<Row>>, k: nat, pass: Pass)
    requires m.stages > 0
    requires Queued(m.stages, formed, retired, slotOf, done, slots)
    requires StatesFolded(m, formed, done, states)
    requires HandedOff(m, formed, slots, handoff)
    requires RowsWritten(m, formed, slots, logits)
    requires Collected(m, formed, retired, rows)
    requires k < |slots| && !slots[k].live
    ensures var slots' := slots[k := Slot(true, |formed| + 1, 0, pass)];
            && StatesFolded(m, formed + [pass], done, states)
            && HandedOff(m, formed + [pass], slots', handoff)
            && RowsWritten(m, formed + [pass], slots', logits)
            && Collected(m, formed + [pass], retired, rows + [[]])
  {
    var formed' := formed + [pass];
    forall s | 0 <= s < m.stages
      ensures done[s] <= |formed'| && states[s] == StageState(m, formed', s, done[s])
    {
      FormedLater(m, formed, [pass], s, done[s]);
    }
    forall s: nat, p: nat | p < |formed|
      ensures ActAt(m, formed', s, p) == ActAt(m, formed, s, p)
    {
      FormedLater(m, formed, [pass], s, p);
    }
    forall p | 0 <= p < |formed|
      ensures PassRows(m, formed', p) == PassRows(m, formed, p)
    {
      assert formed'[p] == formed[p];
    }
  }

  // ----- the supply -----

  lemma {:induction false} NotHeld(pass: Pass, q: nat)
    requires !Holds(pass, q)
    ensures OfSequence(pass, q) == []
  {
    if pass != [] {
      assert pass[|pass| - 1].sequence != q;
      assert !Holds(pass[..|pass| - 1], q);
      NotHeld(pass[..|pass| - 1], q);
    }
  }

  /** A pass without repeats gives a sequence exactly the entry it holds of it. */
  lemma {:induction false} HeldOnce(pass: Pass, i: nat)
    requires i < |pass|
    requires forall a, b | 0 <= a < b < |pass| :: pass[a].sequence != pass[b].sequence
    ensures OfSequence(pass, pass[i].sequence) == [pass[i]]
  {
    var q := pass[i].sequence;
    var front := pass[..|pass| - 1];
    if i == |pass| - 1 {
      assert !Holds(front, q);
      NotHeld(front, q);
    } else {
      assert front[i] == pass[i];
      HeldOnce(front, i);
    }
  }

  /** The next pass to retire sits in its slot past its last stage. */
  lemma NextToRetire<St, A, Row>(m: Split<St, A, Row>, formed: seq<Pass>, retired: nat, slotOf: seq<nat>,
                                 done: seq<nat>, slots: seq<Slot>,
                                 logits: seq<Row>)
    requires 0 < m.stages && Queued(m.stages, formed, retired, slotOf, done, slots)
             && RowsWritten(m, formed, slots, logits)
    requires retired < done[m.stages - 1]
    ensures retired < |slotOf| == |formed| && LiveAt(slots, slotOf[retired])
    ensures var k := slotOf[retired];
            && slots[k].ran == m.stages && slots[k].formed == retired + 1 && slots[k].entries == formed[retired]
            && |slots[k].entries| <= PER && |logits| == |slots| * PER
            && HasRows(m, formed, retired, Range(logits, k))
  {
    assert LiveAt(slots, slotOf[retired]);
    assert Placed(m.stages, done, slots[slotOf[retired]]);
  }

  /** The oldest pass's end keeps everything. */
  lemma RetireKeeps<St, A, Row>(m: Split<St, A, Row>, formed: seq<Pass>, retired: nat, slotOf: seq<nat>,
                                done: seq<nat>, slots: seq<Slot>,
                                ctx: Context<St, A, Row>, rows: seq<seq<Row>>, k: nat, got: seq<Row>,
                                work: seq<seq<Planned>>, next: seq<nat>, flying: seq<bool>, flying': seq<bool>)
    requires 0 < m.stages && Queued(m.stages, formed, retired, slotOf, done, slots)
             && HandedOff(m, formed, slots, ctx.handoff)
    requires RowsWritten(m, formed, slots, ctx.logits) && Collected(m, formed, retired, rows)
    requires Supplied(work, formed, retired, next, flying)
    requires retired < |formed| && retired < done[m.stages - 1] && k == slotOf[retired]
    requires Wants(formed[retired]) <= PER && got == Range(ctx.logits, k)[..Wants(formed[retired])]
    requires |flying'| == |flying| && forall q | 0 <= q < |flying| ::
             flying'[q] == (flying[q] && !Holds(formed[retired], q))
    ensures |rows| == |formed|
    ensures var slots' := slots[k := slots[k].(live := false)];
            && Queued(m.stages, formed, retired + 1, slotOf, done, slots') && HandedOff(m, formed, slots', ctx.handoff)
            && RowsWritten(m, formed, slots', ctx.logits) && Collected(m, formed, retired + 1, rows[retired := got])
            && Supplied(work, formed, retired + 1, next, flying')
  {
    NextToRetire(m, formed, retired, slotOf, done, slots, ctx.logits);
    RetiredQueue(m.stages, formed, retired, slotOf, done, slots, k);
    RetiredData(m, formed, retired, slots, ctx, rows, k, got);
    RetiredSupply(work, formed, retired, next, flying, flying');
  }

  /** A pass formed in a free slot keeps everything. */
  lemma FormKeeps<St, A, Row>(m: Split<St, A, Row>, formed: seq<Pass>, retired: nat, slotOf: seq<nat>,
                              done: seq<nat>, slots: seq<Slot>,
                              ctx: Context<St, A, Row>, rows: seq<seq<Row>>, k: nat, pass: Pass,
                              work: seq<seq<Planned>>, next: seq<nat>, flying: seq<bool>, next': seq<nat>,
                              flying': seq<bool>)
    requires 0 < m.stages && Queued(m.stages, formed, retired, slotOf, done, slots)
             && HandedOff(m, formed, slots, ctx.handoff)
    requires StatesFolded(m, formed, done, ctx.states) && RowsWritten(m, formed, slots, ctx.logits)
             && Collected(m, formed, retired, rows)
    requires Supplied(work, formed, retired, next, flying) && Formable(work, next, flying, pass)
    requires k < |slots| && !slots[k].live
    requires |next'| == |flying'| == |work|
    requires forall q | 0 <= q < |work| :: next'[q] == if Holds(pass, q) then next[q] + 1 else next[q]
    requires forall q | 0 <= q < |work| :: flying'[q] == (flying[q] || Holds(pass, q))
    ensures var formed', slots' := formed + [pass], slots[k := Slot(true, |formed| + 1, 0, pass)];
            && Queued(m.stages, formed', retired, slotOf + [k], done, slots')
                && StatesFolded(m, formed', done, ctx.states)
            && HandedOff(m, formed', slots', ctx.handoff) && RowsWritten(m, formed', slots', ctx.logits)
            && Collected(m, formed', retired, rows + [[]]) && Supplied(work, formed', retired, next', flying')
  {
    FormedQueue(m.stages, formed, retired, slotOf, done, slots, k, pass);
    FormedData(m, formed, retired, slotOf, done, slots, ctx.states, ctx.handoff, ctx.logits, rows, k, pass);
    FormedSupply(work, formed, retired, next, flying, pass, next', flying');
  }

  lemma RetiredSupply(work: seq<seq<Planned>>, formed: seq<Pass>, retired: nat, next: seq<nat>, flying: seq<bool>,
                      flying': seq<bool>)
    requires Supplied(work, formed, retired, next, flying)
    requires retired < |formed|
    requires |flying'| == |flying|
    requires forall q | 0 <= q < |flying| :: flying'[q] == (flying[q] && !Holds(formed[retired], q))
    ensures Supplied(work, formed, retired + 1, next, flying')
  {
    forall q | 0 <= q < |work|
      ensures flying'[q] <==> InFlightWith(formed, retired + 1, q)
    {
      if InFlightWith(formed, retired, q) {
        var p :| retired <= p < |formed| && Holds(formed[p], q);
      }
    }
  }

  /** The pass's rows as they are read back when it retires: one for each entry that wants one, in turn. */
  method ReadRows<Row>(range: seq<Row>, entries: Pass) returns (got: seq<Row>)
    requires |entries| <= |range|
    ensures |got| == |set i | 0 <= i < |entries| && entries[i].want| && got <= range
    ensures got == range[..Wants(entries)]
  {
    WantsCount(entries);
    got := [];
    var w := 0;
    for i := 0 to |entries|
      invariant w == Wants(entries[..i]) && got == range[..w]
    {
      assert entries[..i + 1][..i] == entries[..i];
      if entries[i].want {
        got := got + [range[w]];
        w := w + 1;
      }
    }
    assert entries[..|entries|] == entries;
  }

  /** The flags with those of the pass's sequences set to `value`. */
  method Mark(flags: seq<bool>, entries: Pass, value: bool) returns (marked: seq<bool>)
    requires forall i | 0 <= i < |entries| :: entries[i].sequence < |flags|
    ensures |marked| == |flags|
    ensures forall q | 0 <= q < |flags| :: marked[q] == if Holds(entries, q) then value else flags[q]
  {
    marked := flags;
    for i := 0 to |entries|
      invariant |marked| == |flags|
      invariant forall q | 0 <= q < |flags| :: marked[q] == if Holds(entries[..i], q) then value else flags[q]
    {
      marked := marked[entries[i].sequence := value];
      forall q | 0 <= q < |flags|
        ensures Holds(entries[..i + 1], q) <==> Holds(entries[..i], q) || q == entries[i].sequence
      {
        HoldsNext(entries, i, q);
      }
    }
    assert entries[..|entries|] == entries;
  }

  /** The counts with those of the pass's sequences moved on. */
  method Advance(next: seq<nat>, entries: Pass) returns (moved: seq<nat>)
    requires forall i | 0 <= i < |entries| :: entries[i].sequence < |next|
    requires forall i, j | 0 <= i < j < |entries| :: entries[i].sequence != entries[j].sequence
    ensures |moved| == |next|
    ensures forall q | 0 <= q < |next| :: moved[q] == if Holds(entries, q) then next[q] + 1 else next[q]
  {
    moved := next;
    for i := 0 to |entries|
      invariant |moved| == |next|
      invariant forall q | 0 <= q < |next| :: moved[q] == if Holds(entries[..i], q) then next[q] + 1 else next[q]
    {
      assert !Holds(entries[..i], entries[i].sequence);
      moved := moved[entries[i].sequence := moved[entries[i].sequence] + 1];
      forall q | 0 <= q < |next|
        ensures Holds(entries[..i + 1], q) <==> Holds(entries[..i], q) || q == entries[i].sequence
      {
        HoldsNext(entries, i, q);
      }
    }
    assert entries[..|entries|] == entries;
  }

  lemma HoldsNext(entries: Pass, i: nat, q: nat)
    requires i < |entries|
    ensures Holds(entries[..i + 1], q) <==> Holds(entries[..i], q) || q == entries[i].sequence
  {
    if Holds(entries[..i], q) {
      var j :| 0 <= j < i && entries[..i][j].sequence == q;
      assert entries[..i + 1][j].sequence == q;
    }
    assert entries[..i + 1][i] == entries[i];
    if Holds(entries[..i + 1], q) && q != entries[i].sequence {
      var j :| 0 <= j < i + 1 && entries[..i + 1][j].sequence == q;
      assert entries[..i][j].sequence == q;
    }
  }

  /** Whether sequence q may join a new pass. */
  predicate Eligible(work: seq<seq<Planned>>, next: seq<nat>, flying: seq<bool>, q: nat)
    requires |next| == |flying| == |work|
  {
    q < |work| && !flying[q] && next[q] < |work[q]|
  }

  /** A pass of the next entries of distinct sequences not in flight. */
  ghost predicate Formable(work: seq<seq<Planned>>, next: seq<nat>, flying: seq<bool>, pass: Pass)
    requires |next| == |flying| == |work|
  {
    && 0 < |pass| <= PER
    && (forall i | 0 <= i < |pass| ::
          Eligible(work, next, flying, pass[i].sequence) && pass[i] == work[pass[i].sequence][next[pass[i].sequence]])
    && (forall i, j | 0 <= i < j < |pass| :: pass[i].sequence != pass[j].sequence)
  }

  lemma FormedWork(work: seq<seq<Planned>>, formed: seq<Pass>, next: seq<nat>, flying: seq<bool>, pass: Pass, q: nat)
    requires |next| == |flying| == |work| && q < |work|
    requires next[q] <= |work[q]| && Entries(formed, q) == work[q][..next[q]]
    requires Formable(work, next, flying, pass)
    ensures Holds(pass, q) ==> next[q] < |work[q]| && Entries(formed + [pass], q) == work[q][..next[q] + 1]
    ensures !Holds(pass, q) ==> Entries(formed + [pass], q) == work[q][..next[q]]
  {
    assert (formed + [pass])[..|formed|] == formed;
    if Holds(pass, q) {
      var i :| 0 <= i < |pass| && pass[i].sequence == q;
      HeldOnce(pass, i);
      assert Eligible(work, next, flying, pass[i].sequence);
      assert work[q][..next[q] + 1] == work[q][..next[q]] + [work[q][next[q]]];
    } else {
      NotHeld(pass, q);
    }
  }

  lemma FormedFlying(formed: seq<Pass>, retired: nat, pass: Pass, q: nat)
    requires retired <= |formed|
    ensures InFlightWith(formed + [pass], retired, q) <==> InFlightWith(formed, retired, q) || Holds(pass, q)
  {
    var formed' := formed + [pass];
    if InFlightWith(formed', retired, q) {
      var p :| retired <= p < |formed'| && Holds(formed'[p], q);
      assert p < |formed| ==> formed'[p] == formed[p];
    }
    if InFlightWith(formed, retired, q) {
      var p :| retired <= p < |formed| && Holds(formed[p], q);
      assert formed'[p] == formed[p];
    }
    assert formed'[|formed|] == pass;
  }

  lemma FormedSupply(work: seq<seq<Planned>>, formed: seq<Pass>, retired: nat, next: seq<nat>, flying: seq<bool>,
                     pass: Pass,
                     next': seq<nat>, flying': seq<bool>)
    requires Supplied(work, formed, retired, next, flying)
    requires Formable(work, next, flying, pass)
    requires |next'| == |flying'| == |work|
    requires forall q | 0 <= q < |work| :: next'[q] == if Holds(pass, q) then next[q] + 1 else next[q]
    requires forall q | 0 <= q < |work| :: flying'[q] == (flying[q] || Holds(pass, q))
    ensures Supplied(work, formed + [pass], retired, next', flying')
  {
    var formed' := formed + [pass];
    forall q | 0 <= q < |work|
      ensures next'[q] <= |work[q]| && Entries(formed', q) == work[q][..next'[q]]
      ensures flying'[q] <==> InFlightWith(formed', retired, q)
    {
      FormedWork(work, formed, next, flying, pass, q);
      FormedFlying(formed, retired, pass, q);
    }
    forall p | 0 <= p < |formed'|
      ensures WellFormed(formed'[p], |work|)
    {
      if p == |formed| {
        assert forall i | 0 <= i < |pass| :: Eligible(work, next, flying, pass[i].sequence);
      }
    }
    forall p, q | retired <= p < |formed|
      ensures !(Holds(formed[p], q) && Holds(pass, q))
    {
      if Holds(pass, q) {
        var i :| 0 <= i < |pass| && pass[i].sequence == q;
        assert Eligible(work, next, flying, pass[i].sequence);
        assert !InFlightWith(formed, retired, q);
      }
    }
  }

  // ----- a round's snapshot -----

  /** The advances of a round, from stage `s` down to stage 1: each stage with a pass waiting takes the oldest one. */
  ghost function Waiting(slotOf: seq<nat>, done: seq<nat>, s: nat): seq<(nat, nat)>
    requires s < |done| && forall t | 0 < t <= s :: done[t] < done[t - 1] ==> done[t] < |slotOf|
  {
    if s == 0 then []
    else (if done[s] < done[s - 1] then [(slotOf[done[s]], s)] else []) + Waiting(slotOf, done, s - 1)
  }

  /** The first advance is at the last stage with a pass waiting, and the rest are those of the stages before it. */
  lemma {:induction false} WaitingHead(slotOf: seq<nat>, done: seq<nat>, s: nat)
    requires s < |done| && forall t | 0 < t <= s :: done[t] < done[t - 1] ==> done[t] < |slotOf|
    ensures var w := Waiting(slotOf, done, s);
            if w == [] then forall u | 0 < u <= s :: done[u - 1] <= done[u]
            else var t := w[0].1;
              && 0 < t <= s && done[t] < done[t - 1] && w[0].0 == slotOf[done[t]]
              && (forall u | t < u <= s :: done[u - 1] <= done[u])
              && w[1..] == Waiting(slotOf, done, t - 1)
  {
    if s > 0 {
      var rest := Waiting(slotOf, done, s - 1);
      if done[s] < done[s - 1] {
        assert ([(slotOf[done[s]], s)] + rest)[1..] == rest;
      } else {
        WaitingHead(slotOf, done, s - 1);
        assert Waiting(slotOf, done, s) == rest;
        hide Waiting;
      }
    }
  }

  lemma {:induction false} WaitingSame(slotOf: seq<nat>, done: seq<nat>, done': seq<nat>, s: nat)
    requires s < |done| == |done'| && forall t | 0 < t <= s :: done[t] < done[t - 1] ==> done[t] < |slotOf|
    requires forall t | 0 <= t <= s :: done[t] == done'[t]
    ensures Waiting(slotOf, done', s) == Waiting(slotOf, done, s)
  {
    if s > 0 {
      WaitingSame(slotOf, done, done', s - 1);
    }
  }

  /** How many passes each stage has run after a round's advances: one more wherever a pass waited. */
  ghost function Stepped(done: seq<nat>): seq<nat> {
    seq(|done|, s requires 0 <= s < |done| => if 0 < s && done[s] < done[s - 1] then done[s] + 1 else done[s])
  }

  /** The pass stage s runs next, if one waits for it, is in the slot it was formed in. */
  lemma NextAtStage(stages: nat, formed: seq<Pass>, retired: nat, slotOf: seq<nat>, done: seq<nat>, slots: seq<Slot>,
                    s: nat)
    requires Queued(stages, formed, retired, slotOf, done, slots)
    requires 0 < s < stages && done[s] < done[s - 1]
    ensures done[s] < |slotOf| && LiveAt(slots, slotOf[done[s]])
    ensures slots[slotOf[done[s]]].formed == done[s] + 1 && slots[slotOf[done[s]]].ran == s
  {
    assert retired <= done[s] < |formed|;
    var k := slotOf[done[s]];
    assert slots[k].live && slots[k].formed == done[s] + 1;
    assert Placed(stages, done, slots[k]);
    assert s - 1 < slots[k].ran <= s;
  }

  /** Part way through a round's advances: the stages above s have stepped, those from s down have not, and `rest` is
      theirs. */
  ghost predicate Pending(slotOf: seq<nat>, done: seq<nat>, before: seq<nat>, s: nat, rest: seq<(nat, nat)>) {
    && s < |done| == |before|
    && (forall t | 0 < t <= s && done[t] < done[t - 1] :: done[t] < |slotOf|)
    && rest == Waiting(slotOf, done, s)
    && (forall t | 0 <= t <= s :: done[t] == before[t])
    && forall t | s < t < |done| :: done[t] == Stepped(before)[t]
  }

  lemma PendingStart(slotOf: seq<nat>, done: seq<nat>)
    requires 0 < |done| && forall t | 0 < t < |done| && done[t] < done[t - 1] :: done[t] < |slotOf|
    ensures Pending(slotOf, done, done, |done| - 1, Waiting(slotOf, done, |done| - 1))
  {
  }

  lemma PendingRest(slotOf: seq<nat>, done: seq<nat>, before: seq<nat>, s: nat, rest: seq<(nat, nat)>)
    requires Pending(slotOf, done, before, s, rest) && rest != []
    ensures var k, t := rest[0].0, rest[0].1;
            && 0 < t < |done| && done[t] < done[t - 1] && done[t] < |slotOf| && k == slotOf[done[t]]
            && Pending(slotOf, done[t := done[t] + 1], before, t - 1, rest[1..])
  {
    WaitingHead(slotOf, done, s);
    var t := rest[0].1;
    WaitingSame(slotOf, done, done[t := done[t] + 1], t - 1);
    hide Waiting;
    SteppedRest(done, before, s, t);
  }

  /** Once stage t has stepped, the stages from it up have. */
  lemma SteppedRest(done: seq<nat>, before: seq<nat>, s: nat, t: nat)
    requires 0 < t <= s < |done| == |before| && done[t] < done[t - 1]
    requires forall u | t < u <= s :: done[u - 1] <= done[u]
    requires forall u | 0 <= u <= s :: done[u] == before[u]
    requires forall u | s < u < |done| :: done[u] == Stepped(before)[u]
    ensures forall u | t <= u < |done| :: done[t := done[t] + 1][u] == Stepped(before)[u]
  {
    forall u | t <= u < |done|
      ensures done[t := done[t] + 1][u] == Stepped(before)[u]
    {
      if u <= s {
        assert before[u] == done[u] && before[u - 1] == done[u - 1];
      }
    }
  }

  lemma PendingStep(stages: nat, formed: seq<Pass>, retired: nat, slotOf: seq<nat>, done: seq<nat>, slots: seq<Slot>,
                    before: seq<nat>, s: nat, rest: seq<(nat, nat)>)
    requires Queued(stages, formed, retired, slotOf, done, slots) && Pending(slotOf, done, before, s, rest)
             && rest != []
    ensures var k, t := rest[0].0, rest[0].1;
            && 0 < t < stages == |done| && LiveAt(slots, k) && slots[k].ran == t && slots[k].formed - 1 == done[t]
            && Pending(slotOf, done[t := done[t] + 1], before, t - 1, rest[1..])
  {
    assert |done| == stages;
    hide Queued, Pending;
    PendingRest(slotOf, done, before, s, rest);
    NextAtStage(stages, formed, retired, slotOf, done, slots, rest[0].1);
  }

  lemma PendingEnd(slotOf: seq<nat>, done: seq<nat>, before: seq<nat>, s: nat)
    requires Pending(slotOf, done, before, s, [])
    ensures done == Stepped(before)
  {
    WaitingHead(slotOf, done, s);
  }

  /** The live slot whose pass waits for stage s and was formed first, or one past the slots. */
  method Oldest(slots: seq<Slot>, s: nat) returns (pick: nat)
    ensures pick <= |slots|
    ensures pick == |slots| ==> forall k | 0 <= k < |slots| :: !(slots[k].live && slots[k].ran == s)
    ensures pick < |slots| ==> slots[pick].live && slots[pick].ran == s
    ensures pick < |slots| ==> forall k | 0 <= k < |slots| && slots[k].live && slots[k].ran == s ::
            slots[pick].formed <= slots[k].formed
  {
    pick := |slots|;
    for k := 0 to |slots|
      invariant pick == |slots| || pick < k
      invariant pick == |slots| ==> forall j | 0 <= j < k :: !(slots[j].live && slots[j].ran == s)
      invariant pick < |slots| ==> slots[pick].live && slots[pick].ran == s
      invariant pick < |slots| ==> forall j | 0 <= j < k && slots[j].live && slots[j].ran == s ::
                slots[pick].formed <= slots[j].formed
    {
      if slots[k].live && slots[k].ran == s && (pick == |slots| || slots[k].formed < slots[pick].formed) {
        pick := k;
      }
    }
  }

  lemma OldestIsNext(stages: nat, formed: seq<Pass>, retired: nat, slotOf: seq<nat>, done: seq<nat>,
                     slots: seq<Slot>, s: nat, pick: nat)
    requires Queued(stages, formed, retired, slotOf, done, slots) && 0 < s < stages && pick <= |slots|
    requires pick == |slots| ==> forall k | 0 <= k < |slots| :: !(slots[k].live && slots[k].ran == s)
    requires pick < |slots| ==> slots[pick].live && slots[pick].ran == s
    requires pick < |slots| ==> forall k | 0 <= k < |slots| && slots[k].live && slots[k].ran == s ::
             slots[pick].formed <= slots[k].formed
    ensures pick < |slots| <==> done[s] < done[s - 1]
    ensures pick < |slots| ==> done[s] < |slotOf| && pick == slotOf[done[s]]
  {
    if pick < |slots| {
      assert LiveAt(slots, pick);
      assert Placed(stages, done, slots[pick]) && s - 1 < slots[pick].ran;
      assert done[s] < slots[pick].formed <= done[s - 1];
    }
    if done[s] < done[s - 1] {
      NextAtStage(stages, formed, retired, slotOf, done, slots, s);
    }
  }

  /** The advances found so far, with those still to be found from stage s down, are the round's. */
  ghost predicate Found(slotOf: seq<nat>, done: seq<nat>, s: nat, advance: seq<(nat, nat)>) {
    && s < |done| && (forall t | 0 < t < |done| :: done[t] < done[t - 1] ==> done[t] < |slotOf|)
    && advance + Waiting(slotOf, done, s) == Waiting(slotOf, done, |done| - 1)
  }

  lemma FoundNext(slotOf: seq<nat>, done: seq<nat>, s: nat, advance: seq<(nat, nat)>)
    requires Found(slotOf, done, s, advance) && 0 < s
    ensures done[s] < done[s - 1] ==> done[s] < |slotOf|
    ensures Found(slotOf, done, s - 1, if done[s] < done[s - 1] then advance + [(slotOf[done[s]], s)] else advance)
  {
    var rest := Waiting(slotOf, done, s - 1);
    if done[s] < done[s - 1] {
      assert advance + ([(slotOf[done[s]], s)] + rest) == advance + [(slotOf[done[s]], s)] + rest;
    } else {
      assert [] + rest == rest;
    }
  }

  lemma AllFound(slotOf: seq<nat>, done: seq<nat>, advance: seq<(nat, nat)>)
    requires Found(slotOf, done, 0, advance)
    ensures Pending(slotOf, done, done, |done| - 1, advance)
  {
    assert advance + [] == advance;
    PendingStart(slotOf, done);
  }

  /** From the last stage down, each stage's oldest waiting pass. */
  method Advances(stages: nat, slots: seq<Slot>, ghost formed: seq<Pass>, ghost retired: nat, ghost slotOf: seq<nat>,
                  ghost done: seq<nat>)
    returns (advance: seq<(nat, nat)>)
    requires 0 < stages && Queued(stages, formed, retired, slotOf, done, slots)
    ensures Pending(slotOf, done, done, stages - 1, advance)
  {
    advance := [];
    assert |done| == stages && Found(slotOf, done, stages - 1, advance);
    hide Queued, Pending, LiveAt, Found;
    var s := stages - 1;
    while s > 0
      invariant 0 <= s < stages && Found(slotOf, done, s, advance)
    {
      var pick := Oldest(slots, s);
      OldestIsNext(stages, formed, retired, slotOf, done, slots, s, pick);
      FoundNext(slotOf, done, s, advance);
      if pick < |slots| {
        advance := advance + [(pick, s)];
      }
      s := s - 1;
    }
    AllFound(slotOf, done, advance);
  }

  /** Slots in the order their passes were formed. */
  ghost predicate InOrder(slots: seq<Slot>, ks: seq<nat>) {
    && (forall i | 0 <= i < |ks| :: ks[i] < |slots|)
    && forall i, j | 0 <= i < j < |ks| :: slots[ks[i]].formed < slots[ks[j]].formed
  }

  /** A slot put in its place among those already in order, as the sort by formation places it. */
  method Place(slots: seq<Slot>, ks: seq<nat>, k: nat) returns (placed: seq<nat>)
    requires InOrder(slots, ks) && k < |slots|
    requires forall i | 0 <= i < |ks| :: slots[ks[i]].formed != slots[k].formed
    ensures InOrder(slots, placed)
    ensures forall j :: j in placed <==> j in ks || j == k
  {
    var i := |ks|;
    while i > 0 && slots[k].formed < slots[ks[i - 1]].formed
      invariant 0 <= i <= |ks|
      invariant forall j | i <= j < |ks| :: slots[k].formed < slots[ks[j]].formed
    {
      i := i - 1;
    }
    placed := ks[..i] + [k] + ks[i..];
    Inserted(ks, i, k);
    InsertedInOrder(slots, ks, i, k);
  }

  lemma Inserted(ks: seq<nat>, i: nat, k: nat)
    requires i <= |ks|
    ensures forall j :: j in ks[..i] + [k] + ks[i..] <==> j in ks || j == k
  {
    assert ks == ks[..i] + ks[i..];
  }

  lemma InsertedInOrder(slots: seq<Slot>, ks: seq<nat>, i: nat, k: nat)
    requires InOrder(slots, ks) && i <= |ks| && k < |slots|
    requires i > 0 ==> slots[ks[i - 1]].formed < slots[k].formed
    requires i < |ks| ==> slots[k].formed < slots[ks[i]].formed
    ensures InOrder(slots, ks[..i] + [k] + ks[i..])
  {
    var placed := ks[..i] + [k] + ks[i..];
    forall a | 0 <= a < |placed|
      ensures placed[a] < |slots|
      ensures a < i ==> placed[a] == ks[a] && slots[placed[a]].formed < slots[k].formed
      ensures a > i ==> placed[a] == ks[a - 1] && slots[k].formed < slots[placed[a]].formed
    {
      if a < i - 1 {
        assert slots[ks[a]].formed < slots[ks[i - 1]].formed;
      } else if i + 1 < a {
        assert slots[ks[i]].formed < slots[ks[a - 1]].formed;
      }
    }
  }

  /** Increasing numbers that are exactly those from lo to hi - 1 are consecutive. */
  lemma {:induction false} Consecutive(f: seq<nat>, lo: nat, hi: nat)
    requires lo <= hi
    requires forall i, j | 0 <= i < j < |f| :: f[i] < f[j]
    requires forall i | 0 <= i < |f| :: lo <= f[i] < hi
    requires forall v | lo <= v < hi :: v in f
    ensures |f| == hi - lo
    ensures forall i | 0 <= i < |f| :: f[i] == lo + i
    decreases hi - lo
  {
    assert lo < hi ==> lo in f;
    if f != [] {
      assert f[0] == lo;
      forall v | lo + 1 <= v < hi
        ensures v in f[1..]
      {
        assert v in f;
      }
      Consecutive(f[1..], lo + 1, hi);
      assert forall i | 0 < i < |f| :: f[i] == f[1..][i - 1];
    }
  }

  /** Slots in order whose passes are exactly those numbered lo+1 to hi are those passes' slots. */
  lemma OrderIsUnique(slots: seq<Slot>, ks: seq<nat>, slotOf: seq<nat>, lo: nat, hi: nat)
    requires InOrder(slots, ks) && lo <= hi <= |slotOf|
    requires forall i | 0 <= i < |ks| :: lo < slots[ks[i]].formed <= hi && slotOf[slots[ks[i]].formed - 1] == ks[i]
    requires forall p | lo <= p < hi :: slotOf[p] in ks && slotOf[p] < |slots| && slots[slotOf[p]].formed == p + 1
    ensures ks == slotOf[lo..hi]
  {
    var f := seq(|ks|, i requires 0 <= i < |ks| => slots[ks[i]].formed - 1);
    forall v | lo <= v < hi
      ensures v in f
    {
      var i :| 0 <= i < |ks| && ks[i] == slotOf[v];
      assert f[i] == v;
    }
    Consecutive(f, lo, hi);
    forall i | 0 <= i < |ks|
      ensures ks[i] == slotOf[lo..hi][i]
    {
      assert f[i] == lo + i;
    }
  }

  /** The slots whose passes ran their last stage in an earlier round, in formation order. */
  method Retirements(stages: nat, slots: seq<Slot>, ghost formed: seq<Pass>, ghost retired: nat,
                     ghost slotOf: seq<nat>, ghost done: seq<nat>)
    returns (retire: seq<nat>)
    requires 0 < stages && Queued(stages, formed, retired, slotOf, done, slots)
    ensures |done| == stages && retired <= done[stages - 1] <= |slotOf|
    ensures retire == slotOf[retired..done[stages - 1]]
  {
    retire := [];
    for k := 0 to |slots|
      invariant InOrder(slots, retire)
      invariant forall j :: j in retire <==> 0 <= j < k && slots[j].live && slots[j].ran == stages
    {
      if slots[k].live && slots[k].ran == stages {
        forall i | 0 <= i < |retire|
          ensures slots[retire[i]].formed != slots[k].formed
        {
          assert retire[i] in retire;
          assert LiveAt(slots, retire[i]) && LiveAt(slots, k);
        }
        retire := Place(slots, retire, k);
      }
    }
    FinishedSlots(stages, formed, retired, slotOf, done, slots, retire);
  }

  lemma FinishedSlots(stages: nat, formed: seq<Pass>, retired: nat, slotOf: seq<nat>, done: seq<nat>,
                      slots: seq<Slot>, retire: seq<nat>)
    requires 0 < stages && Queued(stages, formed, retired, slotOf, done, slots) && InOrder(slots, retire)
    requires forall j :: j in retire <==> 0 <= j < |slots| && slots[j].live && slots[j].ran == stages
    ensures retire == slotOf[retired..done[stages - 1]]
  {
    forall i | 0 <= i < |retire|
      ensures retired < slots[retire[i]].formed <= done[stages - 1] && slotOf[slots[retire[i]].formed - 1] == retire[i]
    {
      assert retire[i] in retire;
      assert LiveAt(slots, retire[i]) && Placed(stages, done, slots[retire[i]]);
    }
    forall p | retired <= p < done[stages - 1]
      ensures slotOf[p] in retire && slotOf[p] < |slots| && slots[slotOf[p]].formed == p + 1
    {
      assert Placed(stages, done, slots[slotOf[p]]);
    }
    OrderIsUnique(slots, retire, slotOf, retired, done[stages - 1]);
  }

  // ----- choosing a pass -----

  /** The j-th sequence in turn from q0. */
  function Turn(q0: nat, j: nat, K: nat): nat
    requires 0 < K
  {
    (q0 + j) % K
  }

  /** The turns go up from q0 and around. */
  lemma TurnIs(q0: nat, j: nat, K: nat)
    requires q0 < K && j < K
    ensures Turn(q0, j, K) == if q0 + j < K then q0 + j else q0 + j - K
  {
    ModOnce(q0 + j, K);
  }

  predicate AmongTurns(q0: nat, i: nat, K: nat, q: nat)
    requires 0 < K
  {
    exists j: nat :: j < i && q == Turn(q0, j, K)
  }

  /** The next entries of every eligible sequence among the first `i` in turn from sequence q0. */
  function Chosen(work: seq<seq<Planned>>, next: seq<nat>, flying: seq<bool>, q0: nat, i: nat): (pass: Pass)
    requires |next| == |flying| == |work| && (i > 0 ==> 0 < |work|)
  {
    if i == 0 then [] else
      var q := Turn(q0, i - 1, |work|);
      Chosen(work, next, flying, q0, i - 1) + (if Eligible(work, next, flying, q) then [work[q][next[q]]] else [])
  }

  lemma TurnsDiffer(q0: nat, a: nat, b: nat, K: nat)
    requires q0 < K && a < b < K
    ensures Turn(q0, a, K) != Turn(q0, b, K)
  {
    assert (q0 + a) % K == if q0 + a < K then q0 + a else q0 + a - K by { ModOnce(q0 + a, K); }
    assert (q0 + b) % K == if q0 + b < K then q0 + b else q0 + b - K by { ModOnce(q0 + b, K); }
  }

  lemma ModOnce(x: nat, K: nat)
    requires 0 < K && x < 2 * K
    ensures x % K == if x < K then x else x - K
  {
  }

  /** The entries are the next ones of eligible sequences among the first `i` in turn. */
  ghost predicate NextOnes(work: seq<seq<Planned>>, next: seq<nat>, flying: seq<bool>, q0: nat, i: nat, pass: Pass)
    requires |next| == |flying| == |work| && 0 < |work|
  {
    forall a | 0 <= a < |pass| ::
      var entry := pass[a];
      && AmongTurns(q0, i, |work|, entry.sequence)
      && Eligible(work, next, flying, entry.sequence) && entry == work[entry.sequence][next[entry.sequence]]
  }

  ghost predicate NoneTwice(pass: Pass) {
    forall a, b | 0 <= a < b < |pass| :: pass[a].sequence != pass[b].sequence
  }

  ghost predicate MissesNone(work: seq<seq<Planned>>, next: seq<nat>, flying: seq<bool>, q0: nat, i: nat, pass: Pass)
    requires |next| == |flying| == |work| && 0 < |work|
  {
    forall j: nat | j < i && Eligible(work, next, flying, Turn(q0, j, |work|)) :: Holds(pass, Turn(q0, j, |work|))
  }

  /** A sequence's turn comes once in a round of turns. */
  lemma NotYet(work: seq<seq<Planned>>, next: seq<nat>, flying: seq<bool>, q0: nat, i: nat, pass: Pass)
    requires |next| == |flying| == |work| && q0 < |work| && i < |work| && NextOnes(work, next, flying, q0, i, pass)
    ensures forall a | 0 <= a < |pass| :: pass[a].sequence != Turn(q0, i, |work|)
  {
    hide Turn;
    forall a | 0 <= a < |pass|
      ensures pass[a].sequence != Turn(q0, i, |work|)
    {
      assert AmongTurns(q0, i, |work|, pass[a].sequence);
      var j: nat :| j < i && pass[a].sequence == Turn(q0, j, |work|);
      TurnsDiffer(q0, j, i, |work|);
    }
  }

  lemma HoldsMore(pass: Pass, entry: Planned, q: nat)
    ensures Holds(pass, q) ==> Holds(pass + [entry], q)
    ensures Holds(pass + [entry], entry.sequence)
  {
    if Holds(pass, q) {
      var a :| 0 <= a < |pass| && pass[a].sequence == q;
      assert (pass + [entry])[a] == pass[a];
    }
    assert (pass + [entry])[|pass|] == entry;
  }

  lemma AmongMore(q0: nat, i: nat, K: nat, q: nat)
    requires 0 < K
    ensures AmongTurns(q0, i, K, q) ==> AmongTurns(q0, i + 1, K, q)
    ensures AmongTurns(q0, i + 1, K, Turn(q0, i, K))
  {
  }

  lemma NextChosen(work: seq<seq<Planned>>, next: seq<nat>, flying: seq<bool>, q0: nat, i: nat, pass: Pass)
    requires |next| == |flying| == |work| && q0 < |work| && i < |work|
    requires forall q | 0 <= q < |work| :: forall e | 0 <= e < |work[q]| :: work[q][e].sequence == q
    requires NextOnes(work, next, flying, q0, i, pass) && NoneTwice(pass) && MissesNone(work, next, flying, q0, i, pass)
    ensures var q := Turn(q0, i, |work|);
            var more := if Eligible(work, next, flying, q) then pass + [work[q][next[q]]] else pass;
            && NextOnes(work, next, flying, q0, i + 1, more) && NoneTwice(more)
            && MissesNone(work, next, flying, q0, i + 1, more)
  {
    hide Turn, AmongTurns, Holds;
    NotYet(work, next, flying, q0, i, pass);
    var q := Turn(q0, i, |work|);
    var more := if Eligible(work, next, flying, q) then pass + [work[q][next[q]]] else pass;
    forall p
      ensures AmongTurns(q0, i, |work|, p) ==> AmongTurns(q0, i + 1, |work|, p)
      ensures Holds(pass, p) ==> Holds(more, p)
      ensures Eligible(work, next, flying, q) ==> Holds(more, q)
    {
      AmongMore(q0, i, |work|, p);
      if Eligible(work, next, flying, q) {
        HoldsMore(pass, work[q][next[q]], p);
      }
    }
    AmongMore(q0, i, |work|, q);
  }

  /** The entries chosen are the eligible sequences' next ones, each once, and miss none. */
  lemma {:induction false} ChosenEntries(work: seq<seq<Planned>>, next: seq<nat>, flying: seq<bool>, q0: nat, i: nat)
    requires |next| == |flying| == |work| && q0 < |work| && i <= |work|
    requires forall q | 0 <= q < |work| :: forall e | 0 <= e < |work[q]| :: work[q][e].sequence == q
    ensures var pass := Chosen(work, next, flying, q0, i);
            NextOnes(work, next, flying, q0, i, pass) && NoneTwice(pass) && MissesNone(work, next, flying, q0, i, pass)
  {
    hide Chosen, Turn, NextOnes, NoneTwice, MissesNone, Eligible;
    if i > 0 {
      ChosenEntries(work, next, flying, q0, i - 1);
      ChosenStep(work, next, flying, q0, i);
      NextChosen(work, next, flying, q0, i - 1, Chosen(work, next, flying, q0, i - 1));
    } else {
      NoneChosen(work, next, flying, q0);
    }
  }

  lemma NoneChosen(work: seq<seq<Planned>>, next: seq<nat>, flying: seq<bool>, q0: nat)
    requires |next| == |flying| == |work| && 0 < |work|
    ensures var pass := Chosen(work, next, flying, q0, 0);
            NextOnes(work, next, flying, q0, 0, pass) && NoneTwice(pass) && MissesNone(work, next, flying, q0, 0, pass)
  {
    hide Turn;
  }

  lemma ChosenStep(work: seq<seq<Planned>>, next: seq<nat>, flying: seq<bool>, q0: nat, i: nat)
    requires |next| == |flying| == |work| && 0 < i <= |work|
    ensures var q, before := Turn(q0, i - 1, |work|), Chosen(work, next, flying, q0, i - 1);
            Chosen(work, next, flying, q0, i) == if Eligible(work, next, flying, q) then before + [work[q][next[q]]]
                else before
  {
    hide Turn;
  }

  lemma {:induction false} ChosenGrows(work: seq<seq<Planned>>, next: seq<nat>, flying: seq<bool>, q0: nat, i: nat,
                                       j: nat)
    requires |next| == |flying| == |work| && 0 < |work| && i <= j
    ensures Chosen(work, next, flying, q0, i) <= Chosen(work, next, flying, q0, j)
    decreases j - i
  {
    if i < j {
      ChosenGrows(work, next, flying, q0, i, j - 1);
    }
  }

  /** The first PER of them. */
  function FirstFour(pass: Pass): Pass {
    if |pass| <= PER then pass else pass[..PER]
  }

  /** Sequence `q` is not in flight and has work left. */
  ghost predicate Free(work: seq<seq<Planned>>, next: seq<nat>, flying: seq<bool>, q: nat)
    requires |next| == |flying| == |work|
  {
    q < |work| && !flying[q] && next[q] < |work[q]|
  }

  /** The pass takes, in turn from sequence q0 on, the next entries of free sequences, `offsets` on from q0: it skips
      none, and stops at four or where there are no more. */
  ghost predicate TakesInTurn(work: seq<seq<Planned>>, next: seq<nat>, flying: seq<bool>, q0: nat, pass: Pass,
                              offsets: seq<nat>)
    requires |next| == |flying| == |work| && q0 < |work|
  {
    && |offsets| == |pass| <= 4
    && (forall a, b | 0 <= a < b < |offsets| :: offsets[a] < offsets[b])
    && (forall a | 0 <= a < |pass| ::
          var q := Turn(q0, offsets[a], |work|);
          offsets[a] < |work| && Free(work, next, flying, q) && pass[a] == work[q][next[q]])
    && forall j: nat | j < |work| && Free(work, next, flying, Turn(q0, j, |work|)) ::
         j in offsets || (|pass| == 4 && offsets[3] < j)
  }

  ghost predicate InTurn(work: seq<seq<Planned>>, next: seq<nat>, flying: seq<bool>, q0: nat, pass: Pass)
    requires |next| == |flying| == |work| && q0 < |work|
  {
    exists offsets :: TakesInTurn(work, next, flying, q0, pass, offsets)
  }

  /** The offsets below `n` of the free sequences. */
  ghost function Offsets(work: seq<seq<Planned>>, next: seq<nat>, flying: seq<bool>, q0: nat, n: nat): seq<nat>
    requires |next| == |flying| == |work| && q0 < |work|
  {
    if n == 0 then [] else
      Offsets(work, next, flying, q0, n - 1) + (if Free(work, next, flying, Turn(q0, n - 1, |work|)) then [n - 1]
          else [])
  }

  lemma {:induction false} OffsetsAre(work: seq<seq<Planned>>, next: seq<nat>, flying: seq<bool>, q0: nat, n: nat)
    requires |next| == |flying| == |work| && q0 < |work|
    ensures var ds := Offsets(work, next, flying, q0, n);
            && (forall j: nat :: j in ds <==> j < n && Free(work, next, flying, Turn(q0, j, |work|)))
            && (forall a, b | 0 <= a < b < |ds| :: ds[a] < ds[b])
            && |ds| == |Chosen(work, next, flying, q0, n)|
            && forall a | 0 <= a < |ds| ::
                 var q := Turn(q0, ds[a], |work|);
                 Free(work, next, flying, q) && Chosen(work, next, flying, q0, n)[a] == work[q][next[q]]
  {
    hide Turn;
    if n > 0 {
      OffsetsAre(work, next, flying, q0, n - 1);
      var ds := Offsets(work, next, flying, q0, n - 1);
      forall a | 0 <= a < |ds|
        ensures ds[a] < n - 1
      {
        assert ds[a] in ds;
      }
    }
  }

  lemma InFirst(ds: seq<nat>, n: nat, j: nat)
    requires (forall a, b | 0 <= a < b < |ds| :: ds[a] < ds[b]) && n <= |ds| && j in ds
    ensures j in ds[..n] || (n < |ds| && (n > 0 ==> ds[n - 1] < j))
  {
    var a: nat :| a < |ds| && ds[a] == j;
    if a < n {
      assert ds[..n][a] == j;
    }
  }

  /** The first four chosen are taken in turn. */
  lemma ChosenInTurn(work: seq<seq<Planned>>, next: seq<nat>, flying: seq<bool>, q0: nat)
    requires |next| == |flying| == |work| && q0 < |work|
    ensures InTurn(work, next, flying, q0, FirstFour(Chosen(work, next, flying, q0, |work|)))
  {
    OffsetsAre(work, next, flying, q0, |work|);
    var ds, all := Offsets(work, next, flying, q0, |work|), Chosen(work, next, flying, q0, |work|);
    assert |FirstFour(all)| == if |all| <= 4 then |all| else 4;
    hide Offsets, Chosen, Free, Turn;
    FirstOffsets(work, next, flying, q0, all, ds);
  }

  lemma FirstOffsets(work: seq<seq<Planned>>, next: seq<nat>, flying: seq<bool>, q0: nat, all: Pass, ds: seq<nat>)
    requires |next| == |flying| == |work| && q0 < |work| && |ds| == |all|
    requires forall j: nat :: j in ds <==> j < |work| && Free(work, next, flying, Turn(q0, j, |work|))
    requires forall a, b | 0 <= a < b < |ds| :: ds[a] < ds[b]
    requires forall a | 0 <= a < |ds| ::
               var q := Turn(q0, ds[a], |work|);
               Free(work, next, flying, q) && all[a] == work[q][next[q]]
    ensures InTurn(work, next, flying, q0, FirstFour(all))
  {
    var pass := FirstFour(all);
    var offsets := ds[..|pass|];
    hide Free, Turn;
    forall a | 0 <= a < |pass|
      ensures offsets[a] < |work|
    {
      assert offsets[a] in ds;
    }
    forall j: nat | j in ds
      ensures j in offsets || (|pass| == 4 && offsets[3] < j)
    {
      InFirst(ds, |pass|, j);
    }
    assert TakesInTurn(work, next, flying, q0, pass, offsets);
  }

  /** A new pass: up to four sequences not in flight, in turn from q0, their next work. */
  method Choose(work: seq<seq<Planned>>, next: seq<nat>, flying: seq<bool>, q0: nat) returns (entries: Pass)
    requires |next| == |flying| == |work| && q0 < |work|
    ensures entries == FirstFour(Chosen(work, next, flying, q0, |work|))
  {
    entries := [];
    var i := 0;
    while i < |work| && |entries| < PER
      invariant 0 <= i <= |work| && |entries| <= PER
      invariant entries == Chosen(work, next, flying, q0, i)
    {
      var q := Turn(q0, i, |work|);
      if !flying[q] && next[q] < |work[q]| {
        entries := entries + [work[q][next[q]]];
      }
      i := i + 1;
    }
    ChosenGrows(work, next, flying, q0, i, |work|);
  }

  /** What Choose gives is a pass that may be formed, or nothing when no sequence is eligible; one of fewer than four
      entries leaves no eligible sequence out. */
  lemma FormableChoice(work: seq<seq<Planned>>, next: seq<nat>, flying: seq<bool>, q0: nat)
    requires |next| == |flying| == |work| && q0 < |work|
    requires forall q | 0 <= q < |work| :: forall e | 0 <= e < |work[q]| :: work[q][e].sequence == q
    ensures var pass := FirstFour(Chosen(work, next, flying, q0, |work|));
            && (pass != [] ==> Formable(work, next, flying, pass))
            && (|pass| < PER ==> forall q | 0 <= q < |work| && Eligible(work, next, flying, q) :: Holds(pass, q))
  {
    ChosenEntries(work, next, flying, q0, |work|);
    var all := Chosen(work, next, flying, q0, |work|);
    forall q | 0 <= q < |work| && Eligible(work, next, flying, q)
      ensures Holds(all, q)
    {
      var j := if q0 <= q then q - q0 else q + |work| - q0;
      ModOnce(q0 + j, |work|);
      assert Turn(q0, j, |work|) == q;
    }
  }

  /** The entries of a new pass with the flags and counts once it is formed. */
  method Prepare(work: seq<seq<Planned>>, next: seq<nat>, flying: seq<bool>, q0: nat)
    returns (entries: Pass, flying': seq<bool>, next': seq<nat>)
    requires |next| == |flying| == |work| && q0 < |work|
    requires forall q | 0 <= q < |work| :: forall e | 0 <= e < |work[q]| :: work[q][e].sequence == q
    ensures entries == FirstFour(Chosen(work, next, flying, q0, |work|)) && InTurn(work, next, flying, q0, entries)
    ensures entries == [] ==> forall q | 0 <= q < |work| :: !Eligible(work, next, flying, q)
    ensures entries != [] ==> Formable(work, next, flying, entries) && Sum(next) < Sum(next')
    ensures |next'| == |flying'| == |work|
    ensures forall q | 0 <= q < |work| :: next'[q] == if Holds(entries, q) then next[q] + 1 else next[q]
    ensures forall q | 0 <= q < |work| :: flying'[q] == (flying[q] || Holds(entries, q))
  {
    entries := Choose(work, next, flying, q0);
    ChosenInTurn(work, next, flying, q0);
    hide InTurn;
    FormableChoice(work, next, flying, q0);
    assert forall i | 0 <= i < |entries| :: Eligible(work, next, flying, entries[i].sequence);
    flying' := Mark(flying, entries, true);
    next' := Advance(next, entries);
    if entries != [] {
      assert Holds(entries, entries[0].sequence);
      SumLess(next, next', entries[0].sequence);
    }
  }

  // ----- sums, which measure what is left to do -----

  function Sum(s: seq<nat>): nat {
    if s == [] then 0 else s[0] + Sum(s[1..])
  }

  lemma {:induction false} SumLess(s: seq<nat>, t: seq<nat>, i: nat)
    requires |s| == |t| && i < |s| && s[i] < t[i]
    requires forall j | 0 <= j < |s| :: s[j] <= t[j]
    ensures Sum(s) < Sum(t)
  {
    if i > 0 {
      SumLess(s[1..], t[1..], i - 1);
    } else {
      SumMost(s[1..], t[1..]);
    }
  }

  lemma {:induction false} SumMost(s: seq<nat>, t: seq<nat>)
    requires |s| == |t| && forall j | 0 <= j < |s| :: s[j] <= t[j]
    ensures Sum(s) <= Sum(t)
  {
    if s != [] {
      SumMost(s[1..], t[1..]);
    }
  }

  lemma {:induction false} SumBound(s: seq<nat>, most: nat)
    requires forall j | 0 <= j < |s| :: s[j] <= most
    ensures Sum(s) <= |s| * most
  {
    if s != [] {
      SumBound(s[1..], most);
      assert |s| * most == most + (|s| - 1) * most;
    }
  }

  // ----- progress -----

  /** Work is left: a pass is in flight, or a sequence has entries to form. */
  predicate Unfinished(work: seq<seq<Planned>>, slots: seq<Slot>, next: seq<nat>)
    requires |next| == |work|
  {
    || (exists k :: 0 <= k < |slots| && slots[k].live)
    || (exists q :: 0 <= q < |work| && next[q] < |work[q]|)
  }

  method More(work: seq<seq<Planned>>, slots: seq<Slot>, next: seq<nat>) returns (more: bool)
    requires |next| == |work|
    ensures more == Unfinished(work, slots, next)
  {
    more := false;
    for k := 0 to |slots|
      invariant more == exists j :: 0 <= j < k && slots[j].live
    {
      more := more || slots[k].live;
    }
    var live := more;
    for q := 0 to |work|
      invariant more == (live || exists j :: 0 <= j < q && next[j] < |work[j]|)
    {
      more := more || next[q] < |work[q]|;
    }
  }

  lemma SteppedGrows(done: seq<nat>)
    ensures Sum(done) <= Sum(Stepped(done))
    ensures Stepped(done) != done ==> Sum(done) < Sum(Stepped(done))
  {
    SumMost(done, Stepped(done));
    if Stepped(done) != done {
      var i :| 0 <= i < |done| && Stepped(done)[i] != done[i];
      SumLess(done, Stepped(done), i);
    }
  }

  /** Where no stage steps, every stage has run every pass. */
  lemma {:induction false} NoStep(done: seq<nat>, s: nat)
    requires s < |done| && Stepped(done) == done
    ensures done[0] <= done[s]
  {
    if s > 0 {
      NoStep(done, s - 1);
      assert Stepped(done)[s] == done[s];
    }
  }

  /** No pass in flight: no live slot and no sequence flying. */
  lemma NoneInFlight(stages: nat, work: seq<seq<Planned>>, formed: seq<Pass>, slotOf: seq<nat>, done: seq<nat>,
                     slots: seq<Slot>,
                     next: seq<nat>, flying: seq<bool>)
    requires Queued(stages, formed, |formed|, slotOf, done, slots) && Supplied(work, formed, |formed|, next, flying)
    ensures forall k | 0 <= k < |slots| :: !slots[k].live
    ensures |next| == |flying| == |work| && forall q | 0 <= q < |work| :: !flying[q]
  {
    forall q | 0 <= q < |work|
      ensures !flying[q]
    {
      assert !InFlightWith(formed, |formed|, q);
    }
  }

  lemma SomeEligible(work: seq<seq<Planned>>, slots: seq<Slot>, next: seq<nat>, flying: seq<bool>)
    requires |next| == |flying| == |work| && Unfinished(work, slots, next)
    requires forall k | 0 <= k < |slots| :: !slots[k].live
    requires forall q | 0 <= q < |work| :: !flying[q]
    ensures exists q :: 0 <= q < |work| && Eligible(work, next, flying, q)
  {
    var q :| 0 <= q < |work| && next[q] < |work[q]|;
    assert Eligible(work, next, flying, q);
  }

  lemma StillLive(stages: nat, formed: seq<Pass>, retired: nat, slotOf: seq<nat>, done: seq<nat>, slots: seq<Slot>)
    requires Queued(stages, formed, retired, slotOf, done, slots) && retired < |formed|
    ensures exists k :: 0 <= k < |slots| && slots[k].live
  {
    assert slots[slotOf[retired]].live;
  }

  /** A round that forms nothing while work is left advances or retires some pass. */
  lemma RoundProgress(stages: nat, work: seq<seq<Planned>>, formed: seq<Pass>, retired: nat, slotOf: seq<nat>,
                      done: seq<nat>, slots: seq<Slot>,
                      next: seq<nat>, flying: seq<bool>, retired': nat, done': seq<nat>, slots': seq<Slot>,
                      flying': seq<bool>, slotOf': seq<nat>)
    requires 0 < stages && 0 < |slots'|
    requires Queued(stages, formed, retired, slotOf, done, slots) && Supplied(work, formed, retired, next, flying)
             && done[0] == |formed|
    requires Queued(stages, formed, retired', slotOf', done', slots') && Supplied(work, formed, retired', next, flying')
    requires retired' == done[stages - 1] && done' == Stepped(done)[0 := |formed|]
    requires (forall k | 0 <= k < |slots'| :: slots'[k].live) || forall q | 0 <= q < |work| ::
             !Eligible(work, next, flying', q)
    requires Unfinished(work, slots, next)
    ensures retired + Sum(done) < retired' + Sum(done')
  {
    assert done' == Stepped(done);
    SteppedGrows(done);
    if Stepped(done) == done && retired' == retired {
      NoStep(done, stages - 1);
      assert retired == |formed|;
      NoneInFlight(stages, work, formed, slotOf, done, slots, next, flying);
      NoneInFlight(stages, work, formed, slotOf', done', slots', next, flying');
      assert !slots'[0].live;
      SomeEligible(work, slots, next, flying');
      assert false;
    }
  }

  /** At the end every pass has retired and every sequence's work was formed, each entry once and in order. */
  lemma AllDone(stages: nat, work: seq<seq<Planned>>, formed: seq<Pass>, retired: nat, slotOf: seq<nat>,
                done: seq<nat>, slots: seq<Slot>,
                next: seq<nat>, flying: seq<bool>)
    requires Queued(stages, formed, retired, slotOf, done, slots) && Supplied(work, formed, retired, next, flying)
    requires !Unfinished(work, slots, next)
    ensures retired == |formed|
    ensures forall q | 0 <= q < |work| :: Entries(formed, q) == work[q]
  {
    if retired < |formed| {
      StillLive(stages, formed, retired, slotOf, done, slots);
      assert false;
    }
    forall q | 0 <= q < |work|
      ensures Entries(formed, q) == work[q]
    {
      assert work[q][..|work[q]|] == work[q];
    }
  }

  function Lengths(work: seq<seq<Planned>>): seq<nat> {
    seq(|work|, q requires 0 <= q < |work| => |work[q]|)
  }

  /** The two measures of a run stay above zero: the entries to form, and the stages and retirements to come. */
  lemma Measures(stages: nat, work: seq<seq<Planned>>, formed: seq<Pass>, retired: nat, slotOf: seq<nat>,
                 done: seq<nat>, slots: seq<Slot>,
                 next: seq<nat>, flying: seq<bool>)
    requires Queued(stages, formed, retired, slotOf, done, slots) && Supplied(work, formed, retired, next, flying)
    ensures Sum(next) <= Sum(Lengths(work))
    ensures retired + Sum(done) <= Times(stages + 1, |formed|)
    ensures !(exists q :: 0 <= q < |work| && next[q] < |work[q]|) ==> Sum(next) == Sum(Lengths(work))
  {
    SumMost(next, Lengths(work));
    SumBound(done, |formed|);
    assert (stages + 1) * |formed| == stages * |formed| + |formed|;
    if !(exists q :: 0 <= q < |work| && next[q] < |work[q]|) {
      assert next == Lengths(work);
    }
  }

  /** What is left of a run: the entries to form, each worth more than a pass's stages and its retirement, and those
      of the passes in flight. */
  function Left(stages: nat, work: seq<seq<Planned>>, formed: nat, retired: nat, done: seq<nat>, next: seq<nat>): int {
    Times(Sum(Lengths(work)) - Sum(next), stages + 2) + Times(stages + 1, formed) - retired - Sum(done)
  }

  function Times(a: int, b: int): int { a * b }

  lemma TimesLaws(s: nat, before: int, after: int, formed: nat, f: nat)
    ensures after >= 0 ==> Times(after, s + 2) >= 0
    ensures f <= before - after ==> Times(before, s + 2) - Times(after, s + 2) >= s * f + 2 * f
    ensures Times(s + 1, formed + f) == Times(s + 1, formed) + s * f + f
  {
    if f <= before - after {
      assert (before - after - f) * (s + 2) >= 0;
      assert f * (s + 2) == s * f + 2 * f;
      assert (before - after - f) * (s + 2) == before * (s + 2) - after * (s + 2) - f * (s + 2);
    }
  }

  /** A round that forms passes leaves less: each takes an entry at least, and has its first stage run. */
  lemma FormingShrinks(stages: nat, work: seq<seq<Planned>>, formed: nat, retired: nat, done: seq<nat>, next: seq<nat>,
                       formed': nat, retired': nat, done': seq<nat>, next': seq<nat>)
    requires formed < formed' && Sum(next') - Sum(next) >= formed' - formed
    requires retired <= retired' && Sum(done') - Sum(done) >= formed' - formed
    ensures Left(stages, work, formed', retired', done', next') < Left(stages, work, formed, retired, done, next)
  {
    hide Sum, Times;
    var total := Sum(Lengths(work));
    TimesLaws(stages, total - Sum(next), total - Sum(next'), formed, formed' - formed);
  }

  lemma LeftAtLeastZero(stages: nat, work: seq<seq<Planned>>, formed: nat, retired: nat, done: seq<nat>, next: seq<nat>)
    requires Sum(next) <= Sum(Lengths(work)) && retired + Sum(done) <= Times(stages + 1, formed)
    ensures 0 <= Left(stages, work, formed, retired, done, next)
  {
    hide Sum, Times;
    TimesLaws(stages, 0, Sum(Lengths(work)) - Sum(next), formed, 0);
  }

  lemma LeftStill(stages: nat, work: seq<seq<Planned>>, formed: nat, retired: nat, done: seq<nat>, next: seq<nat>,
                  retired': nat, done': seq<nat>)
    ensures Left(stages, work, formed, retired', done', next) - Left(stages, work, formed, retired, done, next)
         == retired + Sum(done) - retired' - Sum(done')
  {
    hide Sum, Times;
  }

  lemma {:induction false} SumAt(done: seq<nat>, i: nat, v: nat)
    requires i < |done|
    ensures Sum(done[i := v]) == Sum(done) - done[i] + v
  {
    if i > 0 {
      SumAt(done[1..], i - 1, v);
      assert done[i := v][1..] == done[1..][i - 1 := v];
    } else {
      assert done[i := v][1..] == done[1..];
    }
  }

  /** Every round but the last leaves less to do, whether it forms passes or not; with nothing left it changes
      nothing. */
  lemma RoundMeasures(stages: nat, work: seq<seq<Planned>>,
                      formed: seq<Pass>, retired: nat, slotOf: seq<nat>, done: seq<nat>, slots: seq<Slot>,
                      next: seq<nat>, flying: seq<bool>,
                      formed': seq<Pass>, retired': nat, slotOf': seq<nat>, done': seq<nat>, slots': seq<Slot>,
                      next': seq<nat>, flying': seq<bool>)
    requires 0 < stages == |done| && 0 < |slots'|
    requires Queued(stages, formed, retired, slotOf, done, slots) && Supplied(work, formed, retired, next, flying)
    requires done[0] == |formed|
    requires Queued(stages, formed', retired', slotOf', done', slots')
             && Supplied(work, formed', retired', next', flying')
    requires retired' == done[stages - 1] && done' == Stepped(done)[0 := |formed'|]
    requires formed <= formed' && Sum(next') - Sum(next) >= |formed'| - |formed|
    requires formed' == formed ==> next' == next
    requires (forall k | 0 <= k < |slots'| :: slots'[k].live) || forall q | 0 <= q < |work| ::
             !Eligible(work, next', flying', q)
    ensures 0 <= Left(stages, work, |formed'|, retired', done', next')
    ensures var left, left' := Left(stages, work, |formed|, retired, done, next),
            Left(stages, work, |formed'|, retired', done', next');
            if Unfinished(work, slots, next) then left' < left else left' <= left && !Unfinished(work, slots', next')
  {
    Measures(stages, work, formed', retired', slotOf', done', slots', next', flying');
    SteppedGrows(done);
    SumAt(Stepped(done), 0, |formed'|);
    assert Stepped(done)[0] == |formed|;
    LeftAtLeastZero(stages, work, |formed'|, retired', done', next');
    LeftStill(stages, work, |formed|, retired, done, next, retired', done');
    hide Left, Sum, Times;
    if formed' == formed {
      StillRound(stages, work, formed, retired, slotOf, done, slots, next, flying, retired', done', slots', flying',
          slotOf');
    } else {
      assert |formed| < |formed'|;
      FormingShrinks(stages, work, |formed|, retired, done, next, |formed'|, retired', done', next');
      if !Unfinished(work, slots, next) {
        Measures(stages, work, formed, retired, slotOf, done, slots, next, flying);
        assert false;
      }
    }
  }

  /** A round that forms nothing: something advances or retires, or nothing was left before or after. */
  lemma StillRound(stages: nat, work: seq<seq<Planned>>,
                   formed: seq<Pass>, retired: nat, slotOf: seq<nat>, done: seq<nat>, slots: seq<Slot>,
                   next: seq<nat>, flying: seq<bool>,
                   retired': nat, done': seq<nat>, slots': seq<Slot>, flying': seq<bool>, slotOf': seq<nat>)
    requires 0 < stages && 0 < |slots'|
    requires Queued(stages, formed, retired, slotOf, done, slots) && Supplied(work, formed, retired, next, flying)
             && 0 < |done| && done[0] == |formed|
    requires Queued(stages, formed, retired', slotOf', done', slots') && Supplied(work, formed, retired', next, flying')
    requires stages - 1 < |done| && retired' == done[stages - 1] && done' == Stepped(done)[0 := |formed|]
    requires (forall k | 0 <= k < |slots'| :: slots'[k].live) || forall q | 0 <= q < |work| ::
             !Eligible(work, next, flying', q)
    ensures retired + Sum(done) <= retired' + Sum(done')
    ensures Unfinished(work, slots, next) ==> retired + Sum(done) < retired' + Sum(done')
    ensures !Unfinished(work, slots, next) ==> !Unfinished(work, slots', next)
  {
    if Unfinished(work, slots, next) {
      RoundProgress(stages, work, formed, retired, slotOf, done, slots, next, flying, retired', done', slots',
          flying', slotOf');
    } else {
      AllDone(stages, work, formed, retired, slotOf, done, slots, next, flying);
      assert done' == Stepped(done);
      SteppedGrows(done);
      assert retired' == |formed|;
      NoneInFlight(stages, work, formed, slotOf', done', slots', next, flying');
    }
  }

  lemma CollectedSerial<St, A, Row>(m: Split<St, A, Row>, formed: seq<Pass>, rows: seq<seq<Row>>)
    requires Collected(m, formed, |formed|, rows)
    ensures |rows| == |formed| && forall p | 0 <= p < |formed| :: rows[p] == SerialRows(m, formed, p)
    ensures forall p | 0 <= p < |formed| :: HeadRows(m, formed, p, rows[p])
  {
    forall p | 0 <= p < |formed|
      ensures rows[p] == SerialRows(m, formed, p) && HeadRows(m, formed, p, rows[p])
    {
      FoldIsSerial(m, formed, p);
      PassRowsAre(m, formed, p);
    }
  }
}
