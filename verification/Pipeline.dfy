/** The reference meaning of a split model: what its stages compute, independent of any schedule.
    A stage is an arbitrary function of its own state (every sequence's history on that device), the activation
    handed to it and the pass's entries, so every theorem here holds for every model. */
module Pipeline {

  /** One entry of a pass: a sequence, where in the text its tokens start, how many, whether it wants the logits
      after its last token, and its extent. */
  datatype Planned = Planned(sequence: nat, at: nat, n: nat, want: bool, extent: nat)

  type Pass = seq<Planned>

  /** A model cut into `stages` stages. */
  datatype Split<!St, !A, !Row> = Split(
    stages: nat,
    initial: nat -> St,
    embed: Pass -> A,
    step: (nat, St, A, Pass) -> (St, A),
    head: (A, Pass, nat) -> Row)

  /** The entries of a pass that want a logits row. */
  function Wants(pass: Pass): (n: nat)
    ensures n <= |pass|
  {
    if pass == [] then 0 else Wants(pass[..|pass| - 1]) + (if pass[|pass| - 1].want then 1 else 0)
  }

  /** That is the size of the set of their places. */
  lemma {:induction false} WantsCount(pass: Pass)
    ensures Wants(pass) == |set i | 0 <= i < |pass| && pass[i].want|
  {
    if pass != [] {
      var n := |pass| - 1;
      var front := pass[..n];
      WantsCount(front);
      var before, all := set i | 0 <= i < n && front[i].want, set i | 0 <= i < |pass| && pass[i].want;
      assert all == if pass[n].want then before + {n} else before;
    }
  }

  /** Whether a pass holds an entry of sequence `q`. */
  predicate Holds(pass: Pass, q: nat) {
    exists i :: 0 <= i < |pass| && pass[i].sequence == q
  }

  /** The entries of sequence `q` over a list of passes, in order. */
  function Entries(formed: seq<Pass>, q: nat): seq<Planned> {
    if formed == [] then [] else Entries(formed[..|formed| - 1], q) + OfSequence(formed[|formed| - 1], q)
  }

  function OfSequence(pass: Pass, q: nat): seq<Planned> {
    if pass == [] then [] else
      OfSequence(pass[..|pass| - 1], q) + (if pass[|pass| - 1].sequence == q then [pass[|pass| - 1]] else [])
  }

  /** The rows a pass's wanting entries get from its last activation. */
  function RowsOf<St, A, Row>(m: Split<St, A, Row>, act: A, pass: Pass): (r: seq<Row>)
    ensures |r| == Wants(pass)
  {
    seq(Wants(pass), (w: nat) => m.head(act, pass, w))
  }

  const CHUNK: nat := 32
  const STEPS: nat := 8

  /** A sequence's entries cover its tokens from `start` on without a gap: a prompt of `len` tokens in chunks of 32,
      of which the last may be shorter and wants its logits, then its generated tokens, one an entry, each of which
      does. */
  ghost predicate Covers(entries: seq<Planned>, q: nat, start: nat, len: nat, until: nat) {
    && (entries == [] ==> until == start)
    && (entries != [] ==> entries[0].at == start && entries[|entries| - 1].at + entries[|entries| - 1].n == until)
    && (forall i | 0 <= i < |entries| - 1 :: entries[i].at + entries[i].n == entries[i + 1].at)
    && forall i | 0 <= i < |entries| :: Part(entries[i], q, start, len)
  }

  ghost predicate Part(e: Planned, q: nat, start: nat, len: nat) {
    && e.sequence == q && 0 < e.n <= 32
    && (e.at + e.n < start + len ==> e.n == 32)
    && (e.want <==> start + len <= e.at + e.n)
    && (e.at < start + len ==> e.at + e.n <= start + len && e.extent == len)
    && (start + len <= e.at ==> e.n == 1 && e.extent == 1)
  }

  lemma CoversNext(entries: seq<Planned>, q: nat, start: nat, len: nat, e: Planned)
    requires Covers(entries, q, start, len, e.at) && Part(e, q, start, len)
    ensures Covers(entries + [e], q, start, len, e.at + e.n)
  {
    var more := entries + [e];
    assert forall i | 0 <= i < |more| - 1 :: more[i] == entries[i];
  }

  /** One sequence's work: its prompt's chunks, then its generated tokens. */
  method PlanSequence(q: nat, start: nat, len: nat) returns (entries: seq<Planned>)
    ensures Covers(entries, q, start, len, start + len + 8)
  {
    entries := [];
    var at := 0;
    while at < len
      invariant 0 <= at && (at <= len || at < len + CHUNK)
      invariant Covers(entries, q, start, len, start + if at <= len then at else len)
    {
      var n := if CHUNK < len - at then CHUNK else len - at;
      var e := Planned(q, start + at, n, at + n == len, len);
      CoversNext(entries, q, start, len, e);
      entries := entries + [e];
      at := at + CHUNK;
    }
    for g := 0 to STEPS
      invariant Covers(entries, q, start, len, start + len + g)
    {
      var e := Planned(q, start + len + g, 1, true, 1);
      CoversNext(entries, q, start, len, e);
      entries := entries + [e];
    }
  }

  // ----- the serial run: the passes one after another, each through every stage -----

  /** The states and the activation after the first `s` stages of one pass. */
  function Chain<St, A, Row>(m: Split<St, A, Row>, states: seq<St>, pass: Pass, s: nat): (r: (seq<St>, A))
    requires s <= |states|
    ensures |r.0| == |states|
  {
    if s == 0 then (states, m.embed(pass)) else
      var before := Chain(m, states, pass, s - 1);
      var out := m.step(s - 1, before.0[s - 1], before.1, pass);
      (before.0[s - 1 := out.0], out.1)
  }

  /** The states after the first `p` passes, run one at a time. */
  function SerialStates<St, A, Row>(m: Split<St, A, Row>, formed: seq<Pass>, p: nat): (r: seq<St>)
    requires p <= |formed|
    ensures |r| == m.stages
  {
    if p == 0 then seq(m.stages, (s: nat) => m.initial(s))
    else Chain(m, SerialStates(m, formed, p - 1), formed[p - 1], m.stages).0
  }

  /** The logits rows pass `p` gives in the serial run. */
  function SerialRows<St, A, Row>(m: Split<St, A, Row>, formed: seq<Pass>, p: nat): (r: seq<Row>)
    requires p < |formed|
    ensures |r| == Wants(formed[p])
  {
    RowsOf(m, Chain(m, SerialStates(m, formed, p), formed[p], m.stages).1, formed[p])
  }

  // ----- the schedule-free meaning: each stage folds the passes in formation order -----

  /** The state of stage `s` once it has run the first `j` passes. */
  ghost function StageState<St, A, Row>(m: Split<St, A, Row>, formed: seq<Pass>, s: nat, j: nat): St
    requires j <= |formed|
    decreases s, j
  {
    if j == 0 then m.initial(s)
    else m.step(s, StageState(m, formed, s, j - 1), ActAt(m, formed, s, j - 1), formed[j - 1]).0
  }

  /** The activation pass `p` brings to stage `s`. */
  ghost function ActAt<St, A, Row>(m: Split<St, A, Row>, formed: seq<Pass>, s: nat, p: nat): A
    requires p < |formed|
    decreases s, p
  {
    if s == 0 then m.embed(formed[p])
    else m.step(s - 1, StageState(m, formed, s - 1, p), ActAt(m, formed, s - 1, p), formed[p]).1
  }

  /** The logits rows of pass `p`. */
  ghost function PassRows<St, A, Row>(m: Split<St, A, Row>, formed: seq<Pass>, p: nat): (r: seq<Row>)
    requires p < |formed|
    ensures |r| == Wants(formed[p])
  {
    RowsOf(m, ActAt(m, formed, m.stages, p), formed[p])
  }

  /** The laws of the fold: it starts from each stage's first state and each pass's embedding, and one step of a stage
      on a pass takes both on. They leave one meaning to every state and activation. */
  lemma StageLaws<St, A, Row>(m: Split<St, A, Row>, formed: seq<Pass>, s: nat, p: nat)
    requires p < |formed|
    ensures StageState(m, formed, s, 0) == m.initial(s)
    ensures ActAt(m, formed, 0, p) == m.embed(formed[p])
    ensures (StageState(m, formed, s, p + 1), ActAt(m, formed, s + 1, p))
         == m.step(s, StageState(m, formed, s, p), ActAt(m, formed, s, p), formed[p])
  {
  }

  /** A pass has one row for each entry that wants one, and row `w` is the head's of its last activation. */
  ghost predicate HeadRows<St, A, Row>(m: Split<St, A, Row>, formed: seq<Pass>, p: nat, rows: seq<Row>)
    requires p < |formed|
  {
    && |rows| == |set i | 0 <= i < |formed[p]| && formed[p][i].want|
    && forall w | 0 <= w < |rows| :: rows[w] == m.head(ActAt(m, formed, m.stages, p), formed[p], w)
  }

  lemma PassRowsAre<St, A, Row>(m: Split<St, A, Row>, formed: seq<Pass>, p: nat)
    requires p < |formed|
    ensures HeadRows(m, formed, p, PassRows(m, formed, p)) && HeadRows(m, formed, p, SerialRows(m, formed, p))
  {
    WantsCount(formed[p]);
    FoldIsSerial(m, formed, p);
  }

  /** Passes formed later do not change what earlier ones compute. */
  lemma {:induction false} FormedLater<St, A, Row>(m: Split<St, A, Row>, formed: seq<Pass>, more: seq<Pass>, s: nat,
                                                   j: nat)
    requires j <= |formed|
    ensures StageState(m, formed + more, s, j) == StageState(m, formed, s, j)
    ensures j < |formed| ==> ActAt(m, formed + more, s, j) == ActAt(m, formed, s, j)
    decreases s, j
  {
    if j > 0 {
      FormedLater(m, formed, more, s, j - 1);
      assert (formed + more)[j - 1] == formed[j - 1];
    }
    if j < |formed| {
      assert (formed + more)[j] == formed[j];
      if s > 0 {
        FormedLater(m, formed, more, s - 1, j);
      }
    }
  }

  /** Stage by stage, the serial run meets the fold. */
  lemma {:induction false} ChainIsFold<St, A, Row>(m: Split<St, A, Row>, formed: seq<Pass>, p: nat, s: nat)
    requires p < |formed| && s <= m.stages
    ensures var c := Chain(m, SerialStates(m, formed, p), formed[p], s);
            && c.1 == ActAt(m, formed, s, p)
            && forall i | 0 <= i < m.stages :: c.0[i] == StageState(m, formed, i, if i < s then p + 1 else p)
    decreases p, s
  {
    if s > 0 {
      ChainIsFold(m, formed, p, s - 1);
    } else if p > 0 {
      ChainIsFold(m, formed, p - 1, m.stages);
    }
  }

  /** Any schedule in which each stage runs the passes in formation order gives the serial run's rows. */
  lemma FoldIsSerial<St, A, Row>(m: Split<St, A, Row>, formed: seq<Pass>, p: nat)
    requires p < |formed|
    ensures PassRows(m, formed, p) == SerialRows(m, formed, p)
  {
    ChainIsFold(m, formed, p, m.stages);
  }

  // ----- the single device and the comparison -----

  /** Model `one` on a single device computes what the split's stages compute in a row, under a view of its state as
      theirs. */
  ghost predicate SameModel<St1(!new), A1, St, A, Row>(
      one: Split<St1, A1, Row>, two: Split<St, A, Row>, parts: St1 -> seq<St>)
  {
    && one.stages == 1
    && (forall st :: |parts(st)| == two.stages)
    && parts(one.initial(0)) == SerialStates(two, [], 0)
    && forall st, pass ::
         var out := one.step(0, st, one.embed(pass), pass);
         var chain := Chain(two, parts(st), pass, two.stages);
         parts(out.0) == chain.0 && RowsOf(one, out.1, pass) == RowsOf(two, chain.1, pass)
  }

  /** The passes in turn on the single device give the split's serial rows. */
  lemma {:induction false} SingleDevice<St1(!new), A1, St, A, Row>(
      one: Split<St1, A1, Row>, two: Split<St, A, Row>, parts: St1 -> seq<St>, formed: seq<Pass>, p: nat)
    requires SameModel(one, two, parts) && p <= |formed|
    ensures parts(SerialStates(one, formed, p)[0]) == SerialStates(two, formed, p)
    ensures p < |formed| ==> SerialRows(one, formed, p) == SerialRows(two, formed, p)
  {
    if p > 0 {
      SingleDevice(one, two, parts, formed, p - 1);
      OneStage(one, SerialStates(one, formed, p - 1), formed[p - 1]);
    }
    if p < |formed| {
      OneStage(one, SerialStates(one, formed, p), formed[p]);
    }
  }

  lemma OneStage<St, A, Row>(m: Split<St, A, Row>, states: seq<St>, pass: Pass)
    requires m.stages == 1 == |states|
    ensures Chain(m, states, pass, 1) == ([m.step(0, states[0], m.embed(pass), pass).0],
            m.step(0, states[0], m.embed(pass), pass).1)
  {
    assert Chain(m, states, pass, 0) == (states, m.embed(pass));
    var st := m.step(0, states[0], m.embed(pass), pass).0;
    assert states[0 := st] == [st];
  }

  /** How many of the rows differ. */
  function Differences<Row(==)>(got: seq<Row>, want: seq<Row>): nat
    requires |got| <= |want|
  {
    if got == [] then 0
    else Differences(got[..|got| - 1], want) + (if got[|got| - 1] != want[|got| - 1] then 1 else 0)
  }

  function AllDifferences<St, A, Row(==)>(m: Split<St, A, Row>, formed: seq<Pass>, rows: seq<seq<Row>>, p: nat): nat
    requires p <= |formed| == |rows| && forall i | 0 <= i < |formed| :: |rows[i]| <= Wants(formed[i])
  {
    if p == 0 then 0 else
      AllDifferences(m, formed, rows, p - 1) + Differences(rows[p - 1], SerialRows(m, formed, p - 1))
  }

  ghost function DifferAt<Row>(got: seq<Row>, want: seq<Row>): set<nat>
    requires |got| <= |want|
  {
    set w: nat | w < |got| && got[w] != want[w]
  }

  /** That is the size of the set of places where they differ. */
  lemma {:induction false} DifferencesCount<Row>(got: seq<Row>, want: seq<Row>)
    requires |got| <= |want|
    ensures Differences(got, want) == |DifferAt(got, want)|
  {
    if got != [] {
      var n := |got| - 1;
      DifferencesCount(got[..n], want);
      var before, all := DifferAt(got[..n], want), DifferAt(got, want);
      assert all == if got[n] != want[n] then before + {n} else before;
    }
  }

  /** The places, by pass and row, where the rows of the first `n` passes differ from the serial run's. */
  ghost function Differing<St, A, Row>(m: Split<St, A, Row>, formed: seq<Pass>, rows: seq<seq<Row>>,
                                       n: nat): set<(nat, nat)>
    requires n <= |formed| == |rows| && forall i | 0 <= i < |formed| :: |rows[i]| <= Wants(formed[i])
  {
    set p: nat, w: nat | p < n && w < |rows[p]| && rows[p][w] != SerialRows(m, formed, p)[w] :: (p, w)
  }

  lemma {:induction false} AllDifferencesCount<St, A, Row>(m: Split<St, A, Row>, formed: seq<Pass>,
                                                           rows: seq<seq<Row>>, n: nat)
    requires n <= |formed| == |rows| && forall i | 0 <= i < |formed| :: |rows[i]| <= Wants(formed[i])
    ensures AllDifferences(m, formed, rows, n) == |Differing(m, formed, rows, n)|
  {
    if n > 0 {
      AllDifferencesCount(m, formed, rows, n - 1);
      DifferencesCount(rows[n - 1], SerialRows(m, formed, n - 1));
      DifferingNext(m, formed, rows, n);
    } else {
      assert Differing(m, formed, rows, n) == {};
    }
  }

  lemma InDiffering<St, A, Row>(m: Split<St, A, Row>, formed: seq<Pass>, rows: seq<seq<Row>>, n: nat,
                                place: (nat, nat))
    requires n <= |formed| == |rows| && forall i | 0 <= i < |formed| :: |rows[i]| <= Wants(formed[i])
    ensures place in Differing(m, formed, rows, n) <==>
              && place.0 < n && place.1 < |rows[place.0]|
              && rows[place.0][place.1] != SerialRows(m, formed, place.0)[place.1]
  {
  }

  /** The places of the last pass are those where its rows differ. */
  lemma DifferingNext<St, A, Row>(m: Split<St, A, Row>, formed: seq<Pass>, rows: seq<seq<Row>>, n: nat)
    requires 0 < n <= |formed| == |rows| && forall i | 0 <= i < |formed| :: |rows[i]| <= Wants(formed[i])
    ensures |Differing(m, formed, rows, n)| == |Differing(m, formed, rows, n - 1)|
                                             + |DifferAt(rows[n - 1], SerialRows(m, formed, n - 1))|
  {
    hide SerialRows, Differing;
    var places := DifferAt(rows[n - 1], SerialRows(m, formed, n - 1));
    var before, all := Differing(m, formed, rows, n - 1), Differing(m, formed, rows, n);
    var last := all - before;
    forall place: (nat, nat)
      ensures place in last <==> place.0 == n - 1 && place.1 in places
      ensures place in before ==> place in all
    {
      InDiffering(m, formed, rows, n - 1, place);
      InDiffering(m, formed, rows, n, place);
    }
    TaggedSize(n - 1, places, last);
    assert all == before + last;
    assert |before + last| == |before| + |last|;
  }

  lemma {:induction false} TaggedSize(p: nat, places: set<nat>, tagged: set<(nat, nat)>)
    requires forall place: (nat, nat) :: place in tagged <==> place.0 == p && place.1 in places
    ensures |tagged| == |places|
    decreases |places|
  {
    if places == {} {
      assert tagged == {};
    } else {
      var x :| x in places;
      assert (p, x) in tagged;
      TaggedSize(p, places - {x}, tagged - {(p, x)});
    }
  }

  lemma {:induction false} NoDifference<Row>(got: seq<Row>, want: seq<Row>)
    requires got <= want
    ensures Differences(got, want) == 0
  {
    if got != [] {
      NoDifference(got[..|got| - 1], want);
    }
  }

  lemma {:induction false} NoDifferences<St, A, Row>(m: Split<St, A, Row>, formed: seq<Pass>, rows: seq<seq<Row>>,
      p: nat)
    requires p <= |formed| == |rows| && forall i | 0 <= i < |formed| ::
               |rows[i]| <= Wants(formed[i]) && rows[i] == SerialRows(m, formed, i)
    ensures AllDifferences(m, formed, rows, p) == 0
  {
    if p > 0 {
      NoDifferences(m, formed, rows, p - 1);
      NoDifference(rows[p - 1], SerialRows(m, formed, p - 1));
    }
  }

  /** The passes one after another through every stage, each row compared with the one collected. */
  method Serial<St, A, Row(==)>(m: Split<St, A, Row>, formed: seq<Pass>, rows: seq<seq<Row>>) returns (differ: nat)
    requires |formed| == |rows| && forall i | 0 <= i < |formed| :: |rows[i]| <= Wants(formed[i])
    ensures differ == |Differing(m, formed, rows, |formed|)|
    ensures differ == AllDifferences(m, formed, rows, |formed|)
  {
    AllDifferencesCount(m, formed, rows, |formed|);
    differ := 0;
    var states := seq(m.stages, (s: nat) => m.initial(s));
    for p := 0 to |formed|
      invariant states == SerialStates(m, formed, p)
      invariant differ == AllDifferences(m, formed, rows, p)
    {
      var act := m.embed(formed[p]);
      for s := 0 to m.stages
        invariant (states, act) == Chain(m, SerialStates(m, formed, p), formed[p], s)
      {
        var out := m.step(s, states[s], act, formed[p]);
        states, act := states[s := out.0], out.1;
      }
      var before := differ;
      for w := 0 to |rows[p]|
        invariant differ == before + Differences(rows[p][..w], SerialRows(m, formed, p))
      {
        assert rows[p][..w + 1][..w] == rows[p][..w];
        if m.head(act, formed[p], w) != rows[p][w] {
          differ := differ + 1;
        }
      }
      assert rows[p][..|rows[p]|] == rows[p];
    }
  }
}
