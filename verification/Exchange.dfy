/** The all-reduce of a tensor group through sync files, as a transition system over every interleaving of the host's
    submissions and the members' individual reads and writes. Submission i of a member sums epoch i - 1 from its own
    inbox, then writes its partial of epoch i into every inbox; it starts once every peer's submission i - 1 has
    ended. An inbox holds, per epoch parity, a slot of n values a member. */
module Exchange {

  /** W members, N epochs from e0 on, n values a partial; the values and their addition are arbitrary. */
  datatype Config<!T> = Config(W: nat, N: nat, n: nat, e0: nat, partial: (nat, nat, nat) -> T, add: (T, T) -> T)

  datatype Phase<T> =
    | Idle                            // waiting to start submission `sub`
    | Summing(got: seq<seq<T>>)       // the values each element's sum has read, in member order
    | Sending(todo: set<(nat, nat)>)  // the (target, element) writes not yet made

  /** `sub` submissions have ended; sums[j] is what the sum of epoch j wrote. */
  datatype Member<T> = Member(sub: nat, phase: Phase<T>, sums: seq<seq<T>>)

  /** The host has made its first `host` submissions, epoch by epoch and member by member. */
  datatype State<T> = State(host: nat, members: seq<Member<T>>, inbox: seq<seq<T>>)

  datatype Step =
    | Submit
    | Start(d: nat)
    | Read(d: nat, x: nat)
    | EndSum(d: nat)
    | Send(d: nat, t: nat, x: nat)
    | Finish(d: nat)

  /** Where the partial of `member` for epoch `e` lies in an inbox. */
  function Slot<T>(c: Config<T>, e: nat, member: nat, x: nat): nat {
    ((e % 2) * c.W + member) * c.n + x
  }

  function AllWrites<T>(c: Config<T>): set<(nat, nat)> {
    set t, x | 0 <= t < c.W && 0 <= x < c.n :: (t, x)
  }

  /** The slots added in member order. */
  function Added<T>(c: Config<T>, got: seq<T>): T
    requires got != []
  {
    if |got| == 1 then got[0] else c.add(Added(c, got[..|got| - 1]), got[|got| - 1])
  }

  predicate Shaped<T>(c: Config<T>, s: State<T>) {
    && 0 < c.W && |s.members| == c.W == |s.inbox|
    && (forall t | 0 <= t < c.W :: |s.inbox[t]| == 2 * c.W * c.n)
    && forall d | 0 <= d < c.W && s.members[d].phase.Summing? ::
         0 < s.members[d].sub && |s.members[d].phase.got| == c.n && forall x | 0 <= x < c.n ::
             |s.members[d].phase.got[x]| <= c.W
  }

  predicate Enabled<T>(c: Config<T>, s: State<T>, step: Step)
    requires Shaped(c, s)
  {
    match step
    case Submit => s.host < (c.N + 1) * c.W
    case Start(d) =>
      && d < c.W && s.members[d].phase.Idle? && s.members[d].sub <= c.N
      && s.members[d].sub * c.W + d < s.host
      && (s.members[d].sub > 0 ==> forall t | 0 <= t < c.W && t != d :: s.members[d].sub <= s.members[t].sub)
    case Read(d, x) => d < c.W && s.members[d].phase.Summing? && x < c.n && |s.members[d].phase.got[x]| < c.W
    case EndSum(d) => d < c.W && s.members[d].phase.Summing? && forall x | 0 <= x < c.n ::
        |s.members[d].phase.got[x]| == c.W
    case Send(d, t, x) => d < c.W && t < c.W && x < c.n && s.members[d].phase.Sending?
        && (t, x) in s.members[d].phase.todo
    case Finish(d) => d < c.W && s.members[d].phase.Sending? && s.members[d].phase.todo == {}
  }

  /** The value member d's sum of element x reads next, from the slot of the next member in its own inbox. */
  function Reading<T>(c: Config<T>, s: State<T>, d: nat, x: nat): T
    requires Shaped(c, s) && Enabled(c, s, Read(d, x))
  {
    var m := s.members[d];
    SlotInside(c, c.e0 + m.sub - 1, |m.phase.got[x]|, x);
    s.inbox[d][Slot(c, c.e0 + m.sub - 1, |m.phase.got[x]|, x)]
  }

  function Apply<T>(c: Config<T>, s: State<T>, step: Step): State<T>
    requires Shaped(c, s) && Enabled(c, s, step)
  {
    match step
    case Submit => s.(host := s.host + 1)
    case Start(d) =>
      var m := s.members[d];
      s.(members := s.members[d := m.(phase := if m.sub > 0 then Summing(seq(c.n, _ => [])) else Writes(c, 0))])
    case Read(d, x) =>
      var m := s.members[d];
      s.(members := s.members[d := m.(phase := Summing(m.phase.got[x := m.phase.got[x] + [Reading(c, s, d, x)]]))])
    case EndSum(d) =>
      var m := s.members[d];
      var sum := seq(c.n, x requires 0 <= x < c.n => Added(c, m.phase.got[x]));
      s.(members := s.members[d := m.(phase := Writes(c, m.sub), sums := m.sums + [sum])])
    case Send(d, t, x) =>
      var m := s.members[d];
      SlotInside(c, c.e0 + m.sub, d, x);
      s.(members := s.members[d := m.(phase := Sending(m.phase.todo - {(t, x)}))],
         inbox := s.inbox[t := s.inbox[t][Slot(c, c.e0 + m.sub, d, x) := c.partial(d, c.e0 + m.sub, x)]])
    case Finish(d) =>
      var m := s.members[d];
      s.(members := s.members[d := m.(sub := m.sub + 1, phase := Idle)])
  }

  /** Submission i writes its partial everywhere, but the last, which only sums. */
  function Writes<T>(c: Config<T>, i: nat): Phase<T> {
    Sending(if i < c.N then AllWrites(c) else {})
  }

  lemma SlotInside<T>(c: Config<T>, e: nat, member: nat, x: nat)
    requires member < c.W && x < c.n
    ensures Slot(c, e, member, x) < 2 * c.W * c.n
  {
    Inside((e % 2) * c.W + member, x, c.n, 2 * c.W);
  }

  lemma Inside(row: nat, x: nat, n: nat, rows: nat)
    requires row < rows && x < n
    ensures row * n + x < rows * n
  {
    Multiples(row + 1, rows, n);
  }

  /** The members' values follow each other in order, for even epochs from the start of the inbox, and for odd ones from
      behind the last member's of an even one. */
  lemma SlotIs<T>(c: Config<T>, e: nat, member: nat, x: nat)
    ensures Slot(c, 0, 0, 0) == 0 && Slot(c, 1, 0, 0) == Slot(c, 0, c.W, 0)
    ensures Slot(c, e, member, x) == Slot(c, e, member, 0) + x
    ensures Slot(c, e, member + 1, 0) == Slot(c, e, member, 0) + c.n
    ensures Slot(c, e + 2, member, x) == Slot(c, e, member, x)
  {
    assert (e + 2) % 2 == e % 2;
    NextRow((e % 2) * c.W + member, c.n);
  }

  lemma NextRow(row: nat, n: nat)
    ensures (row + 1) * n == row * n + n
  {
  }

  /** No two of a parity, a member and an element share a place. */
  lemma SlotDistinct<T>(c: Config<T>, e: nat, m: nat, x: nat, f: nat, k: nat, y: nat)
    requires m < c.W && k < c.W && x < c.n && y < c.n
    requires Slot(c, e, m, x) == Slot(c, f, k, y)
    ensures e % 2 == f % 2 && m == k && x == y
  {
    SameRow((e % 2) * c.W + m, x, (f % 2) * c.W + k, y, c.n);
    SameRow(e % 2, m, f % 2, k, c.W);
  }

  lemma SameRow(a: nat, x: nat, b: nat, y: nat, n: nat)
    requires x < n && y < n && a * n + x == b * n + y
    ensures a == b && x == y
  {
    if a < b {
      Apart(a, b, n);
    } else if b < a {
      Apart(b, a, n);
    }
  }

  lemma Apart(a: nat, b: nat, n: nat)
    requires a < b
    ensures a * n + n <= b * n
  {
    assert (b - a - 1) * n >= 0;
    assert b * n == a * n + n + (b - a - 1) * n;
  }

  // ----- the invariant -----

  /** Submissions a member has started. */
  function Started<T>(m: Member<T>): nat {
    m.sub + if m.phase.Idle? then 0 else 1
  }

  /** Member m has written its partial of the j-th epoch to element x of target t's inbox. */
  predicate Sent<T>(m: Member<T>, j: nat, t: nat, x: nat) {
    j < m.sub || (j == m.sub && m.phase.Sending? && (t, x) !in m.phase.todo)
  }

  /** The sums of the first k partials of an epoch, in member order: ((p0 + p1) + ...) + p(k-1). */
  function Total<T>(c: Config<T>, e: nat, x: nat, k: nat): T
    requires 0 < k
  {
    if k == 1 then c.partial(0, e, x) else c.add(Total(c, e, x, k - 1), c.partial(k - 1, e, x))
  }

  /** That sum starts from the first member's partial and takes each next member's on the right. */
  lemma LeftFold<T>(c: Config<T>, e: nat, x: nat, k: nat)
    requires 0 < k
    ensures Total(c, e, x, 1) == c.partial(0, e, x)
    ensures Total(c, e, x, k + 1) == c.add(Total(c, e, x, k), c.partial(k, e, x))
  {
  }

  /** What a sum has read so far are the first partials of its epoch. */
  ghost predicate Partials<T>(c: Config<T>, e: nat, x: nat, got: seq<T>) {
    forall m | 0 <= m < |got| :: got[m] == c.partial(m, e, x)
  }

  ghost predicate MemberInv<T>(c: Config<T>, m: Member<T>) {
    && m.sub <= c.N + 1
    && (m.phase.Summing? ==>
          && 0 < m.sub <= c.N && |m.sums| == m.sub - 1 && |m.phase.got| == c.n
          && forall x | 0 <= x < c.n :: |m.phase.got[x]| <= c.W && Partials(c, c.e0 + m.sub - 1, x, m.phase.got[x]))
    && (m.phase.Sending? ==>
          && m.sub <= c.N && |m.sums| == m.sub
          && m.phase.todo <= (if m.sub < c.N then AllWrites(c) else {}))
    && (m.phase.Idle? ==> |m.sums| == if m.sub == 0 then 0 else m.sub - 1)
    && forall j | 0 <= j < |m.sums| :: SumOf(c, c.e0 + j, m.sums[j])
  }

  /** One epoch's all-reduce: every element the total of every member's partial. */
  ghost predicate SumOf<T>(c: Config<T>, e: nat, sum: seq<T>) {
    |sum| == c.n && (c.W > 0 ==> forall x | 0 <= x < c.n :: sum[x] == Total(c, e, x, c.W))
  }

  /** The latest partial written to a place is the one there. */
  ghost predicate Current<T>(c: Config<T>, m: Member<T>, id: nat, j: nat, t: nat, x: nat, inbox: seq<T>)
    requires id < c.W && x < c.n && |inbox| == 2 * c.W * c.n
  {
    SlotInside(c, c.e0 + j, id, x);
    j < c.N && Sent(m, j, t, x) && !Sent(m, j + 2, t, x) ==>
      inbox[Slot(c, c.e0 + j, id, x)] == c.partial(id, c.e0 + j, x)
  }

  /** Every member's own invariant; what it has started the host has submitted; and it has started no submission before
      every peer ended the one before. */
  ghost predicate Waits<T>(c: Config<T>, host: nat, members: seq<Member<T>>)
    requires |members| == c.W
  {
    && (forall d | 0 <= d < c.W :: MemberInv(c, members[d]))
    && (forall d | 0 <= d < c.W && 0 < Started(members[d]) :: (Started(members[d]) - 1) * c.W + d < host)
    && (forall d, t | 0 <= d < c.W && 0 <= t < c.W :: Started(members[d]) <= members[t].sub + 1)
  }

  /** Every place of every inbox holds the latest partial written to it. */
  ghost predicate Places<T>(c: Config<T>, members: seq<Member<T>>, inbox: seq<seq<T>>)
    requires |members| == c.W == |inbox| && forall t | 0 <= t < c.W :: |inbox[t]| == 2 * c.W * c.n
  {
    forall id, t, j: nat, x | 0 <= id < c.W && 0 <= t < c.W && 0 <= x < c.n ::
        Current(c, members[id], id, j, t, x, inbox[t])
  }

  ghost predicate Inv<T>(c: Config<T>, s: State<T>) {
    Shaped(c, s) && s.host <= (c.N + 1) * c.W && Waits(c, s.host, s.members) && Places(c, s.members, s.inbox)
  }

  /** The state before anything runs, the inboxes holding whatever they hold. */
  ghost predicate Initial<T>(c: Config<T>, s: State<T>) {
    && 0 < c.W && s.host == 0 && |s.members| == c.W == |s.inbox|
    && (forall t | 0 <= t < c.W :: |s.inbox[t]| == 2 * c.W * c.n)
    && forall d | 0 <= d < c.W :: s.members[d] == Member(0, Idle, [])
  }

  lemma InitialInv<T>(c: Config<T>, s: State<T>)
    requires Initial(c, s)
    ensures Inv(c, s)
  {
  }

  // ----- every step keeps it -----

  /** What member m's step to m' must keep for the others' sake: its own invariant, the waits, and what it has
      written. */
  ghost predicate Steps<T>(c: Config<T>, s: State<T>, d: nat, m': Member<T>)
    requires Shaped(c, s) && d < c.W
  {
    && MemberInv(c, m')
    && (0 < Started(m') ==> (Started(m') - 1) * c.W + d < s.host)
    && (forall t | 0 <= t < c.W && t != d :: Started(m') <= s.members[t].sub + 1)
    && s.members[d].sub <= m'.sub
  }

  /** The places keep the latest partials when a member's writes do not change. */
  lemma CurrentKept<T>(c: Config<T>, m: Member<T>, m': Member<T>, id: nat, j: nat, t: nat, x: nat, inbox: seq<T>)
    requires id < c.W && x < c.n && |inbox| == 2 * c.W * c.n
    requires Current(c, m, id, j, t, x, inbox)
    requires j < c.N && Sent(m', j, t, x) ==> Sent(m, j, t, x)
    requires Sent(m, j + 2, t, x) ==> Sent(m', j + 2, t, x)
    ensures Current(c, m', id, j, t, x, inbox)
  {
  }

  lemma WaitsKept<T>(c: Config<T>, s: State<T>, d: nat, m': Member<T>)
    requires Inv(c, s) && d < c.W && Steps(c, s, d, m')
    ensures Shaped(c, s.(members := s.members[d := m'])) && Waits(c, s.host, s.members[d := m'])
  {
    hide Current, Sent;
  }

  /** A step that changes one member alone, neither its writes nor any inbox. */
  lemma MemberStep<T>(c: Config<T>, s: State<T>, d: nat, m': Member<T>)
    requires Inv(c, s) && d < c.W && Steps(c, s, d, m')
    requires forall j: nat, t, x | 0 <= t < c.W && 0 <= x < c.n && j < c.N && Sent(m', j, t, x) ::
             Sent(s.members[d], j, t, x)
    requires forall j: nat, t, x | 0 <= t < c.W && 0 <= x < c.n && Sent(s.members[d], j, t, x) :: Sent(m', j, t, x)
    ensures Inv(c, s.(members := s.members[d := m']))
  {
    WaitsKept(c, s, d, m');
    var s' := s.(members := s.members[d := m']);
    hide MemberInv, Sent;
    forall id, t, j: nat, x | 0 <= id < c.W && 0 <= t < c.W && 0 <= x < c.n
      ensures Current(c, s'.members[id], id, j, t, x, s'.inbox[t])
    {
      assert Current(c, s.members[id], id, j, t, x, s.inbox[t]);
      CurrentKept(c, s.members[id], s'.members[id], id, j, t, x, s.inbox[t]);
    }
  }

  lemma SubmitKeeps<T>(c: Config<T>, s: State<T>)
    requires Inv(c, s) && Enabled(c, s, Submit)
    ensures Inv(c, Apply(c, s, Submit))
  {
    hide MemberInv, Sent;
    var s' := Apply(c, s, Submit);
    forall id, t, j: nat, x | 0 <= id < c.W && 0 <= t < c.W && 0 <= x < c.n
      ensures Current(c, s'.members[id], id, j, t, x, s'.inbox[t])
    {
      assert Current(c, s.members[id], id, j, t, x, s.inbox[t]);
    }
  }

  lemma StartKeeps<T>(c: Config<T>, s: State<T>, d: nat)
    requires Inv(c, s) && Enabled(c, s, Start(d))
    ensures Inv(c, Apply(c, s, Start(d)))
  {
    MemberStep(c, s, d, Apply(c, s, Start(d)).members[d]);
  }

  /** A sum reads the partial of the epoch it sums: the writer has made it and has not begun the epoch two later. */
  lemma ReadsItsEpoch<T>(c: Config<T>, s: State<T>, d: nat, x: nat)
    requires Inv(c, s) && Enabled(c, s, Read(d, x))
    ensures Reading(c, s, d, x) == c.partial(|s.members[d].phase.got[x]|, c.e0 + s.members[d].sub - 1, x)
  {
    var j := s.members[d].sub - 1;
    var m := |s.members[d].phase.got[x]|;
    SlotInside(c, c.e0 + j, m, x);
    assert MemberInv(c, s.members[d]) && MemberInv(c, s.members[m]);
    assert Started(s.members[d]) <= s.members[m].sub + 1 && Started(s.members[m]) <= s.members[d].sub + 1;
    assert Current(c, s.members[m], m, j, d, x, s.inbox[d]);
  }

  lemma ReadKeeps<T>(c: Config<T>, s: State<T>, d: nat, x: nat)
    requires Inv(c, s) && Enabled(c, s, Read(d, x))
    ensures Inv(c, Apply(c, s, Read(d, x)))
  {
    ReadsItsEpoch(c, s, d, x);
    var m' := Apply(c, s, Read(d, x)).members[d];
    assert MemberInv(c, s.members[d]);
    assert MemberInv(c, m');
    hide MemberInv;
    MemberStep(c, s, d, m');
  }

  lemma {:induction false} AddedIsTotal<T>(c: Config<T>, e: nat, x: nat, got: seq<T>)
    requires got != [] && Partials(c, e, x, got)
    ensures Added(c, got) == Total(c, e, x, |got|)
  {
    if |got| > 1 {
      AddedIsTotal(c, e, x, got[..|got| - 1]);
    }
  }

  lemma EndSumKeeps<T>(c: Config<T>, s: State<T>, d: nat)
    requires Inv(c, s) && Enabled(c, s, EndSum(d))
    ensures Inv(c, Apply(c, s, EndSum(d)))
  {
    var m := s.members[d];
    var m' := Apply(c, s, EndSum(d)).members[d];
    assert MemberInv(c, m);
    forall x | 0 <= x < c.n
      ensures Added(c, m.phase.got[x]) == Total(c, c.e0 + m.sub - 1, x, c.W)
    {
      AddedIsTotal(c, c.e0 + m.sub - 1, x, m.phase.got[x]);
    }
    assert SumOf(c, c.e0 + m.sub - 1, m'.sums[m.sub - 1]);
    assert MemberInv(c, m');
    MemberStep(c, s, d, m');
  }

  lemma FinishKeeps<T>(c: Config<T>, s: State<T>, d: nat)
    requires Inv(c, s) && Enabled(c, s, Finish(d))
    ensures Inv(c, Apply(c, s, Finish(d)))
  {
    MemberStep(c, s, d, Apply(c, s, Finish(d)).members[d]);
  }

  /** A write replaces only a place whose partial is two epochs old. */
  lemma WriteKeeps<T>(c: Config<T>, s: State<T>, d: nat, t: nat, x: nat, id: nat, u: nat, j: nat, y: nat)
    requires Inv(c, s) && Enabled(c, s, Send(d, t, x))
    requires id < c.W && u < c.W && y < c.n
    ensures var s' := Apply(c, s, Send(d, t, x));
            |s'.members| == c.W == |s'.inbox| && |s'.inbox[u]| == 2 * c.W * c.n
                && Current(c, s'.members[id], id, j, u, y, s'.inbox[u])
  {
    var m := s.members[d];
    var s' := Apply(c, s, Send(d, t, x));
    SlotInside(c, c.e0 + m.sub, d, x);
    SlotInside(c, c.e0 + j, id, y);
    assert Current(c, s.members[id], id, j, u, y, s.inbox[u]);
    if u == t && Slot(c, c.e0 + m.sub, d, x) == Slot(c, c.e0 + j, id, y) {
      SlotDistinct(c, c.e0 + m.sub, d, x, c.e0 + j, id, y);
      SameParity(c.e0, m.sub, j);
    }
  }

  /** The partial a write replaces is of the epoch two before, which the member it is written to has summed. */
  lemma ReplacedIsRead<T>(c: Config<T>, s: State<T>, d: nat, t: nat, x: nat)
    requires Inv(c, s) && Enabled(c, s, Send(d, t, x)) && 2 <= s.members[d].sub
    ensures s.members[d].sub - 1 <= |s.members[t].sums|
    ensures var j := s.members[d].sub - 2;
            Slot(c, c.e0 + j, d, x) == Slot(c, c.e0 + j + 2, d, x) && SumOf(c, c.e0 + j, s.members[t].sums[j])
  {
    assert Started(s.members[d]) <= s.members[t].sub + 1;
    assert MemberInv(c, s.members[t]);
  }

  lemma SameParity(e: nat, j: nat, k: nat)
    requires (e + j) % 2 == (e + k) % 2
    ensures j != k + 1 && k != j + 1
  {
  }

  lemma ShapedWrite<T>(c: Config<T>, s: State<T>, t: nat, at: nat, v: T)
    requires Shaped(c, s) && t < c.W && at < |s.inbox[t]|
    ensures Shaped(c, s.(inbox := s.inbox[t := s.inbox[t][at := v]]))
  {
  }

  lemma SendWaits<T>(c: Config<T>, s: State<T>, d: nat, t: nat, x: nat)
    requires Inv(c, s) && Enabled(c, s, Send(d, t, x))
    ensures var s' := Apply(c, s, Send(d, t, x));
            Shaped(c, s') && Waits(c, s'.host, s'.members)
  {
    var m := s.members[d];
    var m' := m.(phase := Sending(m.phase.todo - {(t, x)}));
    var s1 := s.(members := s.members[d := m']);
    SlotInside(c, c.e0 + m.sub, d, x);
    var at := Slot(c, c.e0 + m.sub, d, x);
    assert Apply(c, s, Send(d, t, x)) == s1.(inbox := s.inbox[t := s.inbox[t][at := c.partial(d, c.e0 + m.sub, x)]]);
    hide Apply, Places;
    assert MemberInv(c, m) && MemberInv(c, m');
    WaitsKept(c, s, d, m');
    ShapedWrite(c, s1, t, Slot(c, c.e0 + m.sub, d, x), c.partial(d, c.e0 + m.sub, x));
  }

  lemma SendPlaces<T>(c: Config<T>, s: State<T>, d: nat, t: nat, x: nat)
    requires Inv(c, s) && Enabled(c, s, Send(d, t, x))
    ensures var s' := Apply(c, s, Send(d, t, x));
            Shaped(c, s') && Places(c, s'.members, s'.inbox)
  {
    SendWaits(c, s, d, t, x);
    var s' := Apply(c, s, Send(d, t, x));
    hide Waits, Current, Apply;
    forall id, u, j: nat, y | 0 <= id < c.W && 0 <= u < c.W && 0 <= y < c.n
      ensures Current(c, s'.members[id], id, j, u, y, s'.inbox[u])
    {
      WriteKeeps(c, s, d, t, x, id, u, j, y);
    }
  }

  lemma SendKeeps<T>(c: Config<T>, s: State<T>, d: nat, t: nat, x: nat)
    requires Inv(c, s) && Enabled(c, s, Send(d, t, x))
    ensures Inv(c, Apply(c, s, Send(d, t, x)))
  {
    SendWaits(c, s, d, t, x);
    SendPlaces(c, s, d, t, x);
    hide Waits, Places;
  }

  lemma StepKeeps<T>(c: Config<T>, s: State<T>, step: Step)
    requires Inv(c, s) && Enabled(c, s, step)
    ensures Inv(c, Apply(c, s, step))
  {
    match step
    case Submit => SubmitKeeps(c, s);
    case Start(d) => StartKeeps(c, s, d);
    case Read(d, x) => ReadKeeps(c, s, d, x);
    case EndSum(d) => EndSumKeeps(c, s, d);
    case Send(d, t, x) => SendKeeps(c, s, d, t, x);
    case Finish(d) => FinishKeeps(c, s, d);
  }

  // ----- runs -----

  /** The steps are a run from s: each is enabled where it is taken. */
  ghost predicate Runs<T>(c: Config<T>, s: State<T>, steps: seq<Step>)
    decreases |steps|
  {
    steps == [] || (Shaped(c, s) && Enabled(c, s, steps[0]) && Runs(c, Apply(c, s, steps[0]), steps[1..]))
  }

  ghost function After<T>(c: Config<T>, s: State<T>, steps: seq<Step>): State<T>
    requires Runs(c, s, steps)
    decreases |steps|
  {
    if steps == [] then s else After(c, Apply(c, s, steps[0]), steps[1..])
  }

  lemma {:induction false} RunKeeps<T>(c: Config<T>, s: State<T>, steps: seq<Step>)
    requires Inv(c, s) && Runs(c, s, steps)
    ensures Inv(c, After(c, s, steps))
    decreases |steps|
  {
    if steps != [] {
      StepKeeps(c, s, steps[0]);
      RunKeeps(c, Apply(c, s, steps[0]), steps[1..]);
    }
  }

  /** In every interleaving, every epoch a member has summed is the sum of that epoch's partials in member order, so
      the members agree, and no member is more than one submission ahead of another. */
  lemma EveryRunSums<T>(c: Config<T>, s: State<T>, steps: seq<Step>, d: nat, t: nat)
    requires Initial(c, s) && Runs(c, s, steps) && d < c.W && t < c.W
    ensures var r := After(c, s, steps);
            && |r.members| == c.W
            && (forall j | 0 <= j < |r.members[d].sums| :: SumOf(c, c.e0 + j, r.members[d].sums[j]))
            && (forall j | 0 <= j < |r.members[d].sums| && j < |r.members[t].sums| ::
                r.members[d].sums[j] == r.members[t].sums[j])
            && Started(r.members[d]) <= Started(r.members[t]) + 1
  {
    InitialInv(c, s);
    RunKeeps(c, s, steps);
    var r := After(c, s, steps);
    assert MemberInv(c, r.members[d]) && MemberInv(c, r.members[t]);
    forall j | 0 <= j < |r.members[d].sums| && j < |r.members[t].sums|
      ensures r.members[d].sums[j] == r.members[t].sums[j]
    {
      assert SumOf(c, c.e0 + j, r.members[d].sums[j]) && SumOf(c, c.e0 + j, r.members[t].sums[j]);
    }
  }

  // ----- progress -----

  /** Every member has ended its N + 1 submissions. */
  ghost predicate Complete<T>(c: Config<T>, s: State<T>) {
    |s.members| == c.W && forall d | 0 <= d < c.W :: s.members[d].sub == c.N + 1 && s.members[d].phase.Idle?
  }

  /** A member whose peers are no further behind than it is. */
  lemma {:induction false} Slowest<T>(members: seq<Member<T>>) returns (d: nat)
    requires members != []
    ensures d < |members| && forall t | 0 <= t < |members| :: members[d].sub <= members[t].sub
  {
    if |members| == 1 {
      d := 0;
    } else {
      var last := |members| - 1;
      d := Slowest(members[..last]);
      assert forall t | 0 <= t < last :: members[..last][t] == members[t];
      if members[last].sub < members[d].sub {
        d := last;
      }
    }
  }

  /** The exchange never deadlocks: until every member has ended every submission, some step can be taken. */
  lemma NeverStuck<T>(c: Config<T>, s: State<T>)
    requires Inv(c, s) && !Complete(c, s)
    ensures exists step :: Enabled(c, s, step)
  {
    if s.host < (c.N + 1) * c.W {
      assert Enabled(c, s, Submit);
    } else {
      var d := Slowest(s.members);
      var m := s.members[d];
      assert MemberInv(c, m);
      match m.phase
      case Idle =>
        SomeoneBehind(c, s, d);
        assert m.sub * c.W + d < s.host by {
          assert m.sub * c.W + c.W == (m.sub + 1) * c.W;
          Multiples(m.sub + 1, c.N + 1, c.W);
        }
        assert Enabled(c, s, Start(d));
      case Summing(got) =>
        if x :| 0 <= x < c.n && |got[x]| < c.W {
          assert Enabled(c, s, Read(d, x));
        } else {
          assert Enabled(c, s, EndSum(d));
        }
      case Sending(todo) =>
        if w :| w in todo {
          assert w in AllWrites(c);
          assert Enabled(c, s, Send(d, w.0, w.1));
        } else {
          assert Enabled(c, s, Finish(d));
        }
    }
  }

  lemma SomeoneBehind<T>(c: Config<T>, s: State<T>, d: nat)
    requires Inv(c, s) && !Complete(c, s) && d < c.W && s.members[d].phase.Idle?
    requires forall t | 0 <= t < c.W :: s.members[d].sub <= s.members[t].sub
    ensures s.members[d].sub <= c.N
  {
    var t :| 0 <= t < c.W && !(s.members[t].sub == c.N + 1 && s.members[t].phase.Idle?);
    assert MemberInv(c, s.members[t]);
    assert s.members[t].sub <= c.N;
  }

  lemma Multiples(a: nat, b: nat, n: nat)
    requires a <= b
    ensures a * n <= b * n
  {
    assert (b - a) * n >= 0;
    assert b * n == a * n + (b - a) * n;
  }

  /** The steps left in a member's current submission, and in those it has not started. */
  function Left<T>(c: Config<T>, m: Member<T>): int {
    Most(c) * (c.N + 1 - m.sub) - Spent(c, m.phase)
  }

  /** The steps the current submission has taken, its start among them. */
  function Spent<T>(c: Config<T>, phase: Phase<T>): int {
    match phase
    case Idle => 0
    case Summing(got) => 1 + TotalLength(got)
    case Sending(todo) => 2 + c.n * c.W + |AllWrites(c)| - |todo|
  }

  /** More than any submission takes. */
  function Most<T>(c: Config<T>): nat {
    c.n * c.W + |AllWrites(c)| + 4
  }

  function TotalLength<T>(got: seq<seq<T>>): nat {
    if got == [] then 0 else |got[0]| + TotalLength(got[1..])
  }

  lemma {:induction false} LengthBound<T>(got: seq<seq<T>>, most: nat)
    requires forall x | 0 <= x < |got| :: |got[x]| <= most
    ensures TotalLength(got) <= |got| * most
    ensures (forall x | 0 <= x < |got| :: |got[x]| == 0) ==> TotalLength(got) == 0
  {
    if got != [] {
      LengthBound(got[1..], most);
      assert |got| * most == most + (|got| - 1) * most;
    }
  }

  lemma {:induction false} LengthGrows<T>(got: seq<seq<T>>, x: nat, v: T)
    requires x < |got|
    ensures TotalLength(got[x := got[x] + [v]]) == TotalLength(got) + 1
  {
    var more := got[x := got[x] + [v]];
    if x == 0 {
      assert more[1..] == got[1..];
    } else {
      LengthGrows(got[1..], x - 1, v);
      assert more[1..] == got[1..][x - 1 := got[1..][x - 1] + [v]];
    }
  }

  lemma SubsetSize<E>(a: set<E>, b: set<E>)
    requires a <= b
    ensures |a| <= |b|
  {
    if a != {} {
      var e :| e in a;
      SubsetSize(a - {e}, b - {e});
    }
  }

  /** A member has something left to do until its last submission has ended, and never more than all of it. */
  lemma LeftBounds<T>(c: Config<T>, m: Member<T>)
    requires MemberInv(c, m)
    ensures 0 <= Left(c, m)
    ensures m.phase.Summing? ==> TotalLength(m.phase.got) <= c.n * c.W
    ensures m.phase.Sending? ==> |m.phase.todo| <= |AllWrites(c)|
  {
    var more := c.N + 1 - m.sub;
    if m.phase.Summing? {
      LengthBound(m.phase.got, c.W);
    } else if m.phase.Sending? {
      SubsetSize(m.phase.todo, AllWrites(c));
    }
    if more > 0 {
      Multiples(1, more, Most(c));
    }
  }

  lemma WritesSpend<T>(c: Config<T>, i: nat)
    ensures 2 + c.n * c.W <= Spent(c, Writes(c, i))
  {
    SubsetSize(Writes(c, i).todo, AllWrites(c));
  }

  lemma ReadSpends<T>(c: Config<T>, got: seq<seq<T>>, x: nat, v: T)
    requires x < |got|
    ensures Spent(c, Summing(got)) < Spent(c, Summing(got[x := got[x] + [v]]))
  {
    LengthGrows(got, x, v);
  }

  lemma SendSpends<T>(c: Config<T>, todo: set<(nat, nat)>, w: (nat, nat))
    requires w in todo
    ensures Spent<T>(c, Sending(todo)) < Spent<T>(c, Sending(todo - {w}))
  {
    assert |todo - {w}| == |todo| - 1;
  }

  lemma IdleSpends<T>(c: Config<T>)
    ensures Spent<T>(c, Idle) == 0
  {
  }

  lemma EndSumSpends<T>(c: Config<T>, m: Member<T>)
    requires m.phase.Summing? && |m.phase.got| == c.n && forall x | 0 <= x < c.n :: |m.phase.got[x]| <= c.W
    ensures Spent(c, m.phase) < Spent(c, Writes(c, m.sub))
  {
    LengthBound(m.phase.got, c.W);
    WritesSpend(c, m.sub);
  }

  lemma StartSpends<T>(c: Config<T>, sub: nat)
    ensures 0 < Spent(c, if sub > 0 then Summing(seq(c.n, _ => [])) else Writes(c, 0))
  {
    if sub > 0 {
      LengthBound<T>(seq(c.n, _ => []), 0);
    } else {
      WritesSpend(c, 0);
      Multiples(0, c.n, c.W);
    }
  }

  /** Each step a member takes within a submission is one more of it. */
  lemma SpentGrows<T>(c: Config<T>, s: State<T>, step: Step)
    requires Shaped(c, s) && Enabled(c, s, step) && !step.Submit? && !step.Finish?
    ensures Spent(c, s.members[step.d].phase) < Spent(c, Apply(c, s, step).members[step.d].phase)
  {
    var m := s.members[step.d];
    hide Spent, Writes;
    match step
    case Start(d) => StartSpends(c, m.sub); IdleSpends(c);
    case Read(d, x) => ReadSpends(c, m.phase.got, x, Reading(c, s, d, x));
    case EndSum(d) => EndSumSpends(c, m);
    case Send(d, t, x) => SendSpends(c, m.phase.todo, (t, x));
  }

  /** Each step a member takes leaves it less to do. */
  lemma StepShrinks<T>(c: Config<T>, s: State<T>, step: Step)
    requires Inv(c, s) && Enabled(c, s, step) && !step.Submit?
    ensures step.d < c.W && Left(c, Apply(c, s, step).members[step.d]) < Left(c, s.members[step.d])
    ensures Apply(c, s, step).members == s.members[step.d := Apply(c, s, step).members[step.d]]
  {
    var m, m' := s.members[step.d], Apply(c, s, step).members[step.d];
    assert MemberInv(c, m);
    LeftBounds(c, m);
    if step.Finish? {
      OneFewer(Most(c), c.N + 1 - m.sub);
    } else {
      SpentGrows(c, s, step);
      assert m'.sub == m.sub;
    }
  }

  lemma OneFewer(most: nat, more: int)
    ensures most * (more - 1) == most * more - most
  {
  }

  function AllLeft<T>(c: Config<T>, members: seq<Member<T>>): int {
    if members == [] then 0 else Left(c, members[0]) + AllLeft(c, members[1..])
  }

  lemma {:induction false} AllLeftUpdated<T>(c: Config<T>, members: seq<Member<T>>, d: nat, m: Member<T>)
    requires d < |members|
    ensures AllLeft(c, members[d := m]) == AllLeft(c, members) - Left(c, members[d]) + Left(c, m)
  {
    if d == 0 {
      assert members[0 := m][1..] == members[1..];
    } else {
      AllLeftUpdated(c, members[1..], d - 1, m);
      assert members[d := m][1..] == members[1..][d - 1 := m];
    }
  }

  lemma {:induction false} AllLeftBound<T>(c: Config<T>, members: seq<Member<T>>)
    requires forall d | 0 <= d < |members| :: MemberInv(c, members[d])
    ensures 0 <= AllLeft(c, members)
  {
    if members != [] {
      LeftBounds(c, members[0]);
      AllLeftBound(c, members[1..]);
    }
  }

  /** What is left of a run: the host's submissions and the members' steps. */
  function Measure<T>(c: Config<T>, s: State<T>): int {
    (c.N + 1) * c.W - s.host + AllLeft(c, s.members)
  }

  lemma MeasureShrinks<T>(c: Config<T>, s: State<T>, step: Step)
    requires Inv(c, s) && Enabled(c, s, step)
    ensures 0 <= Measure(c, Apply(c, s, step)) < Measure(c, s)
  {
    StepKeeps(c, s, step);
    var s' := Apply(c, s, step);
    AllLeftBound(c, s'.members);
    if !step.Submit? {
      StepShrinks(c, s, step);
      AllLeftUpdated(c, s.members, step.d, s'.members[step.d]);
    }
  }

  /** Every interleaving ends: a run is no longer than what is left where it starts. */
  lemma {:induction false} EveryRunEnds<T>(c: Config<T>, s: State<T>, steps: seq<Step>)
    requires Inv(c, s) && Runs(c, s, steps)
    ensures |steps| <= Measure(c, s)
    decreases |steps|
  {
    AllLeftBound(c, s.members);
    if steps != [] {
      MeasureShrinks(c, s, steps[0]);
      StepKeeps(c, s, steps[0]);
      EveryRunEnds(c, Apply(c, s, steps[0]), steps[1..]);
    }
  }

  /** A run that can go no further has ended all N + 1 submissions of every member and summed every epoch on each. */
  lemma MaximalRunCompletes<T>(c: Config<T>, s: State<T>, steps: seq<Step>)
    requires Initial(c, s) && Runs(c, s, steps)
    requires Shaped(c, After(c, s, steps)) ==> forall step :: !Enabled(c, After(c, s, steps), step)
    ensures var r := After(c, s, steps);
            Complete(c, r) && forall d | 0 <= d < c.W :: |r.members[d].sums| == c.N
  {
    InitialInv(c, s);
    RunKeeps(c, s, steps);
    var r := After(c, s, steps);
    if !Complete(c, r) {
      NeverStuck(c, r);
      assert false;
    }
    forall d | 0 <= d < c.W
      ensures |r.members[d].sums| == c.N
    {
      assert MemberInv(c, r.members[d]);
    }
  }
}
