/** The layered reference: a model whose modules hold weights only while they run, evaluated layer by layer over all
    rows, with the logits of earlier runs kept. */
module Layered {

  import opened Common

  type Row = seq<int>

  /** A module that is given its weights and loses them again. */
  datatype Part = Embed | Layer(i: nat) | Norm | Head

  /** What the modules compute; a layer also reads what the row alone gives: its positions and masks. */
  datatype Net<!H, !L> = Net(layers: nat, embed: Row -> H, layer: (nat, Row, H) -> H, norm: H -> H, head: H -> L)

  function Hidden<H, L>(net: Net<H, L>, row: Row, n: nat): H {
    if n == 0 then net.embed(row) else net.layer(n - 1, row, Hidden(net, row, n - 1))
  }

  /** The full forward over a row alone. */
  function Full<H, L>(net: Net<H, L>, row: Row): L {
    net.head(net.norm(Hidden(net, row, net.layers)))
  }

  /** The forward is the embedding, each layer in turn on what the one before gave, and the norm and the head. */
  lemma ForwardIs<H, L>(net: Net<H, L>, row: Row, n: nat)
    ensures Hidden(net, row, 0) == net.embed(row)
    ensures Hidden(net, row, n + 1) == net.layer(n, row, Hidden(net, row, n))
    ensures Full(net, row) == net.head(net.norm(Hidden(net, row, net.layers)))
  {
  }

  function LayerLoads(n: nat): multiset<Part> {
    if n == 0 then multiset{} else LayerLoads(n - 1) + multiset{Layer(n - 1)}
  }

  /** What a run loads. */
  function RunLoads(layers: nat): multiset<Part> { multiset{Embed} + LayerLoads(layers) + multiset{Norm, Head} }

  lemma {:induction false} LayerLoadsOnce(n: nat, p: Part)
    ensures LayerLoads(n)[p] == if p.Layer? && p.i < n then 1 else 0
  {
    if n > 0 {
      LayerLoadsOnce(n - 1, p);
    }
  }

  /** Each module of the model is loaded once, and nothing else. */
  lemma RunLoadsOnce(layers: nat, p: Part)
    ensures RunLoads(layers)[p] == if p.Layer? && p.i >= layers then 0 else 1
  {
    LayerLoadsOnce(layers, p);
  }

  ghost predicate Distinct(rows: seq<Row>) {
    forall i, j | 0 <= i < j < |rows| :: rows[i] != rows[j]
  }

  /** The rows to compute, each once, in the order they first come. */
  method Todo<L>(rows: seq<Row>, known: map<Row, L>) returns (todo: seq<Row>)
    ensures Distinct(todo)
    ensures forall r :: r in todo <==> r in rows && r !in known
  {
    todo := [];
    for k := 0 to |rows|
      invariant Distinct(todo)
      invariant forall r :: r in todo <==> r in rows[..k] && r !in known
    {
      if rows[k] !in todo && rows[k] !in known {
        todo := todo + [rows[k]];
      }
    }
    assert rows[..|rows|] == rows;
  }

  class Reference<H, L> {
    const net: Net<H, L>
    var logits: map<Row, L>
    /** The modules that hold weights. */
    var held: set<Part>
    /** How often each module has been given its weights. */
    var loads: multiset<Part>

    /** The logits kept are those of the full forward, and between runs no module holds weights. */
    ghost predicate Valid()
      reads this
    {
      held == {} && Right(logits)
    }

    ghost predicate Right(memo: map<Row, L>) {
      forall r | r in memo :: memo[r] == Full(net, r)
    }

    constructor (net: Net<H, L>)
      ensures Valid() && this.net == net && logits == map[] && loads == multiset{}
    {
      this.net := net;
      logits, held, loads := map[], {}, multiset{};
    }

    /** A decoder layer is loaded only while no other holds weights. */
    method Load(p: Part)
      requires p.Layer? ==> forall i: nat :: Layer(i) !in held
      modifies this`held, this`loads
      ensures held == old(held) + {p} && loads == old(loads) + multiset{p}
    {
      held, loads := held + {p}, loads + multiset{p};
    }

    method Release(p: Part)
      modifies this`held
      ensures held == old(held) - {p}
    {
      held := held - {p};
    }

    // The modules' calls, each while its weights are held.

    method RunLayer(i: nat, row: Row, h: H) returns (next: H)
      requires Layer(i) in held
      ensures next == net.layer(i, row, h)
    {
      next := net.layer(i, row, h);
    }

    method RunEmbed(row: Row) returns (h: H)
      requires Embed in held
      ensures h == net.embed(row)
    {
      h := net.embed(row);
    }

    method RunHead(h: H) returns (l: L)
      requires Norm in held && Head in held
      ensures l == net.head(net.norm(h))
    {
      l := net.head(net.norm(h));
    }

    /** Every state moved on by one layer, under the one load of its weights. */
    method StepAll(i: nat, todo: seq<Row>, states: seq<H>) returns (next: seq<H>)
      requires held == {} && |states| == |todo|
      requires forall k | 0 <= k < |todo| :: states[k] == Hidden(net, todo[k], i)
      modifies this`held, this`loads
      ensures held == {} && loads == old(loads) + multiset{Layer(i)}
      ensures |next| == |todo| && forall k | 0 <= k < |todo| :: next[k] == Hidden(net, todo[k], i + 1)
    {
      Load(Layer(i));
      next := [];
      for k := 0 to |todo|
        invariant held == {Layer(i)} && loads == old(loads) + multiset{Layer(i)} && |next| == k
        invariant forall j | 0 <= j < k :: next[j] == Hidden(net, todo[j], i + 1)
      {
        var h := RunLayer(i, todo[k], states[k]);
        next := next + [h];
      }
      Release(Layer(i));
    }

    method EmbedAll(todo: seq<Row>) returns (states: seq<H>)
      requires held == {}
      modifies this`held, this`loads
      ensures held == {} && loads == old(loads) + multiset{Embed}
      ensures |states| == |todo| && forall k | 0 <= k < |todo| :: states[k] == Hidden(net, todo[k], 0)
    {
      Load(Embed);
      states := [];
      for k := 0 to |todo|
        invariant held == {Embed} && loads == old(loads) + multiset{Embed} && |states| == k
        invariant forall j | 0 <= j < k :: states[j] == Hidden(net, todo[j], 0)
      {
        var h := RunEmbed(todo[k]);
        states := states + [h];
      }
      Release(Embed);
    }

    ghost predicate Kept(before: map<Row, L>, rows: seq<Row>, after: map<Row, L>) {
      && after.Keys == before.Keys + (set r | r in rows)
      && (forall r | r in before :: after[r] == before[r])
      && forall r | r in rows && r !in before :: after[r] == Full(net, r)
    }

    /** The final norm and the head over every state. */
    method HeadAll(todo: seq<Row>, states: seq<H>)
      requires held == {} && |states| == |todo|
      requires forall k | 0 <= k < |todo| :: states[k] == Hidden(net, todo[k], net.layers)
      requires forall r | r in todo :: r !in logits
      modifies this
      ensures held == {} && loads == old(loads) + multiset{Norm, Head}
      ensures Kept(old(logits), todo, logits)
    {
      Load(Norm);
      Load(Head);
      for k := 0 to |todo|
        invariant held == {Norm, Head} && loads == old(loads) + multiset{Norm, Head}
        invariant Kept(old(logits), todo[..k], logits)
      {
        var l := RunHead(states[k]);
        assert todo[..k + 1] == todo[..k] + [todo[k]];
        logits := logits[todo[k] := l];
      }
      Release(Norm);
      Release(Head);
      assert todo[..|todo|] == todo;
    }

    /** The layer-by-layer run: every row's logits are the full forward's, and each module is loaded once however many
        rows there are. */
    method Run(rows: seq<Row>)
      requires Valid()
      modifies this
      ensures Valid()
      ensures logits.Keys == old(logits.Keys) + set r | r in rows
      ensures forall r | r in old(logits) :: logits[r] == old(logits)[r]
      ensures forall r | r in rows :: logits[r] == Full(net, r)
      ensures loads == old(loads) + RunLoads(net.layers)
    {
      var todo := Todo(rows, logits);
      var states := EmbedAll(todo);
      for i := 0 to net.layers
        invariant held == {} && logits == old(logits) && |states| == |todo|
        invariant loads == old(loads) + multiset{Embed} + LayerLoads(i)
        invariant forall k | 0 <= k < |todo| :: states[k] == Hidden(net, todo[k], i)
      {
        states := StepAll(i, todo, states);
      }
      HeadAll(todo, states);
    }

    /** The logits of a row that has been run, or a refusal. */
    method Call(row: Row) returns (r: Option<L>)
      requires Valid()
      ensures r == if row in logits then Some(Full(net, row)) else None
    {
      r := if row in logits then Some(logits[row]) else None;
    }
  }
}
