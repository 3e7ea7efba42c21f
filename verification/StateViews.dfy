/** Recurrent state: the sizes of its slots, the storage that holds them, and the views of a pass, which must not
    depend on their order. */
module StateViews {

  import opened Common

  const MAX: nat := 0xFFFF_FFFF_FFFF_FFFF

  type size = n: int | 0 <= n <= MAX

  // ----- sizes that refuse to wrap -----

  /** The product, or nothing where it would wrap. */
  function SizeMul(a: size, b: size): (r: Option<size>)
    ensures r == if a * b <= MAX then Some(a * b) else None
  {
    if a != 0 && b != 0 then
      MulBound(a, b);
      if b > MAX / a then None else Some(a * b)
    else Some(a * b)
  }

  lemma MulBound(a: nat, b: nat)
    requires a > 0
    ensures b > MAX / a <==> a * b > MAX
  {
    var q, r := MAX / a, MAX % a;
    assert MAX == a * q + r;
    if b > q {
      MulUp(q + 1, b, a);
    } else {
      MulUp(b, q, a);
    }
  }

  lemma MulUp(x: nat, y: nat, a: nat)
    requires x <= y
    ensures a * x <= a * y
  {
  }

  function SizeAdd(a: size, b: size): (r: Option<size>)
    ensures r == if a + b <= MAX then Some(a + b) else None
  {
    if b > MAX - a then None else Some(a + b)
  }

  function Mul(a: Option<size>, b: Option<size>): Option<size> {
    if a.Some? && b.Some? then SizeMul(a.value, b.value) else None
  }

  function Add(a: Option<size>, b: Option<size>): Option<size> {
    if a.Some? && b.Some? then SizeAdd(a.value, b.value) else None
  }

  function Times(a: nat, b: nat): nat { a * b }

  function SlotBytes(floats: nat): nat { floats * 4 }

  const TAPS: size := 4

  datatype Shape = Shape(kHeads: size, vHeads: size, kDim: size, vDim: size)
  {
    /** The doubling of the key heads is not checked: it wraps. */
    function Channels(): Option<size> {
      Add(SizeMul(2 * kHeads % (MAX + 1), kDim), SizeMul(vHeads, vDim))
    }

    function MatrixFloats(): Option<size> { SizeMul(kDim, vDim) }

    function SlotFloats(): Option<size> {
      Add(Mul(Some(vHeads), MatrixFloats()), Mul(Some(TAPS - 1), Channels()))
    }

    /** The floats a slot needs, unbounded. */
    function ExactChannels(): nat { Times(2 * kHeads, kDim) + Times(vHeads, vDim) }

    function ExactSlotFloats(): nat { Times(vHeads, Times(kDim, vDim)) + 3 * ExactChannels() }

    /** The same with the key heads doubled as the source doubles them. */
    function WrappedChannels(): nat { Times(2 * kHeads % (MAX + 1), kDim) + Times(vHeads, vDim) }

    function WrappedSlotFloats(): nat { Times(vHeads, Times(kDim, vDim)) + 3 * WrappedChannels() }

    /** The doubling does not wrap, or what it counts has no floats. */
    predicate Doubles() { kHeads <= MAX / 2 || kDim == 0 }
  }

  /** A count is right where it is the exact one, or refused because that does not fit. */
  predicate Right(count: Option<size>, exact: nat) { count == if exact <= MAX then Some(exact) else None }

  lemma DoublingWraps(s: Shape)
    ensures if s.Doubles() then s.WrappedChannels() == s.ExactChannels() else s.WrappedChannels() < s.ExactChannels()
  {
    var doubled := 2 * s.kHeads % (MAX + 1);
    if s.kHeads <= MAX / 2 {
      assert doubled == 2 * s.kHeads;
    } else {
      assert doubled == 2 * s.kHeads - (MAX + 1);
      assert doubled * s.kDim == 2 * s.kHeads * s.kDim - (MAX + 1) * s.kDim;
      assert s.kDim > 0 ==> (MAX + 1) * s.kDim > 0;
    }
  }

  lemma ChannelsAre(s: Shape)
    ensures s.Channels() == if s.WrappedChannels() <= MAX then Some(s.WrappedChannels()) else None
  {
  }

  /** The channel count is right if and only if the doubled key heads do not wrap, or have no floats, or the sum is
      refused for the rest. */
  lemma ChannelsExact(s: Shape)
    ensures Right(s.Channels(), s.ExactChannels())
       <==> || s.kHeads <= MAX / 2
            || s.kDim == 0
            || Times(2 * s.kHeads % (MAX + 1), s.kDim) + Times(s.vHeads, s.vDim) > MAX
  {
    ChannelsAre(s);
    DoublingWraps(s);
  }

  /** A shape whose channels are counted as none, though it has 2^64. */
  lemma ChannelsWrap()
    ensures var s := Shape(0x8000_0000_0000_0000, 0, 1, 0); s.Channels() == Some(0) && s.ExactChannels() == MAX + 1
  {
  }

  lemma SlotFloatsAre(s: Shape)
    ensures s.SlotFloats() ==
            if Times(s.kDim, s.vDim) <= MAX && s.WrappedSlotFloats() <= MAX then Some(s.WrappedSlotFloats()) else None
  {
    ChannelsAre(s);
    var channels := s.WrappedChannels();
    if Times(s.kDim, s.vDim) > MAX {
      assert s.MatrixFloats() == None;
    } else {
      hide Shape.WrappedChannels, Shape.Channels;
      assert Mul(Some(3), s.Channels()) == if 3 * channels <= MAX then Some(3 * channels) else None;
    }
  }

  /** A slot's floats, where given, are exact if and only if the doubling does not wrap or has no floats, or the count
      is refused; and they are right if and only if besides a matrix that does not fit means that the slot does not.
      */
  lemma SlotFloatsExact(s: Shape)
    ensures (s.SlotFloats().Some? ==> s.SlotFloats().value == s.ExactSlotFloats())
       <==> s.Doubles() || Times(s.kDim, s.vDim) > MAX || s.WrappedSlotFloats() > MAX
    ensures Right(s.SlotFloats(), s.ExactSlotFloats())
       <==> if Times(s.kDim, s.vDim) > MAX then s.vHeads > 0 || 3 * s.ExactChannels() > MAX
            else s.Doubles() || s.WrappedSlotFloats() > MAX
  {
    SlotFloatsAre(s);
    DoublingWraps(s);
    hide Shape.WrappedChannels, Shape.ExactChannels, Shape.SlotFloats;
    if Times(s.kDim, s.vDim) > MAX {
      TimesAtLeast(s.vHeads, Times(s.kDim, s.vDim));
    }
  }

  lemma TimesAtLeast(a: nat, b: nat)
    ensures if a == 0 then Times(a, b) == 0 else Times(a, b) >= b
  {
    if a > 0 {
      MulUp(1, a, b);
    }
  }

  // ----- the storage -----

  /** One buffer a layer, of `sizes` bytes; a slot of layer `l` has `floats[l]` floats. */
  datatype Storage = Storage(sizes: seq<size>, slots: size, shape: Shape, floats: seq<size>)
  {
    ghost predicate Valid() {
      |floats| == |sizes| && forall l | 0 <= l < |sizes| :: Times(slots, SlotBytes(floats[l])) <= sizes[l]
    }
  }

  /** A layer's slot in floats: the shape's and the layer's tail. */
  function LayerFloats(shape: Shape, tails: seq<size>, l: nat): Option<size>
    requires tails == [] || l < |tails|
  {
    Add(shape.SlotFloats(), Some(if tails == [] then 0 else tails[l]))
  }

  /** The bytes of a layer's slots. */
  function LayerBytes(shape: Shape, tails: seq<size>, slots: size, l: nat): (r: Option<size>)
    requires tails == [] || l < |tails|
  {
    Mul(Some(slots), Mul(LayerFloats(shape, tails, l), Some(4)))
  }

  function Tail(tails: seq<size>, l: nat): nat
    requires tails == [] || l < |tails|
  {
    if tails == [] then 0 else tails[l]
  }

  /** The layer's slots have a size if and only if a matrix, a slot and all of them fit; it is then the slots' bytes. */
  lemma LayerBytesAre(shape: Shape, tails: seq<size>, slots: size, l: nat)
    requires tails == [] || l < |tails|
    ensures var floats := shape.WrappedSlotFloats() + Tail(tails, l);
            var bytes := Times(slots, SlotBytes(floats));
            if Times(shape.kDim, shape.vDim) <= MAX && SlotBytes(floats) <= MAX && bytes <= MAX then
              LayerFloats(shape, tails, l) == Some(floats) && LayerBytes(shape, tails, slots, l) == Some(bytes)
            else LayerBytes(shape, tails, slots, l) == None
  {
    SlotFloatsAre(shape);
    hide Shape.SlotFloats, Shape.WrappedSlotFloats;
    var floats := LayerFloats(shape, tails, l);
    assert floats == if Times(shape.kDim, shape.vDim) <= MAX && shape.WrappedSlotFloats() + Tail(tails, l) <= MAX
                     then Some(shape.WrappedSlotFloats() + Tail(tails, l)) else None;
    hide LayerFloats;
    assert Mul(floats, Some(4)) == if floats.Some? && SlotBytes(floats.value) <= MAX
           then Some(SlotBytes(floats.value)) else None;
  }

  /** Every layer's buffer is there and holds the layer's slots of `floats` floats and its tail, in sizes that fit. */
  ghost predicate Holds(buffers: seq<Option<size>>, slots: size, shape: Shape, tails: seq<size>, floats: nat) {
    && (tails == [] || |tails| == |buffers|)
    && forall l: nat | l < |buffers| :: HoldsLayer(buffers[l], slots, shape, floats + Tail(tails, l))
  }

  ghost predicate HoldsLayer(buffer: Option<size>, slots: size, shape: Shape, floats: nat) {
    && Times(shape.kDim, shape.vDim) <= MAX && SlotBytes(floats) <= MAX
    && buffer.Some? && Times(slots, SlotBytes(floats)) <= buffer.value
  }

  /** The storage's layers are the buffers, and its slots the shape's with the tails. */
  ghost predicate Made(s: Storage, buffers: seq<Option<size>>, slots: size, shape: Shape, tails: seq<size>) {
    && s.Valid() && s.slots == slots && s.shape == shape && |s.sizes| == |buffers|
        && (tails == [] || |tails| == |buffers|)
    && forall l: nat | l < |buffers| ::
      buffers[l] == Some(s.sizes[l]) && s.floats[l] == shape.WrappedSlotFloats() + Tail(tails, l)
  }

  /** A storage is made if and only if its buffers hold its slots as the source sizes them, and so, where the doubled
      key heads do not wrap, if and only if they hold slots of the exact size. */
  method MakeStorage(buffers: seq<Option<size>>, slots: size, shape: Shape, tails: seq<size>)
    returns (r: Result<Storage>)
    ensures r.Ok? <==> Holds(buffers, slots, shape, tails, shape.WrappedSlotFloats())
    ensures shape.Doubles() ==> (r.Ok? <==> Holds(buffers, slots, shape, tails, shape.ExactSlotFloats()))
    ensures r.Ok? ==> Made(r.value, buffers, slots, shape, tails)
  {
    DoublingWraps(shape);
    hide Shape.WrappedChannels, Shape.ExactChannels, LayerFloats, LayerBytes, SlotBytes, Times, Tail;
    if tails != [] && |tails| != |buffers| {
      return Err("backend: state tail count differs from its layers");
    }
    ghost var slot := shape.WrappedSlotFloats();
    var bytes: seq<size> := [];
    for l := 0 to |buffers|
      invariant |bytes| == l && forall k: nat | k < l :: LayerBytes(shape, tails, slots, k) == Some(bytes[k])
    {
      LayerBytesAre(shape, tails, slots, l);
      var total := LayerBytes(shape, tails, slots, l);
      if total.None? {
        assert buffers[l].Some? ==> buffers[l].value <= MAX;
        return Err("backend: size overflows");
      }
      bytes := bytes + [total.value];
    }
    var sizes: seq<size>, floats: seq<size> := [], [];
    for l := 0 to |buffers|
      invariant |sizes| == l && |floats| == l
      invariant forall k: nat | k < l :: buffers[k] == Some(sizes[k]) && sizes[k] >= bytes[k]
      invariant forall k: nat | k < l ::
                  floats[k] == slot + Tail(tails, k) && Fits(shape, slots, slot + Tail(tails, k), bytes[k])
    {
      LayerBytesAre(shape, tails, slots, l);
      if buffers[l].None? || buffers[l].value < bytes[l] {
        return Err("backend: state buffer smaller than its slots");
      }
      sizes := sizes + [buffers[l].value];
      floats := floats + [LayerFloats(shape, tails, l).value];
    }
    r := Ok(Storage(sizes, slots, shape, floats));
    forall l: nat | l < |buffers|
      ensures HoldsLayer(buffers[l], slots, shape, slot + Tail(tails, l))
    {
      assert Fits(shape, slots, slot + Tail(tails, l), bytes[l]);
    }
  }

  ghost predicate Fits(shape: Shape, slots: size, floats: nat, bytes: nat) {
    Times(shape.kDim, shape.vDim) <= MAX && SlotBytes(floats) <= MAX && bytes == Times(slots, SlotBytes(floats))
  }

  /** A slot is a byte range inside its layer's buffer, and two slots share no byte. */
  lemma SlotsApart(s: Storage, l: nat, a: nat, b: nat)
    requires s.Valid() && l < |s.sizes| && a < s.slots && b < s.slots
    ensures var bytes := SlotBytes(s.floats[l]);
            && a * bytes + bytes <= s.sizes[l]
            && (a != b ==> a * bytes + bytes <= b * bytes || b * bytes + bytes <= a * bytes)
  {
    var bytes := SlotBytes(s.floats[l]);
    MulUp(a + 1, s.slots, bytes);
    hide Storage.Valid;
    if a < b {
      MulUp(a + 1, b, bytes);
    } else if b < a {
      MulUp(b + 1, a, bytes);
    }
  }

  // ----- views -----

  /** One sequence's rows in a storage, named by its index: the state is read from `src`, or zero where the history is
      empty, and written to `dst`. */
  datatype View = View(storage: Option<nat>, src: size, dst: size, length: size, nq: size)

  predicate InTable(storages: seq<Storage>, views: seq<View>) {
    forall i | 0 <= i < |views| :: views[i].storage.Some? ==> views[i].storage.value < |storages|
  }

  /** The view alone is well formed, and of the first view's shape. */
  predicate ViewOk(storages: seq<Storage>, views: seq<View>, layer: size, i: nat)
    requires InTable(storages, views) && i < |views| && views[0].storage.Some?
    requires layer < |storages[views[0].storage.value].floats|
  {
    var v, first := views[i], storages[views[0].storage.value];
    && v.storage.Some?
    && var s := storages[v.storage.value];
    && layer < |s.sizes| && layer < |s.floats|
    && v.src < s.slots && v.dst < s.slots && v.nq > 0
    && s.shape == first.shape && s.floats[layer] == first.floats[layer]
  }

  /** One of the two writes a slot of a storage that the other reads or writes. */
  predicate Shares(u: View, v: View) {
    u.storage == v.storage && (u.dst == v.dst || u.dst == v.src || u.src == v.dst)
  }

  ghost predicate Accepted(storages: seq<Storage>, views: seq<View>, layer: size)
    requires InTable(storages, views)
  {
    && (views != [] ==> views[0].storage.Some? && layer < |storages[views[0].storage.value].floats|)
    && (forall i: nat | i < |views| :: ViewOk(storages, views, layer, i))
    && Apart(views)
  }

  /** A view and the first one, field by field: it names a storage that has the layer, with slots inside it and rows, of
      the first one's shape and slot size. */
  ghost predicate LikeFirst(storages: seq<Storage>, v: View, first: View, layer: size) {
    && v.storage.Some? && first.storage.Some?
    && v.storage.value < |storages| && first.storage.value < |storages|
    && var s, s1 := storages[v.storage.value], storages[first.storage.value];
    && layer < |s.sizes| && layer < |s.floats| && layer < |s1.floats|
    && v.src < s.slots && v.dst < s.slots && v.nq > 0
    && s.shape.kHeads == s1.shape.kHeads && s.shape.vHeads == s1.shape.vHeads
    && s.shape.kDim == s1.shape.kDim && s.shape.vDim == s1.shape.vDim
    && s.floats[layer] == s1.floats[layer]
  }

  /** Accepted views written out: each fits the first, and no view writes a slot of a storage that another reads or
      writes. */
  lemma AcceptedIs(storages: seq<Storage>, views: seq<View>, layer: size)
    requires InTable(storages, views)
    ensures Accepted(storages, views, layer) <==>
              && (forall i | 0 <= i < |views| :: LikeFirst(storages, views[i], views[0], layer))
              && forall i, j | 0 <= j < i < |views| && views[j].storage == views[i].storage ::
                   views[j].dst != views[i].dst && views[j].dst != views[i].src && views[j].src != views[i].dst
  {
    if Accepted(storages, views, layer) {
      forall i: nat | i < |views|
        ensures LikeFirst(storages, views[i], views[0], layer)
      {
        assert ViewOk(storages, views, layer, i);
      }
    }
    if forall i | 0 <= i < |views| :: LikeFirst(storages, views[i], views[0], layer) {
      forall i: nat | i < |views|
        ensures views[0].storage.Some? && layer < |storages[views[0].storage.value].floats|
        ensures ViewOk(storages, views, layer, i)
      {
        assert LikeFirst(storages, views[0], views[0], layer) && LikeFirst(storages, views[i], views[0], layer);
      }
    }
  }

  ghost predicate Apart(views: seq<View>) {
    forall i, j | 0 <= j < i < |views| :: !Shares(views[j], views[i])
  }

  function Rows(views: seq<View>): nat {
    if views == [] then 0 else Rows(views[..|views| - 1]) + views[|views| - 1].nq
  }

  lemma {:induction false} RowsUp(views: seq<View>, n: nat)
    requires n <= |views|
    ensures Rows(views[..n]) <= Rows(views)
  {
    if n < |views| {
      RowsUp(views[..|views| - 1], n);
      assert views[..|views| - 1][..n] == views[..n];
    } else {
      assert views[..n] == views;
    }
  }

  lemma NoneShare(views: seq<View>)
    requires Apart(views)
    ensures forall i: nat, j: nat | i < |views| && j < |views| && i != j && views[i].storage == views[j].storage ::
              views[i].dst != views[j].dst && views[i].dst != views[j].src
  {
  }

  method SharesEarlier(views: seq<View>, i: nat) returns (shared: bool)
    requires i < |views|
    ensures shared <==> exists j :: 0 <= j < i && Shares(views[j], views[i])
  {
    var v := views[i];
    for j := 0 to i
      invariant forall k | 0 <= k < j :: !Shares(views[k], v)
    {
      var u := views[j];
      if u.storage == v.storage {
        if u.dst == v.dst || u.dst == v.src || u.src == v.dst {
          assert Shares(views[j], views[i]);
          return true;
        }
      }
    }
    shared := false;
  }

  /** The views are accepted, with the count of their rows, if and only if each is well formed, no two share a slot
      that one writes, and the count does not wrap. */
  method CheckStateViews(storages: seq<Storage>, views: seq<View>, layer: size) returns (r: Result<nat>)
    requires InTable(storages, views) && forall s | s in storages :: s.Valid()
    ensures r.Ok? <==> Accepted(storages, views, layer) && Rows(views) <= MAX
    ensures r.Ok? ==> r.value == Rows(views)
    ensures r.Ok? ==> forall i: nat, j: nat | i < |views| && j < |views| && i != j
            && views[i].storage == views[j].storage ::
              views[i].dst != views[j].dst && views[i].dst != views[j].src
  {
    var rows: size := 0;
    for i := 0 to |views|
      invariant i > 0 ==> views[0].storage.Some? && layer < |storages[views[0].storage.value].floats|
      invariant forall k: nat | k < i :: ViewOk(storages, views, layer, k)
      invariant forall k, j | 0 <= j < k < i :: !Shares(views[j], views[k])
      invariant rows == Rows(views[..i])
    {
      var v := views[i];
      assert Accepted(storages, views, layer) ==> ViewOk(storages, views, layer, i);
      if v.storage.None? {
        return Err("backend: state view without storage");
      }
      var s := storages[v.storage.value];
      assert s.Valid();
      if layer >= |s.sizes| {
        return Err("backend: state layer outside the storage");
      }
      if v.src >= s.slots || v.dst >= s.slots {
        return Err("backend: state slot outside the storage");
      }
      if v.nq == 0 {
        return Err("backend: state view without rows");
      }
      var first := storages[views[0].storage.value];
      if s.shape != first.shape || s.floats[layer] != first.floats[layer] {
        return Err("backend: state views of different shapes");
      }
      var shared := SharesEarlier(views, i);
      if shared {
        return Err("backend: a state slot written by one view is used by another");
      }
      hide Storage.Valid, Shares;
      assert views[..i + 1][..i] == views[..i];
      RowsUp(views, i + 1);
      var sum := SizeAdd(rows, v.nq);
      if sum.None? {
        return Err("backend: size overflows");
      }
      rows := sum.value;
    }
    assert views[..|views|] == views;
    r := Ok(rows);
    NoneShare(views);
  }

  /** Both slots of an accepted view are byte ranges inside its layer's buffer, and the slot it writes shares no byte
      with a slot that another view of its storage reads or writes. */
  lemma AcceptedSlots(storages: seq<Storage>, views: seq<View>, layer: size, i: nat, j: nat)
    requires InTable(storages, views) && (forall s | s in storages :: s.Valid()) && Accepted(storages, views, layer)
    requires i < |views| && j < |views| && i != j
    ensures views[i].storage.Some? && layer < |storages[views[i].storage.value].sizes|
    ensures var v, u, s := views[i], views[j], storages[views[i].storage.value];
            && layer < |s.floats|
            && var bytes: int := 4 * (s.floats[layer] as int);
            && v.src * bytes + bytes <= s.sizes[layer] && v.dst * bytes + bytes <= s.sizes[layer]
            && (u.storage == v.storage ==> Beside(v.dst, u.src, bytes) && Beside(v.dst, u.dst, bytes))
  {
    assert ViewOk(storages, views, layer, i) && ViewOk(storages, views, layer, j);
    var v, u, s := views[i], views[j], storages[views[i].storage.value];
    assert s in storages && s.Valid();
    assert !Shares(views[if i < j then i else j], views[if i < j then j else i]);
    hide Accepted, Storage.Valid;
    SlotsApart(s, layer, v.src, v.dst);
    SlotsApart(s, layer, v.dst, v.dst);
    if u.storage == v.storage {
      SlotsApart(s, layer, v.dst, u.src);
      SlotsApart(s, layer, v.dst, u.dst);
    }
  }

  /** Two ranges of `bytes` bytes, the `a`-th and the `b`-th, share no byte. */
  ghost predicate Beside(a: nat, b: nat, bytes: nat) {
    a * bytes + bytes <= b * bytes || b * bytes + bytes <= a * bytes
  }

  // ----- running the views in some order -----

  type Key = (nat, nat)

  /** What the op does with a view's rows: the view's index stands for them. */
  datatype Op<!T, !O> = Op(zero: T, next: (nat, T) -> T, out: (nat, T) -> O)

  function Source(v: View): Key
    requires v.storage.Some?
  {
    (v.storage.value, v.src)
  }

  function Target(v: View): Key
    requires v.storage.Some?
  {
    (v.storage.value, v.dst)
  }

  ghost predicate Named(views: seq<View>) { forall i | 0 <= i < |views| :: views[i].storage.Some? }

  /** The state a view starts from. */
  function Read<T, O>(op: Op<T, O>, world: map<Key, T>, v: View): T
    requires v.storage.Some?
  {
    if v.length == 0 || Source(v) !in world then op.zero else world[Source(v)]
  }

  datatype Ran<T, O> = Ran(world: map<Key, T>, outs: map<nat, O>)

  ghost predicate Order(order: seq<nat>, n: nat) {
    (forall a | 0 <= a < |order| :: order[a] < n) && forall a, b | 0 <= a < b < |order| :: order[a] != order[b]
  }

  /** The views run one after another in the given order. */
  ghost function Run<T, O>(op: Op<T, O>, world: map<Key, T>, views: seq<View>, order: seq<nat>): Ran<T, O>
    requires Named(views) && forall a | 0 <= a < |order| :: order[a] < |views|
  {
    if order == [] then Ran(world, map[]) else
      var i := order[|order| - 1];
      var before := Run(op, world, views, order[..|order| - 1]);
      var state := Read(op, before.world, views[i]);
      Ran(before.world[Target(views[i]) := op.next(i, state)], before.outs[i := op.out(i, state)])
  }

  /** One view writes what the other reads or writes; a zero state is not read. */
  predicate Conflicts(u: View, v: View) {
    && u.storage == v.storage
    && (u.dst == v.dst || (u.dst == v.src && v.length > 0) || (u.src == v.dst && u.length > 0))
  }

  ghost predicate NoConflicts(views: seq<View>) {
    forall i, j | 0 <= i < |views| && 0 <= j < |views| && i != j :: !Conflicts(views[i], views[j])
  }

  lemma ApartIsFree(views: seq<View>)
    requires Apart(views)
    ensures NoConflicts(views)
  {
  }

  /** A slot holds what the view that writes it, if one of those that have run does, makes of the first world; or what
      it held. */
  ghost predicate SlotIs<T, O>(op: Op<T, O>, world: map<Key, T>, views: seq<View>, order: seq<nat>,
                               after: map<Key, T>, key: Key)
    requires Named(views)
  {
    if Written(views, order, key) then
      key in after && forall i: nat | i < |views| && i in order && Target(views[i]) == key ::
          after[key] == op.next(i, Read(op, world, views[i]))
    else
      (key in after <==> key in world) && (key in world ==> after[key] == world[key])
  }

  ghost predicate Written(views: seq<View>, order: seq<nat>, key: Key)
    requires Named(views)
  {
    exists i: nat :: i < |views| && i in order && Target(views[i]) == key
  }

  /** Running the views in the order is as if each had read the first world. */
  ghost predicate AtOnce<T, O>(op: Op<T, O>, world: map<Key, T>, views: seq<View>, order: seq<nat>, r: Ran<T, O>)
    requires Named(views)
  {
    && (forall key :: SlotIs(op, world, views, order, r.world, key))
    && (forall i :: i in r.outs <==> i in order)
    && (forall i: nat | i < |views| && i in order :: r.outs[i] == op.out(i, Read(op, world, views[i])))
  }

  lemma ReadsFirst<T, O>(op: Op<T, O>, world: map<Key, T>, views: seq<View>, order: seq<nat>, after: map<Key, T>,
                         i: nat)
    requires Named(views) && NoConflicts(views) && i < |views| && i !in order
    requires SlotIs(op, world, views, order, after, Source(views[i]))
    ensures Read(op, after, views[i]) == Read(op, world, views[i])
  {
    if views[i].length > 0 && Written(views, order, Source(views[i])) {
      var k: nat :| k < |views| && k in order && Target(views[k]) == Source(views[i]);
      assert Conflicts(views[k], views[i]);
      assert false;
    }
  }

  lemma {:induction false} RunAtOnce<T, O>(op: Op<T, O>, world: map<Key, T>, views: seq<View>, order: seq<nat>)
    requires Named(views) && NoConflicts(views) && Order(order, |views|)
    ensures AtOnce(op, world, views, order, Run(op, world, views, order))
  {
    if order != [] {
      var n := |order| - 1;
      var i, front := order[n], order[..n];
      RunAtOnce(op, world, views, front);
      var before := Run(op, world, views, front);
      var r := Run(op, world, views, order);
      assert i !in front;
      ReadsFirst(op, world, views, front, before.world, i);
      assert forall k :: k in order <==> k in front || k == i;
      forall key
        ensures SlotIs(op, world, views, order, r.world, key)
      {
        NextSlot(op, world, views, order, before.world, r.world, key);
      }
    }
  }

  lemma NextSlot<T, O>(op: Op<T, O>, world: map<Key, T>, views: seq<View>, order: seq<nat>, before: map<Key, T>,
                       after: map<Key, T>, key: Key)
    requires Named(views) && NoConflicts(views) && Order(order, |views|) && order != []
    requires SlotIs(op, world, views, order[..|order| - 1], before, key)
    requires var i := order[|order| - 1]; after == before[Target(views[i]) := op.next(i, Read(op, world, views[i]))]
    ensures SlotIs(op, world, views, order, after, key)
  {
    var i, front := order[|order| - 1], order[..|order| - 1];
    assert forall k :: k in order <==> k in front || k == i;
    if Target(views[i]) == key {
      forall k: nat | k < |views| && k in order && Target(views[k]) == key
        ensures k == i
      {
        if k != i {
          assert Conflicts(views[k], views[i]);
          assert false;
        }
      }
    } else {
      assert Written(views, order, key) <==> Written(views, front, key);
    }
  }

  /** Every view runs once. */
  ghost predicate Whole(order: seq<nat>, n: nat) {
    Order(order, n) && forall i: nat | i < n :: i in order
  }

  /** Views without a conflict, and so all that are accepted, leave the same slots and outputs in every order. */
  lemma AnyOrder<T, O>(op: Op<T, O>, world: map<Key, T>, views: seq<View>, a: seq<nat>, b: seq<nat>)
    requires Named(views) && NoConflicts(views) && Whole(a, |views|) && Whole(b, |views|)
    ensures Run(op, world, views, a) == Run(op, world, views, b)
  {
    RunAtOnce(op, world, views, a);
    RunAtOnce(op, world, views, b);
    var x, y := Run(op, world, views, a), Run(op, world, views, b);
    assert forall i :: i in a <==> i in b;
    forall key
      ensures (key in x.world <==> key in y.world) && (key in x.world ==> x.world[key] == y.world[key])
    {
      assert SlotIs(op, world, views, a, x.world, key) && SlotIs(op, world, views, b, y.world, key);
      assert Written(views, a, key) <==> Written(views, b, key);
    }
    assert x.world == y.world;
    assert x.outs == y.outs;
  }

  lemma AcceptedAnyOrder<T, O>(storages: seq<Storage>, op: Op<T, O>, world: map<Key, T>, views: seq<View>,
                               layer: size, a: seq<nat>, b: seq<nat>)
    requires InTable(storages, views) && Accepted(storages, views, layer)
    requires Whole(a, |views|) && Whole(b, |views|)
    ensures Named(views) && Run(op, world, views, a) == Run(op, world, views, b)
  {
    forall i: nat | i < |views|
      ensures views[i].storage.Some?
    {
      assert ViewOk(storages, views, layer, i);
    }
    ApartIsFree(views);
    AnyOrder(op, world, views, a, b);
  }

  function Counting(): Op<int, int> { Op(0, (i: nat, s: int) => s + i + 1, (i: nat, s: int) => s) }

  /** Two views with a conflict do depend on their order: an op that counts and returns what it reads tells the orders
      apart. */
  lemma ConflictTells(u: View, v: View)
    requires u.storage.Some? && v.storage.Some? && Conflicts(u, v)
    ensures Run(Counting(), map[], [u, v], [0, 1]) != Run(Counting(), map[], [u, v], [1, 0])
  {
    var op := Counting();
    var views := [u, v];
    var uv, vu := Run(op, map[], views, [0, 1]), Run(op, map[], views, [1, 0]);
    var none: seq<nat>, one: seq<nat>, two: seq<nat> := [], [0], [1];
    assert [0, 1][..1] == one && [1, 0][..1] == two && one[..0] == none && two[..0] == none;
    var w: map<Key, int> := map[];
    assert Run(op, w, views, none).world == w;
    assert Run(op, w, views, one).world == map[Target(u) := 1] && Run(op, w, views, one).outs == map[0 := 0];
    assert Run(op, w, views, two).world == map[Target(v) := 2] && Run(op, w, views, two).outs == map[1 := 0];
    if u.dst == v.src && v.length > 0 {
      assert uv.outs[1] == 1 && vu.outs[1] == 0;
    } else if u.src == v.dst && u.length > 0 {
      assert uv.outs[0] == 0 && vu.outs[0] == 2;
    } else {
      assert uv.world[Target(u)] == 2 && vu.world[Target(u)] == 1;
    }
  }
}
