/** The table of Unicode classes: runs of neighbouring code points with the same bits, and the search that reads a
    code point's bits back. */
module UnicodeTable {

  datatype Range = Range(first: nat, last: nat, bits: nat)

  type Classes = map<nat, nat>

  function Bits(classes: Classes, cp: nat): nat { if cp in classes then classes[cp] else 0 }

  ghost predicate Ascending(cps: seq<nat>) { forall i, j | 0 <= i < j < |cps| :: cps[i] < cps[j] }

  /** The code points of a map in order. */
  ghost predicate KeysOf(cps: seq<nat>, classes: Classes) {
    Ascending(cps) && forall cp :: cp in cps <==> cp in classes
  }

  /** Sorted, disjoint, nonempty runs. */
  ghost predicate Sorted(runs: seq<Range>) {
    && (forall i | 0 <= i < |runs| :: runs[i].first <= runs[i].last)
    && forall i, j | 0 <= i < j < |runs| :: runs[i].last < runs[j].first
  }

  predicate Holds(r: Range, cp: nat) { r.first <= cp <= r.last }

  /** Some run holds the code point. */
  ghost predicate Covered(runs: seq<Range>, cp: nat) { exists i :: 0 <= i < |runs| && Holds(runs[i], cp) }

  /** The runs hold exactly the map's code points, each with the map's bits. */
  ghost predicate Represents(runs: seq<Range>, classes: Classes) {
    && (forall cp :: cp in classes <==> Covered(runs, cp))
    && forall i, cp | 0 <= i < |runs| && Holds(runs[i], cp) :: Bits(classes, cp) == runs[i].bits
  }

  /** No run could be joined to the next. */
  ghost predicate Maximal(runs: seq<Range>) {
    forall i | 0 <= i < |runs| - 1 :: runs[i + 1].first > runs[i].last + 1 || runs[i + 1].bits != runs[i].bits
  }

  /** The classes of the code points listed. */
  function Upto(classes: Classes, cps: seq<nat>): Classes {
    map cp | cp in classes && cp in cps :: classes[cp]
  }

  /** The last run extended by the code point where it can be, or a new run. */
  function Extended(runs: seq<Range>, cp: nat, bits: nat): (next: seq<Range>)
    ensures next != [] && next[|next| - 1].last == cp
  {
    var last := |runs| - 1;
    if runs != [] && runs[last].last + 1 == cp && runs[last].bits == bits then runs[last := runs[last].(last := cp)]
    else runs + [Range(cp, cp, bits)]
  }

  /** The runs of a map, from its code points in order. */
  method Ranges(classes: Classes, cps: seq<nat>) returns (runs: seq<Range>)
    requires KeysOf(cps, classes)
    ensures Sorted(runs) && Represents(runs, classes) && Maximal(runs)
  {
    runs := [];
    assert Represents(runs, Upto(classes, cps[..0]));
    for i := 0 to |cps|
      invariant Sorted(runs) && Maximal(runs) && Represents(runs, Upto(classes, cps[..i]))
      invariant runs != [] ==> i > 0 && runs[|runs| - 1].last == cps[i - 1]
    {
      var cp := cps[i];
      assert cp in cps;
      assert runs != [] ==> runs[|runs| - 1].last < cp;
      UptoNext(classes, cps, i);
      ExtendedSorted(runs, cp, classes[cp]);
      ExtendedRepresents(runs, Upto(classes, cps[..i]), cp, classes[cp]);
      hide *;
      runs := Extended(runs, cp, classes[cp]);
    }
    assert cps[..|cps|] == cps;
    assert Upto(classes, cps) == classes;
  }

  lemma UptoNext(classes: Classes, cps: seq<nat>, i: nat)
    requires KeysOf(cps, classes) && i < |cps|
    ensures cps[i] in classes && Upto(classes, cps[..i + 1]) == Upto(classes, cps[..i])[cps[i] := classes[cps[i]]]
  {
    assert cps[i] in cps;
    assert cps[..i + 1] == cps[..i] + [cps[i]];
  }

  lemma ExtendedSorted(runs: seq<Range>, cp: nat, bits: nat)
    requires Sorted(runs) && Maximal(runs) && (runs != [] ==> runs[|runs| - 1].last < cp)
    ensures Sorted(Extended(runs, cp, bits)) && Maximal(Extended(runs, cp, bits))
  {
    var next := Extended(runs, cp, bits);
    forall i, j | 0 <= i < j < |next|
      ensures next[i].last < next[j].first
    {
      assert i < |runs| && next[i] == runs[i];
      LastsUp(runs, i, |runs| - 1);
    }
  }

  lemma LastsUp(runs: seq<Range>, i: nat, j: nat)
    requires Sorted(runs) && i <= j < |runs|
    ensures runs[i].last <= runs[j].last && (i < j ==> runs[i].last < runs[j].first)
  {
  }

  lemma HeldAfter(runs: seq<Range>, cp: nat, bits: nat, k: nat, c: nat)
    requires Sorted(runs) && (runs != [] ==> runs[|runs| - 1].last < cp)
    requires k < |Extended(runs, cp, bits)| && Holds(Extended(runs, cp, bits)[k], c)
    ensures if c == cp then Extended(runs, cp, bits)[k].bits == bits
            else k < |runs| && Holds(runs[k], c) && Extended(runs, cp, bits)[k].bits == runs[k].bits
  {
    if k < |runs| {
      LastsUp(runs, k, |runs| - 1);
    }
  }

  lemma HeldBefore(runs: seq<Range>, cp: nat, bits: nat, k: nat, c: nat)
    requires runs != [] ==> runs[|runs| - 1].last < cp
    requires k < |runs| && Holds(runs[k], c)
    ensures k < |Extended(runs, cp, bits)| && Holds(Extended(runs, cp, bits)[k], c)
  {
  }

  lemma ExtendedRepresents(runs: seq<Range>, classes: Classes, cp: nat, bits: nat)
    requires Sorted(runs) && Represents(runs, classes) && (runs != [] ==> runs[|runs| - 1].last < cp)
    ensures Represents(Extended(runs, cp, bits), classes[cp := bits])
  {
    var next, after := Extended(runs, cp, bits), classes[cp := bits];
    forall k, c | 0 <= k < |next| && Holds(next[k], c)
      ensures Bits(after, c) == next[k].bits
    {
      HeldAfter(runs, cp, bits, k, c);
      if c != cp {
        assert Bits(classes, c) == runs[k].bits;
      }
    }
    forall c
      ensures c in after <==> Covered(next, c)
    {
      if Covered(next, c) {
        var k :| 0 <= k < |next| && Holds(next[k], c);
        HeldAfter(runs, cp, bits, k, c);
      }
      if Covered(runs, c) {
        var k :| 0 <= k < |runs| && Holds(runs[k], c);
        HeldBefore(runs, cp, bits, k, c);
      }
      if c == cp {
        hide Extended;
        ExtendedHolds(runs, cp, bits);
      }
    }
  }

  lemma ExtendedHolds(runs: seq<Range>, cp: nat, bits: nat)
    requires runs != [] ==> runs[|runs| - 1].first <= runs[|runs| - 1].last < cp
    ensures Covered(Extended(runs, cp, bits), cp)
  {
    var next := Extended(runs, cp, bits);
    assert Holds(next[|next| - 1], cp);
  }

  /** The emitted search: every code point's bits, 0 for one in no run. */
  method Of(runs: seq<Range>, cp: nat, ghost classes: Classes) returns (bits: nat)
    requires Sorted(runs) && Represents(runs, classes)
    ensures bits == if cp in classes then classes[cp] else 0
  {
    var lo, hi := 0, |runs|;
    while lo < hi
      invariant 0 <= lo <= hi <= |runs|
      invariant forall i | 0 <= i < lo :: runs[i].last < cp
      invariant forall i | hi <= i < |runs| :: runs[i].first > cp
    {
      var mid := (lo + hi) / 2;
      if runs[mid].last < cp {
        assert forall i | 0 <= i < mid :: runs[i].last < runs[mid].first;
        lo := mid + 1;
      } else if runs[mid].first > cp {
        assert forall i | mid < i < |runs| :: runs[mid].last < runs[i].first;
        hi := mid;
      } else {
        assert Holds(runs[mid], cp);
        assert Covered(runs, cp) && Bits(classes, cp) == runs[mid].bits;
        return runs[mid].bits;
      }
    }
    assert !Covered(runs, cp);
    bits := 0;
  }

  // ----- no shorter list -----

  /** Which run of a list holds the code point. */
  ghost function At(runs: seq<Range>, cp: nat): (i: nat)
    requires Covered(runs, cp)
    ensures i < |runs| && Holds(runs[i], cp)
  {
    var i :| 0 <= i < |runs| && Holds(runs[i], cp); i
  }

  /** The code point after a run of a maximal list has no class, or other bits than the run. */
  lemma AfterRun(runs: seq<Range>, classes: Classes, i: nat)
    requires Sorted(runs) && Represents(runs, classes) && Maximal(runs) && i < |runs|
    ensures var e := runs[i].last;
            && Bits(classes, e) == runs[i].bits
            && (e + 1 in classes ==> Bits(classes, e + 1) != Bits(classes, e))
  {
    var e := runs[i].last;
    assert Holds(runs[i], e);
    if e + 1 in classes {
      var k := At(runs, e + 1);
      NextRun(runs, i, k);
    }
  }

  lemma NextRun(runs: seq<Range>, i: nat, k: nat)
    requires Sorted(runs) && i < |runs| && k < |runs| && Holds(runs[k], runs[i].last + 1)
    ensures k == i + 1 && runs[k].first == runs[i].last + 1
  {
    if k <= i {
      LastsUp(runs, k, i);
    } else {
      LastsUp(runs, i, i + 1);
      LastsUp(runs, i + 1, k);
    }
  }

  /** Code points that begin different runs of a maximal list are in different runs of any other list of the same map.
      */
  lemma RunsApart(runs: seq<Range>, other: seq<Range>, classes: Classes, i: nat, j: nat)
    requires Sorted(runs) && Represents(runs, classes) && Maximal(runs)
    requires Sorted(other) && Represents(other, classes)
    requires i < j < |runs|
    ensures Covered(other, runs[i].first) && Covered(other, runs[j].first)
    ensures At(other, runs[i].first) < At(other, runs[j].first)
  {
    var a, e, b := runs[i].first, runs[i].last, runs[j].first;
    assert Holds(runs[i], a) && Holds(runs[j], b);
    assert Covered(runs, a) && Covered(runs, b);
    LastsUp(runs, i, j);
    var x, y := At(other, a), At(other, b);
    if x > y {
      LastsUp(other, y, x);
    } else if x == y {
      assert Holds(other[x], e) && Holds(other[x], e + 1);
      assert Covered(other, e + 1);
      AfterRun(runs, classes, i);
    }
  }

  lemma {:induction false} Climbs(runs: seq<Range>, other: seq<Range>, classes: Classes, i: nat)
    requires Sorted(runs) && Represents(runs, classes) && Maximal(runs)
    requires Sorted(other) && Represents(other, classes)
    requires i < |runs|
    ensures Covered(other, runs[i].first) && At(other, runs[i].first) >= i
  {
    if i > 0 {
      Climbs(runs, other, classes, i - 1);
      RunsApart(runs, other, classes, i - 1, i);
    } else {
      assert Holds(runs[0], runs[0].first);
    }
  }

  /** No shorter list of sorted runs holds the same map. */
  lemma Shortest(runs: seq<Range>, other: seq<Range>, classes: Classes)
    requires Sorted(runs) && Represents(runs, classes) && Maximal(runs)
    requires Sorted(other) && Represents(other, classes)
    ensures |runs| <= |other|
  {
    if runs != [] {
      Climbs(runs, other, classes, |runs| - 1);
    }
  }
}
