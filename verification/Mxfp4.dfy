/** MXFP4 blocks: a shared power of two and four-bit codes (OCP Microscaling Formats v1.0, sections 5.3.3 and 6.3).
    Values are real numbers: every scaling here is by a power of two, which binary floating point does exactly. */
module Mxfp4 {
  import opened Common

  // ----- powers of two -----

  function P(e: int): (p: real)
    ensures p > 0.0
    decreases if e < 0 then -e else e
  {
    if e == 0 then 1.0 else if e > 0 then 2.0 * P(e - 1) else P(e + 1) / 2.0
  }

  lemma Next(e: int)
    ensures P(e + 1) == 2.0 * P(e)
  {
  }

  lemma {:induction false} Inverse(e: int)
    ensures P(e) * P(-e) == 1.0
    decreases if e < 0 then -e else e, e < 0
  {
    if e > 0 {
      Inverse(e - 1);
      Next(-e);
      hide P;
      Next(e - 1);
      Regroup(P(e - 1), P(-e));
    } else if e < 0 {
      Inverse(-e);
    }
  }

  lemma Regroup(x: real, y: real)
    ensures 2.0 * x * y == x * (2.0 * y)
  {
  }

  lemma Up(x: real, y: real, a: real)
    requires x <= y && a > 0.0
    ensures a * x <= a * y && x * a <= y * a
  {
    assert a * (y - x) >= 0.0;
  }

  lemma Less(x: real, y: real, a: real)
    requires x < y && a > 0.0
    ensures x * a < y * a
  {
    assert a * (y - x) > 0.0;
  }

  lemma AbsTimes(x: real, y: real, a: real)
    requires a > 0.0
    ensures Abs(x * a - y * a) == Abs(x - y) * a
  {
    assert x * a - y * a == (x - y) * a;
    if x < y { Less(x, y, a); } else { Up(y, x, a); }
  }

  function Abs(x: real): (a: real)
    ensures a >= 0.0
  {
    if x < 0.0 then -x else x
  }

  function Ceiling(a: real): nat
    requires a > 0.0
  {
    if a >= 1.0 then a.Floor else 1 + (1.0 / a).Floor
  }

  lemma HalfIsLess(a: real)
    requires a >= 2.0
    ensures (a / 2.0).Floor < a.Floor
  {
  }

  lemma DoubleIsLess(a: real)
    requires 0.0 < a < 1.0
    ensures Ceiling(2.0 * a) < Ceiling(a)
  {
    var b := 1.0 / a;
    assert a * b == 1.0;
    assert b > 1.0 by { if b <= 1.0 { Up(b, 1.0, a); } }
    if 2.0 * a < 1.0 {
      var c := 1.0 / (2.0 * a);
      assert c == b / 2.0 by {
        assert (2.0 * a) * c == 1.0;
        assert a * (2.0 * c) == 1.0;
        assert a * (b - 2.0 * c) == 0.0;
      }
      assert b > 2.0 by { if b <= 2.0 { Up(b, 2.0, a); } }
    }
  }

  /** The exponent of the greatest power of two not above `a`. */
  function Log2(a: real): int
    requires a > 0.0
    decreases Ceiling(a)
  {
    if a >= 2.0 then HalfIsLess(a); 1 + Log2(a / 2.0)
    else if a < 1.0 then DoubleIsLess(a); Log2(2.0 * a) - 1
    else 0
  }

  lemma {:induction false} Log2Is(a: real)
    requires a > 0.0
    ensures P(Log2(a)) <= a < P(Log2(a) + 1)
    decreases Ceiling(a)
  {
    if a >= 2.0 {
      HalfIsLess(a);
      Log2Is(a / 2.0);
      Next(Log2(a / 2.0));
      Next(Log2(a));
    } else if a < 1.0 {
      DoubleIsLess(a);
      Log2Is(2.0 * a);
      Next(Log2(2.0 * a) - 1);
      Next(Log2(2.0 * a));
    }
  }

  lemma {:induction false} PUp(e: int, f: int)
    requires e < f
    ensures P(e) < P(f)
    decreases f - e
  {
    Next(f - 1);
    if e < f - 1 {
      PUp(e, f - 1);
    }
  }

  /** That exponent is the only one. */
  lemma Log2Unique(a: real, e: int)
    requires a > 0.0 && P(e) <= a < P(e + 1)
    ensures Log2(a) == e
  {
    Log2Is(a);
    var l := Log2(a);
    if l < e && l + 1 < e { PUp(l + 1, e); }
    if e < l && e + 1 < l { PUp(e + 1, l); }
  }

  // ----- the kernel's scale -----

  const MANTISSA: nat := 0x80_0000

  /** A normal 32-bit float by its exponent field and its mantissa. */
  function FloatValue(exponent: nat, mantissa: nat): real {
    (1.0 + mantissa as real / MANTISSA as real) * P(exponent - 127)
  }

  /** The exponent field less 127, plus one where any mantissa bit is set. */
  function CeilLog2(exponent: nat, mantissa: nat): int { exponent - 127 + if mantissa != 0 then 1 else 0 }

  /** That is the least exponent whose power of two is not below the value. */
  lemma CeilLog2Is(exponent: nat, mantissa: nat)
    requires 1 <= exponent <= 254 && mantissa < MANTISSA
    ensures P(CeilLog2(exponent, mantissa) - 1) < FloatValue(exponent, mantissa) <= P(CeilLog2(exponent, mantissa))
  {
    var m, p := mantissa as real / MANTISSA as real, P(exponent - 127);
    Next(exponent - 127);
    Next(exponent - 128);
    hide P;
    Up(1.0 + m, 2.0, p);
    if mantissa > 0 {
      Less(1.0, 1.0 + m, p);
    }
  }

  // ----- the magnitudes -----

  type Index = k: int | 0 <= k < 8

  function Magnitude(k: Index): real {
    match k
    case 0 => 0.0
    case 1 => 0.5
    case 2 => 1.0
    case 3 => 1.5
    case 4 => 2.0
    case 5 => 3.0
    case 6 => 4.0
    case _ => 6.0
  }

  /** They are the values of two exponent bits and one mantissa bit, subnormal below 1. */
  lemma MagnitudeIsE2M1(k: Index)
    ensures Magnitude(k) ==
            if k < 2 then (k as real) / 2.0 else (1.0 + ((k % 2) as real) / 2.0) * P(k / 2 - 1)
  {
    assert P(0) == 1.0 && P(1) == 2.0 && P(2) == 4.0;
  }

  /** No magnitude is nearer, and where another is as near this one is the even one. */
  predicate IsNearest(a: real, k: Index) {
    forall j: Index :: Abs(a - Magnitude(k)) <= Abs(a - Magnitude(j))
        && (Abs(a - Magnitude(k)) == Abs(a - Magnitude(j)) ==> j == k || k % 2 == 0)
  }

  /** There is one such magnitude. */
  lemma NearestUnique(a: real, k: Index, j: Index)
    requires a >= 0.0 && IsNearest(a, k) && IsNearest(a, j)
    ensures k == j
  {
    assert Abs(a - Magnitude(k)) == Abs(a - Magnitude(j));
    if k < j {
      NeighboursApart(a, k, j);
    } else if j < k {
      NeighboursApart(a, j, k);
    }
  }

  /** Two even magnitudes as near as each other have a nearer one between them. */
  lemma NeighboursApart(a: real, k: Index, j: Index)
    requires a >= 0.0 && k < j && k % 2 == 0 && j % 2 == 0 && IsNearest(a, k)
    ensures Abs(a - Magnitude(k)) != Abs(a - Magnitude(j))
  {
    assert Abs(a - Magnitude(k)) <= Abs(a - Magnitude(k + 1));
  }

  /** The thresholds of the array form. */
  function ByThreshold(a: real): Index {
    if a <= 0.25 then 0
    else if a < 0.75 then 1
    else if a <= 1.25 then 2
    else if a < 1.75 then 3
    else if a <= 2.5 then 4
    else if a < 3.5 then 5
    else if a <= 5.0 then 6
    else 7
  }

  lemma ThresholdIsNearest(a: real)
    requires a >= 0.0
    ensures IsNearest(a, ByThreshold(a))
  {
    var k := ByThreshold(a);
    forall j: Index
      ensures Abs(a - Magnitude(k)) <= Abs(a - Magnitude(j))
              && (Abs(a - Magnitude(k)) == Abs(a - Magnitude(j)) ==> j == k || k % 2 == 0)
    {
    }
  }

  /** The nearest magnitude by the midpoints between neighbours. */
  method E2m1Index(a: real) returns (k: Index)
    requires a >= 0.0
    ensures IsNearest(a, k) && k == ByThreshold(a)
  {
    ThresholdIsNearest(a);
    k := 0;
    while k < 7
      invariant k > 0 ==> a > Magnitude(k)
    {
      if a <= Magnitude(k + 1) {
        var middle := (Magnitude(k) + Magnitude(k + 1)) / 2.0;
        return if a < middle || (a == middle && k % 2 == 0) then k else k + 1;
      }
      k := k + 1;
    }
  }

  /** The midpoints, and whether one itself goes up. */
  const MIDPOINTS: seq<(real, bool)> := [(0.25, false), (0.75, true), (1.25, false), (1.75, true), (2.5, false),
      (3.5, true), (5.0, false)]

  /** The kernel's form counts the midpoints passed. */
  method ToE2m1(x: real) returns (k: Index, value: real)
    requires -6.0 <= x <= 6.0
    ensures IsNearest(Abs(x), k) && k == ByThreshold(Abs(x))
    ensures value == if x < 0.0 then -Magnitude(k) else Magnitude(k)
  {
    var magnitude := Abs(x);
    ThresholdIsNearest(magnitude);
    k := 0;
    for i := 0 to |MIDPOINTS|
      invariant k == if ByThreshold(magnitude) < i then ByThreshold(magnitude) else i
    {
      var (midpoint, up) := MIDPOINTS[i];
      if if up then magnitude >= midpoint else magnitude > midpoint {
        k := k + 1;
      }
    }
    value := if x < 0.0 then -Magnitude(k) else Magnitude(k);
  }

  // ----- a block -----

  type Code = c: int | 0 <= c < 16

  function Amax(values: seq<real>): (m: real)
    requires values != []
    ensures m >= 0.0
  {
    var last := Abs(values[|values| - 1]);
    if |values| == 1 then last else
      var m := Amax(values[..|values| - 1]);
      if last > m then last else m
  }

  /** The greatest magnitude, reached and never passed. */
  lemma {:induction false} AmaxIs(values: seq<real>) returns (at: nat)
    requires values != []
    ensures at < |values| && Abs(values[at]) == Amax(values)
    ensures forall i | 0 <= i < |values| :: Abs(values[i]) <= Amax(values)
  {
    var n := |values| - 1;
    at := n;
    if n > 0 {
      var k := AmaxIs(values[..n]);
      if Abs(values[n]) <= Amax(values[..n]) {
        at := k;
      }
      forall i | 0 <= i < |values|
        ensures Abs(values[i]) <= Amax(values)
      {
        assert i < n ==> values[i] == values[..n][i];
      }
    }
  }

  const LEAST := -127

  /** The shared exponent: two below the greatest magnitude's, and not below the least scale's. */
  function Exponent(amax: real): int
    requires amax >= 0.0
  {
    if amax == 0.0 then LEAST else if Log2(amax) - 2 < LEAST then LEAST else Log2(amax) - 2
  }

  function BlockExponent(values: seq<real>): int
    requires values != []
  {
    Exponent(Amax(values))
  }

  /** A product, by which magnitudes are scaled. */
  function Mul(x: real, y: real): real { x * y }

  lemma MulRules(x: real, y: real, a: real)
    requires a > 0.0
    ensures x < y ==> Mul(x, a) < Mul(y, a)
    ensures x == y ==> Mul(x, a) == Mul(y, a)
    ensures x > y ==> Mul(x, a) > Mul(y, a)
    ensures Mul(0.0, a) == 0.0 && Mul(-x, a) == -Mul(x, a)
    ensures Abs(Mul(x, a) - Mul(y, a)) == Mul(Abs(x - y), a)
    ensures Mul(x / 4.0, a) == Mul(x, a) / 4.0 && Mul(0.5, a) == a / 2.0
  {
    AbsTimes(x, y, a);
    if x < y { Less(x, y, a); }
    if x > y { Less(y, x, a); }
  }

  function Scaled(v: real, e: int): (a: real)
    ensures a >= 0.0
  {
    MulRules(0.0, Abs(v), P(-e));
    Mul(Abs(v), P(-e))
  }

  function CodeOf(v: real, e: int): Code {
    WithSign(v, ByThreshold(Scaled(v, e)))
  }

  /** The sign bit is set only on a magnitude that is not zero. */
  function WithSign(v: real, k: Index): Code {
    var c: int := k;
    if v < 0.0 && k > 0 then c + 8 else c
  }

  function ValueOf(v: real, k: Index, e: int): real {
    if k > 0 then Mul(if v < 0.0 then -Magnitude(k) else Magnitude(k), P(e)) else 0.0
  }

  /** The value a code stands for. */
  function Intended(v: real, e: int): real {
    ValueOf(v, ByThreshold(Scaled(v, e)), e)
  }

  /** Minus zero is never written. */
  lemma NoMinusZero(v: real, e: int)
    ensures CodeOf(v, e) != 8
  {
  }

  /** Twice the values of the codes, as the reader keeps them. */
  const DOUBLED: seq<int> := [0, 1, 2, 3, 4, 6, 8, 12, 0, -1, -2, -3, -4, -6, -8, -12]

  function Decode(scale: int, c: Code): real { DOUBLED[c] as real * P(scale - 128) }

  /** The reader gets the intended value from the scale byte and the code. */
  lemma DecodesIntended(v: real, e: int)
    ensures Decode(e + 127, CodeOf(v, e)) == Intended(v, e)
  {
    var k, c := ByThreshold(Scaled(v, e)), CodeOf(v, e);
    Next(e - 1);
    assert DOUBLED[k] as real == 2.0 * Magnitude(k);
    var h := P(e - 1);
    if v < 0.0 && k > 0 {
      assert DOUBLED[c] as real == -2.0 * Magnitude(k);
      assert -2.0 * Magnitude(k) * h == -Magnitude(k) * (2.0 * h);
    } else {
      assert 2.0 * Magnitude(k) * h == Magnitude(k) * (2.0 * h);
    }
  }

  // ----- where the rule puts a block -----

  lemma Rescaled(v: real, e: int)
    ensures Mul(Scaled(v, e), P(e)) == Abs(v)
  {
    Inverse(e);
    var a, p, q := Abs(v), P(-e), P(e);
    assert a * p * q == a * (q * p);
  }

  /** A block's greatest magnitude is scaled to at least 4 and below 8; to below 4 where the exponent is clamped. */
  lemma WhereScaled(amax: real)
    requires amax > 0.0
    ensures var e := Exponent(amax);
            && Scaled(amax, e) < 8.0
            && (Log2(amax) - 2 >= -127 ==> Scaled(amax, e) >= 4.0)
            && (Log2(amax) - 2 < -127 ==> e == -127 && Scaled(amax, e) < 4.0)
  {
    var e, l := Exponent(amax), Log2(amax);
    Log2Is(amax);
    Next(e);
    Next(e + 1);
    Next(e + 2);
    Inverse(e);
    var q := P(e);
    if l - 2 >= LEAST {
      ScaledBelow(amax, e, 8.0);
      ScaledAtLeast(amax, e, 4.0);
    } else {
      if l + 1 < LEAST + 2 {
        PUp(l + 1, LEAST + 2);
      }
      ScaledBelow(amax, e, 4.0);
    }
  }

  lemma ScaledBelow(a: real, e: int, m: real)
    requires 0.0 <= a < m * P(e)
    ensures Scaled(a, e) < m
  {
    Rescaled(a, e);
    MulRules(Scaled(a, e), m, P(e));
  }

  lemma ScaledAtLeast(a: real, e: int, m: real)
    requires a >= m * P(e) && a >= 0.0
    ensures Scaled(a, e) >= m
  {
    Rescaled(a, e);
    MulRules(Scaled(a, e), m, P(e));
  }

  lemma ScaledUp(v: real, a: real, e: int)
    requires Abs(v) <= a
    ensures Scaled(v, e) <= Scaled(a, e)
  {
    MulRules(Abs(v), a, P(-e));
  }

  // ----- the error -----

  /** How far a magnitude below 8 is from the one it rounds to, against the top it is under. */
  lemma RoundingError(a: real, top: real)
    requires 0.0 <= a <= top < 8.0
    ensures top >= 4.0 ==> Abs(a - Magnitude(ByThreshold(a))) < top / 4.0
    ensures top < 4.0 ==> Abs(a - Magnitude(ByThreshold(a))) <= 0.5
  {
  }

  /** A value's error is below a quarter of the block's greatest magnitude; where the exponent is clamped it is at
      most half the least scale. */
  lemma ErrorBound(values: seq<real>, i: nat)
    requires i < |values|
    ensures var amax, e := Amax(values), BlockExponent(values);
            var error := Abs(values[i] - Intended(values[i], e));
            && (amax > 0.0 && Log2(amax) - 2 >= -127 ==> error < amax / 4.0)
            && (amax > 0.0 && Log2(amax) - 2 < -127 ==> error <= P(-127) / 2.0)
            && (amax == 0.0 ==> error == 0.0)
  {
    var amax, e, v := Amax(values), BlockExponent(values), values[i];
    var _ := AmaxIs(values);
    ErrorScales(v, e);
    var a, top := Scaled(v, e), Scaled(amax, e);
    var x := Abs(a - Magnitude(ByThreshold(a)));
    hide Mul, P, Log2;
    MulRules(0.0, 0.0, P(-e));
    if amax > 0.0 {
      WhereScaled(amax);
      ScaledUp(v, amax, e);
      RoundingError(a, top);
      hide ByThreshold, Magnitude, Intended, Scaled, Amax;
      Rescaled(amax, e);
      MulRules(x, top / 4.0, P(e));
      MulRules(top, top, P(e));
      MulRules(x, 0.5, P(e));
    } else {
      MulRules(x, 0.0, P(e));
    }
  }

  lemma ErrorScales(v: real, e: int)
    ensures Abs(v - Intended(v, e)) == Mul(Abs(Scaled(v, e) - Magnitude(ByThreshold(Scaled(v, e)))), P(e))
  {
    var a, m := Scaled(v, e), Magnitude(ByThreshold(Scaled(v, e)));
    hide Mul, P;
    MulRules(a, m, P(e));
    MulRules(m, a, P(e));
    Rescaled(v, e);
  }

  // ----- encoding again -----

  function Rounded(values: seq<real>, e: int): (r: seq<real>)
    ensures |r| == |values|
  {
    seq(|values|, i requires 0 <= i < |values| => Intended(values[i], e))
  }

  lemma RoundedScaled(v: real, e: int)
    ensures Scaled(Intended(v, e), e) == Magnitude(ByThreshold(Scaled(v, e)))
    ensures Intended(v, e) < 0.0 <==> v < 0.0 && ByThreshold(Scaled(v, e)) > 0
    ensures Abs(Intended(v, e)) == Mul(Magnitude(ByThreshold(Scaled(v, e))), P(e))
  {
    var k := ByThreshold(Scaled(v, e));
    var m, p := Magnitude(k), P(e);
    assert Abs(Intended(v, e)) == Mul(m, p) && (Intended(v, e) < 0.0 <==> v < 0.0 && k > 0) by {
      hide Mul, P;
      MulRules(m, 0.0, p);
    }
    Unscale(m, e);
    hide Mul, P;
  }

  lemma Unscale(m: real, e: int)
    ensures Mul(Mul(m, P(e)), P(-e)) == m
  {
    Inverse(e);
    var p, q := P(e), P(-e);
    hide P;
    assert m * p * q == m * (p * q);
  }

  lemma MagnitudeBack(k: Index)
    ensures ByThreshold(Magnitude(k)) == k
  {
  }

  /** A value rounded is encoded as before. */
  lemma CodesAgain(v: real, e: int)
    ensures CodeOf(Intended(v, e), e) == CodeOf(v, e) && Intended(Intended(v, e), e) == Intended(v, e)
  {
    RoundedScaled(v, e);
    MagnitudeBack(ByThreshold(Scaled(v, e)));
    hide Mul, P, Scaled, ByThreshold, Magnitude;
  }

  lemma Log2Below(a: real, f: int)
    requires 0.0 < a < P(f)
    ensures Log2(a) < f
  {
    Log2Is(a);
    if Log2(a) > f { PUp(f, Log2(a)); }
  }

  /** A rounded block takes the exponent it was rounded with. */
  lemma ExponentAgain(values: seq<real>)
    requires values != []
    ensures BlockExponent(Rounded(values, BlockExponent(values))) == BlockExponent(values)
  {
    var e, amax := BlockExponent(values), Amax(values);
    var r := Rounded(values, e);
    var at := AmaxIs(values);
    var at' := AmaxIs(r);
    assert Amax(r) >= Abs(r[at]) && r[at] == Intended(values[at], e) && r[at'] == Intended(values[at'], e);
    TopIs(values[at], values[at'], e, amax, Amax(r));
  }

  /** The greatest rounded magnitude, where `v` is the greatest value and `v'` the one that rounds to the greatest. */
  lemma TopIs(v: real, v': real, e: int, amax: real, top: real)
    requires Abs(v) == amax && Abs(v') <= amax && e == Exponent(amax)
    requires top == Abs(Intended(v', e)) >= Abs(Intended(v, e))
    ensures Exponent(top) == e
  {
    var k, k' := ByThreshold(Scaled(v, e)), ByThreshold(Scaled(v', e));
    assert Scaled(v, e) == Scaled(amax, e);
    RoundedScaled(v, e);
    RoundedScaled(v', e);
    ScaledUp(v', amax, e);
    hide Intended, Mul, P, Log2;
    if amax == 0.0 {
      MulRules(0.0, 0.0, P(-e));
      MulRules(0.0, 0.0, P(e));
      assert Scaled(amax, e) == 0.0;
    } else {
      WhereScaled(amax);
      hide Scaled, Exponent;
      TopExponent(amax, e, k, k', top);
    }
  }

  lemma TopExponent(amax: real, e: int, k: Index, k': Index, top: real)
    requires amax > 0.0 && e == Exponent(amax)
    requires Log2(amax) - 2 >= LEAST ==> k >= 6
    requires Log2(amax) - 2 < LEAST ==> k' <= 6
    requires top == Mul(Magnitude(k'), P(e)) && top >= Mul(Magnitude(k), P(e))
    ensures top >= 0.0 && Exponent(top) == e
  {
    var p := P(e);
    Next(e);
    Next(e + 1);
    Next(e + 2);
    MulRules(Magnitude(k'), 0.0, p);
    if Log2(amax) - 2 >= LEAST {
      assert Mul(4.0, p) == P(e + 2) && Mul(8.0, p) == P(e + 3);
      MulRules(4.0, Magnitude(k), p);
      MulRules(Magnitude(k'), 8.0, p);
      Log2Unique(top, e + 2);
    } else if top > 0.0 {
      assert Mul(8.0, p) == P(e + 3);
      MulRules(Magnitude(k'), 8.0, p);
      Log2Below(top, e + 3);
    }
  }

  // ----- the two forms -----

  /** The scale byte, the codes and the values of a block, each by its own rule. */
  ghost predicate Encodes(values: seq<real>, scale: int, codes: seq<Code>, intended: seq<real>)
    requires values != []
  {
    var e := BlockExponent(values);
    && scale == e + 127 && |codes| == |values|
    && intended == Rounded(values, e)
    && forall i | 0 <= i < |values| :: codes[i] == CodeOf(values[i], e)
  }

  /** What is written for one value: a code of the nearest magnitude, never minus zero, from which the reader gets the
      intended value. */
  ghost predicate Item(v: real, scale: int, c: Code, x: real) {
    && c == CodeOf(v, scale - 127) && x == Intended(v, scale - 127)
    && c != 8 && IsNearest(Scaled(v, scale - 127), c % 8) && Decode(scale, c) == x
  }

  lemma ItemIs(v: real, e: int, k: Index)
    requires k == ByThreshold(Scaled(v, e))
    ensures Item(v, e + 127, WithSign(v, k), ValueOf(v, k, e))
  {
    DecodesIntended(v, e);
    NoMinusZero(v, e);
    ThresholdIsNearest(Scaled(v, e));
    hide IsNearest, Scaled, Decode, ValueOf, ByThreshold, Magnitude;
    assert WithSign(v, k) == CodeOf(v, e) && WithSign(v, k) % 8 == k;
  }

  /** The readable form: value by value. */
  method EncodeBlock(values: seq<real>) returns (scale: int, codes: seq<Code>, intended: seq<real>)
    requires values != []
    ensures Encodes(values, scale, codes, intended)
    ensures |intended| == |codes| && forall i | 0 <= i < |values| :: Item(values[i], scale, codes[i], intended[i])
  {
    var exponent := BlockExponent(values);
    codes, intended := [], [];
    scale := exponent + 127;
    for i := 0 to |values|
      invariant |codes| == |intended| == i
      invariant forall j | 0 <= j < i :: Item(values[j], scale, codes[j], intended[j])
    {
      hide *;
      var v := values[i];
      var k := E2m1Index(Scaled(v, exponent));
      ItemIs(v, exponent, k);
      codes := codes + [WithSign(v, k)];
      intended := intended + [ValueOf(v, k, exponent)];
    }
    ItemsEncode(values, scale, codes, intended);
  }

  lemma ItemsEncode(values: seq<real>, scale: int, codes: seq<Code>, intended: seq<real>)
    requires values != [] && scale == BlockExponent(values) + 127 && |codes| == |intended| == |values|
    requires forall i | 0 <= i < |values| :: Item(values[i], scale, codes[i], intended[i])
    ensures Encodes(values, scale, codes, intended)
  {
    hide CodeOf, Intended, IsNearest, Scaled, Decode, BlockExponent;
  }

  /** Encoding the values a block stands for gives the same block. */
  lemma EncodesAgain(values: seq<real>, scale: int, codes: seq<Code>, intended: seq<real>)
    requires values != [] && Encodes(values, scale, codes, intended)
    ensures Encodes(intended, scale, codes, intended)
  {
    ExponentAgain(values);
    var e := BlockExponent(values);
    forall i | 0 <= i < |values|
      ensures CodeOf(intended[i], e) == codes[i] && Intended(intended[i], e) == intended[i]
    {
      CodesAgain(values[i], e);
    }
  }

  /** A block of 17 bytes: the scale, then byte `j` holding code `j` below code `j + 16`. */
  function Packed(scale: byte, codes: seq<Code>): (block: seq<byte>)
    requires |codes| == 32
    ensures |block| == 17
  {
    [scale] + seq(16, j requires 0 <= j < 16 => PackedByte(codes[j], codes[j + 16]))
  }

  function PackedByte(low: Code, high: Code): byte { low + 16 * high }

  function CodeAt(block: seq<byte>, i: nat): Code
    requires |block| == 17 && i < 32
  {
    if i < 16 then block[1 + i] % 16 else block[1 + i - 16] / 16
  }

  lemma UnpackUndoes(scale: byte, codes: seq<Code>, i: nat)
    requires |codes| == 32 && i < 32
    ensures Packed(scale, codes)[0] == scale && CodeAt(Packed(scale, codes), i) == codes[i]
    ensures i < 16 ==> Packed(scale, codes)[1 + i] as int == codes[i] as int + 16 * (codes[16 + i] as int)
  {
  }

  /** The values are finite in 32-bit floating point. */
  ghost predicate Finite(values: seq<real>) { forall i | 0 <= i < |values| :: Abs(values[i]) < P(128) }

  lemma ScaleIsByte(values: seq<real>)
    requires values != [] && Finite(values)
    ensures 0 <= BlockExponent(values) + 127 <= 252
  {
    var _ := AmaxIs(values);
    if Amax(values) > 0.0 {
      Log2Below(Amax(values), 128);
    }
  }

  /** The array form of a block: the exponent, the thresholds, the sign and the packing, each over the whole row. */
  function ArrayForm(values: seq<real>): (r: (seq<byte>, seq<real>))
    requires |values| == 32 && Finite(values)
    ensures |r.0| == 17 && |r.1| == 32
  {
    ScaleIsByte(values);
    var amax := Amax(values);
    var exponent := if amax > 0.0 then (if Log2(amax) - 2 > -127 then Log2(amax) - 2 else -127) else -127;
    var k := seq(32, i requires 0 <= i < 32 => ByThreshold(Scaled(values[i], exponent)));
    var codes := seq(32, i requires 0 <= i < 32 => ArrayCode(values[i], k[i]));
    var intended := seq(32, i requires 0 <= i < 32 => ArrayValue(values[i], k[i], exponent));
    (Packed(exponent + 127, codes), intended)
  }

  function ArrayCode(x: real, k: Index): Code { k + if x < 0.0 && k > 0 then 8 else 0 }

  function ArrayValue(x: real, k: Index, e: int): real {
    var magnitude := Mul(Magnitude(k), P(e));
    if k > 0 then if x < 0.0 then -magnitude else magnitude else 0.0
  }

  /** The array form gives the codes and the values of the readable form. */
  lemma FormsAgree(values: seq<real>, scale: int, codes: seq<Code>, intended: seq<real>)
    requires |values| == 32 && Finite(values) && Encodes(values, scale, codes, intended)
    ensures ArrayForm(values).0[0] == scale && ArrayForm(values).1 == intended
    ensures forall i | 0 <= i < 32 :: CodeAt(ArrayForm(values).0, i) == codes[i]
  {
    var e := BlockExponent(values);
    var block, k := ArrayForm(values).0, seq(32, i requires 0 <= i < 32 => ByThreshold(Scaled(values[i], e)));
    var all := seq(32, i requires 0 <= i < 32 => ArrayCode(values[i], k[i]));
    ScaleIsByte(values);
    assert block == Packed(e + 127, all);
    forall i | 0 <= i < 32
      ensures CodeAt(block, i) == codes[i] && ArrayForm(values).1[i] == intended[i]
    {
      assert ArrayForm(values).1[i] == ArrayValue(values[i], k[i], e);
      hide Scaled, ByThreshold, ArrayForm, Packed, CodeAt, BlockExponent, Finite;
      UnpackUndoes(e + 127, all, i);
      ArrayItem(values[i], k[i], e);
    }
  }

  lemma ArrayItem(v: real, k: Index, e: int)
    ensures ArrayCode(v, k) == WithSign(v, k) && ArrayValue(v, k, e) == ValueOf(v, k, e)
  {
    hide Mul, P, Magnitude;
    MulRules(Magnitude(k), 0.0, P(e));
  }
}
