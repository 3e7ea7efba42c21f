/** The paired runner: the order of the arms in each round, and the win count that is unlikely by chance. */
module AbRunner {
  import opened Common

  // ----- the rotation -----

  function Reversed<T>(s: seq<T>): (r: seq<T>)
    ensures |r| == |s| && forall i | 0 <= i < |s| :: r[i] == s[|s| - 1 - i]
  {
    if s == [] then [] else Reversed(s[1..]) + [s[0]]
  }

  /** The arms in the order a round runs them. */
  function RoundOrder<T>(order: seq<T>, rnd: nat): seq<T>
    requires order != []
  {
    var k := rnd % |order|;
    var turned := order[k..] + order[..k];
    if rnd % 2 == 1 then Reversed(turned) else turned
  }

  /** Which of `m` arms runs at place `p` of a round. */
  function ArmAt(m: nat, rnd: nat, p: nat): (arm: nat)
    requires p < m
    ensures arm < m
  {
    (rnd % m + if rnd % 2 == 1 then m - 1 - p else p) % m
  }

  lemma Turn(m: nat, k: nat, p: nat)
    requires k < m && p < m
    ensures (k + p) % m == if k + p < m then k + p else k + p - m
  {
    if k + p < m {
      DivisionIs(m, k + p, 0, k + p);
    } else {
      DivisionIs(m, k + p, 1, k + p - m);
    }
  }

  lemma RoundOrderAt<T>(order: seq<T>, rnd: nat, p: nat)
    requires p < |order|
    ensures |RoundOrder(order, rnd)| == |order|
    ensures RoundOrder(order, rnd)[p] == order[ArmAt(|order|, rnd, p)]
  {
    var m, k := |order|, rnd % |order|;
    var q := if rnd % 2 == 1 then m - 1 - p else p;
    Turn(m, k, q);
    TurnedAt(order, k, q);
  }

  lemma TurnedAt<T>(order: seq<T>, k: nat, q: nat)
    requires k < |order| && q < |order|
    ensures (order[k..] + order[..k])[q] == order[if k + q < |order| then k + q else k + q - |order|]
  {
  }

  /** The samples of a run, round by round in each round's order; none is dropped. */
  method Schedule<T>(order: seq<T>, total: nat) returns (samples: seq<(nat, T)>)
    requires order != []
    ensures samples == AllRounds(order, total)
  {
    samples := [];
    hide RoundOrder;
    for rnd := 0 to total
      invariant samples == AllRounds(order, rnd)
    {
      var arms := RoundOrder(order, rnd);
      for p := 0 to |arms|
        invariant samples == AllRounds(order, rnd) + Tagged(rnd, arms[..p])
      {
        assert arms[..p + 1] == arms[..p] + [arms[p]];
        samples := samples + [(rnd, arms[p])];
      }
      assert arms[..|arms|] == arms;
    }
  }

  function Tagged<T>(rnd: nat, arms: seq<T>): (r: seq<(nat, T)>)
    ensures |r| == |arms|
  {
    seq(|arms|, p requires 0 <= p < |arms| => (rnd, arms[p]))
  }

  function AllRounds<T>(order: seq<T>, total: nat): seq<(nat, T)>
    requires order != []
  {
    if total == 0 then [] else AllRounds(order, total - 1) + Tagged(total - 1, RoundOrder(order, total - 1))
  }

  function Index(r: nat, m: nat, p: nat): nat { r * m + p }

  lemma IndexUp(total: nat, m: nat, r: nat, p: nat)
    requires total > 0 && p < m
    ensures Index(total, m, 0) == Index(total - 1, m, 0) + m && Index(total - 1, m, p) == Index(total - 1, m, 0) + p
    ensures Index(0, m, 0) == 0
    ensures r < total ==> Index(r, m, p) < Index(total, m, 0)
  {
    if r < total {
      ProductUp(r + 1, total, m);
    }
  }

  lemma {:induction false} SampleCount<T>(order: seq<T>, total: nat)
    requires order != []
    ensures |AllRounds(order, total)| == Index(total, |order|, 0)
  {
    hide RoundOrder, ArmAt, Index;
    IndexUp(1, |order|, 0, 0);
    if total > 0 {
      SampleCount(order, total - 1);
      IndexUp(total, |order|, 0, 0);
      RoundOrderAt(order, total - 1, 0);
    }
  }

  /** Sample `r * m + p` of a run is of round `r` and of the arm the round has at place `p`. */
  lemma {:induction false} SampleIs<T>(order: seq<T>, total: nat, r: nat, p: nat)
    requires r < total && p < |order|
    ensures |AllRounds(order, total)| == Index(total, |order|, 0) > Index(r, |order|, p)
    ensures AllRounds(order, total)[Index(r, |order|, p)] == (r, order[ArmAt(|order|, r, p)])
  {
    hide RoundOrder, ArmAt, Index;
    SampleCount(order, total);
    SampleCount(order, total - 1);
    RoundOrderAt(order, total - 1, p);
    IndexUp(total, |order|, r, p);
    if r < total - 1 {
      SampleIs(order, total - 1, r, p);
    }
  }

  // ----- who runs first -----

  ghost predicate AlwaysFirst(m: nat, total: nat, arm: nat)
    requires m > 0
  {
    forall rnd: nat | rnd < total :: ArmAt(m, rnd, 0) == arm
  }

  /** With two arms the base runs first in every round, so "no arm always runs first" does not hold of one base and
      one candidate. */
  lemma TwoArmsFirst(rnd: nat)
    ensures ArmAt(2, rnd, 0) == 0 && ArmAt(2, rnd, 1) == 1
  {
  }

  /** Some arm always runs first if and only if there are at most two arms or at most two rounds. */
  lemma SomeAlwaysFirst(m: nat, total: nat)
    requires m > 0
    ensures (exists arm :: AlwaysFirst(m, total, arm)) <==> m <= 2 || total <= 2
  {
    if m <= 2 || total <= 2 {
      forall rnd: nat | rnd < total
        ensures ArmAt(m, rnd, 0) == 0
      {
        if m == 2 {
          TwoArmsFirst(rnd);
        } else if m > 2 {
          DivisionIs(m, rnd, 0, rnd);
          Turn(m, rnd, if rnd == 0 then 0 else m - 1);
        }
      }
      assert AlwaysFirst(m, total, 0);
    } else {
      DivisionIs(m, 0, 0, 0);
      DivisionIs(m, 2, 0, 2);
      assert ArmAt(m, 0, 0) == 0 && ArmAt(m, 2, 0) == 2;
    }
  }

  // ----- how often an arm has a place -----

  /** In how many of the `n` rounds from `from` the arm has the place. */
  function Times(m: nat, arm: nat, p: nat, from: nat, n: nat): nat
    requires p < m
  {
    if n == 0 then 0 else Times(m, arm, p, from, n - 1) + if ArmAt(m, from + n - 1, p) == arm then 1 else 0
  }

  /** In how many of the `n` rounds from `from` the round's remainder by `period` is one of the set. */
  function Hits(period: nat, set_: set<nat>, from: nat, n: nat): nat
    requires period > 0
  {
    if n == 0 then 0 else Hits(period, set_, from, n - 1) + if (from + n - 1) % period in set_ then 1 else 0
  }

  lemma {:induction false} HitsSlide(period: nat, set_: set<nat>, from: nat, n: nat)
    requires period > 0 && n > 0
    ensures Hits(period, set_, from, n)
         == (if from % period in set_ then 1 else 0) + Hits(period, set_, from + 1, n - 1)
  {
    if n > 1 {
      HitsSlide(period, set_, from, n - 1);
    }
  }

  lemma NextPeriod(m: nat, x: nat)
    requires m > 0
    ensures (x + m) % m == x % m
  {
    assert x == m * (x / m) + x % m;
    assert m * (x / m + 1) == m * (x / m) + m;
    DivisionIs(m, x + m, x / m + 1, x % m);
  }

  /** A whole period hits as many times from one round as from the next. */
  lemma {:induction false} HitsPeriod(period: nat, set_: set<nat>, from: nat)
    requires period > 0
    ensures Hits(period, set_, from, period) == Hits(period, set_, 0, period)
  {
    if from > 0 {
      HitsPeriod(period, set_, from - 1);
      HitsSlide(period, set_, from - 1, period);
      NextPeriod(period, from - 1);
    }
  }

  lemma {:induction false} HitsCount(period: nat, set_: set<nat>, n: nat)
    requires n <= period && forall x | x in set_ :: x < period
    ensures period > 0 ==> Hits(period, set_, 0, n) == |set x | x in set_ && x < n|
  {
    if n > 0 {
      HitsCount(period, set_, n - 1);
      var a, b := set x | x in set_ && x < n, set x | x in set_ && x < n - 1;
      if n - 1 in set_ {
        assert a == b + {n - 1};
      } else {
        assert a == b;
      }
      DivisionIs(period, n - 1, 0, n - 1);
    }
  }

  /** The turn at which the arm comes to the place in an even round, and in an odd one. */
  function EvenRound(m: nat, arm: nat, p: nat): (x: nat)
    requires p < m && arm < m
    ensures x < m
  {
    (arm - p) % m
  }

  function OddRound(m: nat, arm: nat, p: nat): (y: nat)
    requires p < m && arm < m
    ensures y < m
  {
    (arm + p + 1) % m
  }

  /** The rounds of a period in which the arm has the place. */
  function Rounds(m: nat, arm: nat, p: nat): set<nat>
    requires p < m && arm < m
  {
    var x, y := EvenRound(m, arm, p), OddRound(m, arm, p);
    Pair(x, m, 0) + Pair(y, m, 1)
  }

  function Pick(x: nat, bit: nat): set<nat> { if x % 2 == bit then {x} else {} }

  function Pair(x: nat, m: nat, bit: nat): set<nat> { Pick(x, bit) + Pick(x + m, bit) }

  lemma ParityOfSum(x: nat, m: nat)
    ensures m % 2 == 1 ==> (x + m) % 2 == 1 - x % 2
    ensures m % 2 == 0 ==> (x + m) % 2 == x % 2
  {
  }

  lemma PairSize(x: nat, m: nat, bit: nat)
    requires m > 0 && bit < 2
    ensures forall r | r in Pair(x, m, bit) :: r % 2 == bit && (r == x || r == x + m)
    ensures |Pair(x, m, bit)| == if m % 2 == 1 then 1 else if x % 2 == bit then 2 else 0
  {
    ParityOfSum(x, m);
    if m % 2 == 1 {
      assert Pair(x, m, bit) == {if x % 2 == bit then x else x + m};
    } else if x % 2 == bit {
      assert Pair(x, m, bit) == {x, x + m};
    } else {
      assert Pair(x, m, bit) == {};
    }
  }

  lemma TwoPairs(x: nat, y: nat, m: nat, even: bool)
    requires x < m && y < m && (m % 2 == 0 ==> (x % 2 == 0 <==> even) && (y % 2 == 1 <==> even))
    ensures forall r | r in Pair(x, m, 0) + Pair(y, m, 1) :: r < 2 * m
    ensures |Pair(x, m, 0) + Pair(y, m, 1)| == if m % 2 == 1 then 2 else if even then 4 else 0
  {
    PairSize(x, m, 0);
    PairSize(y, m, 1);
    hide Pair;
    assert Pair(x, m, 0) !! Pair(y, m, 1);
    assert |Pair(x, m, 0) + Pair(y, m, 1)| == |Pair(x, m, 0)| + |Pair(y, m, 1)|;
  }

  lemma Parities(m: nat, arm: nat, p: nat)
    requires p < m && arm < m && m % 2 == 0
    ensures EvenRound(m, arm, p) % 2 == (arm + p) % 2
    ensures OddRound(m, arm, p) % 2 == (arm + p + 1) % 2
  {
    Wrap(m, arm - p);
    Wrap(m, arm + p + 1);
  }

  lemma Same(m: nat, k: nat, p: nat, arm: nat)
    requires k < m && p < m && arm < m
    ensures (k + p) % m == arm <==> k == EvenRound(m, arm, p)
    ensures (k + (m - 1 - p)) % m == arm <==> k == OddRound(m, arm, p)
  {
    Turn(m, k, p);
    Turn(m, k, m - 1 - p);
    Wrap(m, arm - p);
    Wrap(m, arm + p + 1);
  }

  lemma Wrap(m: nat, x: int)
    requires m > 0 && 0 <= x + m < 3 * m
    ensures x % m == if x < 0 then x + m else if x < m then x else x - m
  {
    var q := if x < 0 then -1 else if x < m then 0 else 1;
    DivisionIs(m, x, q, if x < 0 then x + m else if x < m then x else x - m);
  }

  lemma Remainders(m: nat, rnd: nat)
    requires m > 0
    ensures rnd % (2 * m) % 2 == rnd % 2
    ensures rnd % (2 * m) == rnd % m || rnd % (2 * m) == rnd % m + m
  {
    var q, s := rnd / (2 * m), rnd % (2 * m);
    var d: int := m * q;
    assert rnd == 2 * d + s;
    assert m * (2 * q) == 2 * d && m * (2 * q + 1) == 2 * d + m;
    if s < m {
      DivisionIs(m, rnd, 2 * q, s);
    } else {
      DivisionIs(m, rnd, 2 * q + 1, s - m);
    }
  }

  lemma InRounds(m: nat, arm: nat, p: nat, rnd: nat)
    requires p < m && arm < m
    ensures ArmAt(m, rnd, p) == arm <==> rnd % (2 * m) in Rounds(m, arm, p)
  {
    Remainders(m, rnd);
    Same(m, rnd % m, p, arm);
  }

  lemma {:induction false} TimesAreHits(m: nat, arm: nat, p: nat, from: nat, n: nat)
    requires p < m && arm < m
    ensures Times(m, arm, p, from, n) == Hits(2 * m, Rounds(m, arm, p), from, n)
  {
    if n > 0 {
      TimesAreHits(m, arm, p, from, n - 1);
      InRounds(m, arm, p, from + n - 1);
    }
  }

  lemma RoundsSize(m: nat, arm: nat, p: nat)
    requires p < m && arm < m
    ensures forall r | r in Rounds(m, arm, p) :: r < 2 * m
    ensures |Rounds(m, arm, p)| == if m % 2 == 1 then 2 else if (arm + p) % 2 == 0 then 4 else 0
  {
    hide EvenRound, OddRound, Pair;
    if m % 2 == 0 {
      Parities(m, arm, p);
    }
    TwoPairs(EvenRound(m, arm, p), OddRound(m, arm, p), m, (arm + p) % 2 == 0);
  }

  /** Over any `2 * m` rounds in a row: with an odd number of arms every arm has every place exactly twice;
      with an even number it has the places of its own parity four times and the others never. */
  lemma PlacesOverRounds(m: nat, arm: nat, p: nat, from: nat)
    requires p < m && arm < m
    ensures Times(m, arm, p, from, 2 * m) == if m % 2 == 1 then 2 else if (arm + p) % 2 == 0 then 4 else 0
  {
    var rounds := Rounds(m, arm, p);
    TimesAreHits(m, arm, p, from, 2 * m);
    HitsPeriod(2 * m, rounds, from);
    RoundsSize(m, arm, p);
    HitsCount(2 * m, rounds, 2 * m);
    assert (set x | x in rounds && x < 2 * m) == rounds;
  }

  // ----- the win threshold -----

  function Comb(n: nat, k: nat): nat {
    if k == 0 then 1 else if n == 0 then 0 else Comb(n - 1, k - 1) + Comb(n - 1, k)
  }

  /** The sum of `Comb(n, i)` for `k <= i <= n`. */
  function Tail(n: nat, k: nat): nat
    requires k <= n + 1
    decreases n + 1 - k
  {
    if k == n + 1 then 0 else Comb(n, k) + Tail(n, k + 1)
  }

  /** The entries of a row start with 1, and each is the one before it times what is left over what is taken: they are
      the binomial coefficients. */
  lemma {:induction false} CombNext(n: nat, k: nat)
    ensures Comb(n, 0) == 1
    ensures k <= n ==> Comb(n, k + 1) * (k + 1) == Comb(n, k) * (n - k)
    decreases n
  {
    if n == 0 {
      CombPastEnd(0, k + 1);
    } else if k <= n {
      if k < n {
        CombNext(n - 1, k);
      } else {
        CombPastEnd(n - 1, k);
        CombPastEnd(n - 1, k + 1);
      }
      var b := if k > 0 then Comb(n - 1, k - 1) else 0;
      if k > 0 {
        CombNext(n - 1, k - 1);
      }
      Absorbed(b, Comb(n - 1, k), Comb(n - 1, k + 1), n, k);
      assert Comb(n, k + 1) == Comb(n - 1, k) + Comb(n - 1, k + 1);
      assert Comb(n, k) == b + Comb(n - 1, k) by {
        if k == 0 {
          CombNext(n - 1, 0);
        }
      }
    }
  }

  lemma Absorbed(b: nat, c: nat, d: nat, n: nat, k: nat)
    requires k <= n && d * (k + 1) == c * (n - 1 - k) && c * k == b * (n - k)
    ensures (c + d) * (k + 1) == (b + c) * (n - k)
  {
    assert c * (n - 1 - k) == c * (n - k) - c;
    assert (c + d) * (k + 1) == c * k + c + d * (k + 1);
    assert (b + c) * (n - k) == b * (n - k) + c * (n - k);
  }

  lemma {:induction false} CombPastEnd(n: nat, k: nat)
    requires k > n
    ensures Comb(n, k) == 0
  {
    if n > 0 {
      CombPastEnd(n - 1, k - 1);
      CombPastEnd(n - 1, k);
    }
  }

  lemma {:induction false} CombSymmetric(n: nat, k: nat)
    requires k <= n
    ensures Comb(n, k) == Comb(n, n - k)
  {
    if n > 0 {
      if k == 0 || k == n {
        CombEnds(n);
      } else {
        CombSymmetric(n - 1, k - 1);
        CombSymmetric(n - 1, k);
      }
    }
  }

  lemma {:induction false} CombEnds(n: nat)
    ensures Comb(n, 0) == Comb(n, n) == 1
  {
    if n > 0 {
      CombEnds(n - 1);
      CombPastEnd(n - 1, n);
    }
  }

  lemma {:induction false} TailNext(n: nat, k: nat)
    requires 0 < k <= n
    ensures Tail(n, k) == Tail(n - 1, k - 1) + Tail(n - 1, k)
    decreases n - k
  {
    if k < n {
      TailNext(n, k + 1);
    } else {
      CombPastEnd(n - 1, n);
    }
  }

  lemma {:induction false} WholeRow(n: nat)
    ensures Tail(n, 0) == Pow2(n)
  {
    if n > 0 {
      WholeRow(n - 1);
      TailNext(n, 1);
    }
  }

  /** A tail and its mirror image are the whole row. */
  lemma {:induction false} TailMirror(n: nat, k: nat)
    requires k <= n + 1
    ensures Tail(n, k) + Tail(n, n + 1 - k) == Pow2(n)
  {
    if k == 0 {
      WholeRow(n);
    } else {
      TailMirror(n, k - 1);
      CombSymmetric(n, k - 1);
    }
  }

  lemma {:induction false} TailFalls(n: nat, j: nat, k: nat)
    requires j <= k <= n + 1
    ensures Tail(n, j) >= Tail(n, k)
    decreases k - j
  {
    if j < k {
      TailFalls(n, j + 1, k);
    }
  }

  /** How a level compares with its row is how its fraction compares with 1, one half and 0. */
  lemma LevelIs(alpha: real, total: nat, level: real)
    requires total > 0 && level == alpha * (total as real)
    ensures level >= total as real <==> alpha >= 1.0
    ensures 2.0 * level < total as real <==> alpha < 0.5
    ensures level >= 0.0 <==> alpha >= 0.0
  {
    var p := total as real;
    assert (alpha - 1.0) * p == level - p && (alpha - 0.5) * p == level - p / 2.0;
    SignOfProduct(alpha, p);
    SignOfProduct(alpha - 1.0, p);
    SignOfProduct(alpha - 0.5, p);
  }

  lemma SignOfProduct(a: real, p: real)
    requires p > 0.0
    ensures a * p >= 0.0 <==> a >= 0.0
  {
  }

  method TailSum(n: nat, k: nat) returns (tail: nat)
    requires k <= n
    ensures tail == Tail(n, k)
  {
    tail := 0;
    var i := n + 1;
    while i > k
      invariant k <= i <= n + 1 && tail == Tail(n, i)
    {
      i := i - 1;
      tail := tail + Comb(n, i);
    }
  }

  /** The least count whose tail is not above the level, and at most one more than the pairs there are. */
  method LeastCount(pairs: nat, level: real) returns (count: nat)
    ensures count <= pairs + 1 && (level >= 0.0 ==> Tail(pairs, count) as real <= level)
    ensures forall k: nat | k < count :: Tail(pairs, k) as real > level
    ensures count == 0 <==> level >= Pow2(pairs) as real
    ensures 2.0 * level < Pow2(pairs) as real ==> 2 * count > pairs
  {
    WholeRow(pairs);
    for k := pairs + 1 downto 0
      invariant level >= 0.0 ==> Tail(pairs, k) as real <= level
      invariant 2.0 * level < Pow2(pairs) as real ==> 2 * k > pairs
    {
      var tail := TailSum(pairs, k);
      if tail as real > level {
        forall j: nat | j <= k
          ensures Tail(pairs, j) as real > level
        {
          TailFalls(pairs, j, k);
        }
        return k + 1;
      }
      if 2 * k <= pairs {
        LowTail(pairs, k);
      }
    }
    count := 0;
  }

  /** The least count whose tail is at most the fraction `alpha` of the whole row, and at most one more than the pairs
      there are. */
  method WinThreshold(pairs: nat, alpha: real) returns (count: nat, ghost level: real)
    ensures level == alpha * (Pow2(pairs) as real)
    ensures count <= pairs + 1
    ensures alpha >= 0.0 ==> Tail(pairs, count) as real <= level
    ensures forall k: nat | k < count :: Tail(pairs, k) as real > level
    ensures count == 0 <==> alpha >= 1.0
    ensures alpha < 0.5 ==> 2 * count > pairs
  {
    var total := Pow2(pairs);
    var share := alpha * (total as real);
    level := share;
    LevelIs(alpha, total, share);
    count := LeastCount(pairs, share);
  }

  /** A tail from the middle or below is at least half the row. */
  lemma LowTail(n: nat, k: nat)
    requires 2 * k <= n
    ensures 2.0 * Tail(n, k) as real >= Pow2(n) as real
  {
    TailMirror(n, k);
    TailFalls(n, k, n + 1 - k);
    assert (2 * Tail(n, k)) as real == 2.0 * Tail(n, k) as real;
  }
}
