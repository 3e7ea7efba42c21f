/** Byte-pair encoding by merge ranks, and the pruning of a merge list to what a text can reach.
    A symbol is a string of byte-level characters; a merge joins two neighbouring symbols. */
module Bpe {

  datatype Merge = Merge(left: string, right: string)
  {
    function Product(): string { left + right }
  }

  /** How a tokenizer looks a pair up: by the two symbols, or by the string they form. */
  datatype Keying = ByPair | ByProduct

  predicate Matches(keying: Keying, m: Merge, l: string, r: string) {
    match keying
    case ByPair => m.left == l && m.right == r
    case ByProduct => m.Product() == l + r
  }

  /** A pair's rank: the index of the last merge that matches it, or -1. */
  function Rank(keying: Keying, merges: seq<Merge>, l: string, r: string): (rank: int)
    ensures -1 <= rank < |merges|
    ensures rank >= 0 ==> Matches(keying, merges[rank], l, r)
  {
    if merges == [] then -1
    else if Matches(keying, merges[|merges| - 1], l, r) then |merges| - 1
    else Rank(keying, merges[..|merges| - 1], l, r)
  }

  function RankAt(keying: Keying, merges: seq<Merge>, symbols: seq<string>, i: nat): int
    requires i + 1 < |symbols|
  {
    Rank(keying, merges, symbols[i], symbols[i + 1])
  }

  /** The leftmost of the pairs of lowest rank among the first `n` pairs, or -1 where none has a rank. */
  function Best(keying: Keying, merges: seq<Merge>, symbols: seq<string>, n: nat): (pos: int)
    requires n == 0 || n < |symbols|
    ensures -1 <= pos < n
    ensures pos >= 0 ==> RankAt(keying, merges, symbols, pos) >= 0
  {
    if n == 0 then -1 else
      var pos := Best(keying, merges, symbols, n - 1);
      var rank := RankAt(keying, merges, symbols, n - 1);
      if rank >= 0 && (pos < 0 || rank < RankAt(keying, merges, symbols, pos)) then n - 1 else pos
  }

  function Join(symbols: seq<string>, i: nat): (r: seq<string>)
    requires i + 1 < |symbols|
    ensures |r| == |symbols| - 1
  {
    symbols[..i] + [symbols[i] + symbols[i + 1]] + symbols[i + 2..]
  }

  /** Merging until no pair has a rank. */
  function Encode(keying: Keying, merges: seq<Merge>, symbols: seq<string>): seq<string>
    decreases |symbols|
  {
    if |symbols| <= 1 then symbols else
      var pos := Best(keying, merges, symbols, |symbols| - 1);
      if pos < 0 then symbols else Encode(keying, merges, Join(symbols, pos))
  }

  function Characters(word: string): seq<string> {
    seq(|word|, i requires 0 <= i < |word| => [word[i]])
  }

  function Concat(symbols: seq<string>): string {
    if symbols == [] then [] else symbols[0] + Concat(symbols[1..])
  }

  // ----- what has a rank -----

  /** A pair's rank is the index of the last merge that matches it: one that matches is no later. */
  lemma {:induction false} RankIsLast(keying: Keying, merges: seq<Merge>, l: string, r: string, k: nat)
    requires k < |merges| && Matches(keying, merges[k], l, r)
    ensures k <= Rank(keying, merges, l, r)
  {
    var n := |merges| - 1;
    if k < n && !Matches(keying, merges[n], l, r) {
      RankIsLast(keying, merges[..n], l, r, k);
    }
  }

  /** What it is for a pair to match, by its symbols or by the string they form. */
  lemma MatchesAre(m: Merge, l: string, r: string)
    ensures Matches(ByPair, m, l, r) <==> m.left == l && m.right == r
    ensures Matches(ByProduct, m, l, r) <==> m.left + m.right == l + r
  {
  }

  // ----- what Best chooses -----

  /** The pair chosen has the lowest rank, and every pair before it a higher one. */
  lemma {:induction false} BestIsLeftmostLowest(keying: Keying, merges: seq<Merge>, symbols: seq<string>, n: nat,
                                                i: nat)
    requires n < |symbols| && i < n
    ensures var pos := Best(keying, merges, symbols, n);
            && (RankAt(keying, merges, symbols, i) >= 0 ==>
                  pos >= 0 && RankAt(keying, merges, symbols, pos) <= RankAt(keying, merges, symbols, i))
            && (RankAt(keying, merges, symbols, i) >= 0 && i < pos ==>
                  RankAt(keying, merges, symbols, pos) < RankAt(keying, merges, symbols, i))
  {
    if i < n - 1 {
      BestIsLeftmostLowest(keying, merges, symbols, n - 1, i);
    }
  }

  /** An encoding holds no pair that a merge matches. */
  lemma EncodeHasNoMatch(keying: Keying, merges: seq<Merge>, symbols: seq<string>, i: nat, k: nat)
    requires i + 1 < |Encode(keying, merges, symbols)| && k < |merges|
    ensures var r := Encode(keying, merges, symbols); !Matches(keying, merges[k], r[i], r[i + 1])
  {
    var r := Encode(keying, merges, symbols);
    EncodeIsFinal(keying, merges, symbols, i);
    if Matches(keying, merges[k], r[i], r[i + 1]) {
      RankIsLast(keying, merges, r[i], r[i + 1], k);
    }
  }

  /** An encoding holds no pair that has a rank. */
  lemma {:induction false} EncodeIsFinal(keying: Keying, merges: seq<Merge>, symbols: seq<string>, i: nat)
    requires i + 1 < |Encode(keying, merges, symbols)|
    ensures RankAt(keying, merges, Encode(keying, merges, symbols), i) < 0
    decreases |symbols|
  {
    var pos := Best(keying, merges, symbols, |symbols| - 1);
    if pos < 0 {
      BestIsLeftmostLowest(keying, merges, symbols, |symbols| - 1, i);
    } else {
      EncodeIsFinal(keying, merges, Join(symbols, pos), i);
    }
  }

  lemma {:induction false} ConcatParts(a: seq<string>, b: seq<string>)
    ensures Concat(a + b) == Concat(a) + Concat(b)
  {
    if a == [] {
      assert a + b == b;
    } else {
      ConcatParts(a[1..], b);
      assert (a + b)[1..] == a[1..] + b && (a + b)[0] == a[0];
      assert a[0] + (Concat(a[1..]) + Concat(b)) == a[0] + Concat(a[1..]) + Concat(b);
    }
  }

  lemma ConcatPair(a: string, b: string, rest: seq<string>)
    ensures Concat([a, b] + rest) == Concat([a + b] + rest)
  {
    assert ([a, b] + rest)[1..] == [b] + rest;
    assert ([b] + rest)[1..] == rest;
    assert ([a + b] + rest)[1..] == rest;
    assert a + (b + Concat(rest)) == (a + b) + Concat(rest);
  }

  lemma JoinParts(symbols: seq<string>, i: nat)
    requires i + 1 < |symbols|
    ensures i == 0 ==> symbols == [symbols[0], symbols[1]] + symbols[2..]
    ensures i == 0 ==> Join(symbols, 0) == [symbols[0] + symbols[1]] + symbols[2..]
    ensures i > 0 ==> Join(symbols, i)[0] == symbols[0] && Join(symbols, i)[1..] == Join(symbols[1..], i - 1)
  {
  }

  lemma {:induction false} JoinKeeps(symbols: seq<string>, i: nat)
    requires i + 1 < |symbols|
    ensures Concat(Join(symbols, i)) == Concat(symbols)
  {
    JoinParts(symbols, i);
    hide Join;
    if i == 0 {
      ConcatPair(symbols[0], symbols[1], symbols[2..]);
    } else {
      JoinKeeps(symbols[1..], i - 1);
    }
  }

  /** Encoding only cuts: the symbols in a row are the word. */
  lemma {:induction false} EncodeKeeps(keying: Keying, merges: seq<Merge>, symbols: seq<string>)
    ensures Concat(Encode(keying, merges, symbols)) == Concat(symbols)
    decreases |symbols|
  {
    if |symbols| > 1 {
      var pos := Best(keying, merges, symbols, |symbols| - 1);
      if pos >= 0 {
        JoinKeeps(symbols, pos);
        EncodeKeeps(keying, merges, Join(symbols, pos));
      }
    }
  }

  lemma {:induction false} CharactersConcat(word: string)
    ensures Concat(Characters(word)) == word
  {
    if word != [] {
      CharactersConcat(word[1..]);
      assert Characters(word)[1..] == Characters(word[1..]);
      assert word == [word[0]] + word[1..];
    }
  }

  // ----- pruning -----

  /** The merges whose product is in `reach`, in rank order. */
  function Pruned(merges: seq<Merge>, reach: set<string>): (kept: seq<Merge>)
    ensures |kept| <= |merges|
  {
    if merges == [] then [] else
      var front, last := merges[..|merges| - 1], merges[|merges| - 1];
      Pruned(front, reach) + (if last.Product() in reach then [last] else [])
  }

  /** Pruning renumbers the ranks of reachable pairs without changing their order. */
  lemma {:induction false} PruningKeepsOrder(keying: Keying, merges: seq<Merge>, reach: set<string>, l: string,
                                             r: string, l2: string, r2: string)
    requires l + r in reach && l2 + r2 in reach
    ensures var kept := Pruned(merges, reach);
            && (Rank(keying, merges, l, r) < 0 <==> Rank(keying, kept, l, r) < 0)
            && (Rank(keying, merges, l, r) < Rank(keying, merges, l2, r2)
                <==> Rank(keying, kept, l, r) < Rank(keying, kept, l2, r2))
            && (Rank(keying, merges, l2, r2) < Rank(keying, merges, l, r)
                <==> Rank(keying, kept, l2, r2) < Rank(keying, kept, l, r))
  {
    if merges != [] {
      var front, m := merges[..|merges| - 1], merges[|merges| - 1];
      PruningKeepsOrder(keying, front, reach, l, r, l2, r2);
      var kept := Pruned(front, reach);
      if m.Product() in reach {
        assert (kept + [m])[..|kept|] == kept;
      } else {
        assert !Matches(keying, m, l, r) && !Matches(keying, m, l2, r2);
        assert kept + [] == kept;
      }
    }
  }

  /** What is kept is a part of the list, and forms strings in `reach`. */
  lemma {:induction false} PrunedKeeps(merges: seq<Merge>, reach: set<string>)
    ensures forall m | m in Pruned(merges, reach) :: m in merges && m.Product() in reach
  {
    if merges != [] {
      PrunedKeeps(merges[..|merges| - 1], reach);
    }
  }

  /** Every pair of neighbours forms a string in `reach`. */
  ghost predicate PairsReach(symbols: seq<string>, reach: set<string>) {
    forall i | 0 <= i < |symbols| - 1 :: symbols[i] + symbols[i + 1] in reach
  }

  lemma PairsKeepOrder(keying: Keying, merges: seq<Merge>, reach: set<string>, symbols: seq<string>, i: nat, j: nat)
    requires i + 1 < |symbols| && j + 1 < |symbols| && PairsReach(symbols, reach)
    ensures RankAt(keying, merges, symbols, i) < 0 <==> RankAt(keying, Pruned(merges, reach), symbols, i) < 0
    ensures RankAt(keying, merges, symbols, i) < RankAt(keying, merges, symbols, j)
       <==> RankAt(keying, Pruned(merges, reach), symbols, i) < RankAt(keying, Pruned(merges, reach), symbols, j)
  {
    PruningKeepsOrder(keying, merges, reach, symbols[i], symbols[i + 1], symbols[j], symbols[j + 1]);
  }

  lemma {:induction false} SameBest(keying: Keying, merges: seq<Merge>, reach: set<string>, symbols: seq<string>,
                                    n: nat)
    requires n == 0 || n < |symbols|
    requires PairsReach(symbols, reach)
    ensures Best(keying, Pruned(merges, reach), symbols, n) == Best(keying, merges, symbols, n)
  {
    hide Rank, RankAt, Pruned, PairsReach;
    if n > 0 {
      SameBest(keying, merges, reach, symbols, n - 1);
      var pos := Best(keying, merges, symbols, n - 1);
      PairsKeepOrder(keying, merges, reach, symbols, n - 1, if pos < 0 then n - 1 else pos);
    }
  }

  /** The symbols are nonempty and in a row are the word. */
  ghost predicate Cuts(symbols: seq<string>, word: string) {
    (forall i | 0 <= i < |symbols| :: symbols[i] != []) && Concat(symbols) == word
  }

  /** Every substring of at least two characters of the word is in `reach`. */
  ghost predicate Reaches(reach: set<string>, word: string) {
    forall i, j | 0 <= i && i + 2 <= j <= |word| :: word[i..j] in reach
  }

  lemma CutsReach(symbols: seq<string>, word: string, reach: set<string>)
    requires Cuts(symbols, word) && Reaches(reach, word)
    ensures PairsReach(symbols, reach)
  {
    forall i | 0 <= i < |symbols| - 1
      ensures symbols[i] + symbols[i + 1] in reach
    {
      PairInWord(symbols, i);
      var j := |Concat(symbols[..i])|;
      assert word[j..j + |symbols[i] + symbols[i + 1]|] == symbols[i] + symbols[i + 1];
    }
  }

  /** Two neighbours are a part of the word. */
  lemma PairInWord(symbols: seq<string>, i: nat)
    requires i + 1 < |symbols|
    ensures var before, pair, word := Concat(symbols[..i]), symbols[i] + symbols[i + 1], Concat(symbols);
            |before| + |pair| <= |word| && word[|before|..|before| + |pair|] == pair
  {
    var before, pair, after := Concat(symbols[..i]), symbols[i] + symbols[i + 1], Concat(symbols[i + 2..]);
    assert symbols == symbols[..i] + ([symbols[i], symbols[i + 1]] + symbols[i + 2..]);
    ConcatParts(symbols[..i], [symbols[i], symbols[i + 1]] + symbols[i + 2..]);
    ConcatPair(symbols[i], symbols[i + 1], symbols[i + 2..]);
    ConcatParts([pair], symbols[i + 2..]);
    assert Concat([pair]) == pair by { assert [pair][1..] == [] && pair + [] == pair; }
    hide Concat;
    assert Concat(symbols) == before + (pair + after);
    assert (before + (pair + after))[|before|..|before| + |pair|] == pair;
  }

  lemma JoinCuts(symbols: seq<string>, word: string, i: nat)
    requires Cuts(symbols, word) && i + 1 < |symbols|
    ensures Cuts(Join(symbols, i), word)
  {
    JoinKeeps(symbols, i);
  }

  lemma {:induction false} SameEncoding(keying: Keying, merges: seq<Merge>, reach: set<string>, symbols: seq<string>,
                                        word: string)
    requires Cuts(symbols, word) && Reaches(reach, word)
    ensures Encode(keying, Pruned(merges, reach), symbols) == Encode(keying, merges, symbols)
    decreases |symbols|
  {
    if |symbols| > 1 {
      CutsReach(symbols, word, reach);
      SameBest(keying, merges, reach, symbols, |symbols| - 1);
      var pos := Best(keying, merges, symbols, |symbols| - 1);
      if pos >= 0 {
        JoinCuts(symbols, word, pos);
        SameEncoding(keying, merges, reach, Join(symbols, pos), word);
      }
    }
  }

  lemma SliceOfSlice(text: string, from: nat, to: nat, i: nat, j: nat)
    requires from <= to <= |text| && i <= j <= to - from
    ensures text[from..to][i..j] == text[from + i..from + j]
  {
    var s, t := text[from..to][i..j], text[from + i..from + j];
    assert |s| == |t|;
    forall k | 0 <= k < |s|
      ensures s[k] == t[k]
    {
      assert s[k] == text[from..to][i + k];
    }
  }

  /** The merges that form a substring of a text give every piece of it the symbols the whole list gives, however the
      text is cut. */
  lemma PruningKeepsEncoding(keying: Keying, merges: seq<Merge>, reach: set<string>, text: string, from: nat, to: nat)
    requires Reaches(reach, text) && from <= to <= |text|
    ensures Encode(keying, Pruned(merges, reach), Characters(text[from..to]))
            == Encode(keying, merges, Characters(text[from..to]))
  {
    var piece := text[from..to];
    CharactersConcat(piece);
    forall i: nat, j: nat | i + 2 <= j <= |piece|
      ensures piece[i..j] in reach
    {
      SliceOfSlice(text, from, to, i, j);
    }
    SameEncoding(keying, merges, reach, Characters(piece), piece);
  }

  // ----- what the encoder gives -----

  /** The symbol is one character of the word, or what a merge of the list forms. */
  ghost predicate Known(symbol: string, merges: seq<Merge>, word: string) {
    (|symbol| == 1 && symbol[0] in word) || exists k | 0 <= k < |merges| :: merges[k].Product() == symbol
  }

  ghost predicate AllKnown(symbols: seq<string>, merges: seq<Merge>, word: string) {
    forall i | 0 <= i < |symbols| :: Known(symbols[i], merges, word)
  }

  lemma JoinKnown(keying: Keying, merges: seq<Merge>, symbols: seq<string>, pos: nat, word: string)
    requires AllKnown(symbols, merges, word)
    requires pos + 1 < |symbols| && RankAt(keying, merges, symbols, pos) >= 0
    ensures AllKnown(Join(symbols, pos), merges, word)
  {
    var k := RankAt(keying, merges, symbols, pos);
    assert merges[k].Product() == symbols[pos] + symbols[pos + 1];
  }

  lemma {:induction false} EncodeKnown(keying: Keying, merges: seq<Merge>, symbols: seq<string>, word: string)
    requires AllKnown(symbols, merges, word)
    ensures AllKnown(Encode(keying, merges, symbols), merges, word)
    decreases |symbols|
  {
    if |symbols| > 1 {
      var pos := Best(keying, merges, symbols, |symbols| - 1);
      if pos >= 0 {
        JoinKnown(keying, merges, symbols, pos, word);
        EncodeKnown(keying, merges, Join(symbols, pos), word);
      }
    }
  }

  // ----- the substrings a text reaches -----

  /** How long the substrings taken may be: any length, or at most `longest` characters. */
  datatype Cap = Whole | AtMost(longest: nat)

  function End(cap: Cap, text: string, i: nat): nat {
    if cap.Whole? || |text| <= i + cap.longest then |text| else i + cap.longest
  }

  /** `s` is a substring of at least two characters within the cap, and starts in `text` before `n`, or at `n` and
      ends before `m`. */
  ghost predicate Within(s: string, text: string, cap: Cap, n: nat, m: nat) {
    exists i: nat, j: nat ::
      && i + 2 <= j <= |text| && (cap.AtMost? ==> j <= i + cap.longest)
      && s == text[i..j]
      && (i < n || (i == n && j < m))
  }

  ghost predicate ReachedFrom(s: string, texts: seq<string>, cap: Cap, n: nat) {
    exists t: nat :: t < n && t < |texts| && Within(s, texts[t], cap, |texts[t]|, 0)
  }

  lemma WithinNext(s: string, text: string, cap: Cap, n: nat, m: nat)
    requires n < |text| && n + 2 <= m <= End(cap, text, n)
    ensures Within(s, text, cap, n, m + 1) <==> Within(s, text, cap, n, m) || s == text[n..m]
  {
    if s == text[n..m] {
      assert n + 2 <= m <= End(cap, text, n) && m <= |text|;
    }
  }

  lemma WithinRow(s: string, text: string, cap: Cap, n: nat)
    requires n < |text|
    ensures Within(s, text, cap, n + 1, 0) <==> Within(s, text, cap, n, End(cap, text, n) + 1)
    ensures forall m: nat | m <= n + 2 :: Within(s, text, cap, n, m) <==> Within(s, text, cap, n, 0)
    ensures End(cap, text, n) < n + 2 ==> (Within(s, text, cap, n + 1, 0) <==> Within(s, text, cap, n, 0))
  {
  }

  /** The substrings of the texts that the cap admits. */
  method Reach(texts: seq<string>, cap: Cap) returns (reach: set<string>)
    ensures forall s :: s in reach <==> ReachedFrom(s, texts, cap, |texts|)
  {
    reach := {};
    for t := 0 to |texts|
      invariant forall s :: s in reach <==> ReachedFrom(s, texts, cap, t)
    {
      var text := texts[t];
      var i: nat := 0;
      while i < |text|
        invariant i <= |text|
        invariant forall s :: s in reach <==> ReachedFrom(s, texts, cap, t) || Within(s, text, cap, i, 0)
      {
        var end := End(cap, text, i);
        forall s { WithinRow(s, text, cap, i); }
        var j: nat := i + 2;
        while j <= end
          invariant i + 2 <= j <= (if end < i + 2 then i + 2 else end + 1)
          invariant forall s :: s in reach <==> ReachedFrom(s, texts, cap, t) || Within(s, text, cap, i, j)
        {
          forall s { WithinNext(s, text, cap, i, j); }
          reach := reach + {text[i..j]};
          j := j + 1;
        }
        i := i + 1;
      }
    }
  }

  ghost function Substrings(texts: seq<string>): (whole: set<string>)
    ensures forall s :: s in whole <==> ReachedFrom(s, texts, Whole, |texts|)
  {
    var whole := set t: nat, i: nat, j: nat | t < |texts| && i + 2 <= j <= |texts[t]| :: texts[t][i..j];
    assert forall s :: s in whole ==> ReachedFrom(s, texts, Whole, |texts|) by {
      forall t: nat, i: nat, j: nat | t < |texts| && i + 2 <= j <= |texts[t]|
        ensures ReachedFrom(texts[t][i..j], texts, Whole, |texts|)
      {
        assert Within(texts[t][i..j], texts[t], Whole, |texts[t]|, 0);
      }
    }
    whole
  }

  /** Every substring of a text is reached where there is no cap. */
  lemma WholeReaches(texts: seq<string>, reach: set<string>, t: nat)
    requires forall s :: s in reach <==> ReachedFrom(s, texts, Whole, |texts|)
    requires t < |texts|
    ensures Reaches(reach, texts[t])
  {
    forall i: nat, j: nat | i + 2 <= j <= |texts[t]|
      ensures texts[t][i..j] in reach
    {
      assert Within(texts[t][i..j], texts[t], Whole, |texts[t]|, 0);
    }
  }

  /** A cap no product passes takes no merge from the list. */
  lemma {:induction false} CapKeepsMerges(texts: seq<string>, merges: seq<Merge>, longest: nat, whole: set<string>,
                                          capped: set<string>)
    requires forall s :: s in whole <==> ReachedFrom(s, texts, Whole, |texts|)
    requires forall s :: s in capped <==> ReachedFrom(s, texts, AtMost(longest), |texts|)
    requires forall k | 0 <= k < |merges| :: |merges[k].Product()| <= longest
    ensures Pruned(merges, capped) == Pruned(merges, whole)
  {
    if merges != [] {
      CapKeepsMerges(texts, merges[..|merges| - 1], longest, whole, capped);
      var s := merges[|merges| - 1].Product();
      CapKeeps(s, texts, longest);
    }
  }

  lemma CapKeeps(s: string, texts: seq<string>, longest: nat)
    requires |s| <= longest
    ensures ReachedFrom(s, texts, AtMost(longest), |texts|) <==> ReachedFrom(s, texts, Whole, |texts|)
  {
    forall text
      ensures Within(s, text, AtMost(longest), |text|, 0) <==> Within(s, text, Whole, |text|, 0)
    {
      WithinCap(s, text, longest);
    }
  }

  lemma WithinCap(s: string, text: string, longest: nat)
    requires |s| <= longest
    ensures Within(s, text, AtMost(longest), |text|, 0) <==> Within(s, text, Whole, |text|, 0)
  {
    if Within(s, text, Whole, |text|, 0) {
      var i: nat, j: nat :| i + 2 <= j <= |text| && s == text[i..j];
      assert j <= End(AtMost(longest), text, i);
    }
  }

  // ----- the generator's vocabulary -----

  /** The longest product of the list. */
  method Longest(merges: seq<Merge>) returns (longest: nat)
    requires merges != []
    ensures forall k | 0 <= k < |merges| :: |merges[k].Product()| <= longest
    ensures exists k :: 0 <= k < |merges| && |merges[k].Product()| == longest
  {
    longest := |merges[0].Product()|;
    for i := 1 to |merges|
      invariant forall k | 0 <= k < i :: |merges[k].Product()| <= longest
      invariant exists k :: 0 <= k < i && |merges[k].Product()| == longest
    {
      if |merges[i].Product()| > longest {
        longest := |merges[i].Product()|;
      }
    }
  }

  method Prune(merges: seq<Merge>, reach: set<string>) returns (kept: seq<Merge>)
    ensures kept == Pruned(merges, reach)
  {
    kept := [];
    for i := 0 to |merges|
      invariant kept == Pruned(merges[..i], reach)
    {
      assert merges[..i + 1][..i] == merges[..i];
      if merges[i].Product() in reach {
        kept := kept + [merges[i]];
      }
    }
    assert merges[..|merges|] == merges;
  }

  /** An entry is the vocabulary's, or an added token's. */
  ghost predicate Entry(id: nat, content: string, vocab: map<string, nat>, added: seq<(nat, string)>) {
    (content in vocab && vocab[content] == id) || (id, content) in added
  }

  /** The tokens by id: the alphabet's, those the kept merges form, and the added ones over them. */
  method Tokens(alphabet: seq<char>, kept: seq<Merge>, vocab: map<string, nat>, added: seq<(nat, string)>)
    returns (tokens: map<nat, string>)
    requires forall c | c in alphabet :: [c] in vocab
    requires forall k | 0 <= k < |kept| :: kept[k].Product() in vocab
    ensures forall c | c in alphabet :: vocab[[c]] in tokens
    ensures forall k | 0 <= k < |kept| :: vocab[kept[k].Product()] in tokens
    ensures forall a | a in added :: a.0 in tokens
    ensures forall id | id in tokens :: Entry(id, tokens[id], vocab, added)
  {
    tokens := map[];
    for i := 0 to |alphabet|
      invariant forall k | 0 <= k < i :: vocab[[alphabet[k]]] in tokens
      invariant forall id | id in tokens :: Entry(id, tokens[id], vocab, added)
    {
      tokens := tokens[vocab[[alphabet[i]]] := [alphabet[i]]];
    }
    for i := 0 to |kept|
      invariant forall c | c in alphabet :: vocab[[c]] in tokens
      invariant forall k | 0 <= k < i :: vocab[kept[k].Product()] in tokens
      invariant forall id | id in tokens :: Entry(id, tokens[id], vocab, added)
    {
      tokens := tokens[vocab[kept[i].Product()] := kept[i].Product()];
    }
    for i := 0 to |added|
      invariant forall c | c in alphabet :: vocab[[c]] in tokens
      invariant forall k | 0 <= k < |kept| :: vocab[kept[k].Product()] in tokens
      invariant forall k | 0 <= k < i :: added[k].0 in tokens
      invariant forall id | id in tokens :: Entry(id, tokens[id], vocab, added)
    {
      assert added[i] in added;
      tokens := tokens[added[i].0 := added[i].1];
    }
  }

  /** Every piece of the text encodes as with the whole list, and to symbols whose ids are in the tokens. */
  ghost predicate Serves(keying: Keying, kept: seq<Merge>, tokens: map<nat, string>, merges: seq<Merge>,
                         vocab: map<string, nat>, text: string) {
    forall from, to | 0 <= from <= to <= |text| ::
      var symbols := Encode(keying, merges, Characters(text[from..to]));
      && Encode(keying, kept, Characters(text[from..to])) == symbols
      && forall i | 0 <= i < |symbols| :: symbols[i] in vocab && vocab[symbols[i]] in tokens
  }

  lemma KeptServes(keying: Keying, kept: seq<Merge>, tokens: map<nat, string>, merges: seq<Merge>,
                   vocab: map<string, nat>, text: string, reach: set<string>)
    requires kept == Pruned(merges, reach) && Reaches(reach, text)
    requires forall c | c in text :: [c] in vocab && vocab[[c]] in tokens
    requires forall k | 0 <= k < |kept| :: kept[k].Product() in vocab && vocab[kept[k].Product()] in tokens
    ensures Serves(keying, kept, tokens, merges, vocab, text)
  {
    forall from: nat, to: nat | from <= to <= |text|
      ensures var symbols := Encode(keying, merges, Characters(text[from..to]));
              && Encode(keying, kept, Characters(text[from..to])) == symbols
              && forall i | 0 <= i < |symbols| :: symbols[i] in vocab && vocab[symbols[i]] in tokens
    {
      var piece := text[from..to];
      PruningKeepsEncoding(keying, merges, reach, text, from, to);
      assert AllKnown(Characters(piece), kept, piece);
      EncodeKnown(keying, kept, Characters(piece), piece);
      var symbols := Encode(keying, kept, Characters(piece));
      forall i | 0 <= i < |symbols|
        ensures symbols[i] in vocab && vocab[symbols[i]] in tokens
      {
        assert Known(symbols[i], kept, piece);
        if |symbols[i]| == 1 && symbols[i][0] in piece {
          assert symbols[i] == [symbols[i][0]] && symbols[i][0] in text;
        }
      }
    }
  }

  /** The pruned vocabulary serves every text, keyed by the pair or by what it forms, whether or not the substrings
      are capped. */
  method Vocabulary(texts: seq<string>, merges: seq<Merge>, vocab: map<string, nat>, alphabet: seq<char>,
                    added: seq<(nat, string)>, capped: bool)
    returns (kept: seq<Merge>, tokens: map<nat, string>)
    requires capped ==> merges != []
    requires forall c | c in alphabet :: [c] in vocab
    requires forall k | 0 <= k < |merges| :: merges[k].Product() in vocab
    requires forall t, i | 0 <= t < |texts| && 0 <= i < |texts[t]| :: texts[t][i] in alphabet
    ensures |kept| <= |merges|
    ensures forall keying, t | 0 <= t < |texts| :: Serves(keying, kept, tokens, merges, vocab, texts[t])
    ensures forall k | 0 <= k < |kept| :: ReachedFrom(kept[k].Product(), texts, Whole, |texts|)
    ensures forall id | id in tokens :: Entry(id, tokens[id], vocab, added)
  {
    var cap := Whole;
    if capped {
      var longest := Longest(merges);
      cap := AtMost(longest);
    }
    var reach := Reach(texts, cap);
    kept := Prune(merges, reach);
    ghost var whole := Substrings(texts);
    if capped {
      CapKeepsMerges(texts, merges, cap.longest, whole, reach);
    } else {
      assert reach == whole;
    }
    PrunedKeeps(merges, whole);
    tokens := Tokens(alphabet, kept, vocab, added);
    forall keying, t: nat | t < |texts|
      ensures Serves(keying, kept, tokens, merges, vocab, texts[t])
    {
      WholeReaches(texts, whole, t);
      KeptServes(keying, kept, tokens, merges, vocab, texts[t], whole);
    }
  }

  // ----- the tokenizer -----

  const UINT32_MAX: nat := 0xFFFF_FFFF

  /** The map holds exactly the ranks of the merges, by the string a pair forms. */
  ghost predicate RanksOf(ranks: map<string, nat>, merges: seq<Merge>) {
    forall l, r :: Rank(ByProduct, merges, l, r) == if l + r in ranks then ranks[l + r] else -1
  }

  /** The map holds the products of the merges, each with the index of the last merge that forms it. */
  method BuildRanks(merges: seq<Merge>) returns (ranks: map<string, nat>)
    ensures forall s :: s in ranks <==> exists k :: 0 <= k < |merges| && merges[k].left + merges[k].right == s
    ensures forall s | s in ranks :: ranks[s] < |merges| && merges[ranks[s]].left + merges[ranks[s]].right == s
    ensures forall s, k | s in ranks && 0 <= k < |merges| && merges[k].left + merges[k].right == s :: k <= ranks[s]
    ensures RanksOf(ranks, merges)
  {
    ranks := map[];
    for i := 0 to |merges|
      invariant forall s | s in ranks :: ranks[s] < i && merges[ranks[s]].left + merges[ranks[s]].right == s
      invariant forall k | 0 <= k < i ::
                  var s := merges[k].left + merges[k].right;
                  s in ranks && k <= ranks[s]
      invariant RanksOf(ranks, merges[..i])
    {
      assert merges[..i + 1][..i] == merges[..i];
      ranks := ranks[merges[i].Product() := i];
    }
    assert merges[..|merges|] == merges;
  }

  lemma JoinInPlace(symbols: seq<string>, i: nat)
    requires i + 1 < |symbols|
    ensures var joined := symbols[i := symbols[i] + symbols[i + 1]];
            joined[..i + 1] + joined[i + 2..] == Join(symbols, i)
  {
  }

  /** The position of the pair to merge, or -1. */
  method Lowest(ranks: map<string, nat>, ghost merges: seq<Merge>, symbols: seq<string>) returns (bestPos: int)
    requires RanksOf(ranks, merges) && |merges| <= UINT32_MAX && |symbols| > 1
    ensures bestPos == Best(ByProduct, merges, symbols, |symbols| - 1)
  {
    var best := UINT32_MAX;
    bestPos := -1;
    for i := 0 to |symbols| - 1
      invariant bestPos == Best(ByProduct, merges, symbols, i)
      invariant best == if bestPos < 0 then UINT32_MAX else RankAt(ByProduct, merges, symbols, bestPos)
    {
      var pair := symbols[i] + symbols[i + 1];
      assert RankAt(ByProduct, merges, symbols, i) == if pair in ranks then ranks[pair] else -1;
      if pair in ranks && ranks[pair] < best {
        best, bestPos := ranks[pair], i;
      }
    }
  }

  lemma WordEncoded(merges: seq<Merge>, word: string)
    ensures var symbols := Encode(ByProduct, merges, Characters(word));
            && Concat(symbols) == word
            && forall i, k | 0 <= i < |symbols| - 1 && 0 <= k < |merges| ::
                 merges[k].left + merges[k].right != symbols[i] + symbols[i + 1]
  {
    var symbols := Encode(ByProduct, merges, Characters(word));
    EncodeKeeps(ByProduct, merges, Characters(word));
    CharactersConcat(word);
    forall i: nat, k: nat | i < |symbols| - 1 && k < |merges|
      ensures merges[k].left + merges[k].right != symbols[i] + symbols[i + 1]
    {
      EncodeHasNoMatch(ByProduct, merges, Characters(word), i, k);
    }
  }

  /** The tokenizer's own loop over a word already cut into characters. */
  method Symbols(ranks: map<string, nat>, ghost merges: seq<Merge>, word: string) returns (symbols: seq<string>)
    requires RanksOf(ranks, merges) && |merges| <= 0xFFFF_FFFF
    ensures symbols == Encode(ByProduct, merges, Characters(word))
    ensures Concat(symbols) == word
    ensures forall i, k | 0 <= i < |symbols| - 1 && 0 <= k < |merges| ::
              merges[k].left + merges[k].right != symbols[i] + symbols[i + 1]
  {
    WordEncoded(merges, word);
    symbols := Characters(word);
    while |symbols| > 1
      invariant Encode(ByProduct, merges, symbols) == Encode(ByProduct, merges, Characters(word))
      decreases |symbols|
    {
      var bestPos := Lowest(ranks, merges, symbols);
      if bestPos < 0 {
        return;
      }
      JoinInPlace(symbols, bestPos);
      symbols := symbols[bestPos := symbols[bestPos] + symbols[bestPos + 1]];
      symbols := symbols[..bestPos + 1] + symbols[bestPos + 2..];
    }
  }
}
