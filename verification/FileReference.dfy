/** The file reference's ranking of a row of logits, and its reading of embedding rows in spans. */
module FileReference {
  import opened Common

  // ----- the ranking -----

  /** Token `a` ranks before `b`: a greater logit, or the same and a lower id. */
  predicate Before(row: seq<real>, a: nat, b: nat)
    requires a < |row| && b < |row|
  {
    row[a] > row[b] || (row[a] == row[b] && a < b)
  }

  ghost predicate Tokens(row: seq<real>, s: seq<nat>) { forall i | 0 <= i < |s| :: s[i] < |row| }

  /** The tokens in rank order, no two alike. */
  ghost predicate Ranked(row: seq<real>, s: seq<nat>) {
    Tokens(row, s) && forall i, j | 0 <= i < j < |s| :: Before(row, s[i], s[j])
  }

  ghost function Members(s: seq<nat>): set<nat> { set i | 0 <= i < |s| :: s[i] }

  lemma {:induction false} RankedSize(row: seq<real>, s: seq<nat>)
    requires Ranked(row, s)
    ensures |Members(s)| == |s|
  {
    if s != [] {
      var front, last := s[..|s| - 1], s[|s| - 1];
      RankedSize(row, front);
      assert last !in Members(front);
      assert Members(s) == Members(front) + {last};
    }
  }

  /** The set holds every token that ranks before one of its own. */
  ghost predicate Upward(row: seq<real>, tokens: set<nat>) {
    && (forall t | t in tokens :: t < |row|)
    && forall a: nat, b | a < |row| && b in tokens && Before(row, a, b) :: a in tokens
  }

  /** Two such sets of one size are the same. */
  lemma SameUpward(row: seq<real>, x: set<nat>, y: set<nat>)
    requires Upward(row, x) && Upward(row, y) && |x| == |y|
    ensures x == y
  {
    if x - y != {} && y - x != {} {
      var a :| a in x - y;
      var b :| b in y - x;
      OneBefore(row, a, b);
    }
    if x <= y {
      Within(x, y);
    } else {
      Within(y, x);
    }
  }

  lemma OneBefore(row: seq<real>, a: nat, b: nat)
    requires a < |row| && b < |row| && a != b
    ensures Before(row, a, b) || Before(row, b, a)
  {
  }

  lemma Within(x: set<nat>, y: set<nat>)
    requires x <= y && |x| == |y|
    ensures x == y
  {
    assert y == x + (y - x);
    assert |y| == |x| + |y - x|;
  }

  lemma LastRanks(row: seq<real>, s: seq<nat>, t: nat)
    requires Ranked(row, s) && s != [] && t in s
    ensures t < |row| && (t == s[|s| - 1] || Before(row, t, s[|s| - 1]))
  {
  }

  /** Rank order is the only order of its tokens. */
  lemma {:induction false} OneRanking(row: seq<real>, s: seq<nat>, t: seq<nat>)
    requires Ranked(row, s) && Ranked(row, t) && Members(s) == Members(t)
    ensures s == t
  {
    RankedSize(row, s);
    RankedSize(row, t);
    if s != [] {
      var n := |s| - 1;
      assert s[n] in Members(t) && t[n] in Members(s);
      LastRanks(row, t, s[n]);
      LastRanks(row, s, t[n]);
      assert s[n] == t[n];
      FrontMembers(row, s);
      FrontMembers(row, t);
      OneRanking(row, s[..n], t[..n]);
    }
  }

  lemma FrontMembers(row: seq<real>, s: seq<nat>)
    requires Ranked(row, s) && s != []
    ensures Members(s[..|s| - 1]) == Members(s) - {s[|s| - 1]}
  {
  }

  /** The ids whose logits pass the test, in order, first up to `n`. */
  function Above(row: seq<real>, cutoff: real, n: nat): (ids: seq<nat>)
    requires n <= |row|
  {
    if n == 0 then [] else Above(row, cutoff, n - 1) + if row[n - 1] > cutoff then [n - 1] else []
  }

  function Tied(row: seq<real>, cutoff: real, n: nat): (ids: seq<nat>)
    requires n <= |row|
  {
    if n == 0 then [] else Tied(row, cutoff, n - 1) + if row[n - 1] == cutoff then [n - 1] else []
  }

  ghost predicate Rising(s: seq<nat>) { forall i, j | 0 <= i < j < |s| :: s[i] < s[j] }

  lemma {:induction false} AboveIs(row: seq<real>, cutoff: real, n: nat)
    requires n <= |row|
    ensures forall t: nat :: t in Above(row, cutoff, n) <==> t < n && row[t] > cutoff
    ensures Rising(Above(row, cutoff, n))
  {
    if n > 0 {
      AboveIs(row, cutoff, n - 1);
      var ids := Above(row, cutoff, n - 1);
      forall i | 0 <= i < |ids|
        ensures ids[i] < n - 1
      {
        assert ids[i] in ids;
      }
    }
  }

  lemma {:induction false} TiedIs(row: seq<real>, cutoff: real, n: nat)
    requires n <= |row|
    ensures forall t: nat :: t in Tied(row, cutoff, n) <==> t < n && row[t] == cutoff
    ensures Rising(Tied(row, cutoff, n))
  {
    if n > 0 {
      TiedIs(row, cutoff, n - 1);
      var ids := Tied(row, cutoff, n - 1);
      forall i | 0 <= i < |ids|
        ensures ids[i] < n - 1
      {
        assert ids[i] in ids;
      }
    }
  }

  /** The value of place `top`: fewer than `top` are above it, and at least `top` are not below. */
  ghost predicate IsCutoff(row: seq<real>, top: nat, cutoff: real) {
    |Above(row, cutoff, |row|)| < top <= |Above(row, cutoff, |row|)| + |Tied(row, cutoff, |row|)|
  }

  /** The tokens kept: all above the cutoff and the lowest ids of those at it. */
  function Kept(row: seq<real>, top: nat, cutoff: real): seq<nat>
    requires IsCutoff(row, top, cutoff)
  {
    var above := Above(row, cutoff, |row|);
    above + Tied(row, cutoff, |row|)[..top - |above|]
  }

  lemma {:induction false} RisingSize(s: seq<nat>)
    requires Rising(s)
    ensures |Members(s)| == |s|
  {
    if s != [] {
      var front, last := s[..|s| - 1], s[|s| - 1];
      RisingSize(front);
      assert Members(s) == Members(front) + {last};
    }
  }

  lemma KeptSize(row: seq<real>, top: nat, cutoff: real)
    requires IsCutoff(row, top, cutoff)
    ensures |Members(Kept(row, top, cutoff))| == top
  {
    var above, tied := Above(row, cutoff, |row|), Tied(row, cutoff, |row|);
    var part := tied[..top - |above|];
    AboveIs(row, cutoff, |row|);
    TiedIs(row, cutoff, |row|);
    RisingSize(above);
    RisingSize(part);
    MembersJoin(above, part);
    assert Members(above) !! Members(part) by {
      forall t: nat | t in Members(part)
        ensures t !in Members(above)
      {
        assert t in tied && row[t] == cutoff;
        assert t in Members(above) <==> t in above;
      }
    }
    hide Above, Tied, Members, Rising;
    assert |Members(above) + Members(part)| == |Members(above)| + |Members(part)|;
  }

  lemma KeptUpward(row: seq<real>, top: nat, cutoff: real)
    requires IsCutoff(row, top, cutoff)
    ensures Upward(row, Members(Kept(row, top, cutoff)))
  {
    var above, tied := Above(row, cutoff, |row|), Tied(row, cutoff, |row|);
    var n := top - |above|;
    AboveIs(row, cutoff, |row|);
    TiedIs(row, cutoff, |row|);
    forall t
      ensures t in Members(Kept(row, top, cutoff)) <==> t in above || t in tied[..n]
      ensures t in tied[..n] ==> t in tied
    {
      MembersJoin(above, tied[..n]);
      assert t in Members(above) <==> t in above;
      assert t in Members(tied[..n]) <==> t in tied[..n];
    }
    hide Above, Tied, Members, Kept, Rising;
    forall a: nat, b | a < |row| && b in Members(Kept(row, top, cutoff)) && Before(row, a, b)
      ensures a in Members(Kept(row, top, cutoff))
    {
      if row[a] <= cutoff {
        LowerTied(tied, n, a, b);
      }
    }
  }

  lemma MembersJoin(s: seq<nat>, t: seq<nat>)
    ensures Members(s + t) == Members(s) + Members(t)
  {
    forall x: nat
      ensures x in Members(s + t) <==> x in Members(s) + Members(t)
    {
      assert x in Members(s + t) <==> x in s + t;
      assert x in Members(s) <==> x in s;
      assert x in Members(t) <==> x in t;
    }
  }

  lemma RisingAt(s: seq<nat>, i: nat, j: nat)
    requires Rising(s) && i < j < |s|
    ensures s[i] < s[j]
  {
  }

  lemma LowerTied(tied: seq<nat>, n: nat, a: nat, b: nat)
    requires Rising(tied) && n <= |tied| && a in tied && b in tied[..n] && a < b
    ensures a in tied[..n]
  {
    var i: nat :| i < |tied| && tied[i] == a;
    var j: nat :| j < n && tied[..n][j] == b;
    if i > j {
      RisingAt(tied, j, i);
    }
    assert tied[..n][i] == a;
  }

  lemma PrefixUpward(row: seq<real>, full: seq<nat>, top: nat)
    requires Ranked(row, full) && |full| == |row| && (forall t: nat | t < |row| :: t in full) && top <= |full|
    ensures Upward(row, Members(full[..top])) && |Members(full[..top])| == top
  {
    RankedSize(row, full[..top]);
    var x := Members(full[..top]);
    forall a: nat, b | a < |row| && b in x && Before(row, a, b)
      ensures a in x
    {
      assert a in full;
      var i :| 0 <= i < |full| && full[i] == a;
      var j :| 0 <= j < top && full[..top][j] == b;
      assert i < j;
      assert full[..top][i] == a;
    }
  }

  /** Every token in rank order. */
  ghost predicate Ranking(row: seq<real>, full: seq<nat>) {
    Ranked(row, full) && |full| == |row| && forall t: nat | t < |row| :: t in full
  }

  /** A token with a greater logit than that of a place is at a place before it. */
  lemma GreaterIsEarlier(row: seq<real>, full: seq<nat>, n: nat, t: nat)
    requires Ranking(row, full) && n < |full| && t < |row| && row[t] > row[full[n]]
    ensures t in Members(full[..n])
  {
    assert t in full;
    var i: nat :| i < |full| && full[i] == t;
    if i > n {
      RankedAt(row, full, n, i);
    }
    assert full[..n][i] == t;
  }

  lemma RankedAt(row: seq<real>, s: seq<nat>, i: nat, j: nat)
    requires Ranked(row, s) && i <= j < |s|
    ensures s[i] < |row| && s[j] < |row| && row[s[i]] >= row[s[j]]
  {
    assert i < j ==> Before(row, s[i], s[j]);
  }

  lemma EarlierIsNotLess(row: seq<real>, full: seq<nat>, n: nat, t: nat)
    requires Ranking(row, full) && n < |full| && t in Members(full[..n + 1])
    ensures t < |row| && row[t] >= row[full[n]]
  {
    var i: nat :| i < n + 1 && full[..n + 1][i] == t;
    RankedAt(row, full, i, n);
  }

  /** The logit of place `top - 1` of the whole ranking, which is the last of the `top` greatest, is the cutoff: fewer
      than `top` are above it, and at least `top` are not below. */
  lemma CutoffOfRanking(row: seq<real>, top: nat, full: seq<nat>)
    requires Ranking(row, full) && 0 < top <= |row|
    ensures IsCutoff(row, top, row[full[top - 1]])
  {
    FewerAbove(row, top, full);
    EnoughNotBelow(row, top, full);
  }

  lemma FewerAbove(row: seq<real>, top: nat, full: seq<nat>)
    requires Ranking(row, full) && 0 < top <= |row|
    ensures |Above(row, row[full[top - 1]], |row|)| < top
  {
    var above, before := Above(row, row[full[top - 1]], |row|), full[..top - 1];
    AboveIs(row, row[full[top - 1]], |row|);
    RisingSize(above);
    RankedSize(row, before);
    InMembers(above);
    hide Members, Above, Ranked;
    forall t | t in Members(above)
      ensures t in Members(before)
    {
      GreaterIsEarlier(row, full, top - 1, t);
    }
    SubsetSize(Members(above), Members(before));
  }

  lemma EnoughNotBelow(row: seq<real>, top: nat, full: seq<nat>)
    requires Ranking(row, full) && 0 < top <= |row|
    ensures top <= |Above(row, row[full[top - 1]], |row|)| + |Tied(row, row[full[top - 1]], |row|)|
  {
    var above, tied := Above(row, row[full[top - 1]], |row|), Tied(row, row[full[top - 1]], |row|);
    AboveIs(row, row[full[top - 1]], |row|);
    TiedIs(row, row[full[top - 1]], |row|);
    RisingSize(above);
    RisingSize(tied);
    RankedSize(row, full[..top]);
    InMembers(above);
    InMembers(tied);
    var x, y, first := Members(above), Members(tied), Members(full[..top]);
    hide Members, Above, Tied, Ranked;
    forall t | t in first
      ensures t in x + y
    {
      EarlierIsNotLess(row, full, top - 1, t);
    }
    SubsetSize(first, x + y);
    SizeOfUnion(x, y);
  }

  lemma InMembers(s: seq<nat>)
    ensures forall t :: t in Members(s) <==> t in s
  {
  }

  /** The tokens kept by the cutoff of the ranking. */
  ghost function KeptOf(row: seq<real>, top: nat, full: seq<nat>): seq<nat>
    requires Ranking(row, full) && 0 < top <= |row|
  {
    CutoffOfRanking(row, top, full);
    Kept(row, top, row[full[top - 1]])
  }

  lemma SizeOfUnion(x: set<nat>, y: set<nat>)
    ensures |x + y| <= |x| + |y|
  {
    assert x + y == x + (y - x);
    assert |x + (y - x)| == |x| + |y - x|;
    SubsetSize(y - x, y);
  }

  lemma SubsetSize(x: set<nat>, y: set<nat>)
    requires x <= y
    ensures |x| <= |y|
  {
    assert y == x + (y - x);
    assert |x + (y - x)| == |x| + |y - x|;
  }

  /** The tokens kept by the cutoff, in rank order, are the first of the whole ranking. */
  lemma TopIsPrefix(row: seq<real>, top: nat, ranking: seq<nat>, full: seq<nat>)
    requires Ranking(row, full) && 0 < top <= |row|
    requires Ranked(row, ranking) && Members(ranking) == Members(KeptOf(row, top, full))
    ensures ranking == full[..top]
  {
    var cutoff := row[full[top - 1]];
    CutoffOfRanking(row, top, full);
    KeptUpward(row, top, cutoff);
    KeptSize(row, top, cutoff);
    PrefixUpward(row, full, top);
    SameUpward(row, Members(ranking), Members(full[..top]));
    OneRanking(row, ranking, full[..top]);
  }

  // ----- embedding rows -----

  datatype Span = Span(first: nat, count: nat)

  function Gathered<T>(table: seq<T>, ids: seq<nat>): (rows: seq<T>)
    requires forall i | 0 <= i < |ids| :: ids[i] < |table|
    ensures |rows| == |ids|
  {
    seq(|ids|, i requires 0 <= i < |ids| => table[ids[i]])
  }

  /** The spans are the maximal runs of neighbouring ids, in order: they hold exactly the ids, and no two of them
      touch. */
  ghost predicate IsRuns(spans: seq<Span>, ids: seq<nat>) {
    && (forall k | 0 <= k < |spans| :: spans[k].count > 0)
    && (forall k | 0 <= k < |spans| - 1 :: spans[k].first + spans[k].count < spans[k + 1].first)
    && forall id: nat :: id in ids <==> Read(spans, id)
  }

  ghost predicate Read(spans: seq<Span>, id: nat) {
    exists k :: 0 <= k < |spans| && spans[k].first <= id < spans[k].first + spans[k].count
  }

  /** The rows of the ids, read one span for each maximal run. */
  method Pack<T>(table: seq<T>, ids: seq<nat>) returns (packed: seq<T>, spans: seq<Span>)
    requires Rising(ids) && forall i | 0 <= i < |ids| :: ids[i] < |table|
    ensures packed == Gathered(table, ids)
    ensures IsRuns(spans, ids)
  {
    packed, spans := [], [];
    var start: nat := 0;
    while start < |ids|
      invariant start <= |ids| && packed == Gathered(table, ids)[..start]
      invariant IsRuns(spans, ids[..start])
      invariant spans != [] ==> start > 0 && spans[|spans| - 1].first + spans[|spans| - 1].count == ids[start - 1] + 1
      invariant spans != [] && start < |ids| ==> ids[start] > ids[start - 1] + 1
    {
      var end: nat := start + 1;
      while end < |ids| && ids[end] == ids[end - 1] + 1
        invariant start < end <= |ids|
        invariant forall i | start <= i < end :: ids[i] == ids[start] + (i - start)
      {
        end := end + 1;
      }
      assert ids[end - 1] == ids[start] + (end - 1 - start) < |table|;
      assert end < |ids| ==> ids[end] > ids[end - 1] by {
        if end < |ids| { RisingAt(ids, end - 1, end); }
      }
      NextRead(spans, ids, start, end);
      SpanRows(table, ids, start, end);
      hide IsRuns, Rising, Gathered;
      packed := packed + table[ids[start]..ids[start] + (end - start)];
      spans := spans + [Span(ids[start], end - start)];
      start := end;
    }
    assert ids[..|ids|] == ids;
  }

  lemma SpanRows<T>(table: seq<T>, ids: seq<nat>, start: nat, end: nat)
    requires start < end <= |ids| && forall i | 0 <= i < |ids| :: ids[i] < |table|
    requires forall i | start <= i < end :: ids[i] == ids[start] + (i - start)
    ensures ids[start] + (end - start) <= |table|
    ensures Gathered(table, ids)[..start] + table[ids[start]..ids[start] + (end - start)] == Gathered(table, ids)[..end]
  {
    assert ids[end - 1] < |table|;
    assert table[ids[start]..ids[start] + (end - start)] == Gathered(table, ids)[start..end];
  }

  lemma NextRead(spans: seq<Span>, ids: seq<nat>, start: nat, end: nat)
    requires Rising(ids) && start < end <= |ids|
    requires IsRuns(spans, ids[..start])
    requires spans != [] ==> spans[|spans| - 1].first + spans[|spans| - 1].count < ids[start]
    requires forall i | start <= i < end :: ids[i] == ids[start] + (i - start)
    ensures IsRuns(spans + [Span(ids[start], end - start)], ids[..end])
  {
    var next := spans + [Span(ids[start], end - start)];
    forall id: nat
      ensures id in ids[..end] <==> Read(next, id)
    {
      assert ids[..end] == ids[..start] + ids[start..end];
      assert id in ids[start..end] <==> ids[start] <= id < ids[start] + (end - start) by {
        if ids[start] <= id < ids[start] + (end - start) {
          assert ids[start..end][id - ids[start]] == id;
        }
      }
      if Read(next, id) {
        var k :| 0 <= k < |next| && next[k].first <= id < next[k].first + next[k].count;
        if k < |spans| {
          assert spans[k] == next[k];
          assert Read(spans, id);
        }
      }
      if Read(spans, id) {
        var k :| 0 <= k < |spans| && spans[k].first <= id < spans[k].first + spans[k].count;
        assert next[k] == spans[k];
      }
      if ids[start] <= id < ids[start] + (end - start) {
        assert next[|spans|] == Span(ids[start], end - start);
      }
    }
  }

  /** The place of an id in rising ids, or where it would be inserted. */
  method PlaceOf(unique: seq<nat>, id: nat) returns (k: nat)
    requires Rising(unique)
    ensures k <= |unique|
    ensures forall j | 0 <= j < k :: unique[j] < id
    ensures forall j | k <= j < |unique| :: id <= unique[j]
  {
    k := 0;
    while k < |unique| && unique[k] < id
      invariant k <= |unique| && forall j | 0 <= j < k :: unique[j] < id
    {
      k := k + 1;
    }
    if k < |unique| {
      forall j | k <= j < |unique|
        ensures id <= unique[j]
      {
        if j > k {
          RisingAt(unique, k, j);
        }
      }
    }
  }

  /** The distinct ids in order, and for each id its place among them. */
  method Unique(flat: seq<nat>) returns (unique: seq<nat>, inverse: seq<nat>)
    ensures Rising(unique) && forall id :: id in unique <==> id in flat
    ensures |inverse| == |flat| && forall i | 0 <= i < |flat| :: inverse[i] < |unique| && unique[inverse[i]] == flat[i]
  {
    unique, inverse := [], [];
    for i := 0 to |flat|
      invariant Rising(unique) && forall id :: id in unique <==> id in flat[..i]
    {
      assert flat[..i + 1] == flat[..i] + [flat[i]];
      var k := PlaceOf(unique, flat[i]);
      if k == |unique| || unique[k] != flat[i] {
        Inserted(unique, k, flat[i]);
        unique := unique[..k] + [flat[i]] + unique[k..];
      }
    }
    assert flat[..|flat|] == flat;
    for i := 0 to |flat|
      invariant |inverse| == i && forall j | 0 <= j < i :: inverse[j] < |unique| && unique[inverse[j]] == flat[j]
    {
      assert flat[i] in unique;
      var k := PlaceOf(unique, flat[i]);
      inverse := inverse + [k];
    }
  }

  lemma Inserted(unique: seq<nat>, k: nat, id: nat)
    requires Rising(unique) && k <= |unique|
    requires (forall j | 0 <= j < k :: unique[j] < id) && forall j | k <= j < |unique| :: id < unique[j]
    ensures Rising(unique[..k] + [id] + unique[k..])
    ensures forall x :: x in unique[..k] + [id] + unique[k..] <==> x in unique || x == id
  {
    assert unique == unique[..k] + unique[k..];
  }

  /** How many different ids there are. */
  ghost function Different(flat: seq<int>): nat { |set i | 0 <= i < |flat| :: flat[i]| }

  /** The embedding rows of any ids, in any order and repeated: refused where an id is outside the table or the rows
      of the different ids pass the limit. Otherwise each different row is read once, and scattered through the
      inverse the rows read are the ids' own. */
  method Embedding<T>(table: seq<T>, flat: seq<int>, columns: nat, limit: nat)
    returns (r: Result<(seq<T>, seq<nat>)>, spans: seq<Span>)
    ensures r.Ok? <==> (forall id | id in flat :: 0 <= id < |table|) && Different(flat) * columns * 4 <= limit
    ensures r.Ok? ==>
              var (packed, inverse) := r.value;
              && |packed| == Different(flat) && |inverse| == |flat|
              && forall i | 0 <= i < |flat| :: 0 <= flat[i] < |table| && inverse[i] < |packed|
                  && packed[inverse[i]] == table[flat[i]]
    ensures r.Ok? ==> forall id: nat :: id in flat <==> Read(spans, id)
    ensures r.Ok? ==> forall k | 0 <= k < |spans| - 1 :: spans[k].first + spans[k].count < spans[k + 1].first
  {
    spans := [];
    var ids: seq<nat> := [];
    for i := 0 to |flat|
      invariant |ids| == i && forall j | 0 <= j < i :: ids[j] == flat[j] && 0 <= flat[j] < |table|
    {
      if flat[i] < 0 || flat[i] >= |table| {
        assert flat[i] in flat;
        return Err("embedding row outside GGUF tensor"), spans;
      }
      ids := ids + [flat[i]];
    }
    SameIds(flat, ids);
    var unique, inverse := Unique(ids);
    RisingSize(unique);
    assert Members(unique) == Members(ids) by {
      forall id ensures id in Members(unique) <==> id in Members(ids) {
        assert (id in Members(unique) <==> id in unique) && (id in Members(ids) <==> id in ids);
      }
    }
    if |unique| * columns * 4 > limit {
      return Err("selected embedding rows exceed reference memory limit"), spans;
    }
    assert forall k | 0 <= k < |unique| :: unique[k] in ids;
    var packed;
    packed, spans := Pack(table, unique);
    r := Ok((packed, inverse));
  }

  lemma SameIds(flat: seq<int>, ids: seq<nat>)
    requires |ids| == |flat| && forall i | 0 <= i < |flat| :: ids[i] == flat[i]
    ensures forall id: nat :: id in ids <==> id in flat
    ensures forall id | id in flat :: id >= 0
    ensures |Members(ids)| == Different(flat)
  {
    var x: set<int>, y: set<int> := Members(ids), set i | 0 <= i < |flat| :: flat[i];
    assert x == y;
    forall id: nat
      ensures id in ids <==> id in flat
    {
      assert id in ids ==> id in Members(ids);
    }
  }
}
