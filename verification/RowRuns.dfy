/** Row runs: a batch's rows cut into stretches by their ends, walked by key, and scaled where a row has several
    entries. */
module RowRuns {

  const SIZE: nat := 0x1_0000_0000_0000_0000

  datatype Run<E> = Run(end: nat, extent: E)

  datatype Call<K> = Call(first: nat, count: nat, key: K)

  datatype Outcome = Done | OutOfOrder | NotCovering

  predicate Ordered<E>(runs: seq<Run<E>>) {
    forall i, j | 0 <= i <= j < |runs| :: runs[i].end <= runs[j].end
  }

  function End<E>(runs: seq<Run<E>>): nat { if runs == [] then 0 else runs[|runs| - 1].end }

  /** Run `i` is the first that ends past the row. */
  ghost predicate Owns<E>(runs: seq<Run<E>>, i: nat, row: nat) {
    i < |runs| && row < runs[i].end && forall j | 0 <= j < i :: runs[j].end <= row
  }

  /** The calls are nonempty and cover `[0, to)` in order, each row once. */
  ghost predicate Covers<K>(calls: seq<Call<K>>, to: nat) {
    && (forall c | 0 <= c < |calls| :: calls[c].count > 0 && calls[c].first == if c == 0 then 0
        else calls[c - 1].first + calls[c - 1].count)
    && to == if calls == [] then 0 else calls[|calls| - 1].first + calls[|calls| - 1].count
  }

  /** Every row of a call is of a run with the call's key. */
  ghost predicate Keyed<E, K>(calls: seq<Call<K>>, runs: seq<Run<E>>, key: Run<E> -> K) {
    forall c, row: nat, i: nat | 0 <= c < |calls| && calls[c].first <= row < calls[c].first + calls[c].count
        && Owns(runs, i, row) ::
      key(runs[i]) == calls[c].key
  }

  method CheckRuns<E>(n: nat, runs: seq<Run<E>>) returns (outcome: Outcome)
    ensures outcome == if !Ordered(runs) then OutOfOrder else if End(runs) != n then NotCovering else Done
  {
    var end := 0;
    for i := 0 to |runs|
      invariant Ordered(runs[..i]) && end == End(runs[..i])
    {
      if runs[i].end < end {
        assert !Ordered(runs) by { assert runs[i - 1].end > runs[i].end; }
        return OutOfOrder;
      }
      end := runs[i].end;
    }
    assert runs[..|runs|] == runs;
    outcome := if end != n then NotCovering else Done;
  }

  /** Calls of one key stand next to each other only where a run of another key, without rows, ends between them. */
  ghost predicate Coalesced<E, K>(calls: seq<Call<K>>, runs: seq<Run<E>>, key: Run<E> -> K) {
    forall c | 0 <= c < |calls| - 1 && calls[c].key == calls[c + 1].key ::
        Parted(runs, key, calls[c + 1].first, calls[c].key)
  }

  /** A run of another key ends at the row. */
  ghost predicate Parted<E, K>(runs: seq<Run<E>>, key: Run<E> -> K, row: nat, k: K) {
    exists m :: 0 <= m < |runs| && runs[m].end == row && key(runs[m]) != k
  }

  /** A malformed list makes no call; otherwise the calls cover the rows in order, each with the key of its rows'
      runs. */
  method ForEachRun<E, K(==)>(n: nat, runs: seq<Run<E>>, key: Run<E> -> K)
    returns (outcome: Outcome, calls: seq<Call<K>>)
    ensures outcome == if !Ordered(runs) then OutOfOrder else if End(runs) != n then NotCovering else Done
    ensures outcome != Done ==> calls == []
    ensures outcome == Done ==> Covers(calls, n) && Keyed(calls, runs, key)
    ensures outcome == Done ==> Coalesced(calls, runs, key)
  {
    calls := [];
    outcome := CheckRuns(n, runs);
    if outcome != Done {
      return;
    }
    assert runs[..|runs|] == runs;
    assert Keyed(calls, runs, key) && Covers(calls, 0) && Coalesced(calls, runs, key);
    assert forall i, j | 0 <= i <= j < |runs| :: runs[i].end <= runs[j].end;
    hide Ordered, Keyed, Covers, Coalesced, Parted;
    var start, i := 0, 0;
    while i < |runs|
      invariant i <= |runs| && start == End(runs[..i])
      invariant Covers(calls, start) && Keyed(calls, runs, key) && Coalesced(calls, runs, key)
      invariant 0 < i < |runs| ==> key(runs[i]) != key(runs[i - 1])
      invariant calls != [] ==>
                  var last := calls[|calls| - 1].key;
                  i > 0 && (key(runs[i - 1]) == last || Parted(runs, key, start, last))
    {
      var k, j := key(runs[i]), i + 1;
      while j < |runs| && key(runs[j]) == k
        invariant i < j <= |runs|
        invariant forall m | i <= m < j :: key(runs[m]) == k
      {
        j := j + 1;
      }
      var stop := runs[j - 1].end;
      assert i > 0 ==> start == runs[i - 1].end <= stop;
      if stop > start {
        KeyedNext(calls, runs, key, start, i, j);
        CoversNext(calls, start, stop, k);
        CoalescedNext(calls, runs, key, Call(start, stop - start, k));
        calls := calls + [Call(start, stop - start, k)];
      }
      if stop == start && calls != [] {
        PartedHere(runs, key, j - 1, calls[|calls| - 1].key);
      }
      start, i := stop, j;
    }
  }

  lemma PartedHere<E, K>(runs: seq<Run<E>>, key: Run<E> -> K, m: nat, k: K)
    requires m < |runs|
    ensures key(runs[m]) == k || Parted(runs, key, runs[m].end, k)
  {
  }

  lemma CoalescedNext<E, K>(calls: seq<Call<K>>, runs: seq<Run<E>>, key: Run<E> -> K, next: Call<K>)
    requires Coalesced(calls, runs, key)
    requires calls != [] && calls[|calls| - 1].key == next.key ==> Parted(runs, key, next.first, next.key)
    ensures Coalesced(calls + [next], runs, key)
  {
    var more := calls + [next];
    forall c | 0 <= c < |more| - 1 && more[c].key == more[c + 1].key
      ensures Parted(runs, key, more[c + 1].first, more[c].key)
    {
      if c < |calls| - 1 {
        assert more[c] == calls[c] && more[c + 1] == calls[c + 1];
      }
    }
  }

  lemma CoversNext<K>(calls: seq<Call<K>>, start: nat, stop: nat, k: K)
    requires Covers(calls, start) && start < stop
    ensures Covers(calls + [Call(start, stop - start, k)], stop)
  {
    var more := calls + [Call(start, stop - start, k)];
    forall c | 0 <= c < |more|
      ensures more[c].count > 0 && more[c].first == if c == 0 then 0 else more[c - 1].first + more[c - 1].count
    {
      if c < |calls| {
        assert more[c] == calls[c];
        if c > 0 {
          assert more[c].first == more[c - 1].first + more[c - 1].count;
        }
      } else if c > 0 {
        assert more[c - 1] == calls[|calls| - 1];
      }
    }
  }

  lemma KeyedNext<E, K>(calls: seq<Call<K>>, runs: seq<Run<E>>, key: Run<E> -> K, start: nat, i: nat, j: nat)
    requires Ordered(runs) && i < j <= |runs| && start == End(runs[..i]) && runs[j - 1].end > start
    requires forall m | i <= m < j :: key(runs[m]) == key(runs[i])
    requires Keyed(calls, runs, key)
    ensures Keyed(calls + [Call(start, runs[j - 1].end - start, key(runs[i]))], runs, key)
  {
    assert forall x | 0 <= x < i :: runs[x].end <= runs[i - 1].end;
    assert forall x | 0 <= x < i :: runs[x].end <= start;
    forall row: nat, m: nat | start <= row < runs[j - 1].end && Owns(runs, m, row)
      ensures key(runs[m]) == key(runs[i])
    {
    }
  }

  /** Every row below the end has its run, and one only. */
  lemma {:induction false} OwnerExists<E>(runs: seq<Run<E>>, row: nat) returns (i: nat)
    requires row < End(runs)
    ensures Owns(runs, i, row) && forall j | Owns(runs, j, row) :: j == i
  {
    i := 0;
    while runs[i].end <= row
      invariant i < |runs| && forall j | 0 <= j < i :: runs[j].end <= row
      decreases |runs| - i
    {
      if i == |runs| - 1 {
        assert false;
      }
      i := i + 1;
    }
  }

  /** The runs of `k` entries a row, in the source's arithmetic. */
  function Scaled<E>(runs: seq<Run<E>>, k: nat): (r: seq<Run<E>>)
    ensures |r| == |runs|
  {
    seq(|runs|, i requires 0 <= i < |runs| => Run(runs[i].end * k % SIZE, runs[i].extent))
  }

  method ScaleRuns<E>(runs: seq<Run<E>>, k: nat) returns (scratch: seq<Run<E>>)
    ensures scratch == Scaled(runs, k)
  {
    scratch := [];
    for i := 0 to |runs|
      invariant scratch == Scaled(runs, k)[..i]
    {
      scratch := scratch + [Run(runs[i].end * k % SIZE, runs[i].extent)];
    }
  }

  lemma ScaledEnd<E>(runs: seq<Run<E>>, k: nat, i: nat)
    requires Ordered(runs) && End(runs) * k < 0x1_0000_0000_0000_0000 && i < |runs|
    ensures Scaled(runs, k)[i].end == runs[i].end * k
  {
    Up(runs[i].end, End(runs), k);
  }

  lemma Up(a: nat, b: nat, k: nat)
    requires a <= b
    ensures a * k <= b * k
  {
  }

  /** The scaled list is well formed over `n * k` entries. */
  lemma ScaledValid<E>(runs: seq<Run<E>>, k: nat)
    requires Ordered(runs) && End(runs) * k < 0x1_0000_0000_0000_0000
    ensures Ordered(Scaled(runs, k)) && End(Scaled(runs, k)) == End(runs) * k
    ensures forall i | 0 <= i < |runs| :: Scaled(runs, k)[i] == Run(runs[i].end * k, runs[i].extent)
  {
    forall i, j | 0 <= i <= j < |runs|
      ensures Scaled(runs, k)[i].end <= Scaled(runs, k)[j].end
    {
      ScaledEnd(runs, k, i);
      ScaledEnd(runs, k, j);
      Up(runs[i].end, runs[j].end, k);
    }
    if runs != [] {
      ScaledEnd(runs, k, |runs| - 1);
    }
    forall i | 0 <= i < |runs|
      ensures Scaled(runs, k)[i] == Run(runs[i].end * k, runs[i].extent)
    {
      ScaledEnd(runs, k, i);
    }
  }

  lemma EntryBelow(row: nat, j: nat, k: nat, end: nat)
    requires j < k
    ensures row * k + j < end * k <==> row < end
  {
    if row < end {
      Up(row + 1, end, k);
    } else {
      Up(end, row, k);
    }
  }

  /** Entry `row * k + j` belongs to the run its row belongs to, so it has that row's extent. */
  lemma ScaledOwner<E>(runs: seq<Run<E>>, k: nat, row: nat, j: nat, i: nat)
    requires Ordered(runs) && End(runs) * k < 0x1_0000_0000_0000_0000 && j < k
    ensures Owns(Scaled(runs, k), i, row * k + j) <==> Owns(runs, i, row)
    ensures i < |runs| ==> Scaled(runs, k)[i].extent == runs[i].extent
  {
    forall m: nat | m < |runs|
      ensures row * k + j < Scaled(runs, k)[m].end <==> row < runs[m].end
    {
      ScaledEnd(runs, k, m);
      EntryBelow(row, j, k, runs[m].end);
    }
  }

  // ----- copying a row -----

  /** Where row `r` of a block starts. */
  function Start(offset: nat, r: nat, width: nat): nat { offset + r * width }

  lemma Starts(offset: nat, a: nat, b: nat, width: nat)
    ensures a <= b ==> Start(offset, a, width) <= Start(offset, b, width)
    ensures Start(offset, a + b, width) == Start(offset, a, width) + Start(0, b, width)
    ensures Start(offset, a, width) == offset + Start(0, a, width)
    ensures Start(offset, a + 1, width) == Start(offset, a, width) + width
    ensures Start(offset, 0, width) == offset
  {
  }

  ghost predicate RowAt<T>(s: seq<T>, at: nat, row: seq<T>) {
    at + |row| <= |s| && forall c | 0 <= c < |row| :: s[at + c] == row[c]
  }

  /** The first rows of the block at `offset` hold the row. */
  ghost predicate Filled<T>(s: seq<T>, offset: nat, row: seq<T>, rows: nat) {
    forall r: nat | r < rows :: RowAt(s, Start(offset, r, |row|), row)
  }

  /** `s` with `|part|` elements at `at` replaced. */
  function Patched<T>(s: seq<T>, at: nat, part: seq<T>): (r: seq<T>)
    requires at + |part| <= |s|
    ensures |r| == |s|
  {
    s[..at] + part + s[at + |part|..]
  }

  method Copy<T>(dst: array<T>, at: nat, part: seq<T>)
    requires at + |part| <= dst.Length
    modifies dst
    ensures dst[..] == Patched(old(dst[..]), at, part)
  {
    ghost var before := dst[..];
    for i := 0 to |part|
      invariant dst[..] == Patched(before, at, part[..i])
    {
      dst[at + i] := part[i];
      assert dst[..] == Patched(before, at, part[..i])[at + i := part[i]];
      assert part[..i + 1] == part[..i] + [part[i]];
    }
    assert part[..|part|] == part;
  }

  lemma PatchKeepsRow<T>(s: seq<T>, at: nat, part: seq<T>, row: seq<T>, from: nat)
    requires at + |part| <= |s| && from + |row| <= at && RowAt(s, from, row)
    ensures RowAt(Patched(s, at, part), from, row)
  {
  }

  lemma PatchMovesRow<T>(s: seq<T>, at: nat, from: nat, len: nat, row: seq<T>, x: nat)
    requires at + len <= |s| && from + len <= |s| && x + |row| <= len && RowAt(s, from + x, row)
    ensures RowAt(Patched(s, at, s[from..from + len]), at + x, row)
  {
    var part := s[from..from + len];
    forall c | 0 <= c < |row|
      ensures Patched(s, at, part)[at + x + c] == row[c]
    {
      assert part[x + c] == s[from + x + c];
    }
  }

  /** Copying the first `count` of the rows that are done behind them leaves `done + count` done. */
  lemma DoubleFills<T>(s: seq<T>, offset: nat, row: seq<T>, done: nat, count: nat)
    requires Filled(s, offset, row, done) && count <= done
    requires Start(offset, done + count, |row|) <= |s|
    ensures offset + Start(0, count, |row|) <= Start(offset, done, |row|)
    ensures Start(offset, done, |row|) + Start(0, count, |row|) == Start(offset, done + count, |row|)
    ensures Filled(Patched(s, Start(offset, done, |row|), s[offset..offset + Start(0, count, |row|)]), offset, row,
            done + count)
  {
    var w := |row|;
    var at, len := Start(offset, done, w), Start(0, count, w);
    Starts(offset, count, done, w);
    Starts(offset, done, count, w);
    var t := Patched(s, at, s[offset..offset + len]);
    hide Start, RowAt, Patched;
    forall r: nat | r < done + count
      ensures RowAt(t, Start(offset, r, w), row)
    {
      if r < done {
        Starts(offset, r, 0, w);
        Starts(offset, r + 1, done, w);
        PatchKeepsRow(s, at, s[offset..offset + len], row, Start(offset, r, w));
      } else {
        DoubledRow(s, offset, row, done, count, r - done);
      }
    }
  }

  lemma DoubledRow<T>(s: seq<T>, offset: nat, row: seq<T>, done: nat, count: nat, q: nat)
    requires q < count <= done && Start(offset, done, |row|) + Start(0, count, |row|) <= |s|
    requires offset + Start(0, count, |row|) <= |s| && RowAt(s, Start(offset, q, |row|), row)
    ensures RowAt(Patched(s, Start(offset, done, |row|), s[offset..offset + Start(0, count, |row|)]),
            Start(offset, done + q, |row|), row)
  {
    var w := |row|;
    hide Start, RowAt, Patched;
    Starts(offset, q, 0, w);
    Starts(0, q, 0, w);
    Starts(0, q + 1, count, w);
    Starts(offset, done, q, w);
    PatchMovesRow(s, Start(offset, done, w), offset, Start(0, count, w), row, Start(0, q, w));
  }

  ghost predicate SameOutside<T>(s: seq<T>, t: seq<T>, from: nat, to: nat) {
    |s| == |t| && forall i | 0 <= i < |s| && !(from <= i < to) :: s[i] == t[i]
  }

  lemma PatchInside<T>(s: seq<T>, t: seq<T>, at: nat, part: seq<T>, from: nat, to: nat)
    requires SameOutside(s, t, from, to) && from <= at && at + |part| <= to <= |t|
    ensures SameOutside(s, Patched(t, at, part), from, to)
  {
  }

  /** What holds of the storage while `done` of the rows are copied: they hold the row, and outside the block it is as
      at first. */
  ghost predicate Repeating<T>(s: seq<T>, t: seq<T>, offset: nat, row: seq<T>, rows: nat, done: nat) {
    && done <= rows && Start(offset, rows, |row|) <= |t|
    && Filled(t, offset, row, done) && SameOutside(s, t, offset, Start(offset, rows, |row|))
  }

  lemma FirstCopy<T>(s: seq<T>, offset: nat, row: seq<T>, rows: nat)
    requires rows > 0 && Start(offset, rows, |row|) <= |s|
    ensures offset + |row| <= |s| && Repeating(s, Patched(s, offset, row), offset, row, rows, 1)
  {
    Starts(offset, 1, rows, |row|);
    Starts(offset, 0, 0, |row|);
    PatchInside(s, s, offset, row, offset, Start(offset, rows, |row|));
  }

  lemma NextCopy<T>(s: seq<T>, t: seq<T>, offset: nat, row: seq<T>, rows: nat, done: nat, count: nat)
    requires Repeating(s, t, offset, row, rows, done) && count <= done && done + count <= rows
    ensures var at, len := Start(offset, done, |row|), Start(0, count, |row|);
            && offset + len <= |t| && at + len <= |t|
            && Repeating(s, Patched(t, at, t[offset..offset + len]), offset, row, rows, done + count)
  {
    Starts(offset, done + count, rows, |row|);
    Starts(offset, 0, done, |row|);
    hide Filled, SameOutside, Start, Patched;
    var at, len := Start(offset, done, |row|), Start(0, count, |row|);
    DoubleFills(t, offset, row, done, count);
    PatchInside(s, t, at, t[offset..offset + len], offset, Start(offset, rows, |row|));
  }

  lemma AllCopied<T>(s: seq<T>, t: seq<T>, offset: nat, row: seq<T>, rows: nat)
    requires Repeating(s, t, offset, row, rows, rows)
    ensures Filled(t, offset, row, rows) && SameOutside(s, t, offset, Start(offset, rows, |row|))
  {
  }

  /** One copy of the row and then doublings of what is copied; nothing else changes. */
  method RepeatRow<T>(dst: array<T>, offset: nat, row: seq<T>, rows: nat)
    requires Start(offset, rows, |row|) <= dst.Length
    modifies dst
    ensures Filled(dst[..], offset, row, rows)
    ensures SameOutside(old(dst[..]), dst[..], offset, Start(offset, rows, |row|))
  {
    if rows == 0 {
      assert Filled(dst[..], offset, row, rows);
      return;
    }
    ghost var s := dst[..];
    FirstCopy(s, offset, row, rows);
    Copy(dst, offset, row);
    var done := 1;
    while done < rows
      invariant 1 <= done <= rows && Repeating(s, dst[..], offset, row, rows, done)
    {
      hide *;
      done := CopyDone(s, dst, offset, row, rows, done);
    }
    AllCopied(s, dst[..], offset, row, rows);
  }

  method CopyDone<T>(ghost s: seq<T>, dst: array<T>, offset: nat, row: seq<T>, rows: nat, done: nat) returns (next: nat)
    requires 1 <= done < rows && Repeating(s, dst[..], offset, row, rows, done)
    modifies dst
    ensures next == (if done < rows - done then done + done else rows) && Repeating(s, dst[..], offset, row, rows, next)
  {
    hide *;
    var count := if done < rows - done then done else rows - done;
    var t := dst[..];
    NextCopy(s, t, offset, row, rows, done, count);
    var len := Start(0, count, |row|);
    Copy(dst, Start(offset, done, |row|), t[offset..offset + len]);
    next := done + count;
  }
}
