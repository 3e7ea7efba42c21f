/** The rows of a PNG image: samples packed into bytes, and the five filters of section 6 of RFC 2083 with what undoes
    them. */
module PngRows {
  import opened Common

  /** The samples of one pixel, one for each channel. */
  type Pixel = seq<byte>

  // ----- filters -----

  function At(s: seq<byte>, i: int): byte { if 0 <= i < |s| then s[i] else 0 }

  function Abs(x: int): nat { if x < 0 then -x else x }

  /** What the writer takes from a byte: `a` is the byte one pixel before it, `b` the one above, `c` the one above
      `a`. */
  function Predicted(f: nat, a: byte, b: byte, c: byte): int
    requires f < 5
  {
    if f == 0 then 0
    else if f == 1 then a
    else if f == 2 then b
    else if f == 3 then (a + b) / 2
    else
      var pa, pb, pc := Abs(b - c), Abs(a - c), Abs(a + b - 2 * c);
      if pa <= pb && pa <= pc then a else if pb <= pc then b else c
  }

  /** The reader's Paeth predictor: the neighbour nearest to `a + b - c`. */
  function Paeth(a: byte, b: byte, c: byte): int {
    var p := a + b - c;
    var pa := if p > a then p - a else a - p;
    var pb := if p > b then p - b else b - p;
    var pc := if p > c then p - c else c - p;
    if pa <= pb && pa <= pc then a else if pb <= pc then b else c
  }

  /** What the reader adds to a byte. */
  function Added(f: nat, a: byte, b: byte, c: byte): int
    requires f < 5
  {
    match f
    case 0 => 0
    case 1 => a
    case 2 => b
    case 3 => (a + b) / 2
    case _ => Paeth(a, b, c)
  }

  /** The Paeth predictor is a neighbour no other is nearer to `a + b - c` than, the first such of `a`, `b`, `c`. */
  lemma PaethIsNearest(a: byte, b: byte, c: byte)
    ensures var p, r := a + b - c, Paeth(a, b, c);
            && (r == a || r == b || r == c)
            && Abs(p - r) <= Abs(p - a) && Abs(p - r) <= Abs(p - b) && Abs(p - r) <= Abs(p - c)
            && (Abs(p - a) == Abs(p - r) ==> r == a)
            && (Abs(p - a) > Abs(p - r) && Abs(p - b) == Abs(p - r) ==> r == b)
  {
  }

  lemma PredictedIs(f: nat, a: byte, b: byte, c: byte)
    requires f < 5
    ensures Predicted(f, a, b, c) ==
            if f == 0 then 0 else if f == 1 then a else if f == 2 then b
            else if f == 3 then (a + b) / 2 else Paeth(a, b, c)
  {
    SamePrediction(f, a, b, c);
  }

  /** The five filters: none, the byte before, the byte above, their mean rounded down, and Paeth. Both sides take a
      neighbour outside the line or the image as 0. */
  lemma FiltersAre(f: nat, line: seq<byte>, prev: seq<byte>, bpp: nat, i: nat)
    requires f < 5 && i < |line| && (prev == [] || |prev| == |line|)
    ensures var a: int := if i >= bpp then line[i - bpp] else 0;
            var b: int := if prev != [] then prev[i] else 0;
            var c: int := if prev != [] && i >= bpp then prev[i - bpp] else 0;
            var v := Filter(f, line, prev, bpp)[i];
            && (f == 0 ==> v == line[i])
            && (f == 1 ==> v == (line[i] - a) % 256)
            && (f == 2 ==> v == (line[i] - b) % 256)
            && (f == 3 ==> v == (line[i] - (a + b) / 2) % 256)
            && (f == 4 ==> v == (line[i] - Paeth(a, b, c)) % 256)
  {
    var a, b, c := At(line, i - bpp), At(prev, i), At(prev, i - bpp);
    assert Filter(f, line, prev, bpp)[i] == (line[i] - Predicted(f, a, b, c)) % 256;
    PredictedIs(f, a, b, c);
    hide Predicted, Paeth, Filter, FilterByte;
  }

  /** The line with each byte less what its neighbours predict, modulo 256. */
  function Filter(f: nat, line: seq<byte>, prev: seq<byte>, bpp: nat): (cur: seq<byte>)
    requires f < 5
    ensures |cur| == |line|
  {
    seq(|line|, i requires 0 <= i < |line| => FilterByte(f, line, prev, bpp, i))
  }

  function FilterByte(f: nat, line: seq<byte>, prev: seq<byte>, bpp: nat, i: nat): byte
    requires f < 5 && i < |line|
  {
    (line[i] - Predicted(f, At(line, i - bpp), At(prev, i), At(prev, i - bpp))) % 256
  }

  /** The first `n` bytes of the line that `data` filters. */
  function Unfilter(f: nat, data: seq<byte>, up: seq<byte>, bpp: nat, n: nat): (cur: seq<byte>)
    requires f < 5 && n <= |data|
    ensures |cur| == n
  {
    if n == 0 then [] else
      var cur := Unfilter(f, data, up, bpp, n - 1);
      cur + [(data[n - 1] + Added(f, At(cur, n - 1 - bpp), At(up, n - 1), At(up, n - 1 - bpp))) % 256]
  }

  lemma {:induction false} UnfilterUndoes(f: nat, line: seq<byte>, prev: seq<byte>, bpp: nat, n: nat)
    requires f < 5 && bpp > 0 && n <= |line|
    ensures Unfilter(f, Filter(f, line, prev, bpp), prev, bpp, n) == line[..n]
  {
    if n > 0 {
      UnfilterUndoes(f, line, prev, bpp, n - 1);
      var i := n - 1;
      var a, b, c := At(line, i - bpp), At(prev, i), At(prev, i - bpp);
      assert At(line[..i], i - bpp) == a;
      SamePrediction(f, a, b, c);
      hide Added, Predicted;
      Wraps(line[i], Added(f, a, b, c));
      assert line[..n] == line[..i] + [line[i]];
    }
  }

  lemma SamePrediction(f: nat, a: byte, b: byte, c: byte)
    requires f < 5
    ensures Added(f, a, b, c) == Predicted(f, a, b, c)
  {
  }

  lemma Wraps(v: byte, p: int)
    ensures ((v - p) % 256 + p) % 256 == v
  {
    var q := (v - p) / 256;
    assert (v - p) % 256 + p == v - 256 * q;
  }

  /** The filtered lines, each led by its filter; the five filters take turns from the `n`-th on. */
  function FilteredFrom(lines: seq<seq<byte>>, n: nat, prev: seq<byte>, bpp: nat): seq<byte>
  {
    if lines == [] then [] else
      [n % 5] + Filter(n % 5, lines[0], prev, bpp) + FilteredFrom(lines[1..], n + 1, lines[0], bpp)
  }

  function Filtered(lines: seq<seq<byte>>, bpp: nat): seq<byte> { FilteredFrom(lines, 0, [], bpp) }

  /** The reader's `rows` lines of `stride` bytes, and the data after them. */
  function UnfilterLines(data: seq<byte>, rows: nat, stride: nat, bpp: nat,
                         up: seq<byte>): Result<(seq<seq<byte>>, seq<byte>)>
    decreases rows
  {
    if rows == 0 then Ok(([], data))
    else if |data| <= stride then Err("png: the image data is shorter than the image")
    else if data[0] > 4 then Err("png: an invalid filter type")
    else
      var cur := Unfilter(data[0], data[1..stride + 1], up, bpp, stride);
      match UnfilterLines(data[stride + 1..], rows - 1, stride, bpp, cur)
      case Ok((lines, rest)) => Ok(([cur] + lines, rest))
      case Err(message) => Err(message)
  }

  lemma TimesNext(n: nat, m: nat)
    ensures (n + 1) * m == n * m + m
  {
  }

  lemma {:induction false} FilteredLength(lines: seq<seq<byte>>, n: nat, prev: seq<byte>, bpp: nat, stride: nat)
    requires forall k | 0 <= k < |lines| :: |lines[k]| == stride
    ensures |FilteredFrom(lines, n, prev, bpp)| == |lines| * (stride + 1)
  {
    if lines != [] {
      FilteredLength(lines[1..], n + 1, lines[0], bpp, stride);
      TimesNext(|lines| - 1, stride + 1);
    }
  }

  /** The k-th line of the stream is led by the filter k modulo 5. */
  lemma {:induction false} FiltersTakeTurns(lines: seq<seq<byte>>, n: nat, prev: seq<byte>, bpp: nat, stride: nat,
                                            k: nat)
    requires (forall j | 0 <= j < |lines| :: |lines[j]| == stride) && k < |lines|
    ensures |FilteredFrom(lines, n, prev, bpp)| > k * (stride + 1)
    ensures FilteredFrom(lines, n, prev, bpp)[k * (stride + 1)] == (n + k) % 5
  {
    FilteredLength(lines, n, prev, bpp, stride);
    var first := [n % 5] + Filter(n % 5, lines[0], prev, bpp);
    var more := FilteredFrom(lines[1..], n + 1, lines[0], bpp);
    assert FilteredFrom(lines, n, prev, bpp) == first + more;
    if k > 0 {
      FiltersTakeTurns(lines[1..], n + 1, lines[0], bpp, stride, k - 1);
      TimesNext(k - 1, stride + 1);
      hide Filter, FilteredFrom;
      assert (first + more)[k * (stride + 1)] == more[(k - 1) * (stride + 1)];
    }
  }

  lemma Splits(f: byte, line: seq<byte>, more: seq<byte>, rest: seq<byte>)
    ensures var data := [f] + line + more + rest;
            data[0] == f && data[1..|line| + 1] == line && data[|line| + 1..] == more + rest
  {
  }

  lemma ReadsLine(f: byte, line: seq<byte>, more: seq<byte>, rest: seq<byte>, rows: nat, bpp: nat, up: seq<byte>,
                  lines: seq<seq<byte>>)
    requires f < 5
    requires UnfilterLines(more + rest, rows, |line|, bpp, Unfilter(f, line, up, bpp, |line|)) == Ok((lines, rest))
    ensures UnfilterLines([f] + line + more + rest, rows + 1, |line|, bpp, up)
            == Ok(([Unfilter(f, line, up, bpp, |line|)] + lines, rest))
  {
    hide Unfilter;
    Splits(f, line, more, rest);
  }

  /** Reading filtered lines back gives the lines and leaves what follows them. */
  lemma {:induction false} ReadsFiltered(lines: seq<seq<byte>>, n: nat, prev: seq<byte>, bpp: nat, stride: nat,
                                         rest: seq<byte>)
    requires bpp > 0
    requires forall k | 0 <= k < |lines| :: |lines[k]| == stride
    ensures UnfilterLines(FilteredFrom(lines, n, prev, bpp) + rest, |lines|, stride, bpp, prev) == Ok((lines, rest))
  {
    if lines == [] {
      assert [] + rest == rest;
    } else {
      ReadsFiltered(lines[1..], n + 1, lines[0], bpp, stride, rest);
      var f: byte := n % 5;
      var line, more := Filter(f, lines[0], prev, bpp), FilteredFrom(lines[1..], n + 1, lines[0], bpp);
      assert lines[0][..stride] == lines[0];
      assert lines == [lines[0]] + lines[1..];
      assert FilteredFrom(lines, n, prev, bpp) == [f] + line + more;
      hide *;
      UnfilterUndoes(f, lines[0], prev, bpp, stride);
      ReadsLine(f, line, more, rest, |lines| - 1, bpp, prev, lines[1..]);
    }
  }

  method FilterLine(f: nat, line: seq<byte>, prev: seq<byte>, bpp: nat) returns (cur: seq<byte>)
    requires f < 5 && bpp > 0
    requires prev == [] || |prev| == |line|
    ensures cur == Filter(f, line, prev, bpp)
  {
    cur := [];
    for i := 0 to |line|
      invariant cur == Filter(f, line, prev, bpp)[..i]
    {
      var a: int := if i >= bpp then line[i - bpp] else 0;
      var b: int := if prev != [] then prev[i] else 0;
      var c: int := if prev != [] && i >= bpp then prev[i - bpp] else 0;
      var p: int;
      if f == 0 { p := 0; }
      else if f == 1 { p := a; }
      else if f == 2 { p := b; }
      else if f == 3 { p := (a + b) / 2; }
      else {
        var pa, pb, pc := Abs(b - c), Abs(a - c), Abs(a + b - 2 * c);
        p := if pa <= pb && pa <= pc then a else if pb <= pc then b else c;
      }
      assert p == Predicted(f, At(line, i - bpp), At(prev, i), At(prev, i - bpp));
      assert (line[i] - p) % 256 == FilterByte(f, line, prev, bpp, i);
      hide *;
      assert cur + [FilterByte(f, line, prev, bpp, i)] == Filter(f, line, prev, bpp)[..i + 1];
      cur := cur + [(line[i] - p) % 256];
    }
  }

  /** The writer's loop: the lines in order, each filtered against the one before it. */
  method FilterLines(lines: seq<seq<byte>>, bpp: nat) returns (out: seq<byte>)
    requires bpp > 0
    requires forall k | 0 <= k < |lines| :: |lines[k]| == |lines[0]|
    ensures out == Filtered(lines, bpp)
  {
    hide Filter, FilteredFrom;
    out := [];
    var prev: seq<byte>, n := [], 0;
    assert lines[0..] == lines;
    while n < |lines|
      invariant n <= |lines|
      invariant out + FilteredFrom(lines[n..], n, prev, bpp) == Filtered(lines, bpp)
      invariant prev == if n == 0 then [] else lines[n - 1]
    {
      var line, f := lines[n], n % 5;
      var cur := FilterLine(f, line, prev, bpp);
      FilteredNext(out, lines, n, prev, bpp);
      out := out + [f] + cur;
      prev := line;
      n := n + 1;
    }
    assert lines[n..] == [];
    FilteredNone(n, prev, bpp);
    assert out + [] == out;
  }

  lemma FilteredNext(out: seq<byte>, lines: seq<seq<byte>>, n: nat, prev: seq<byte>, bpp: nat)
    requires n < |lines|
    ensures out + FilteredFrom(lines[n..], n, prev, bpp)
         == out + [n % 5] + Filter(n % 5, lines[n], prev, bpp) + FilteredFrom(lines[n + 1..], n + 1, lines[n], bpp)
  {
    hide Filter;
    assert lines[n..][1..] == lines[n + 1..];
    var cur, rest := Filter(n % 5, lines[n], prev, bpp), FilteredFrom(lines[n + 1..], n + 1, lines[n], bpp);
    assert out + ([n % 5] + cur + rest) == out + [n % 5] + cur + rest;
  }

  lemma FilteredNone(n: nat, prev: seq<byte>, bpp: nat)
    ensures FilteredFrom([], n, prev, bpp) == []
  {
  }

  // ----- packing -----

  function ShiftLeft(v: nat, bits: nat): nat {
    if bits == 0 then v else 2 * ShiftLeft(v, bits - 1)
  }

  function ShiftRight(v: nat, bits: nat): nat {
    if bits == 0 then v else ShiftRight(v / 2, bits - 1)
  }

  /** Shifting multiplies and divides by powers of two. */
  lemma {:induction false} ShiftLeftIs(v: nat, bits: nat)
    ensures ShiftLeft(v, bits) == v * Pow2(bits)
  {
    if bits > 0 {
      ShiftLeftIs(v, bits - 1);
      assert v * (2 * Pow2(bits - 1)) == 2 * (v * Pow2(bits - 1));
    }
  }

  lemma {:induction false} ShiftRightIs(v: nat, bits: nat)
    ensures ShiftRight(v, bits) == v / Pow2(bits)
    decreases bits
  {
    if bits > 0 {
      ShiftRightIs(v / 2, bits - 1);
      HalfThenRest(v, Pow2(bits - 1));
    }
  }

  lemma HalfThenRest(v: nat, p: nat)
    requires p > 0
    ensures v / (2 * p) == v / 2 / p
  {
    var h := v / 2;
    var q, r := h / p, h % p;
    assert v == (2 * p) * q + (2 * r + v % 2);
    DivisionIs(2 * p, v, q, 2 * r + v % 2);
  }

  /** How many values a sample of `depth` bits has. */
  function Values(depth: nat): nat { ShiftLeft(1, depth) }

  predicate Fits(row: seq<byte>, depth: nat) {
    forall i | 0 <= i < |row| :: row[i] < Values(depth)
  }

  /** The samples shifted into one number, the first the highest. */
  function Number(row: seq<byte>, depth: nat): nat {
    if row == [] then 0 else ShiftLeft(Number(row[..|row| - 1], depth), depth) + row[|row| - 1]
  }

  predicate Narrow(depth: nat) { depth in {1, 2, 4} }

  lemma Unrolled(v: nat)
    ensures ShiftLeft(v, 1) == 2 * v && ShiftLeft(v, 2) == 4 * v && ShiftLeft(v, 4) == 16 * v
    ensures forall m: nat :: ShiftRight(v, 1 + m) == ShiftRight(v / 2, m)
    ensures forall m: nat :: ShiftRight(v, 2 + m) == ShiftRight(v / 4, m)
    ensures forall m: nat :: ShiftRight(v, 4 + m) == ShiftRight(v / 16, m)
  {
    assert v / 2 / 2 == v / 4 && v / 4 / 2 == v / 8 && v / 8 / 2 == v / 16;
    forall m: nat
      ensures ShiftRight(v, 1 + m) == ShiftRight(v / 2, m)
      ensures ShiftRight(v, 2 + m) == ShiftRight(v / 4, m)
      ensures ShiftRight(v, 4 + m) == ShiftRight(v / 16, m)
    {
      assert ShiftRight(v / 4, 2 + m) == ShiftRight(v / 8, 1 + m) == ShiftRight(v / 16, m);
    }
  }

  lemma ShiftDigit(high: nat, last: nat, depth: nat, m: nat)
    requires Narrow(depth) && last < Values(depth)
    ensures ShiftLeft(high, depth) + last == high * Values(depth) + last
    ensures (ShiftLeft(high, depth) + last) % Values(depth) == last
    ensures ShiftRight(ShiftLeft(high, depth) + last, depth + m) == ShiftRight(high, m)
  {
    Unrolled(1);
    Unrolled(high);
    Unrolled(ShiftLeft(high, depth) + last);
    if depth == 1 {
      assert (2 * high + last) / 2 == high;
    } else if depth == 2 {
      assert (4 * high + last) / 4 == high;
    } else {
      assert (16 * high + last) / 16 == high;
    }
  }

  /** Digit `k` is what a shift and a mask take from the number. */
  lemma {:induction false} DigitAt(row: seq<byte>, depth: nat, k: nat)
    requires Narrow(depth) && Fits(row, depth) && k < |row|
    ensures ShiftRight(Number(row, depth), depth * (|row| - 1 - k)) % Values(depth) == row[k]
  {
    var front, last := row[..|row| - 1], row[|row| - 1];
    var high := Number(front, depth);
    assert Number(row, depth) == ShiftLeft(high, depth) + last;
    if k < |row| - 1 {
      DigitAt(front, depth, k);
      ShiftDigit(high, last, depth, depth * (|front| - 1 - k));
      hide ShiftLeft, ShiftRight, Number;
      assert depth * (|row| - 1 - k) == depth + depth * (|front| - 1 - k);
    } else {
      ShiftDigit(high, last, depth, 0);
      assert depth * (|row| - 1 - k) == 0;
    }
  }

  lemma {:induction false} ShiftBack(v: nat, s: nat, m: nat)
    ensures ShiftRight(ShiftLeft(v, s), s + m) == ShiftRight(v, m)
  {
    if s > 0 {
      ShiftBack(v, s - 1, m);
    }
  }

  lemma {:induction false} NumberFits(row: seq<byte>, depth: nat)
    requires Narrow(depth) && Fits(row, depth)
    ensures Number(row, depth) < Values(depth * |row|)
  {
    if row != [] {
      var front := row[..|row| - 1];
      NumberFits(front, depth);
      assert depth * |row| == depth + depth * |front|;
      hide ShiftLeft, Values;
      NextFits(Number(front, depth), row[|row| - 1], depth, depth * |front|);
    }
  }

  lemma NextFits(high: nat, last: nat, depth: nat, m: nat)
    requires Narrow(depth) && high < Values(m) && last < Values(depth)
    ensures ShiftLeft(high, depth) + last < Values(depth + m)
  {
    Unrolled(1);
    Unrolled(high);
    ValuesNext(m);
    hide ShiftLeft;
    if depth == 1 {
      assert 2 * high + last < 2 * Values(m);
    } else if depth == 2 {
      assert 4 * high + last < 4 * Values(m);
    } else {
      assert 16 * high + last < 16 * Values(m);
    }
  }

  lemma ValuesNext(m: nat)
    ensures Values(1 + m) == 2 * Values(m) && Values(2 + m) == 4 * Values(m) && Values(4 + m) == 16 * Values(m)
  {
    assert ShiftLeft(1, 2 + m) == 2 * ShiftLeft(1, 1 + m);
    assert ShiftLeft(1, 4 + m) == 2 * ShiftLeft(1, 3 + m) == 4 * ShiftLeft(1, 2 + m);
  }

  lemma {:induction false} ShiftFits(v: nat, n: nat, s: nat)
    requires v < Values(n)
    ensures ShiftLeft(v, s) < Values(n + s)
  {
    if s > 0 {
      ShiftFits(v, n, s - 1);
    }
  }

  predicate Chunk(row: seq<byte>, depth: nat) {
    Narrow(depth) && Fits(row, depth) && 0 < |row| && depth * |row| <= 8
  }

  /** The samples of one byte, the first in its high bits, and zeros after the last. */
  function ByteOf(row: seq<byte>, depth: nat): byte
    requires Chunk(row, depth)
  {
    NumberFits(row, depth);
    ShiftFits(Number(row, depth), depth * |row|, 8 - depth * |row|);
    assert Values(8) == 256 by { Unrolled(1); ValuesNext(4); }
    ShiftLeft(Number(row, depth), 8 - depth * |row|)
  }

  lemma SampleOfByte(row: seq<byte>, depth: nat, k: nat)
    requires Chunk(row, depth) && k < |row|
    ensures depth * k + depth <= 8
    ensures ShiftRight(ByteOf(row, depth), 8 - depth - depth * k) % Values(depth) == row[k]
  {
    DigitAt(row, depth, k);
    assert depth * k + depth <= depth * |row| && depth * (|row| - 1 - k) == depth * |row| - depth - depth * k;
    ShiftBack(Number(row, depth), 8 - depth * |row|, depth * (|row| - 1 - k));
  }

  /** The bytes of a row of samples below eight bits. */
  function PackNarrow(row: seq<byte>, depth: nat): seq<byte>
    requires Narrow(depth) && Fits(row, depth)
  {
    if row == [] then []
    else if |row| <= 8 / depth then [ByteOf(row, depth)]
    else [ByteOf(row[..8 / depth], depth)] + PackNarrow(row[8 / depth..], depth)
  }

  /** Where the bits of a sample lie, by the byte they lie in. */
  lemma BitPlaces(depth: nat, x: nat)
    requires Narrow(depth)
    ensures x < 8 / depth ==> x * depth == depth * x <= 8 - depth
    ensures x >= 8 / depth ==> x * depth == (x - 8 / depth) * depth + 8
    ensures x <= 8 / depth <==> depth * x <= 8
  {
    if depth == 1 {
      assert x * depth == x;
    } else if depth == 2 {
      assert x * depth == 2 * x;
    } else {
      assert x * depth == 4 * x;
    }
  }

  lemma {:induction false} PackLength(row: seq<byte>, depth: nat)
    requires Narrow(depth) && Fits(row, depth)
    ensures |PackNarrow(row, depth)| == (|row| * depth + 7) / 8
  {
    BitPlaces(depth, |row|);
    if |row| > 8 / depth {
      PackLength(row[8 / depth..], depth);
      hide PackNarrow, ByteOf, Fits;
    }
  }

  /** The reader's sample `x` of a line. */
  function SampleAt(line: seq<byte>, x: nat, depth: nat): byte
    requires Narrow(depth) && x * depth / 8 < |line|
  {
    Unrolled(1);
    ShiftRight(line[x * depth / 8], 8 - depth - x * depth % 8) % Values(depth)
  }

  lemma SampleOfFirst(line: seq<byte>, head: seq<byte>, x: nat, depth: nat)
    requires Chunk(head, depth) && x < |head|
    requires line != [] && line[0] == ByteOf(head, depth)
    ensures x * depth / 8 == 0 && SampleAt(line, x, depth) == head[x]
  {
    BitPlaces(depth, x);
    SampleOfByte(head, depth, x);
    assert x * depth == depth * x;
  }

  lemma SampleNext(line: seq<byte>, x: nat, depth: nat)
    requires Narrow(depth) && line != [] && x >= 8 / depth && (x - 8 / depth) * depth / 8 < |line| - 1
    ensures x * depth / 8 < |line| && SampleAt(line, x, depth) == SampleAt(line[1..], x - 8 / depth, depth)
  {
    BitPlaces(depth, x);
    assert x * depth / 8 == 1 + (x - 8 / depth) * depth / 8;
  }

  lemma {:induction false} SampleOfRow(row: seq<byte>, depth: nat, x: nat)
    requires Narrow(depth) && Fits(row, depth) && x < |row|
    ensures x * depth / 8 < |PackNarrow(row, depth)|
    ensures SampleAt(PackNarrow(row, depth), x, depth) == row[x]
  {
    var per, line := 8 / depth, PackNarrow(row, depth);
    if x < per {
      var head := if |row| <= per then row else row[..per];
      BitPlaces(depth, |head|);
      assert line[0] == ByteOf(head, depth);
      hide *;
      SampleOfFirst(line, head, x, depth);
    } else {
      SampleOfRow(row[per..], depth, x - per);
      assert line[1..] == PackNarrow(row[per..], depth);
      assert row[x] == row[per..][x - per];
      hide PackNarrow, ByteOf, Fits, SampleAt;
      SampleNext(line, x, depth);
    }
  }

  // ----- rows of pixels -----

  /** A color type and a bit depth the standard allows, sixteen bits apart. */
  datatype Format = Format(color: nat, depth: nat)
  {
    predicate Legal() {
      || (color in {0, 3} && depth in {1, 2, 4, 8})
      || (color in {2, 4, 6} && depth == 8)
    }

    function Channels(): nat {
      if color == 2 then 3 else if color == 4 then 2 else if color == 6 then 4 else 1
    }

    /** How far back the writer's filters look. */
    function WriterBpp(): nat {
      var b := Channels() * depth / 8;
      if b > 1 then b else 1
    }

    function ReaderBpp(): nat { (Channels() * depth + 7) / 8 }

    /** The bytes of a line of `n` pixels. */
    function Stride(n: nat): nat { (n * (Channels() * depth) + 7) / 8 }
  }

  /** The color types: gray, RGB, palette, gray with alpha and RGB with alpha, with the depths and samples each has, and
      how many bytes before a byte the filters look. */
  lemma Formats(depth: nat)
    ensures forall color: nat :: Format(color, depth).Legal() <==>
              || (color == 0 && (depth == 1 || depth == 2 || depth == 4 || depth == 8))
              || (color == 2 && depth == 8)
              || (color == 3 && (depth == 1 || depth == 2 || depth == 4 || depth == 8))
              || (color == 4 && depth == 8)
              || (color == 6 && depth == 8)
    ensures Format(0, depth).Channels() == 1 && Format(2, depth).Channels() == 3 && Format(3, depth).Channels() == 1
    ensures Format(4, depth).Channels() == 2 && Format(6, depth).Channels() == 4
    ensures depth <= 8 ==> Format(0, depth).WriterBpp() == 1 == Format(3, depth).WriterBpp()
    ensures Format(2, 8).WriterBpp() == 3 && Format(4, 8).WriterBpp() == 2 && Format(6, 8).WriterBpp() == 4
  {
  }

  predicate IsPixel(px: Pixel, format: Format) {
    |px| == format.Channels() && (format.depth < 8 ==> forall i | 0 <= i < |px| :: px[i] < Values(format.depth))
  }

  predicate IsRow(row: seq<Pixel>, format: Format) {
    forall x | 0 <= x < |row| :: IsPixel(row[x], format)
  }

  function Firsts(row: seq<Pixel>): (r: seq<byte>)
    requires forall x | 0 <= x < |row| :: row[x] != []
    ensures |r| == |row| && forall x | 0 <= x < |row| :: r[x] == row[x][0]
  {
    seq(|row|, x requires 0 <= x < |row| => row[x][0])
  }

  function Flat(row: seq<Pixel>): seq<byte> {
    if row == [] then [] else row[0] + Flat(row[1..])
  }

  function Packed(row: seq<Pixel>, format: Format): seq<byte>
    requires format.Legal() && IsRow(row, format)
  {
    if format.depth == 8 then Flat(row) else PackNarrow(Firsts(row), format.depth)
  }

  /** The reader's pixel `x` of a line. */
  function PixelAt(line: seq<byte>, x: nat, format: Format): Pixel
    requires format.Legal()
    requires if format.depth == 8 then (x + 1) * format.Channels() <= |line| else x * format.depth / 8 < |line|
  {
    if format.depth == 8 then
      assert (x + 1) * format.Channels() == x * format.Channels() + format.Channels();
      line[x * format.Channels()..x * format.Channels() + format.Channels()]
    else [SampleAt(line, x, format.depth)]
  }

  lemma {:induction false} FlatAt(row: seq<Pixel>, n: nat, x: nat)
    requires forall k | 0 <= k < |row| :: |row[k]| == n
    ensures |Flat(row)| == |row| * n
    ensures x < |row| ==> x * n + n <= |row| * n && Flat(row)[x * n..x * n + n] == row[x]
  {
    if row != [] {
      FlatAt(row[1..], n, if x == 0 then 0 else x - 1);
      TimesNext(|row| - 1, n);
      if x > 0 {
        TimesNext(x - 1, n);
        if x < |row| {
          var rest, from := Flat(row[1..]), (x - 1) * n;
          assert (row[0] + rest)[n + from..n + from + n] == rest[from..from + n];
        }
      }
    }
  }

  lemma WholeBytes(k: nat, n: nat)
    ensures (k * (n * 8) + 7) / 8 == k * n
  {
    assert k * (n * 8) == 8 * (k * n);
  }

  /** Unpacking undoes packing, and a packed row is as long as the reader takes a line to be. */
  lemma UnpackUndoes(row: seq<Pixel>, format: Format, x: nat)
    requires format.Legal() && IsRow(row, format)
    ensures |Packed(row, format)| == format.Stride(|row|)
    ensures x < |row| && format.depth == 8 ==> (x + 1) * format.Channels() <= |Packed(row, format)|
    ensures x < |row| && format.depth < 8 ==> x * format.depth / 8 < |Packed(row, format)|
    ensures x < |row| ==> PixelAt(Packed(row, format), x, format) == row[x]
  {
    var n := format.Channels();
    if format.depth == 8 {
      hide Flat;
      FlatAt(row, n, x);
      TimesNext(x, n);
      WholeBytes(|row|, n);
    } else {
      hide SampleAt, PackNarrow;
      PackLength(Firsts(row), format.depth);
      assert n == 1;
      if x < |row| {
        SampleOfRow(Firsts(row), format.depth, x);
      }
    }
  }

  /** Below eight bits, sample `x` of a packed row is in byte `x * depth / 8`, the earlier samples of a byte in its
      higher bits; a row of one or more whole pixels at eight bits is their bytes in order. */
  lemma PackedBits(row: seq<Pixel>, format: Format, x: nat)
    requires format.Legal() && IsRow(row, format) && x < |row|
    ensures format.depth < 8 ==>
              var line, bit := Packed(row, format), x * format.depth;
              && bit / 8 < |line| && bit % 8 + format.depth <= 8
              && line[bit / 8] / Pow2(8 - format.depth - bit % 8) % Pow2(format.depth) == row[x][0]
    ensures format.depth == 8 ==>
              var line, n := Packed(row, format), format.Channels();
              && x * n + n <= |line| && line[x * n..x * n + n] == row[x]
  {
    UnpackUndoes(row, format, x);
    var n := format.Channels();
    if format.depth == 8 {
      TimesNext(x, n);
    } else {
      var depth, line := format.depth, Packed(row, format);
      InByte(depth, x);
      ShiftRightIs(line[x * depth / 8], 8 - depth - x * depth % 8);
      ShiftLeftIs(1, depth);
      assert Values(depth) == Pow2(depth);
      assert PixelAt(line, x, format)[0] == SampleAt(line, x, depth);
    }
  }

  lemma InByte(depth: nat, x: nat)
    requires Narrow(depth)
    ensures x * depth % 8 + depth <= 8
  {
    if depth == 1 {
      assert x * depth == x;
    } else if depth == 2 {
      assert x * depth == 2 * x;
    } else {
      assert x * depth == 4 * x;
    }
  }

  lemma SameBpp(format: Format)
    requires format.Legal()
    ensures format.WriterBpp() == format.ReaderBpp() > 0
  {
  }

  lemma PackStep(row: seq<byte>, depth: nat, k: nat, i: nat)
    requires Narrow(depth) && Fits(row, depth) && k <= i < |row| && i + 1 - k == 8 / depth
    ensures Chunk(row[k..i + 1], depth) && ByteOf(row[k..i + 1], depth) == Number(row[k..i + 1], depth)
    ensures PackNarrow(row[k..], depth) == [ByteOf(row[k..i + 1], depth)] + PackNarrow(row[i + 1..], depth)
  {
    assert row[k..][..i + 1 - k] == row[k..i + 1] && row[k..][i + 1 - k..] == row[i + 1..];
    BitPlaces(depth, i + 1 - k);
    assert depth * (i + 1 - k) == 8;
    if i + 1 == |row| {
      assert row[k..] == row[k..i + 1];
    }
  }

  /** What the packing loop knows: the samples from `k` to `i` are in `acc`, those before `k` in `out`. */
  ghost predicate Packing(out: seq<byte>, acc: nat, bits: nat, first: seq<byte>, depth: nat, k: nat, i: nat) {
    && Narrow(depth) && Fits(first, depth)
    && k <= i <= |first| && i - k < 8 / depth
    && acc == Number(first[k..i], depth) && bits == depth * (i - k)
    && out + PackNarrow(first[k..], depth) == PackNarrow(first, depth)
  }

  function Shifted(acc: nat, depth: nat, sample: byte): nat { ShiftLeft(acc, depth) + sample }

  lemma PackingNext(out: seq<byte>, acc: nat, bits: nat, first: seq<byte>, depth: nat, k: nat, i: nat)
    requires Packing(out, acc, bits, first, depth, k, i) && i < |first|
    ensures bits + depth == 8 ==> Shifted(acc, depth, first[i]) < 256
    ensures bits + depth == 8 ==> Packing(out + [Shifted(acc, depth, first[i])], 0, 0, first, depth, i + 1, i + 1)
    ensures bits + depth != 8 ==> Packing(out, Shifted(acc, depth, first[i]), bits + depth, first, depth, k, i + 1)
  {
    var acc' := ShiftLeft(acc, depth) + first[i];
    assert first[k..i + 1][..i - k] == first[k..i];
    assert acc' == Number(first[k..i + 1], depth);
    hide Number, PackNarrow, ByteOf, ShiftLeft, Fits;
    BitPlaces(depth, i + 1 - k);
    assert depth * (i + 1 - k) == depth * (i - k) + depth;
    if bits + depth == 8 {
      PackingFlush(out, acc', first, depth, k, i);
    }
  }

  lemma PackingFlush(out: seq<byte>, acc: nat, first: seq<byte>, depth: nat, k: nat, i: nat)
    requires Narrow(depth) && Fits(first, depth) && k <= i < |first| && i + 1 - k == 8 / depth
    requires acc == Number(first[k..i + 1], depth) && out + PackNarrow(first[k..], depth) == PackNarrow(first, depth)
    ensures acc < 256 && Packing(out + [acc], 0, 0, first, depth, i + 1, i + 1)
  {
    PackStep(first, depth, k, i);
    var more := out + [acc];
    hide Number, PackNarrow, ByteOf, Fits, Narrow;
    assert more + PackNarrow(first[i + 1..], depth) == out + ([acc] + PackNarrow(first[i + 1..], depth));
    PackingFresh(more, first, depth, i + 1);
  }

  /** With nothing in `acc`, the samples before `k` are in `out`. */
  lemma PackingFresh(out: seq<byte>, first: seq<byte>, depth: nat, k: nat)
    requires Narrow(depth) && Fits(first, depth) && k <= |first|
    requires out + PackNarrow(first[k..], depth) == PackNarrow(first, depth)
    ensures Packing(out, 0, 0, first, depth, k, k)
  {
    assert Number(first[k..k], depth) == 0;
    hide Number, PackNarrow, Fits;
  }

  lemma PackingDone(out: seq<byte>, acc: nat, bits: nat, first: seq<byte>, depth: nat, k: nat)
    requires Packing(out, acc, bits, first, depth, k, |first|)
    ensures bits == 0 ==> out == PackNarrow(first, depth)
    ensures bits > 0 ==>
              && bits <= 8 && ShiftLeft(acc, 8 - bits) < 256
              && out + [ShiftLeft(acc, 8 - bits)] == PackNarrow(first, depth)
  {
    assert first[k..|first|] == first[k..];
    if k < |first| {
      BitPlaces(depth, |first| - k);
      assert depth * (|first| - k) > 0;
      assert PackNarrow(first[k..], depth) == [ByteOf(first[k..], depth)];
    } else {
      assert out + [] == out;
    }
  }

  lemma PackingStarts(row: seq<Pixel>, format: Format)
    requires format.Legal() && format.depth < 8 && IsRow(row, format)
    ensures forall x | 0 <= x < |row| :: row[x] != []
    ensures Packing([], 0, 0, Firsts(row), format.depth, 0, 0)
    ensures Narrow(format.depth) && Fits(Firsts(row), format.depth)
    ensures Packed(row, format) == PackNarrow(Firsts(row), format.depth)
  {
    var first := Firsts(row);
    assert first[0..] == first && [] + PackNarrow(first, format.depth) == PackNarrow(first, format.depth);
  }

  /** The writer's loop over a row below eight bits. */
  method PackBits(row: seq<Pixel>, format: Format) returns (out: seq<byte>)
    requires format.Legal() && format.depth < 8 && IsRow(row, format)
    ensures out == Packed(row, format)
  {
    PackingStarts(row, format);
    hide *;
    ghost var first := Firsts(row);
    ghost var k: nat := 0;
    var acc: nat, bits: nat := 0, 0;
    out := [];
    for i := 0 to |row|
      invariant Packing(out, acc, bits, first, format.depth, k, i)
    {
      var sample := row[i][0];
      assert first[i] == sample;
      PackingNext(out, acc, bits, first, format.depth, k, i);
      acc, bits := Shifted(acc, format.depth, sample), bits + format.depth;
      if bits == 8 {
        out, acc, bits, k := out + [acc], 0, 0, i + 1;
      }
    }
    PackingDone(out, acc, bits, first, format.depth, k);
    if bits > 0 {
      out := out + [ShiftLeft(acc, 8 - bits)];
    }
  }
}
