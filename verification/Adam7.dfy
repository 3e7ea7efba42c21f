/** The image data of a PNG: the pixels of the whole image or of the seven Adam7 passes (section 2.6 of RFC 2083),
    written and read back. */
module Adam7 {
  import opened Common
  import opened PngRows

  datatype Pass = Pass(x0: nat, y0: nat, dx: nat, dy: nat)
  {
    predicate Regular() {
      dx in {1, 2, 4, 8} && dy in {1, 2, 4, 8}
    }

    function Width(w: nat): nat
      requires Regular()
    {
      if w > x0 then (w - x0 + dx - 1) / dx else 0
    }

    function Height(h: nat): nat
      requires Regular()
    {
      if h > y0 then (h - y0 + dy - 1) / dy else 0
    }

    predicate HitsColumn(x: nat)
      requires Regular()
    {
      x >= x0 && (x - x0) % dx == 0
    }

    predicate HitsRow(y: nat)
      requires Regular()
    {
      y >= y0 && (y - y0) % dy == 0
    }

    predicate Hits(x: nat, y: nat)
      requires Regular()
    {
      HitsColumn(x) && HitsRow(y)
    }
  }

  const WHOLE: seq<Pass> := [Pass(0, 0, 1, 1)]

  const ADAM7: seq<Pass> := [
    Pass(0, 0, 8, 8), Pass(4, 0, 8, 8), Pass(0, 4, 4, 8), Pass(2, 0, 4, 4),
    Pass(0, 2, 2, 4), Pass(1, 0, 2, 2), Pass(0, 1, 1, 2)]

  function Passes(interlace: bool): (passes: seq<Pass>)
    ensures AllRegular(passes)
  {
    if interlace then ADAM7 else WHOLE
  }

  predicate AllRegular(passes: seq<Pass>) { forall k | 0 <= k < |passes| :: passes[k].Regular() }

  /** The pass that holds a pixel. */
  function PassOf(x: nat, y: nat): nat {
    if y % 2 == 1 then 6
    else if x % 2 == 1 then 5
    else if y % 4 == 2 then 4
    else if x % 4 == 2 then 3
    else if y % 8 == 4 then 2
    else if x % 8 == 4 then 1
    else 0
  }

  /** The steps of the passes along one axis, by remainders. */
  lemma Steps(x: nat)
    ensures x % 2 == 0 <==> x % 8 in {0, 2, 4, 6}
    ensures x % 4 == 0 <==> x % 8 in {0, 4}
    ensures x % 4 == 2 <==> x % 8 in {2, 6}
    ensures x >= 1 && (x - 1) % 2 == 0 <==> x % 2 == 1
    ensures x >= 2 && (x - 2) % 4 == 0 <==> x % 4 == 2
    ensures x >= 4 && (x - 4) % 8 == 0 <==> x % 8 == 4
  {
  }

  lemma ColumnsByRemainder(x: nat, k: nat)
    requires k < 7
    ensures ADAM7[k].Regular()
    ensures ADAM7[k].HitsColumn(x) <==>
              match k
              case 0 => x % 8 == 0
              case 1 => x % 8 == 4
              case 2 => x % 4 == 0
              case 3 => x % 4 == 2
              case 4 => x % 2 == 0
              case 5 => x % 2 == 1
              case _ => true
  {
    Steps(x);
  }

  lemma RowsByRemainder(y: nat, k: nat)
    requires k < 7
    ensures ADAM7[k].Regular()
    ensures ADAM7[k].HitsRow(y) <==>
              match k
              case 0 => y % 8 == 0
              case 1 => y % 8 == 0
              case 2 => y % 8 == 4
              case 3 => y % 4 == 0
              case 4 => y % 4 == 2
              case 5 => y % 2 == 0
              case _ => y % 2 == 1
  {
    Steps(y);
  }

  /** Each pixel is in one pass and in no other. */
  lemma HitByOne(x: nat, y: nat, k: nat)
    requires k < 7
    ensures AllRegular(ADAM7) && (ADAM7[k].Hits(x, y) <==> k == PassOf(x, y))
  {
    ColumnsByRemainder(x, k);
    RowsByRemainder(y, k);
    Steps(x);
    Steps(y);
  }

  lemma HitByWhole(x: nat, y: nat)
    ensures AllRegular(WHOLE) && WHOLE[0].Hits(x, y)
  {
  }

  /** The columns a pass holds are `x0`, `x0 + dx` and so on below the width. */
  lemma Columns(p: Pass, w: nat, x: nat)
    requires p.Regular() && p.HitsColumn(x)
    ensures p.x0 + (x - p.x0) / p.dx * p.dx == x
    ensures x < w <==> (x - p.x0) / p.dx < p.Width(w)
  {
  }

  lemma Column(p: Pass, w: nat, i: nat)
    requires p.Regular()
    ensures p.HitsColumn(p.x0 + i * p.dx) && (p.x0 + i * p.dx - p.x0) / p.dx == i
    ensures i < p.Width(w) <==> p.x0 + i * p.dx < w
  {
  }

  // ----- the writer's side -----

  type Image = seq<seq<Pixel>>

  predicate Sized(img: Image, w: nat, h: nat) {
    |img| == h && forall y | 0 <= y < h :: |img[y]| == w
  }

  predicate IsImage(img: Image, w: nat, h: nat, format: Format) {
    format.Legal() && Sized(img, w, h) && forall y | 0 <= y < h :: IsRow(img[y], format)
  }

  function PassRow(img: Image, w: nat, h: nat, p: Pass, j: nat): (row: seq<Pixel>)
    requires Sized(img, w, h) && p.Regular() && j < p.Height(h)
    ensures |row| == p.Width(w)
  {
    Line(p, h, j);
    seq(p.Width(w), i requires 0 <= i < p.Width(w) => Column(p, w, i); img[p.y0 + j * p.dy][p.x0 + i * p.dx])
  }

  lemma Line(p: Pass, h: nat, j: nat)
    requires p.Regular()
    ensures p.HitsRow(p.y0 + j * p.dy) && (p.y0 + j * p.dy - p.y0) / p.dy == j
    ensures j < p.Height(h) <==> p.y0 + j * p.dy < h
  {
  }

  lemma Lines(p: Pass, h: nat, y: nat)
    requires p.Regular() && p.HitsRow(y)
    ensures p.y0 + (y - p.y0) / p.dy * p.dy == y
    ensures y < h <==> (y - p.y0) / p.dy < p.Height(h)
  {
  }

  lemma PassRowIsRow(img: Image, w: nat, h: nat, format: Format, p: Pass, j: nat)
    requires IsImage(img, w, h, format) && p.Regular() && j < p.Height(h)
    ensures IsRow(PassRow(img, w, h, p, j), format)
  {
    Line(p, h, j);
    var row := PassRow(img, w, h, p, j);
    forall i | 0 <= i < |row|
      ensures IsPixel(row[i], format)
    {
      Column(p, w, i);
      assert row[i] == img[p.y0 + j * p.dy][p.x0 + i * p.dx];
    }
  }

  /** The packed lines of a pass. */
  function PassLines(img: Image, w: nat, h: nat, format: Format, p: Pass): (lines: seq<seq<byte>>)
    requires IsImage(img, w, h, format) && p.Regular()
    ensures |lines| == p.Height(h)
  {
    seq(p.Height(h), j requires 0 <= j < p.Height(h) =>
      PassRowIsRow(img, w, h, format, p, j); Packed(PassRow(img, w, h, p, j), format))
  }

  /** A pass without rows or columns writes nothing, not even filter bytes. */
  function PassData(img: Image, w: nat, h: nat, format: Format, p: Pass): seq<byte>
    requires IsImage(img, w, h, format) && p.Regular()
  {
    if p.Width(w) == 0 || p.Height(h) == 0 then [] else Filtered(PassLines(img, w, h, format, p), format.WriterBpp())
  }

  function RawData(img: Image, w: nat, h: nat, format: Format, passes: seq<Pass>): seq<byte>
    requires IsImage(img, w, h, format) && AllRegular(passes)
  {
    if passes == [] then [] else PassData(img, w, h, format, passes[0]) + RawData(img, w, h, format, passes[1..])
  }

  // ----- the reader's side -----

  /** The bytes the reader expects. */
  function Expected(w: nat, h: nat, format: Format, passes: seq<Pass>): nat
    requires AllRegular(passes)
  {
    if passes == [] then 0 else
      var pw, ph := passes[0].Width(w), passes[0].Height(h);
      (if pw == 0 || ph == 0 then 0 else ph * (format.Stride(pw) + 1)) + Expected(w, h, format, passes[1..])
  }

  predicate HasLines(lines: seq<seq<byte>>, w: nat, h: nat, format: Format, p: Pass)
    requires p.Regular()
  {
    |lines| == p.Height(h) && forall j | 0 <= j < |lines| :: |lines[j]| == format.Stride(p.Width(w))
  }

  lemma InLine(line: seq<byte>, n: nat, x: nat, format: Format)
    requires format.Legal() && |line| == format.Stride(n) && x < n
    ensures if format.depth == 8 then (x + 1) * format.Channels() <= |line| else x * format.depth / 8 < |line|
  {
    if format.depth == 8 {
      WholeBytes(n, format.Channels());
      TimesUp(x + 1, n, format.Channels());
    } else {
      assert format.Channels() == 1;
      TimesUp(x + 1, n, format.depth);
      TimesNext(x, format.depth);
    }
  }

  lemma TimesUp(a: nat, b: nat, m: nat)
    requires a <= b
    ensures a * m <= b * m
  {
  }

  function Decoded(lines: seq<seq<byte>>, w: nat, h: nat, format: Format, p: Pass, x: nat, y: nat): Pixel
    requires format.Legal() && p.Regular() && HasLines(lines, w, h, format, p)
    requires p.Hits(x, y) && x < w && y < h
  {
    Columns(p, w, x);
    Lines(p, h, y);
    var line := lines[(y - p.y0) / p.dy];
    InLine(line, p.Width(w), (x - p.x0) / p.dx, format);
    PixelAt(line, (x - p.x0) / p.dx, format)
  }

  /** The image with the pixels of a pass in their places. */
  function Placed(img: Image, w: nat, h: nat, format: Format, p: Pass, lines: seq<seq<byte>>): (placed: Image)
    requires Sized(img, w, h) && format.Legal() && p.Regular() && HasLines(lines, w, h, format, p)
    ensures Sized(placed, w, h)
  {
    seq(h, y requires 0 <= y < h => seq(w, x requires 0 <= x < w =>
      if p.Hits(x, y) then Decoded(lines, w, h, format, p, x, y) else img[y][x]))
  }

  lemma {:induction false} UnfilterShape(data: seq<byte>, rows: nat, stride: nat, bpp: nat, up: seq<byte>)
    ensures UnfilterLines(data, rows, stride, bpp, up).Ok? ==>
              var lines := UnfilterLines(data, rows, stride, bpp, up).value.0;
              |lines| == rows && forall j | 0 <= j < rows :: |lines[j]| == stride
    decreases rows
  {
    if rows > 0 && |data| > stride && data[0] <= 4 {
      var cur := Unfilter(data[0], data[1..stride + 1], up, bpp, stride);
      UnfilterShape(data[stride + 1..], rows - 1, stride, bpp, cur);
    }
  }

  /** The image whose passes the data holds, in place of the pixels of `img`. */
  function ReadPasses(data: seq<byte>, img: Image, w: nat, h: nat, format: Format, passes: seq<Pass>): Result<Image>
    requires Sized(img, w, h) && format.Legal() && AllRegular(passes)
    decreases |passes|
  {
    if passes == [] then Ok(img) else
      var p := passes[0];
      if p.Width(w) == 0 || p.Height(h) == 0 then ReadPasses(data, img, w, h, format, passes[1..])
      else
        UnfilterShape(data, p.Height(h), format.Stride(p.Width(w)), format.ReaderBpp(), []);
        match UnfilterLines(data, p.Height(h), format.Stride(p.Width(w)), format.ReaderBpp(), [])
        case Ok((lines, rest)) => ReadPasses(rest, Placed(img, w, h, format, p, lines), w, h, format, passes[1..])
        case Err(message) => Err(message)
  }

  // ----- reading back what was written -----

  lemma LinesShape(img: Image, w: nat, h: nat, format: Format, p: Pass)
    requires IsImage(img, w, h, format) && p.Regular()
    ensures HasLines(PassLines(img, w, h, format, p), w, h, format, p)
  {
    var lines := PassLines(img, w, h, format, p);
    forall j | 0 <= j < |lines|
      ensures |lines[j]| == format.Stride(p.Width(w))
    {
      PassRowIsRow(img, w, h, format, p, j);
      UnpackUndoes(PassRow(img, w, h, p, j), format, 0);
    }
  }

  lemma DecodesPixel(img: Image, w: nat, h: nat, format: Format, p: Pass, x: nat, y: nat)
    requires IsImage(img, w, h, format) && p.Regular()
    requires HasLines(PassLines(img, w, h, format, p), w, h, format, p)
    requires p.Hits(x, y) && x < w && y < h
    ensures Decoded(PassLines(img, w, h, format, p), w, h, format, p, x, y) == img[y][x]
  {
    Columns(p, w, x);
    Lines(p, h, y);
    var i, j := (x - p.x0) / p.dx, (y - p.y0) / p.dy;
    var row := PassRow(img, w, h, p, j);
    PassRowIsRow(img, w, h, format, p, j);
    assert PassLines(img, w, h, format, p)[j] == Packed(row, format);
    assert row[i] == img[y][x];
    hide Packed, PassLines, PixelAt, IsRow;
    UnpackUndoes(row, format, i);
  }

  /** Some pass of the list holds the pixel. */
  ghost predicate Reached(passes: seq<Pass>, x: nat, y: nat)
    requires AllRegular(passes)
  {
    exists k | 0 <= k < |passes| :: passes[k].Hits(x, y)
  }

  /** The image takes the written pixels where the passes reach and keeps its own elsewhere. */
  ghost predicate Restored(result: Image, start: Image, img: Image, w: nat, h: nat, passes: seq<Pass>)
    requires AllRegular(passes) && Sized(start, w, h) && Sized(img, w, h)
  {
    && Sized(result, w, h)
    && forall x, y | 0 <= x < w && 0 <= y < h ::
      result[y][x] == if Reached(passes, x, y) then img[y][x] else start[y][x]
  }

  lemma {:induction false} ReadsRaw(img: Image, start: Image, w: nat, h: nat, format: Format, passes: seq<Pass>)
    requires IsImage(img, w, h, format) && Sized(start, w, h) && AllRegular(passes)
    ensures |RawData(img, w, h, format, passes)| == Expected(w, h, format, passes)
    ensures var r := ReadPasses(RawData(img, w, h, format, passes), start, w, h, format, passes);
            r.Ok? && Restored(r.value, start, img, w, h, passes)
    decreases |passes|
  {
    if passes != [] {
      var p, rest := passes[0], RawData(img, w, h, format, passes[1..]);
      var next := start;
      if p.Width(w) == 0 || p.Height(h) == 0 {
        assert RawData(img, w, h, format, passes) == rest;
      } else {
        var lines := PassLines(img, w, h, format, p);
        LinesShape(img, w, h, format, p);
        SameBpp(format);
        ReadsFiltered(lines, 0, [], format.WriterBpp(), format.Stride(p.Width(w)), rest);
        FilteredLength(lines, 0, [], format.WriterBpp(), format.Stride(p.Width(w)));
        next := Placed(start, w, h, format, p, lines);
      }
      ReadsRaw(img, next, w, h, format, passes[1..]);
      var result := ReadPasses(rest, next, w, h, format, passes[1..]).value;
      forall x, y | 0 <= x < w && 0 <= y < h
        ensures result[y][x] == if Reached(passes, x, y) then img[y][x] else start[y][x]
      {
        ReachedFirst(passes, x, y);
        if p.Width(w) == 0 || p.Height(h) == 0 {
          SkippedPixel(p, w, h, x, y);
        } else {
          PlacedPixel(img, start, w, h, format, p, x, y);
        }
      }
    }
  }

  lemma PlacedPixel(img: Image, start: Image, w: nat, h: nat, format: Format, p: Pass, x: nat, y: nat)
    requires IsImage(img, w, h, format) && Sized(start, w, h) && p.Regular() && x < w && y < h
    requires HasLines(PassLines(img, w, h, format, p), w, h, format, p)
    ensures Placed(start, w, h, format, p, PassLines(img, w, h, format, p))[y][x]
         == if p.Hits(x, y) then img[y][x] else start[y][x]
  {
    if p.Hits(x, y) {
      DecodesPixel(img, w, h, format, p, x, y);
    }
  }

  lemma ReachedFirst(passes: seq<Pass>, x: nat, y: nat)
    requires AllRegular(passes) && passes != []
    ensures Reached(passes, x, y) <==> passes[0].Hits(x, y) || Reached(passes[1..], x, y)
  {
    if Reached(passes, x, y) && !passes[0].Hits(x, y) {
      var k :| 0 <= k < |passes| && passes[k].Hits(x, y);
      assert passes[1..][k - 1].Hits(x, y);
    }
  }

  lemma SkippedPixel(p: Pass, w: nat, h: nat, x: nat, y: nat)
    requires p.Regular() && x < w && y < h && (p.Width(w) == 0 || p.Height(h) == 0)
    ensures !p.Hits(x, y)
  {
    if p.Hits(x, y) {
      Columns(p, w, x);
      Lines(p, h, y);
    }
  }

  lemma PassesCover(interlace: bool, x: nat, y: nat)
    ensures AllRegular(Passes(interlace)) && Reached(Passes(interlace), x, y)
  {
    if interlace {
      HitByOne(x, y, PassOf(x, y));
    } else {
      HitByWhole(x, y);
    }
  }

  lemma SameImage(a: Image, b: Image, w: nat, h: nat)
    requires Sized(a, w, h) && Sized(b, w, h)
    requires forall x, y | 0 <= x < w && 0 <= y < h :: a[y][x] == b[y][x]
    ensures a == b
  {
    forall y | 0 <= y < h
      ensures a[y] == b[y]
    {
    }
  }

  /** The reader has the expected bytes and gets back the image, whatever its pixels were before. */
  lemma ReadsImage(img: Image, start: Image, w: nat, h: nat, format: Format, interlace: bool)
    requires IsImage(img, w, h, format) && Sized(start, w, h)
    ensures AllRegular(Passes(interlace))
    ensures |RawData(img, w, h, format, Passes(interlace))| == Expected(w, h, format, Passes(interlace))
    ensures ReadPasses(RawData(img, w, h, format, Passes(interlace)), start, w, h, format, Passes(interlace)) == Ok(img)
  {
    var passes := Passes(interlace);
    PassesCover(interlace, 0, 0);
    ReadsRaw(img, start, w, h, format, passes);
    var result := ReadPasses(RawData(img, w, h, format, passes), start, w, h, format, passes).value;
    hide RawData, ReadPasses, Passes, Reached, IsRow;
    forall x: nat, y: nat | x < w && y < h
      ensures result[y][x] == img[y][x]
    {
      PassesCover(interlace, x, y);
    }
    SameImage(result, img, w, h);
  }

  // ----- the writer's loops -----

  method PackRow(row: seq<Pixel>, format: Format) returns (out: seq<byte>)
    requires format.Legal() && IsRow(row, format)
    ensures out == Packed(row, format)
  {
    if format.depth == 8 {
      out := Flat(row);
    } else {
      out := PackBits(row, format);
    }
  }

  method PassPixels(img: Image, w: nat, h: nat, p: Pass, y: nat, ghost j: nat) returns (row: seq<Pixel>)
    requires Sized(img, w, h) && p.Regular() && j < p.Height(h) && y == p.y0 + j * p.dy
    ensures row == PassRow(img, w, h, p, j)
  {
    Line(p, h, j);
    row := [];
    var x := p.x0;
    ghost var i := 0;
    while x < w
      invariant x == p.x0 + i * p.dx && i <= p.Width(w)
      invariant row == PassRow(img, w, h, p, j)[..i]
      decreases w - x
    {
      Column(p, w, i);
      row := row + [img[y][x]];
      x, i := x + p.dx, i + 1;
    }
    Column(p, w, i);
  }

  ghost predicate AtLine(p: Pass, h: nat, y: nat, j: nat)
    requires p.Regular()
  {
    y == p.y0 + j * p.dy && j <= p.Height(h) && (y < h <==> j < p.Height(h))
  }

  lemma FirstLine(p: Pass, h: nat)
    requires p.Regular()
    ensures AtLine(p, h, p.y0, 0)
  {
    Line(p, h, 0);
  }

  lemma NextLine(p: Pass, h: nat, y: nat, j: nat)
    requires p.Regular() && AtLine(p, h, y, j) && y < h
    ensures AtLine(p, h, y + p.dy, j + 1)
  {
    Line(p, h, j + 1);
    TimesNext(j, p.dy);
  }

  /** The lines packed so far. */
  ghost predicate Lined(lines: seq<seq<byte>>, img: Image, w: nat, h: nat, format: Format, p: Pass, j: nat)
    requires IsImage(img, w, h, format) && p.Regular() && j <= p.Height(h)
  {
    lines == if p.Width(w) == 0 then [] else PassLines(img, w, h, format, p)[..j]
  }

  lemma NextLined(lines: seq<seq<byte>>, img: Image, w: nat, h: nat, format: Format, p: Pass, j: nat)
    requires IsImage(img, w, h, format) && p.Regular() && j < p.Height(h) && Lined(lines, img, w, h, format, p, j)
    ensures IsRow(PassRow(img, w, h, p, j), format)
    ensures var row := PassRow(img, w, h, p, j);
            Lined(if row == [] then lines else lines + [Packed(row, format)], img, w, h, format, p, j + 1)
  {
    PassRowIsRow(img, w, h, format, p, j);
    hide Packed, IsRow;
  }

  lemma AllLined(lines: seq<seq<byte>>, img: Image, w: nat, h: nat, format: Format, p: Pass)
    requires IsImage(img, w, h, format) && p.Regular() && Lined(lines, img, w, h, format, p, p.Height(h))
    ensures PassData(img, w, h, format, p) == if lines == [] then [] else Filtered(lines, format.WriterBpp())
    ensures format.WriterBpp() > 0 && forall k | 0 <= k < |lines| :: |lines[k]| == |lines[0]|
  {
    var all := PassLines(img, w, h, format, p);
    assert all[..p.Height(h)] == all;
    LinesShape(img, w, h, format, p);
    SameBpp(format);
    hide Filtered, PassLines, IsImage;
  }

  /** The pixels of a pass, row by row, packed and filtered; rows without pixels are dropped, and a pass without rows
      gives nothing. */
  method WritePass(img: Image, w: nat, h: nat, format: Format, p: Pass) returns (out: seq<byte>)
    requires IsImage(img, w, h, format) && p.Regular()
    ensures out == PassData(img, w, h, format, p)
  {
    var lines: seq<seq<byte>> := [];
    var y := p.y0;
    ghost var j := 0;
    FirstLine(p, h);
    while y < h
      invariant AtLine(p, h, y, j) && Lined(lines, img, w, h, format, p, j)
      decreases h - y
    {
      var row := PassPixels(img, w, h, p, y, j);
      NextLine(p, h, y, j);
      NextLined(lines, img, w, h, format, p, j);
      hide PassLines, PassData, Lined, Packed, IsRow, PassRow;
      if row != [] {
        var line := PackRow(row, format);
        lines := lines + [line];
      }
      y, j := y + p.dy, j + 1;
    }
    AllLined(lines, img, w, h, format, p);
    if lines == [] {
      return [];
    }
    out := FilterLines(lines, format.WriterBpp());
  }

  lemma WholeRow(img: Image, w: nat, h: nat, format: Format, j: nat)
    requires IsImage(img, w, h, format) && w > 0 && j < h
    ensures var p := WHOLE[0];
            && p.Regular() && p.Width(w) == w && p.Height(h) == h && PassRow(img, w, h, p, j) == img[j]
            && PassLines(img, w, h, format, p)[j] == Packed(img[j], format)
  {
    assert WHOLE[0].Width(w) == w && WHOLE[0].Height(h) == h;
    assert PassRow(img, w, h, WHOLE[0], j) == img[j];
    hide Packed, IsRow;
  }

  method WriteInterlaced(img: Image, w: nat, h: nat, format: Format) returns (raw: seq<byte>)
    requires IsImage(img, w, h, format) && AllRegular(ADAM7)
    ensures raw == RawData(img, w, h, format, ADAM7)
  {
    raw := [];
    var passes := ADAM7;
    hide PassData, IsImage, IsRow, Sized, ADAM7;
    for k := 0 to |passes|
      invariant AllRegular(passes[k..])
      invariant raw + RawData(img, w, h, format, passes[k..]) == RawData(img, w, h, format, passes)
    {
      var data := WritePass(img, w, h, format, passes[k]);
      assert passes[k..][0] == passes[k] && passes[k..][1..] == passes[k + 1..];
      raw := raw + data;
    }
    assert raw + [] == raw;
  }

  method WriteWhole(img: Image, w: nat, h: nat, format: Format) returns (raw: seq<byte>)
    requires IsImage(img, w, h, format) && w > 0 && h > 0 && AllRegular(WHOLE)
    ensures raw == RawData(img, w, h, format, WHOLE)
  {
    var lines: seq<seq<byte>> := [];
    for y := 0 to h
      invariant |lines| == y
      invariant forall k | 0 <= k < y :: lines[k] == Packed(img[k], format)
    {
      hide Packed, IsRow;
      var line := PackRow(img[y], format);
      lines := lines + [line];
    }
    ghost var p := WHOLE[0];
    WholeRow(img, w, h, format, 0);
    forall k | 0 <= k < h
      ensures lines[k] == PassLines(img, w, h, format, p)[k]
    {
      WholeRow(img, w, h, format, k);
    }
    assert lines == PassLines(img, w, h, format, p);
    LinesShape(img, w, h, format, p);
    SameBpp(format);
    raw := FilterLines(lines, format.WriterBpp());
    assert RawData(img, w, h, format, WHOLE[1..]) == [] && raw + [] == raw;
  }

  /** The image data before compression. */
  method WriteData(img: Image, w: nat, h: nat, format: Format, interlace: bool) returns (raw: seq<byte>)
    requires IsImage(img, w, h, format) && w > 0 && h > 0
    ensures AllRegular(Passes(interlace)) && raw == RawData(img, w, h, format, Passes(interlace))
  {
    PassesCover(interlace, 0, 0);
    hide IsImage, RawData, AllRegular;
    if interlace {
      raw := WriteInterlaced(img, w, h, format);
    } else {
      raw := WriteWhole(img, w, h, format);
    }
  }
}
