/** A PNG file as chunks (section 3.2 of RFC 2083): the writer's file, and the reader that gets the image back from it.
    Compression and the chunk check are functions given to both. */
module PngFile {
  import opened Common
  import opened PngRows
  import opened Adam7

  datatype Chunk = Chunk(kind: seq<byte>, data: seq<byte>)

  predicate IsChunk(c: Chunk) { |c.kind| == 4 && |c.data| < 0x1_0000_0000 }

  const IHDR: seq<byte> := [73, 72, 68, 82]
  const PLTE: seq<byte> := [80, 76, 84, 69]
  const TRNS: seq<byte> := [116, 82, 78, 83]
  const IDAT: seq<byte> := [73, 68, 65, 84]
  const IEND: seq<byte> := [73, 69, 78, 68]

  const SIGNATURE: seq<byte> := [0x89, 80, 78, 71, 13, 10, 26, 10]

  lemma Digits256(n: nat)
    ensures n == 0x100_0000 * (n / 256 / 256 / 256) + 0x1_0000 * (n / 256 / 256 % 256) + 0x100 * (n / 256 % 256)
            + n % 256
  {
    var a: nat := n / 256;
    var b: nat := a / 256;
    assert n == a * 256 + n % 256 && a == b * 256 + a % 256 && b == b / 256 * 256 + b % 256;
  }

  function Big32(n: u32): (b: seq<byte>)
    ensures |b| == 4 && 0x100_0000 * (b[0] as int) + 0x1_0000 * (b[1] as int) + 0x100 * (b[2] as int) + (b[3] as int)
            == n
  {
    Digits256(n);
    [n / 256 / 256 / 256, n / 256 / 256 % 256, n / 256 % 256, n % 256]
  }

  function FromBig32(b: seq<byte>): u32
    requires |b| >= 4
  {
    var high: int := b[0];
    ((high * 256 + b[1]) * 256 + b[2]) * 256 + b[3]
  }

  lemma Big32Back(n: u32, rest: seq<byte>)
    ensures FromBig32(Big32(n) + rest) == n
  {
    var a: int := n / 256;
    var b: int := a / 256;
    assert n == a * 256 + n % 256 && a == b * 256 + a % 256 && b == b / 256 * 256 + b % 256;
  }

  function Frame(c: Chunk, crc: seq<byte> -> u32): seq<byte>
    requires IsChunk(c)
  {
    Big32(|c.data|) + c.kind + c.data + Big32(crc(c.kind + c.data))
  }

  predicate AreChunks(chunks: seq<Chunk>) { forall k | 0 <= k < |chunks| :: IsChunk(chunks[k]) }

  function Frames(chunks: seq<Chunk>, crc: seq<byte> -> u32): seq<byte>
    requires AreChunks(chunks)
  {
    if chunks == [] then [] else Frame(chunks[0], crc) + Frames(chunks[1..], crc)
  }

  // ----- the image data in parts -----

  function Cut(z: seq<byte>, parts: nat, i: nat): (at: nat)
    requires i <= parts && parts > 0
    ensures at <= |z|
  {
    CutInside(|z|, parts, i);
    i * |z| / parts
  }

  lemma CutInside(n: nat, parts: nat, i: nat)
    requires i <= parts && parts > 0
    ensures 0 <= i * n / parts <= n
  {
    assert i * n <= parts * n;
    DividedUp(i * n, parts * n, parts);
    Whole(n, parts);
  }

  lemma SmallerQuotient(q: int, r: int, m: nat, n: nat, d: nat)
    requires m < d && n < d && d * q + m <= d * r + n
    ensures q <= r
  {
    if q > r {
      TimesUp(1, q - r, d);
      assert false;
    }
  }

  lemma DividedUp(a: nat, b: nat, d: nat)
    requires a <= b && d > 0
    ensures a / d <= b / d
  {
    SmallerQuotient(a / d, b / d, a % d, b % d, d);
  }

  lemma Whole(n: nat, parts: nat)
    requires parts > 0
    ensures parts * n / parts == n
  {
    var q, r := parts * n / parts, parts * n % parts;
    SmallerQuotient(q, n, r, 0, parts);
    SmallerQuotient(n, q, 0, r, parts);
  }

  lemma CutsUp(z: seq<byte>, parts: nat, i: nat)
    requires i < parts
    ensures Cut(z, parts, i) <= Cut(z, parts, i + 1)
  {
    assert i * |z| <= (i + 1) * |z|;
    DividedUp(i * |z|, (i + 1) * |z|, parts);
  }

  function Part(z: seq<byte>, parts: nat, i: nat): (part: seq<byte>)
    requires i < parts
    ensures |part| <= |z|
  {
    CutsUp(z, parts, i);
    z[Cut(z, parts, i)..Cut(z, parts, i + 1)]
  }

  /** The first `n` of the parts. */
  function Parts(z: seq<byte>, parts: nat, n: nat): (r: seq<seq<byte>>)
    requires n <= parts
    ensures |r| == n
  {
    seq(n, i requires 0 <= i < n => Part(z, parts, i))
  }

  function Joined(parts: seq<seq<byte>>): seq<byte> {
    if parts == [] then [] else Joined(parts[..|parts| - 1]) + parts[|parts| - 1]
  }

  /** The first `n` parts in a row are the stream up to the `n`-th cut; all of them are the stream. */
  lemma {:induction false} PartsJoin(z: seq<byte>, parts: nat, n: nat)
    requires n <= parts && parts > 0
    ensures Joined(Parts(z, parts, n)) == z[..Cut(z, parts, n)]
    ensures n == parts ==> Joined(Parts(z, parts, n)) == z
  {
    if n > 0 {
      PartsJoin(z, parts, n - 1);
      assert Parts(z, parts, n)[..n - 1] == Parts(z, parts, n - 1);
      CutsUp(z, parts, n - 1);
      assert z[..Cut(z, parts, n - 1)] + Part(z, parts, n - 1) == z[..Cut(z, parts, n)];
    }
    if n == parts {
      Whole(|z|, parts);
    }
  }

  // ----- the reader -----

  datatype Header = Header(w: nat, h: nat, format: Format, interlace: bool)

  /** What the reader has taken from the chunks so far. */
  datatype Reader = Reader(header: Option<Header>, palette: seq<byte>, idat: seq<byte>, ended: bool)
  {
    ghost predicate Valid() {
      |palette| % 3 == 0 && (header.Some? ==> header.value.w > 0 && header.value.h > 0 && header.value.format.Legal())
    }
  }

  const START := Reader(None, [], [], false)

  function ReadHeader(data: seq<byte>, maxPixels: nat): (r: Result<Header>)
    ensures r.Ok? ==> r.value.w > 0 && r.value.h > 0 && r.value.format.Legal()
  {
    if |data| != 13 then Err("png: a malformed IHDR") else
      var w, h, format := FromBig32(data), FromBig32(data[4..]), Format(data[9], data[8]);
      if w == 0 || h == 0 || w > 0x7fff_ffff || h > 0x7fff_ffff then Err("png: an invalid image size")
      else if data[10] != 0 || data[11] != 0 || data[12] > 1
          then Err("png: an unknown compression, filter or interlace method")
      else if format.depth == 16 then Err("png: 16-bit samples are not supported")
      else if !format.Legal() then Err("png: an invalid color type and bit depth")
      else if w * h > maxPixels then Err("png: the image has more pixels than the limit")
      else Ok(Header(w, h, format, data[12] == 1))
  }

  /** One chunk taken in. */
  function Take(r: Reader, c: Chunk, maxPixels: nat): (next: Result<Reader>)
    ensures next.Ok? ==> next.value.header.Some?
    ensures next.Ok? && r.Valid() ==> next.value.Valid()
  {
    if r.header.None? && c.kind != IHDR then Err("png: the first chunk is not IHDR")
    else if c.kind == IHDR then
      if r.header.Some? then Err("png: a malformed IHDR")
      else
        match ReadHeader(c.data, maxPixels)
        case Ok(header) => Ok(r.(header := Some(header)))
        case Err(message) => Err(message)
    else if c.kind == PLTE then
      if |c.data| % 3 != 0 || |c.data| == 0 || |c.data| > 768 then Err("png: a malformed PLTE")
          else Ok(r.(palette := c.data))
    else if c.kind == IDAT then Ok(r.(idat := r.idat + c.data))
    else if c.kind == IEND then Ok(r.(ended := true))
    else Ok(r)
  }

  function ReadChunk(bytes: seq<byte>, crc: seq<byte> -> u32): (r: Result<(Chunk, seq<byte>)>)
    ensures r.Ok? ==> |r.value.1| < |bytes|
  {
    if |bytes| < 12 then Err("png: the file ends inside a chunk") else
      var len := FromBig32(bytes);
      if len > |bytes| - 12 then Err("png: a chunk runs past the end of the file")
      else if crc(bytes[4..8 + len]) != FromBig32(bytes[8 + len..]) then Err("png: a chunk's CRC fails")
      else Ok((Chunk(bytes[4..8], bytes[8..8 + len]), bytes[len + 12..]))
  }

  /** The chunks up to the end chunk; what follows it is not read. */
  function ReadChunks(bytes: seq<byte>, r: Reader, maxPixels: nat, crc: seq<byte> -> u32): (last: Result<Reader>)
    ensures last.Ok? && r.Valid() ==> last.value.Valid()
    ensures last.Ok? && (r.header.Some? || !r.ended) ==> last.value.header.Some?
    decreases |bytes|
  {
    if r.ended then Ok(r) else
      match ReadChunk(bytes, crc)
      case Err(message) => Err(message)
      case Ok((c, rest)) =>
        match Take(r, c, maxPixels)
        case Err(message) => Err(message)
        case Ok(next) => ReadChunks(rest, next, maxPixels, crc)
  }

  /** What the reader has before it converts the samples: the header, the samples and the palette. */
  datatype Opened = Opened(header: Header, samples: Image, palette: seq<byte>)

  function Blank(w: nat, h: nat): (img: Image)
    ensures Sized(img, w, h)
  {
    seq(h, y => seq(w, x => []))
  }

  function Samples(header: Header, idat: seq<byte>, inflate: (seq<byte>, nat) -> Result<seq<byte>>): Result<Image>
    requires header.format.Legal()
  {
    var Header(w, h, format, interlace) := header;
    PassesCover(interlace, 0, 0);
    var expected := Expected(w, h, format, Passes(interlace));
    match inflate(idat, expected)
    case Err(message) => Err(message)
    case Ok(raw) =>
      if |raw| != expected then Err("png: the image data is shorter than the image")
      else ReadPasses(raw, Blank(w, h), w, h, format, Passes(interlace))
  }

  function Open(bytes: seq<byte>, maxPixels: nat, crc: seq<byte> -> u32,
                inflate: (seq<byte>, nat) -> Result<seq<byte>>): Result<Opened> {
    if |bytes| < 8 || bytes[..8] != SIGNATURE then Err("png: not a PNG file") else
      match ReadChunks(bytes[8..], START, maxPixels, crc)
      case Err(message) => Err(message)
      case Ok(r) =>
        var header := r.header.value;
        if header.format.color == 3 && r.palette == [] then Err("png: a palette image without a PLTE")
        else if r.idat == [] then Err("png: no image data")
        else
          match Samples(header, r.idat, inflate)
          case Err(message) => Err(message)
          case Ok(samples) => Ok(Opened(header, samples, r.palette))
  }

  // ----- the writer -----

  /** What a file is written from, apart from the samples. The caller's own chunks may be of any kind. */
  datatype Options = Options(palette: Option<seq<byte>>, trns: Option<seq<byte>>, before: seq<Chunk>,
      after: seq<Chunk>, parts: nat)
  {
    /** Every chunk has a length its four bytes hold. */
    predicate Fits(z: seq<byte>) {
      && (palette.Some? ==> |palette.value| < 0x1_0000_0000)
      && (trns.Some? ==> |trns.value| < 0x1_0000_0000)
      && AreChunks(before) && AreChunks(after)
      && forall i | 0 <= i < parts :: |Part(z, parts, i)| < 0x1_0000_0000
    }
  }

  predicate IsHeader(header: Header) {
    0 < header.w < 0x1_0000_0000 && 0 < header.h < 0x1_0000_0000 && header.format.Legal()
  }

  function HeaderChunk(header: Header): (c: Chunk)
    requires IsHeader(header)
    ensures IsChunk(c)
  {
    Chunk(IHDR, Big32(header.w) + Big32(header.h)
                + [header.format.depth, header.format.color, 0, 0, if header.interlace then 1 else 0])
  }

  function DataChunks(z: seq<byte>, parts: nat): (chunks: seq<Chunk>)
    ensures |chunks| == parts && forall i | 0 <= i < parts :: chunks[i] == Chunk(IDAT, Part(z, parts, i))
  {
    seq(parts, i requires 0 <= i < parts => Chunk(IDAT, Part(z, parts, i)))
  }

  /** The optional chunks between the header and the image data. */
  function Middle(options: Options): seq<Chunk> {
    options.before + Palettes(options) + Transparencies(options)
  }

  function Palettes(options: Options): seq<Chunk> {
    if options.palette.Some? then [Chunk(PLTE, options.palette.value)] else []
  }

  function Transparencies(options: Options): seq<Chunk> {
    if options.trns.Some? then [Chunk(TRNS, options.trns.value)] else []
  }

  /** Everything between the header and the end chunk. */
  function Body(options: Options, z: seq<byte>): seq<Chunk> {
    Middle(options) + DataChunks(z, options.parts) + options.after
  }

  function AllChunks(header: Header, options: Options, z: seq<byte>): (chunks: seq<Chunk>)
    requires IsHeader(header) && options.Fits(z)
    ensures AreChunks(chunks)
  {
    [HeaderChunk(header)] + Body(options, z) + [Chunk(IEND, [])]
  }

  function File(header: Header, options: Options, z: seq<byte>, crc: seq<byte> -> u32): seq<byte>
    requires IsHeader(header) && options.Fits(z)
  {
    SIGNATURE + Frames(AllChunks(header, options, z), crc)
  }

  // ----- reading back -----

  lemma ReadsChunk(c: Chunk, crc: seq<byte> -> u32, rest: seq<byte>)
    requires IsChunk(c)
    ensures ReadChunk(Frame(c, crc) + rest, crc) == Ok((c, rest))
  {
    var len, check := Big32(|c.data|), Big32(crc(c.kind + c.data));
    var bytes := Frame(c, crc) + rest;
    assert bytes == len + (c.kind + c.data + check + rest);
    Big32Back(|c.data|, c.kind + c.data + check + rest);
    assert bytes[4..8 + |c.data|] == c.kind + c.data;
    assert bytes[8 + |c.data|..] == check + rest;
    Big32Back(crc(c.kind + c.data), rest);
    assert bytes[4..8] == c.kind && bytes[8..8 + |c.data|] == c.data && bytes[12 + |c.data|..] == rest;
  }

  /** The chunks taken in one after another, up to the end chunk. */
  function TakeAll(r: Reader, chunks: seq<Chunk>, maxPixels: nat): Result<Reader>
    decreases |chunks|
  {
    if r.ended || chunks == [] then Ok(r) else
      match Take(r, chunks[0], maxPixels)
      case Ok(next) => TakeAll(next, chunks[1..], maxPixels)
      case Err(message) => Err(message)
  }

  lemma {:induction false} ReadsFrames(chunks: seq<Chunk>, r: Reader, maxPixels: nat, crc: seq<byte> -> u32,
                                       tail: seq<byte>)
    requires AreChunks(chunks)
    requires TakeAll(r, chunks, maxPixels).Ok? ==> TakeAll(r, chunks, maxPixels).value.ended
    ensures ReadChunks(Frames(chunks, crc) + tail, r, maxPixels, crc) == TakeAll(r, chunks, maxPixels)
    decreases |chunks|
  {
    hide Take, Frame, ReadChunk;
    if !r.ended && chunks != [] {
      var rest := Frames(chunks[1..], crc) + tail;
      assert Frames(chunks, crc) + tail == Frame(chunks[0], crc) + rest;
      ReadsChunk(chunks[0], crc, rest);
      var next := Take(r, chunks[0], maxPixels);
      if next.Ok? {
        ReadsFrames(chunks[1..], next.value, maxPixels, crc, tail);
      }
    }
  }

  // ----- what the chunks after the header come to -----

  /** The chunks before the first end chunk. */
  function UpToEnd(chunks: seq<Chunk>): seq<Chunk> {
    if chunks == [] || chunks[0].kind == IEND then [] else [chunks[0]] + UpToEnd(chunks[1..])
  }

  /** A palette of one to 256 colors. */
  predicate IsPalette(data: seq<byte>) { |data| % 3 == 0 && 0 < |data| <= 768 }

  /** No second header and no malformed palette. */
  predicate Sound(chunks: seq<Chunk>) {
    forall k | 0 <= k < |chunks| :: chunks[k].kind != IHDR && (chunks[k].kind == PLTE ==> IsPalette(chunks[k].data))
  }

  /** The last palette of the chunks, or the one there was. */
  function PaletteOf(chunks: seq<Chunk>, palette: seq<byte>): seq<byte> {
    if chunks == [] then palette
    else PaletteOf(chunks[1..], if chunks[0].kind == PLTE then chunks[0].data else palette)
  }

  /** The image data of the chunks in a row. */
  function DataOf(chunks: seq<Chunk>): seq<byte> {
    if chunks == [] then [] else (if chunks[0].kind == IDAT then chunks[0].data else []) + DataOf(chunks[1..])
  }

  /** The reader refuses the chunks exactly where those before the first end chunk are not sound, and otherwise has
      their last palette and all their image data. */
  lemma {:induction false} TakesChunks(r: Reader, chunks: seq<Chunk>, maxPixels: nat)
    requires r.header.Some? && !r.ended
    ensures var all := TakeAll(r, chunks + [Chunk(IEND, [])], maxPixels);
            && (all.Ok? <==> Sound(UpToEnd(chunks)))
            && (all.Ok? ==> all.value == Reader(r.header, PaletteOf(UpToEnd(chunks), r.palette),
                r.idat + DataOf(UpToEnd(chunks)), true))
    decreases |chunks|
  {
    var more := chunks + [Chunk(IEND, [])];
    if chunks == [] || chunks[0].kind == IEND {
      TakeEnd(r, more[0], maxPixels);
      hide Take;
      assert r.idat + [] == r.idat;
    } else {
      var c, rest := chunks[0], UpToEnd(chunks[1..]);
      assert more[0] == c && more[1..] == chunks[1..] + [Chunk(IEND, [])];
      assert UpToEnd(chunks) == [c] + rest && ([c] + rest)[1..] == rest;
      TakeNext(r, c, maxPixels);
      SoundFirst(c, rest);
      hide Take, Sound, UpToEnd;
      var next := Take(r, c, maxPixels);
      if next.Ok? {
        TakesChunks(next.value, chunks[1..], maxPixels);
        assert next.value.idat + DataOf(rest) == r.idat + DataOf([c] + rest);
      }
    }
  }

  lemma TakeEnd(r: Reader, c: Chunk, maxPixels: nat)
    requires r.header.Some? && c.kind == IEND
    ensures Take(r, c, maxPixels) == Ok(r.(ended := true))
  {
  }

  lemma TakeNext(r: Reader, c: Chunk, maxPixels: nat)
    requires r.header.Some? && c.kind != IEND
    ensures Take(r, c, maxPixels).Ok? <==> c.kind != IHDR && (c.kind == PLTE ==> IsPalette(c.data))
    ensures Take(r, c, maxPixels).Ok? ==>
              Take(r, c, maxPixels).value == r.(palette := if c.kind == PLTE then c.data else r.palette,
                                                idat := r.idat + if c.kind == IDAT then c.data else [])
  {
    assert r.idat + [] == r.idat;
  }

  lemma SoundFirst(c: Chunk, rest: seq<Chunk>)
    ensures Sound([c] + rest) <==> c.kind != IHDR && (c.kind == PLTE ==> IsPalette(c.data)) && Sound(rest)
  {
    if Sound([c] + rest) {
      assert ([c] + rest)[0] == c;
      forall k | 0 <= k < |rest|
        ensures rest[k].kind != IHDR && (rest[k].kind == PLTE ==> IsPalette(rest[k].data))
      {
        assert ([c] + rest)[k + 1] == rest[k];
      }
    }
  }

  lemma HeaderBack(header: Header, maxPixels: nat)
    requires IsHeader(header)
    ensures ReadHeader(HeaderChunk(header).data, maxPixels).Ok? <==> InLimits(header, maxPixels)
    ensures InLimits(header, maxPixels) ==> ReadHeader(HeaderChunk(header).data, maxPixels) == Ok(header)
  {
    var data := HeaderChunk(header).data;
    var more := [header.format.depth, header.format.color, 0, 0, if header.interlace then 1 else 0];
    assert data == Big32(header.w) + (Big32(header.h) + more);
    Big32Back(header.w, Big32(header.h) + more);
    assert data[4..] == Big32(header.h) + more;
    Big32Back(header.h, more);
  }

  /** The reader's limits on an image's size. */
  predicate InLimits(header: Header, maxPixels: nat) {
    header.w <= 0x7fff_ffff && header.h <= 0x7fff_ffff && header.w * header.h <= maxPixels
  }

  /** What the reader has after the file's chunks. */
  lemma TakesFile(header: Header, options: Options, z: seq<byte>, maxPixels: nat)
    requires IsHeader(header) && options.Fits(z)
    ensures var all, body := TakeAll(START, AllChunks(header, options, z), maxPixels), UpToEnd(Body(options, z));
            && (all.Ok? <==> InLimits(header, maxPixels) && Sound(body))
            && (all.Ok? ==> all.value == Reader(Some(header), PaletteOf(body, []), DataOf(body), true))
  {
    var first, rest := HeaderChunk(header), Body(options, z) + [Chunk(IEND, [])];
    assert AllChunks(header, options, z) == [first] + rest && ([first] + rest)[1..] == rest;
    HeaderBack(header, maxPixels);
    hide ReadHeader, HeaderChunk, Body, InLimits;
    if InLimits(header, maxPixels) {
      var r := Reader(Some(header), [], [], false);
      assert Take(START, first, maxPixels) == Ok(r);
      hide Take;
      TakesChunks(r, Body(options, z), maxPixels);
      assert r.idat + DataOf(UpToEnd(Body(options, z))) == DataOf(UpToEnd(Body(options, z)));
    }
  }

  // ----- opening a written file -----

  /** Opening any written file, whatever chunks the caller adds: it opens exactly where the size is within the limits,
      the chunks before the first end chunk are sound, there is image data that inflates to an image of the size, and
      a palette image has a palette. */
  lemma OpensAny(header: Header, options: Options, z: seq<byte>, maxPixels: nat, crc: seq<byte> -> u32,
                 inflate: (seq<byte>, nat) -> Result<seq<byte>>, tail: seq<byte>)
    requires IsHeader(header) && options.Fits(z)
    ensures var r := Open(File(header, options, z, crc) + tail, maxPixels, crc, inflate);
            var body := UpToEnd(Body(options, z));
            var palette, idat := PaletteOf(body, []), DataOf(body);
            && (r.Ok? <==> && InLimits(header, maxPixels) && Sound(body) && (header.format.color == 3 ==> palette != [])
                           && idat != [] && Samples(header, idat, inflate).Ok?)
            && (r.Ok? ==> r.value == Opened(header, Samples(header, idat, inflate).value, palette))
  {
    var chunks := AllChunks(header, options, z);
    var file := Frames(chunks, crc) + tail;
    assert File(header, options, z, crc) + tail == SIGNATURE + file;
    TakesFile(header, options, z, maxPixels);
    ReadsFrames(chunks, START, maxPixels, crc, tail);
    hide ReadChunks, Samples, TakeAll, Frames, AllChunks, Body, UpToEnd, PaletteOf, DataOf, Sound, InLimits, File;
    Signed(file);
  }

  lemma Signed(file: seq<byte>)
    ensures |SIGNATURE + file| >= 8 && (SIGNATURE + file)[..8] == SIGNATURE && (SIGNATURE + file)[8..] == file
  {
  }

  /** The caller's own chunks are none of those that hold the image. */
  predicate ArePlain(chunks: seq<Chunk>) {
    forall k | 0 <= k < |chunks| :: IsPlain(chunks[k])
  }

  predicate IsPlain(c: Chunk) { c.kind != IHDR && c.kind != PLTE && c.kind != IDAT && c.kind != IEND }

  lemma {:induction false} NoEnd(chunks: seq<Chunk>)
    requires forall k | 0 <= k < |chunks| :: chunks[k].kind != IEND
    ensures UpToEnd(chunks) == chunks
  {
    if chunks != [] {
      NoEnd(chunks[1..]);
      assert chunks == [chunks[0]] + chunks[1..];
    }
  }

  lemma {:induction false} PaletteOfParts(a: seq<Chunk>, b: seq<Chunk>, palette: seq<byte>)
    ensures PaletteOf(a + b, palette) == PaletteOf(b, PaletteOf(a, palette))
  {
    if a == [] {
      assert a + b == b;
    } else {
      assert (a + b)[1..] == a[1..] + b && (a + b)[0] == a[0];
      PaletteOfParts(a[1..], b, if a[0].kind == PLTE then a[0].data else palette);
    }
  }

  lemma {:induction false} DataOfParts(a: seq<Chunk>, b: seq<Chunk>)
    ensures DataOf(a + b) == DataOf(a) + DataOf(b)
  {
    if a == [] {
      assert a + b == b;
    } else {
      assert (a + b)[1..] == a[1..] + b && (a + b)[0] == a[0];
      DataOfParts(a[1..], b);
      var first := if a[0].kind == IDAT then a[0].data else [];
      assert first + (DataOf(a[1..]) + DataOf(b)) == first + DataOf(a[1..]) + DataOf(b);
    }
  }

  lemma PartsOf(a: seq<Chunk>, b: seq<Chunk>, palette: seq<byte>)
    ensures PaletteOf(a + b, palette) == PaletteOf(b, PaletteOf(a, palette))
    ensures DataOf(a) == [] ==> DataOf(a + b) == DataOf(b)
    ensures DataOf(b) == [] ==> DataOf(a + b) == DataOf(a)
  {
    hide PaletteOf, DataOf;
    PaletteOfParts(a, b, palette);
    DataOfParts(a, b);
  }

  lemma {:induction false} PlainHasNone(chunks: seq<Chunk>, palette: seq<byte>)
    requires ArePlain(chunks)
    ensures PaletteOf(chunks, palette) == palette && DataOf(chunks) == []
  {
    if chunks != [] {
      PlainHasNone(chunks[1..], palette);
    }
  }

  lemma {:induction false} DataBack(z: seq<byte>, parts: nat, n: nat, palette: seq<byte>)
    requires n <= parts
    ensures DataOf(DataChunks(z, parts)[..n]) == Joined(Parts(z, parts, n))
    ensures PaletteOf(DataChunks(z, parts)[..n], palette) == palette
  {
    if n > 0 {
      var chunks := DataChunks(z, parts);
      DataBack(z, parts, n - 1, palette);
      assert chunks[..n] == chunks[..n - 1] + [chunks[n - 1]];
      assert Parts(z, parts, n)[..n - 1] == Parts(z, parts, n - 1);
      PaletteOfParts(chunks[..n - 1], [chunks[n - 1]], palette);
      DataOfParts(chunks[..n - 1], [chunks[n - 1]]);
      hide Part;
      assert DataOf([chunks[n - 1]]) == Part(z, parts, n - 1);
    }
  }

  lemma AllDataBack(z: seq<byte>, parts: nat, palette: seq<byte>)
    ensures DataOf(DataChunks(z, parts)) == if parts > 0 then z else []
    ensures PaletteOf(DataChunks(z, parts), palette) == palette
  {
    DataBack(z, parts, parts, palette);
    assert DataChunks(z, parts)[..parts] == DataChunks(z, parts);
    if parts > 0 {
      PartsJoin(z, parts, parts);
    }
  }

  /** With plain chunks of the caller's, the chunks hold the palette given and the whole stream. */
  lemma PlainBody(options: Options, z: seq<byte>)
    requires ArePlain(options.before) && ArePlain(options.after)
    ensures UpToEnd(Body(options, z)) == Body(options, z)
    ensures Sound(Body(options, z)) <==> (options.palette.Some? ==> IsPalette(options.palette.value))
    ensures PaletteOf(Body(options, z), []) == if options.palette.Some? then options.palette.value else []
    ensures DataOf(Body(options, z)) == if options.parts > 0 then z else []
  {
    PlainMembers(options, z);
    NoEnd(Body(options, z));
    PlainParts(options, z);
  }

  lemma PlainMembers(options: Options, z: seq<byte>)
    requires ArePlain(options.before) && ArePlain(options.after)
    ensures forall k | 0 <= k < |Body(options, z)| :: Body(options, z)[k].kind != IEND
    ensures Sound(Body(options, z)) <==> (options.palette.Some? ==> IsPalette(options.palette.value))
  {
    var body, n := Body(options, z), |options.before|;
    forall k | 0 <= k < |body|
      ensures IsPlain(body[k]) || body[k].kind == IDAT || (options.palette.Some? && k == n
              && body[k] == Palettes(options)[0])
    {
      var data := DataChunks(z, options.parts);
      var m := |Middle(options)|;
      if k < n {
        assert body[k] == options.before[k];
      } else if m <= k < m + |data| {
        assert body[k] == data[k - m];
      } else if k >= m + |data| {
        assert body[k] == options.after[k - m - |data|];
      }
    }
    if options.palette.Some? {
      assert body[n] == Palettes(options)[0];
    }
  }

  lemma OneChunk(c: Chunk, palette: seq<byte>)
    ensures PaletteOf([c], palette) == if c.kind == PLTE then c.data else palette
    ensures DataOf([c]) == if c.kind == IDAT then c.data else []
  {
    assert [c][1..] == [];
    assert c.data + [] == c.data;
  }

  lemma OwnChunks(options: Options, palette: seq<byte>)
    requires options.palette == if options.palette.Some? then Some(palette) else None
    ensures options.palette.Some? ==> PaletteOf(Palettes(options), []) == palette
    ensures options.palette.None? ==> PaletteOf(Palettes(options), []) == []
    ensures PaletteOf(Transparencies(options), palette) == palette
    ensures DataOf(Palettes(options)) == DataOf(Transparencies(options)) == []
  {
    assert PLTE[0] == 80 && IDAT[0] == 73 && TRNS[0] == 116;
    if options.palette.Some? {
      OneChunk(Palettes(options)[0], []);
    }
    if options.trns.Some? {
      OneChunk(Transparencies(options)[0], palette);
    }
  }

  lemma PlainParts(options: Options, z: seq<byte>)
    requires ArePlain(options.before) && ArePlain(options.after)
    ensures PaletteOf(Body(options, z), []) == if options.palette.Some? then options.palette.value else []
    ensures DataOf(Body(options, z)) == if options.parts > 0 then z else []
  {
    var palette := if options.palette.Some? then options.palette.value else [];
    var data := DataChunks(z, options.parts);
    PlainHasNone(options.before, []);
    PlainHasNone(options.after, palette);
    AllDataBack(z, options.parts, palette);
    OwnChunks(options, palette);
    assert Body(options, z) == options.before + Palettes(options) + Transparencies(options) + data + options.after;
    hide *;
    FiveParts(options.before, Palettes(options), Transparencies(options), data, options.after, palette);
  }

  lemma FiveParts(before: seq<Chunk>, plte: seq<Chunk>, trns: seq<Chunk>, data: seq<Chunk>, after: seq<Chunk>,
                  palette: seq<byte>)
    requires DataOf(before) == DataOf(plte) == DataOf(trns) == DataOf(after) == []
    requires PaletteOf(before, []) == [] && PaletteOf(plte, []) == palette && PaletteOf(trns, palette) == palette
    requires PaletteOf(data, palette) == palette && PaletteOf(after, palette) == palette
    ensures DataOf(before + plte + trns + data + after) == DataOf(data)
    ensures PaletteOf(before + plte + trns + data + after, []) == palette
  {
    hide *;
    PartsOf(before, plte, []);
    PartsOf(before + plte, trns, []);
    PartsOf(before + plte + trns, data, []);
    PartsOf(before + plte + trns + data, after, []);
  }

  lemma SamplesBack(header: Header, img: Image, z: seq<byte>, inflate: (seq<byte>, nat) -> Result<seq<byte>>)
    requires IsHeader(header) && IsImage(img, header.w, header.h, header.format) && Inflates(header, img, z, inflate)
    ensures Samples(header, z, inflate) == Ok(img)
  {
    hide RawData, ReadPasses, Expected, Blank, Passes, IsImage;
    ReadsImage(img, Blank(header.w, header.h), header.w, header.h, header.format, header.interlace);
  }

  /** The data of the image before compression. */
  function Raw(header: Header, img: Image): seq<byte>
    requires IsImage(img, header.w, header.h, header.format)
  {
    RawData(img, header.w, header.h, header.format, Passes(header.interlace))
  }

  /** The stream inflates to the image's data. */
  predicate Inflates(header: Header, img: Image, z: seq<byte>, inflate: (seq<byte>, nat) -> Result<seq<byte>>)
    requires IsImage(img, header.w, header.h, header.format)
  {
    z != [] && inflate(z, |Raw(header, img)|) == Ok(Raw(header, img))
  }

  /** The reader opens the file with the header, the samples and the palette it was written from, exactly where the
      size is within the limits, the image data is in at least one part, and a palette is of one to 256 colors and
      there for a palette image. */
  lemma OpensFile(header: Header, img: Image, options: Options, z: seq<byte>, maxPixels: nat, crc: seq<byte> -> u32,
                  inflate: (seq<byte>, nat) -> Result<seq<byte>>, tail: seq<byte>)
    requires IsHeader(header) && IsImage(img, header.w, header.h, header.format) && Inflates(header, img, z, inflate)
    requires options.Fits(z) && ArePlain(options.before) && ArePlain(options.after)
    ensures var r := Open(File(header, options, z, crc) + tail, maxPixels, crc, inflate);
            && (r.Ok? <==> && InLimits(header, maxPixels) && options.parts > 0
                           && (options.palette.Some? ==> IsPalette(options.palette.value))
                           && (header.format.color == 3 ==> options.palette.Some?))
            && (r.Ok? ==> r.value == Opened(header, img, if options.palette.Some? then options.palette.value else []))
  {
    OpensAny(header, options, z, maxPixels, crc, inflate, tail);
    PlainBody(options, z);
    SamplesBack(header, img, z, inflate);
    hide Open, File, Body, UpToEnd, PaletteOf, DataOf, Sound, InLimits, Samples, Raw, ArePlain, IsImage;
  }

  /** What the writer writes. */
  function Written(header: Header, img: Image, options: Options, compress: seq<byte> -> seq<byte>,
                   crc: seq<byte> -> u32): seq<byte>
    requires IsHeader(header) && IsImage(img, header.w, header.h, header.format)
    requires options.Fits(compress(Raw(header, img)))
  {
    File(header, options, compress(Raw(header, img)), crc)
  }

  /** The round trip: with a compression that inflation undoes on this image's data, the written file opens to its
      header, samples and palette, under OpensFile's condition. */
  lemma WrittenOpens(header: Header, img: Image, options: Options, maxPixels: nat, crc: seq<byte> -> u32,
                     compress: seq<byte> -> seq<byte>, inflate: (seq<byte>, nat) -> Result<seq<byte>>, tail: seq<byte>)
    requires IsHeader(header) && IsImage(img, header.w, header.h, header.format)
    requires Inflates(header, img, compress(Raw(header, img)), inflate) && options.Fits(compress(Raw(header, img)))
    requires ArePlain(options.before) && ArePlain(options.after)
    ensures var r := Open(Written(header, img, options, compress, crc) + tail, maxPixels, crc, inflate);
            && (r.Ok? <==> && InLimits(header, maxPixels) && options.parts > 0
                           && (options.palette.Some? ==> IsPalette(options.palette.value))
                           && (header.format.color == 3 ==> options.palette.Some?))
            && (r.Ok? ==> r.value == Opened(header, img, if options.palette.Some? then options.palette.value else []))
  {
    OpensFile(header, img, options, compress(Raw(header, img)), maxPixels, crc, inflate, tail);
  }

  // ----- the chunks of a written file, one by one -----

  /** A frame is the length of the data, the kind, the data, and the check of kind and data, each number of four bytes
      with the highest first. */
  lemma FrameIs(c: Chunk, crc: seq<byte> -> u32)
    requires IsChunk(c)
    ensures var f, n := Frame(c, crc), |c.data|;
            && |f| == n + 12
            && 0x100_0000 * (f[0] as int) + 0x1_0000 * (f[1] as int) + 0x100 * (f[2] as int) + (f[3] as int) == n
            && f[4..8] == c.kind && f[8..8 + n] == c.data
            && 0x100_0000 * (f[n + 8] as int) + 0x1_0000 * (f[n + 9] as int) + 0x100 * (f[n + 10] as int)
               + (f[n + 11] as int) == crc(c.kind + c.data)
  {
  }

  /** The chunks of a file to its last byte. */
  function ReadAll(bytes: seq<byte>, crc: seq<byte> -> u32): Result<seq<Chunk>>
    decreases |bytes|
  {
    if bytes == [] then Ok([]) else
      match ReadChunk(bytes, crc)
      case Err(message) => Err(message)
      case Ok((c, rest)) =>
        match ReadAll(rest, crc)
        case Err(message) => Err(message)
        case Ok(chunks) => Ok([c] + chunks)
  }

  lemma {:induction false} ReadsAll(chunks: seq<Chunk>, crc: seq<byte> -> u32)
    requires AreChunks(chunks)
    ensures ReadAll(Frames(chunks, crc), crc) == Ok(chunks)
  {
    if chunks != [] {
      var rest := Frames(chunks[1..], crc);
      ReadsChunk(chunks[0], crc, rest);
      ReadsAll(chunks[1..], crc);
      assert Frames(chunks, crc) == Frame(chunks[0], crc) + rest;
      FrameIs(chunks[0], crc);
      hide Frame, ReadChunk;
      assert chunks == [chunks[0]] + chunks[1..];
    }
  }

  /** The image data in the given number of parts: part `i` is the stream from `i` to `i + 1` of as many equal shares,
      each cut rounded down. */
  ghost predicate InParts(data: seq<Chunk>, z: seq<byte>, parts: nat) {
    |data| == parts && forall i | 0 <= i < parts :: IsPart(data[i], z, parts, i)
  }

  ghost predicate IsPart(c: Chunk, z: seq<byte>, parts: nat, i: nat)
    requires parts > 0
  {
    && c.kind == [73, 68, 65, 84]
    && 0 <= i * |z| / parts <= (i + 1) * |z| / parts <= |z|
    && c.data == z[i * |z| / parts..(i + 1) * |z| / parts]
  }

  /** The 13 bytes of the header: width and height, depth, color type, no other compression and filter methods, and
      whether the image is interlaced. */
  ghost predicate IsHeaderData(data: seq<byte>, header: Header) {
    && |data| == 13
    && 0x100_0000 * (data[0] as int) + 0x1_0000 * (data[1] as int) + 0x100 * (data[2] as int) + (data[3] as int)
        == header.w
    && 0x100_0000 * (data[4] as int) + 0x1_0000 * (data[5] as int) + 0x100 * (data[6] as int) + (data[7] as int)
        == header.h
    && data[8] == header.format.depth && data[9] == header.format.color && data[10] == data[11] == 0
    && data[12] == if header.interlace then 1 else 0
  }

  /** The chunks are the header, the caller's own chunks before, the palette and the transparency where they are given,
      the image data, the caller's own chunks after, and the end. */
  ghost predicate AreOf(chunks: seq<Chunk>, header: Header, options: Options, z: seq<byte>, head: seq<byte>,
                        data: seq<Chunk>) {
    && IsHeaderData(head, header) && InParts(data, z, options.parts)
    && chunks == [Chunk([73, 72, 68, 82], head)]
                 + options.before
                 + (if options.palette.Some? then [Chunk([80, 76, 84, 69], options.palette.value)] else [])
                 + (if options.trns.Some? then [Chunk([116, 82, 78, 83], options.trns.value)] else [])
                 + data
                 + options.after
                 + [Chunk([73, 69, 78, 68], [])]
  }

  /** The file is the signature and then, read chunk by chunk, those. */
  ghost predicate IsFileOf(file: seq<byte>, header: Header, options: Options, z: seq<byte>, crc: seq<byte> -> u32) {
    && |file| >= 8 && file[..8] == [137, 80, 78, 71, 13, 10, 26, 10]
    && ReadAll(file[8..], crc).Ok?
    && exists head, data :: AreOf(ReadAll(file[8..], crc).value, header, options, z, head, data)
  }

  lemma ListedChunks(header: Header, options: Options, z: seq<byte>)
    requires IsHeader(header) && options.Fits(z)
    ensures AreOf(AllChunks(header, options, z), header, options, z, HeaderChunk(header).data,
                  DataChunks(z, options.parts))
  {
    HeaderBytes(header);
    DataInParts(z, options.parts);
    hide IsHeaderData, InParts, DataChunks;
    var first, before, plte, trns, data, after, last := [HeaderChunk(header)], options.before, Palettes(options),
      Transparencies(options), DataChunks(z, options.parts), options.after, [Chunk(IEND, [])];
    assert AllChunks(header, options, z) == first + (before + plte + trns + data + after) + last;
    hide Palettes, Transparencies, HeaderChunk, AllChunks;
    assert first + (before + plte + trns + data + after) + last == first + before + plte + trns + data + after + last;
  }

  lemma FileHasChunks(header: Header, options: Options, z: seq<byte>, crc: seq<byte> -> u32)
    requires IsHeader(header) && options.Fits(z)
    ensures IsFileOf(File(header, options, z, crc), header, options, z, crc)
  {
    var chunks := AllChunks(header, options, z);
    Signed(Frames(chunks, crc));
    ReadsAll(chunks, crc);
    ListedChunks(header, options, z);
    hide ReadAll, Frames, AllChunks, AreOf, HeaderChunk, DataChunks;
  }

  lemma HeaderBytes(header: Header)
    requires IsHeader(header)
    ensures IsHeaderData(HeaderChunk(header).data, header)
  {
  }

  lemma DataInParts(z: seq<byte>, parts: nat)
    ensures InParts(DataChunks(z, parts), z, parts)
  {
    forall i: nat | i < parts
      ensures IsPart(DataChunks(z, parts)[i], z, parts, i)
    {
      CutsUp(z, parts, i);
    }
  }

  // ----- the writer's loops -----

  lemma {:induction false} FramesJoin(a: seq<Chunk>, b: seq<Chunk>, crc: seq<byte> -> u32)
    requires AreChunks(a) && AreChunks(b)
    ensures AreChunks(a + b) && Frames(a + b, crc) == Frames(a, crc) + Frames(b, crc)
  {
    if a == [] {
      assert a + b == b;
    } else {
      FramesJoin(a[1..], b, crc);
      assert (a + b)[1..] == a[1..] + b && (a + b)[0] == a[0];
      assert Frame(a[0], crc) + Frames(a[1..] + b, crc) == Frames(a, crc) + Frames(b, crc);
    }
  }

  method AddChunks(out: seq<byte>, chunks: seq<Chunk>, crc: seq<byte> -> u32) returns (more: seq<byte>)
    requires AreChunks(chunks)
    ensures more == out + Frames(chunks, crc)
  {
    more := out;
    hide Frame;
    for k := 0 to |chunks|
      invariant more + Frames(chunks[k..], crc) == out + Frames(chunks, crc)
    {
      assert chunks[k..][1..] == chunks[k + 1..];
      assert more + Frames(chunks[k..], crc) == more + Frame(chunks[k], crc) + Frames(chunks[k + 1..], crc);
      more := more + Frame(chunks[k], crc);
    }
    assert more + [] == more;
  }

  method SplitData(z: seq<byte>, parts: nat) returns (chunks: seq<Chunk>)
    ensures chunks == DataChunks(z, parts)
  {
    chunks := [];
    for i := 0 to parts
      invariant chunks == DataChunks(z, parts)[..i]
    {
      CutsUp(z, parts, i);
      chunks := chunks + [Chunk(IDAT, z[i * |z| / parts..(i + 1) * |z| / parts])];
    }
  }

  /** The writer: the only bounds are those of a chunk's length field, on this image's own stream. */
  method PngBytes(header: Header, img: Image, options: Options, compress: seq<byte> -> seq<byte>, crc: seq<byte> -> u32)
    returns (out: seq<byte>)
    requires IsHeader(header) && IsImage(img, header.w, header.h, header.format)
    requires options.Fits(compress(Raw(header, img)))
    ensures out == Written(header, img, options, compress, crc)
    ensures IsFileOf(out, header, options, compress(Raw(header, img)), crc)
  {
    FileHasChunks(header, options, compress(Raw(header, img)), crc);
    var raw := WriteData(img, header.w, header.h, header.format, header.interlace);
    var z := compress(raw);
    assert z == compress(Raw(header, img));
    hide IsImage, Raw;
    var data := SplitData(z, options.parts);
    assert AreChunks(data);
    var first, plte, trns, last := [HeaderChunk(header)], Palettes(options), Transparencies(options), [Chunk(IEND, [])];
    assert AllChunks(header, options, z) == first + (options.before + plte + trns + data + options.after) + last;
    hide HeaderChunk, Part, Frames;
    out := AddChunks(SIGNATURE, first, crc);
    out := AddChunks(out, options.before, crc);
    out := AddChunks(out, plte, crc);
    out := AddChunks(out, trns, crc);
    out := AddChunks(out, data, crc);
    out := AddChunks(out, options.after, crc);
    out := AddChunks(out, last, crc);
    JoinFile(first, options.before, plte, trns, data, options.after, last, crc);
  }

  lemma JoinFile(first: seq<Chunk>, before: seq<Chunk>, plte: seq<Chunk>, trns: seq<Chunk>, data: seq<Chunk>,
                 after: seq<Chunk>, last: seq<Chunk>, crc: seq<byte> -> u32)
    requires AreChunks(first) && AreChunks(before) && AreChunks(plte) && AreChunks(trns) && AreChunks(data)
    requires AreChunks(after) && AreChunks(last)
    ensures AreChunks(first + (before + plte + trns + data + after) + last)
    ensures SIGNATURE + Frames(first, crc) + Frames(before, crc) + Frames(plte, crc) + Frames(trns, crc)
            + Frames(data, crc)
            + Frames(after, crc) + Frames(last, crc)
         == SIGNATURE + Frames(first + (before + plte + trns + data + after) + last, crc)
  {
    hide Frames, AreChunks;
    FramesJoin(before, plte, crc);
    FramesJoin(before + plte, trns, crc);
    FramesJoin(before + plte + trns, data, crc);
    FramesJoin(before + plte + trns + data, after, crc);
    FramesJoin(first, before + plte + trns + data + after, crc);
    FramesJoin(first + (before + plte + trns + data + after), last, crc);
  }
}
