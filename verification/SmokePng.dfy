/** The PNG file of the ticket picture: chunk layout, checksum and filter type 0 as in
    sections 3.2, 3.4 and 6.2 of RFC 2083, and a decoder that gives the picture back. */
module SmokePng {
  import opened Sequences
  import opened TicketRaster

  /** zlib, of which only this is used: what was compressed decompresses to itself. */
  datatype Codec = Codec(compress: seq<Byte> -> seq<Byte>, decompress: seq<Byte> -> Option<seq<Byte>>)

  predicate Inverts(codec: Codec, data: seq<Byte>) { codec.decompress(codec.compress(data)) == Some(data) }

  datatype Picture = Picture(width: nat, height: nat, raster: seq<Byte>)

  const WORD := 0x1_0000_0000
  const SIGNATURE: seq<Byte> := [0x89, 0x50, 0x4E, 0x47, 0x0D, 0x0A, 0x1A, 0x0A]
  const IHDR: seq<Byte> := [0x49, 0x48, 0x44, 0x52]
  const IDAT: seq<Byte> := [0x49, 0x44, 0x41, 0x54]
  const IEND: seq<Byte> := [0x49, 0x45, 0x4E, 0x44]

  // ---- Numbers and checksums ----

  function Be32(n: nat): seq<Byte>
    requires n < WORD
  {
    [n / 0x100_0000, n / 0x1_0000 % 0x100, n / 0x100 % 0x100, n % 0x100]
  }

  function FromBe32(s: seq<Byte>): nat
    requires |s| == 4
  {
    (s[0] as int) * 0x100_0000 + (s[1] as int) * 0x1_0000 + (s[2] as int) * 0x100 + s[3]
  }

  lemma Be32RoundTrip(n: nat)
    requires n < WORD
    ensures FromBe32(Be32(n)) == n
  {
    assert n / 0x100 / 0x100 == n / 0x1_0000 && n / 0x1_0000 / 0x100 == n / 0x100_0000;
  }

  function Shift(c: bv32): bv32 { if c & 1 == 1 then (c >> 1) ^ 0xEDB8_8320 else c >> 1 }

  function CrcBits(c: bv32, n: nat): bv32
    decreases n
  {
    if n == 0 then c else CrcBits(Shift(c), n - 1)
  }

  function CrcRegister(data: seq<Byte>): bv32 {
    if data == [] then 0xFFFF_FFFF
    else CrcBits(CrcRegister(data[..|data| - 1]) ^ (data[|data| - 1] as bv32), 8)
  }

  /** The checksum over kind and payload, most significant byte first. */
  function Crc32(data: seq<Byte>): seq<Byte> {
    var c := (CrcRegister(data) ^ 0xFFFF_FFFF) as int;
    Be32(c)
  }

  // ---- Chunks ----

  function Chunk(kind: seq<Byte>, payload: seq<Byte>): seq<Byte>
    requires |payload| < WORD
  {
    Be32(|payload|) + kind + payload + Crc32(kind + payload)
  }

  datatype Read = Read(kind: seq<Byte>, payload: seq<Byte>, rest: seq<Byte>)

  function ReadChunk(s: seq<Byte>): Option<Read> {
    if |s| < 12 then None
    else
      var n := FromBe32(s[..4]);
      if |s| < 12 + n || Crc32(s[4..8 + n]) != s[8 + n..12 + n] then None
      else Some(Read(s[4..8], s[8..8 + n], s[12 + n..]))
  }

  lemma ChunkReads(kind: seq<Byte>, payload: seq<Byte>, rest: seq<Byte>)
    requires |payload| < WORD && |kind| == 4
    ensures ReadChunk(Chunk(kind, payload) + rest) == Some(Read(kind, payload, rest))
  {
    var s, n := Chunk(kind, payload) + rest, |payload|;
    Be32RoundTrip(n);
    assert s[..4] == Be32(n);
    assert s[4..8] == kind && s[8..8 + n] == payload && s[4..8 + n] == kind + payload;
    assert s[8 + n..12 + n] == Crc32(kind + payload) && s[12 + n..] == rest;
  }

  // ---- Rows ----

  /** Every row behind a zero byte: the filter type that leaves a row as it is. */
  function Filtered(raster: seq<Byte>, stride: nat, height: nat): seq<Byte>
    requires |raster| == height * stride
  {
    if height == 0 then []
    else
      assert height * stride == (height - 1) * stride + stride;
      Filtered(raster[..(height - 1) * stride], stride, height - 1) + [0] + raster[(height - 1) * stride..]
  }

  function Unfiltered(data: seq<Byte>, stride: nat, height: nat): Option<seq<Byte>> {
    if height == 0 then if data == [] then Some([]) else None
    else if |data| < stride + 1 || data[|data| - stride - 1] != 0 then None
    else
      match Unfiltered(data[..|data| - stride - 1], stride, height - 1)
      case None => None
      case Some(above) => Some(above + data[|data| - stride..])
  }

  lemma {:induction false} UnfilterFiltered(raster: seq<Byte>, stride: nat, height: nat)
    requires |raster| == height * stride
    ensures Unfiltered(Filtered(raster, stride, height), stride, height) == Some(raster)
  {
    if height > 0 {
      assert height * stride == (height - 1) * stride + stride;
      var above, last := raster[..(height - 1) * stride], raster[(height - 1) * stride..];
      var data := Filtered(raster, stride, height);
      UnfilterFiltered(above, stride, height - 1);
      assert data[..|data| - stride - 1] == Filtered(above, stride, height - 1);
      assert data[|data| - stride..] == last && data[|data| - stride - 1] == 0;
      assert above + last == raster;
    }
  }

  // ---- Files ----

  function Header(width: nat, height: nat): seq<Byte>
    requires width < WORD && height < WORD
  {
    Be32(width) + Be32(height) + [8, 2, 0, 0, 0]
  }

  function File(header: seq<Byte>, data: seq<Byte>): seq<Byte>
    requires |header| < WORD && |data| < WORD
  {
    SIGNATURE + Chunk(IHDR, header) + Chunk(IDAT, data) + Chunk(IEND, [])
  }

  /** `None` where the length of the compressed rows does not fit its four bytes. */
  function Encode(p: Picture, codec: Codec): Option<seq<Byte>>
    requires p.width < WORD && p.height < WORD && |p.raster| == p.height * (3 * p.width)
  {
    var data := codec.compress(Filtered(p.raster, 3 * p.width, p.height));
    if |data| >= WORD then None else Some(File(Header(p.width, p.height), data))
  }

  datatype Payloads = Payloads(header: seq<Byte>, data: seq<Byte>)

  /** Signature, then exactly a header, a data and an end chunk, each with its checksum. */
  function ReadFile(file: seq<Byte>): Option<Payloads> {
    if |file| < 8 || file[..8] != SIGNATURE then None
    else
      match ReadChunk(file[8..])
      case None => None
      case Some(header) =>
        match ReadChunk(header.rest)
        case None => None
        case Some(data) =>
          if header.kind == IHDR && data.kind == IDAT && ReadChunk(data.rest) == Some(Read(IEND, [], []))
          then Some(Payloads(header.payload, data.payload)) else None
  }

  lemma Behind(first: seq<Byte>, a: seq<Byte>, b: seq<Byte>, c: seq<Byte>)
    ensures (first + a + b + c)[..|first|] == first && (first + a + b + c)[|first|..] == a + (b + c)
  {
  }

  lemma LastChunksRead(data: seq<Byte>)
    requires |data| < WORD
    ensures ReadChunk(Chunk(IDAT, data) + Chunk(IEND, [])) == Some(Read(IDAT, data, Chunk(IEND, [])))
    ensures ReadChunk(Chunk(IEND, [])) == Some(Read(IEND, [], []))
  {
    ChunkReads(IDAT, data, Chunk(IEND, []));
    assert Chunk(IEND, []) + [] == Chunk(IEND, []);
    ChunkReads(IEND, [], []);
  }

  lemma FileReads(header: seq<Byte>, data: seq<Byte>)
    requires |header| < WORD && |data| < WORD
    ensures ReadFile(File(header, data)) == Some(Payloads(header, data))
  {
    Behind(SIGNATURE, Chunk(IHDR, header), Chunk(IDAT, data), Chunk(IEND, []));
    ChunkReads(IHDR, header, Chunk(IDAT, data) + Chunk(IEND, []));
    LastChunksRead(data);
  }

  /** A reader of true-colour pictures, eight bits a sample, with unfiltered rows. */
  function Decode(file: seq<Byte>, codec: Codec): Option<Picture> {
    match ReadFile(file)
    case None => None
    case Some(parts) =>
      if |parts.header| != 13 || parts.header[8..] != [8, 2, 0, 0, 0] then None
      else
        var width, height := FromBe32(parts.header[..4]), FromBe32(parts.header[4..8]);
        match codec.decompress(parts.data)
        case None => None
        case Some(rows) =>
          match Unfiltered(rows, 3 * width, height)
          case None => None
          case Some(raster) => Some(Picture(width, height, raster))
  }

  lemma DecodeRead(file: seq<Byte>, p: Picture, data: seq<Byte>, codec: Codec)
    requires p.width < WORD && p.height < WORD
    requires ReadFile(file) == Some(Payloads(Header(p.width, p.height), data))
    requires codec.decompress(data).Some? && Unfiltered(codec.decompress(data).value, 3 * p.width, p.height) == Some(p.raster)
    ensures Decode(file, codec) == Some(p)
  {
    var header := Header(p.width, p.height);
    Be32RoundTrip(p.width);
    Be32RoundTrip(p.height);
    assert header[..4] == Be32(p.width) && header[4..8] == Be32(p.height) && header[8..] == [8, 2, 0, 0, 0];
  }

  /** Decoding what was encoded gives the picture back, whatever the compressor. */
  lemma DecodeEncode(p: Picture, codec: Codec)
    requires p.width < WORD && p.height < WORD && |p.raster| == p.height * (3 * p.width)
    requires Encode(p, codec).Some? && Inverts(codec, Filtered(p.raster, 3 * p.width, p.height))
    ensures Decode(Encode(p, codec).value, codec) == Some(p)
  {
    var data := codec.compress(Filtered(p.raster, 3 * p.width, p.height));
    FileReads(Header(p.width, p.height), data);
    UnfilterFiltered(p.raster, 3 * p.width, p.height);
    DecodeRead(File(Header(p.width, p.height), data), p, data, codec);
  }

  // ---- The ticket ----

  const WIDTH := 1000
  const HEIGHT := 560
  const SCALE := 7
  const LEFT := 70

  datatype Role = Loading | Unloading
  datatype Line = Line(y: nat, text: string)

  function Lines(role: Role, gross: string, tare: string, net: string): seq<Line> {
    [Line(55, if role.Loading? then "LOADING TICKET" else "UNLOADING TICKET"),
     Line(180, "GROSS WEIGHT " + gross + " T"),
     Line(305, "TARE " + tare + " T"),
     Line(430, "NET WEIGHT " + net + " T")]
  }

  /** The last cell of the line ends inside the picture. */
  predicate FitsWidth(text: string) { LEFT + 6 * SCALE * |text| - SCALE <= WIDTH }

  /** All four lines fit exactly when gross, tare and net have at most 7, 15 and 9 characters;
      in particular when each has at most seven. */
  lemma LinesFitExactly(role: Role, gross: string, tare: string, net: string)
    ensures (forall line <- Lines(role, gross, tare, net) :: FitsWidth(line.text)) <==>
            |gross| <= 7 && |tare| <= 15 && |net| <= 9
  {
    var lines := Lines(role, gross, tare, net);
    assert lines[0] in lines && lines[1] in lines && lines[2] in lines && lines[3] in lines;
    assert |lines[1].text| == 15 + |gross| && |lines[2].text| == 7 + |tare| && |lines[3].text| == 13 + |net|;
  }

  function White(): seq<Byte> { seq(3 * WIDTH * HEIGHT, _ => 255) }

  predicate AllDrawable(lines: seq<Line>) { forall line <- lines :: Drawable(FONT_5X7, line.text) }

  function LinesInk(lines: seq<Line>): set<nat>
    requires AllDrawable(lines)
  {
    if lines == [] then {}
    else
      var last := lines[|lines| - 1];
      LinesInk(lines[..|lines| - 1]) + TextInk(FONT_5X7, WIDTH, LEFT, last.y, last.text, SCALE)
  }

  lemma MarksAreGlyphs()
    ensures IsFont(MARKS_5X7)
  {
  }

  lemma LettersAreGlyphs()
    ensures IsFont(LETTERS_5X7)
  {
  }

  lemma FontIsFont()
    ensures IsFont(FONT_5X7)
  {
    MarksAreGlyphs();
    LettersAreGlyphs();
  }

  lemma LineFitsBuffer(line: Line)
    requires FitsWidth(line.text) && line.y + 7 * SCALE <= HEIGHT
    ensures FitsBuffer(3 * WIDTH * HEIGHT, WIDTH, LEFT, line.y, |line.text|, SCALE)
  {
    IndexMonotone(WIDTH, LEFT, line.y + 7 * SCALE - 1, HEIGHT - 1);
  }

  /** Draw the lines in order; the first character without a glyph raises. */
  method DrawLines(pixels: array<Byte>, lines: seq<Line>) returns (ok: bool)
    requires pixels.Length == 3 * WIDTH * HEIGHT
    requires forall line <- lines :: FitsWidth(line.text) && line.y + 7 * SCALE <= HEIGHT
    modifies pixels
    ensures ok <==> AllDrawable(lines)
    ensures ok ==> pixels[..] == Painted(old(pixels[..]), LinesInk(lines))
  {
    FontIsFont();
    PaintedTwice(pixels[..], {}, {});
    for n := 0 to |lines|
      invariant AllDrawable(lines[..n]) && pixels[..] == Painted(old(pixels[..]), LinesInk(lines[..n]))
    {
      var line := lines[n];
      assert line in lines && lines[..n + 1][..n] == lines[..n] && lines[..n + 1] == lines[..n] + [line];
      LineFitsBuffer(line);
      ok := DrawText(pixels, FONT_5X7, WIDTH, LEFT, line.y, line.text, SCALE);
      if !ok { return; }
      assert line.text[..|line.text|] == line.text;
      PaintedTwice(old(pixels[..]), LinesInk(lines[..n]), TextInk(FONT_5X7, WIDTH, LEFT, line.y, line.text, SCALE));
    }
    assert lines[..|lines|] == lines;
    return true;
  }

  function Ticket(lines: seq<Line>): Picture
    requires AllDrawable(lines)
  {
    Picture(WIDTH, HEIGHT, Painted(White(), LinesInk(lines)))
  }

  /** `_smoke_png`, for values that fit their lines. */
  method SmokePng(role: Role, gross: string, tare: string, net: string, codec: Codec) returns (file: Option<seq<Byte>>)
    requires |gross| <= 7 && |tare| <= 15 && |net| <= 9
    ensures var lines := Lines(role, gross, tare, net);
      file == if AllDrawable(lines) then Encode(Ticket(lines), codec) else None
  {
    var lines := Lines(role, gross, tare, net);
    LinesFitExactly(role, gross, tare, net);
    var pixels := new Byte[3 * WIDTH * HEIGHT](_ => 255);
    assert pixels[..] == White();
    var ok := DrawLines(pixels, lines);
    if !ok { return None; }
    var rows := FilterRows(pixels);
    var data := codec.compress(rows);
    if |data| >= WORD { return None; }
    return Some(SIGNATURE + Chunk(IHDR, Header(WIDTH, HEIGHT)) + Chunk(IDAT, data) + Chunk(IEND, []));
  }

  method FilterRows(pixels: array<Byte>) returns (rows: seq<Byte>)
    requires pixels.Length == 3 * WIDTH * HEIGHT
    ensures rows == Filtered(pixels[..], 3 * WIDTH, HEIGHT)
  {
    rows := [];
    for y := 0 to HEIGHT
      invariant rows == Filtered(pixels[..y * (3 * WIDTH)], 3 * WIDTH, y)
    {
      var start := y * (3 * WIDTH);
      ghost var next := pixels[..(y + 1) * (3 * WIDTH)];
      assert next[..start] == pixels[..start] && next[start..] == pixels[start..start + 3 * WIDTH];
      rows := rows + [0] + pixels[start..start + 3 * WIDTH];
    }
    assert pixels[..HEIGHT * (3 * WIDTH)] == pixels[..];
  }

  /** The file of a ticket decodes to the ticket. */
  lemma TicketDecodes(lines: seq<Line>, codec: Codec)
    requires AllDrawable(lines) && Encode(Ticket(lines), codec).Some?
    requires Inverts(codec, Filtered(Ticket(lines).raster, 3 * WIDTH, HEIGHT))
    ensures Decode(Encode(Ticket(lines), codec).value, codec) == Some(Ticket(lines))
  {
    DecodeEncode(Ticket(lines), codec);
  }

  predicate LitBy(line: Line, px: nat, py: nat)
    requires Drawable(FONT_5X7, line.text)
  {
    TextLit(FONT_5X7, LEFT, line.y, line.text, SCALE, px, py)
  }

  lemma {:induction false} LinesInkAt(lines: seq<Line>, px: nat, py: nat)
    requires AllDrawable(lines) && px < WIDTH && forall line <- lines :: FitsWidth(line.text)
    ensures Index(WIDTH, px, py) in LinesInk(lines) <==> exists line <- lines :: LitBy(line, px, py)
  {
    if lines != [] {
      var init, last := lines[..|lines| - 1], lines[|lines| - 1];
      assert lines == init + [last];
      assert forall line :: line in lines <==> line in init || line == last;
      FontIsFont();
      LinesInkAt(init, px, py);
      TextInkAt(FONT_5X7, WIDTH, LEFT, last.y, last.text, SCALE, px, py);
      assert Index(WIDTH, px, py) in LinesInk(lines) <==> Index(WIDTH, px, py) in LinesInk(init) || LitBy(last, px, py);
    }
  }

  /** Every sample of a ticket whose lines fit is black where a line is lit, white elsewhere. */
  lemma TicketPixel(lines: seq<Line>, px: nat, py: nat, sample: nat)
    requires AllDrawable(lines) && forall line <- lines :: FitsWidth(line.text)
    requires px < WIDTH && py < HEIGHT && sample < 3
    ensures 3 * Index(WIDTH, px, py) + sample < |Ticket(lines).raster|
    ensures Ticket(lines).raster[3 * Index(WIDTH, px, py) + sample]
            == (if exists line <- lines :: LitBy(line, px, py) then 0 else 255)
  {
    assert (3 * Index(WIDTH, px, py) + sample) / 3 == Index(WIDTH, px, py);
    LinesInkAt(lines, px, py);
  }
}
