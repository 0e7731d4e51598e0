/** The ticket picture of the runtime check: text in a 5 by 7 font, each cell a square of
    `scale` pixels, drawn in place into a buffer of three bytes a pixel. */
module TicketRaster {
  import opened Sequences

  const MARKS_5X7: map<char, seq<string>> := map[
    ' ' := ["00000", "00000", "00000", "00000", "00000", "00000", "00000"],
    '.' := ["00000", "00000", "00000", "00000", "00000", "01100", "01100"],
    '0' := ["01110", "10001", "10011", "10101", "11001", "10001", "01110"],
    '1' := ["00100", "01100", "00100", "00100", "00100", "00100", "01110"],
    '2' := ["01110", "10001", "00001", "00010", "00100", "01000", "11111"],
    '3' := ["11110", "00001", "00001", "01110", "00001", "00001", "11110"],
    '4' := ["00010", "00110", "01010", "10010", "11111", "00010", "00010"],
    '5' := ["11111", "10000", "10000", "11110", "00001", "00001", "11110"],
    '6' := ["01110", "10000", "10000", "11110", "10001", "10001", "01110"],
    '7' := ["11111", "00001", "00010", "00100", "01000", "01000", "01000"],
    '8' := ["01110", "10001", "10001", "01110", "10001", "10001", "01110"],
    '9' := ["01110", "10001", "10001", "01111", "00001", "00001", "01110"]
  ]

  const LETTERS_5X7: map<char, seq<string>> := map[
    'A' := ["01110", "10001", "10001", "11111", "10001", "10001", "10001"],
    'C' := ["01110", "10001", "10000", "10000", "10000", "10001", "01110"],
    'D' := ["11110", "10001", "10001", "10001", "10001", "10001", "11110"],
    'E' := ["11111", "10000", "10000", "11110", "10000", "10000", "11111"],
    'G' := ["01110", "10001", "10000", "10111", "10001", "10001", "01110"],
    'H' := ["10001", "10001", "10001", "11111", "10001", "10001", "10001"],
    'I' := ["01110", "00100", "00100", "00100", "00100", "00100", "01110"],
    'K' := ["10001", "10010", "10100", "11000", "10100", "10010", "10001"],
    'L' := ["10000", "10000", "10000", "10000", "10000", "10000", "11111"],
    'N' := ["10001", "11001", "10101", "10011", "10001", "10001", "10001"],
    'O' := ["01110", "10001", "10001", "10001", "10001", "10001", "01110"],
    'R' := ["11110", "10001", "10001", "11110", "10100", "10010", "10001"],
    'S' := ["01111", "10000", "10000", "01110", "00001", "00001", "11110"],
    'T' := ["11111", "00100", "00100", "00100", "00100", "00100", "00100"],
    'U' := ["10001", "10001", "10001", "10001", "10001", "10001", "01110"],
    'W' := ["10001", "10001", "10001", "10101", "10101", "10101", "01010"]
  ]

  const FONT_5X7: map<char, seq<string>> := MARKS_5X7 + LETTERS_5X7

  /** A glyph has seven rows of five cells. */
  predicate IsGlyph(glyph: seq<string>) { |glyph| == 7 && forall r :: 0 <= r < 7 ==> |glyph[r]| == 5 }

  /** Every character of the text is in the font. */
  predicate Drawable(font: map<char, seq<string>>, text: string) { forall i :: 0 <= i < |text| ==> text[i] in font }

  ghost predicate IsFont(font: map<char, seq<string>>) { forall c :: c in font ==> IsGlyph(font[c]) }

  // ---- Pixels that are painted, as indices into the buffer ----

  function Index(width: nat, px: nat, py: nat): nat { py * width + px }

  function Strip(width: nat, px: nat, py: nat, n: nat): set<nat> {
    if n == 0 then {} else Strip(width, px, py, n - 1) + {Index(width, px + n - 1, py)}
  }

  /** The first `m` pixel rows of a cell, `n` pixels wide. */
  function Cell(width: nat, px: nat, py: nat, n: nat, m: nat): set<nat> {
    if m == 0 then {} else Cell(width, px, py, n, m - 1) + Strip(width, px, py + m - 1, n)
  }

  function RowInk(row: string, width: nat, px: nat, py: nat, scale: nat, k: nat): set<nat>
    requires k <= |row|
  {
    if k == 0 then {}
    else
      RowInk(row, width, px, py, scale, k - 1) + CellInk(row, width, px, py, scale, k - 1)
  }

  function GlyphInk(glyph: seq<string>, width: nat, px: nat, py: nat, scale: nat, r: nat): set<nat>
    requires r <= |glyph|
  {
    if r == 0 then {}
    else
      GlyphInk(glyph, width, px, py, scale, r - 1)
      + RowInk(glyph[r - 1], width, px, py + (r - 1) * scale, scale, |glyph[r - 1]|)
  }

  function TextInk(font: map<char, seq<string>>, width: nat, x: nat, y: nat, text: string, scale: nat): set<nat>
    requires Drawable(font, text)
  {
    if text == [] then {}
    else
      var n := |text| - 1;
      TextInk(font, width, x, y, text[..n], scale)
      + GlyphInk(font[text[n]], width, x + 6 * scale * n, y, scale, |font[text[n]]|)
  }

  /** The buffer with the pixels of `ink` black. */
  function Painted(buffer: seq<Byte>, ink: set<nat>): (after: seq<Byte>)
    ensures |after| == |buffer|
  {
    seq(|buffer|, i requires 0 <= i < |buffer| => if i / 3 in ink then 0 else buffer[i])
  }

  lemma PaintedTwice(buffer: seq<Byte>, first: set<nat>, second: set<nat>)
    ensures Painted(Painted(buffer, first), second) == Painted(buffer, first + second)
    ensures Painted(buffer, {}) == buffer
  {
  }

  // ---- Drawing ----

  method FillStrip(pixels: array<Byte>, width: nat, px: nat, py: nat, n: nat)
    requires 3 * (Index(width, px, py) + n) <= pixels.Length
    modifies pixels
    ensures pixels[..] == Painted(old(pixels[..]), Strip(width, px, py, n))
  {
    PaintedTwice(pixels[..], {}, {});
    for offsetX := 0 to n
      invariant pixels[..] == Painted(old(pixels[..]), Strip(width, px, py, offsetX))
    {
      ghost var before := pixels[..];
      var offset := (py * width + px + offsetX) * 3;
      pixels[offset], pixels[offset + 1], pixels[offset + 2] := 0, 0, 0;
      assert pixels[..] == Painted(before, {Index(width, px + offsetX, py)});
      PaintedTwice(old(pixels[..]), Strip(width, px, py, offsetX), {Index(width, px + offsetX, py)});
    }
  }

  lemma IndexMonotone(width: nat, px: nat, py: nat, qy: nat)
    requires py <= qy
    ensures Index(width, px, py) <= Index(width, px, qy)
  {
    assert py * width <= qy * width;
  }

  method FillCell(pixels: array<Byte>, width: nat, px: nat, py: nat, scale: nat)
    requires scale > 0 ==> 3 * (Index(width, px, py + scale - 1) + scale) <= pixels.Length
    modifies pixels
    ensures pixels[..] == Painted(old(pixels[..]), Cell(width, px, py, scale, scale))
  {
    PaintedTwice(pixels[..], {}, {});
    for offsetY := 0 to scale
      invariant pixels[..] == Painted(old(pixels[..]), Cell(width, px, py, scale, offsetY))
    {
      IndexMonotone(width, px, py + offsetY, py + scale - 1);
      FillStrip(pixels, width, px, py + offsetY, scale);
      PaintedTwice(old(pixels[..]), Cell(width, px, py, scale, offsetY), Strip(width, px, py + offsetY, scale));
    }
  }

  lemma CellFits(width: nat, px: nat, py: nat, scale: nat, column: nat, n: nat, length: nat)
    requires scale > 0 && column < n && 3 * (Index(width, px, py + scale - 1) + n * scale) <= length
    ensures 3 * (Index(width, px + column * scale, py + scale - 1) + scale) <= length
  {
    assert (column + 1) * scale <= n * scale;
    assert (column + 1) * scale == column * scale + scale;
  }

  function CellInk(row: string, width: nat, px: nat, py: nat, scale: nat, column: nat): set<nat>
    requires column < |row|
  {
    if row[column] == '1' then Cell(width, px + column * scale, py, scale, scale) else {}
  }

  /** One column: a cell is filled where the row has a mark. */
  method DrawColumn(pixels: array<Byte>, row: string, width: nat, px: nat, py: nat, scale: nat, column: nat)
    requires column < |row|
    requires scale > 0 ==> 3 * (Index(width, px, py + scale - 1) + |row| * scale) <= pixels.Length
    modifies pixels
    ensures pixels[..] == Painted(old(pixels[..]), CellInk(row, width, px, py, scale, column))
  {
    PaintedTwice(pixels[..], {}, {});
    if row[column] == '1' {
      if scale > 0 { CellFits(width, px, py, scale, column, |row|, pixels.Length); }
      FillCell(pixels, width, px + column * scale, py, scale);
    }
  }

  method DrawRow(pixels: array<Byte>, row: string, width: nat, px: nat, py: nat, scale: nat)
    requires scale > 0 && row != [] ==> 3 * (Index(width, px, py + scale - 1) + |row| * scale) <= pixels.Length
    modifies pixels
    ensures pixels[..] == Painted(old(pixels[..]), RowInk(row, width, px, py, scale, |row|))
  {
    PaintedTwice(pixels[..], {}, {});
    for column := 0 to |row|
      invariant pixels[..] == Painted(old(pixels[..]), RowInk(row, width, px, py, scale, column))
    {
      DrawColumn(pixels, row, width, px, py, scale, column);
      PaintedTwice(old(pixels[..]), RowInk(row, width, px, py, scale, column), CellInk(row, width, px, py, scale, column));
    }
  }

  method DrawGlyph(pixels: array<Byte>, glyph: seq<string>, width: nat, px: nat, py: nat, scale: nat)
    requires IsGlyph(glyph)
    requires scale > 0 ==> 3 * (Index(width, px, py + 7 * scale - 1) + 5 * scale) <= pixels.Length
    modifies pixels
    ensures pixels[..] == Painted(old(pixels[..]), GlyphInk(glyph, width, px, py, scale, 7))
  {
    PaintedTwice(pixels[..], {}, {});
    for r := 0 to 7
      invariant pixels[..] == Painted(old(pixels[..]), GlyphInk(glyph, width, px, py, scale, r))
    {
      if scale > 0 {
        IndexMonotone(width, px, py + r * scale + scale - 1, py + 7 * scale - 1);
      }
      DrawRow(pixels, glyph[r], width, px, py + r * scale, scale);
      PaintedTwice(old(pixels[..]), GlyphInk(glyph, width, px, py, scale, r),
                   RowInk(glyph[r], width, px, py + r * scale, scale, 5));
    }
  }

  function DrawablePrefix(font: map<char, seq<string>>, text: string): (n: nat)
    ensures n <= |text| && Drawable(font, text[..n])
    ensures n < |text| ==> text[n] !in font
    ensures n == |text| <==> Drawable(font, text)
  {
    if text == [] then 0
    else if text[0] !in font then 0
    else
      var n := DrawablePrefix(font, text[1..]);
      assert forall i :: 0 < i < |text| ==> text[1..][i - 1] == text[i];
      n + 1
  }

  /** The last pixel row of the text still lies in the buffer. */
  predicate FitsBuffer(length: nat, width: nat, x: nat, y: nat, characters: nat, scale: nat) {
    scale > 0 && characters > 0 ==> 3 * (Index(width, x, y + 7 * scale - 1) + 6 * scale * characters - scale) <= length
  }

  /** `_draw_text`: paints the ink of the text and nothing else; a character without a glyph
      raises, with the characters before it drawn. */
  method DrawText(pixels: array<Byte>, font: map<char, seq<string>>, width: nat, x: nat, y: nat, text: string, scale: nat)
      returns (ok: bool)
    requires IsFont(font) && FitsBuffer(pixels.Length, width, x, y, |text|, scale)
    modifies pixels
    ensures ok <==> Drawable(font, text)
    ensures pixels[..] == Painted(old(pixels[..]), TextInk(font, width, x, y, text[..DrawablePrefix(font, text)], scale))
  {
    PaintedTwice(pixels[..], {}, {});
    var cursor := x;
    for i := 0 to |text|
      invariant i <= DrawablePrefix(font, text) && Drawable(font, text[..i]) && cursor == x + 6 * scale * i
      invariant pixels[..] == Painted(old(pixels[..]), TextInk(font, width, x, y, text[..i], scale))
    {
      if text[i] !in font {
        assert i == DrawablePrefix(font, text);
        return false;
      }
      DrawCharacter(pixels, font, width, x, y, text, scale, i, cursor);
      PaintedTwice(old(pixels[..]), TextInk(font, width, x, y, text[..i], scale),
                   GlyphInk(font[text[i]], width, cursor, y, scale, 7));
      OneMoreGlyph(font, width, x, y, text, scale, i);
      CursorMoves(x, scale, i);
      cursor := cursor + 6 * scale;
    }
    assert text[..|text|] == text;
    return true;
  }

  /** One character at the cursor. */
  method DrawCharacter(pixels: array<Byte>, font: map<char, seq<string>>, width: nat, ghost x: nat, y: nat, text: string,
                       scale: nat, i: nat, cursor: nat)
    requires IsFont(font) && FitsBuffer(pixels.Length, width, x, y, |text|, scale)
    requires i < |text| && text[i] in font && cursor == x + 6 * scale * i
    modifies pixels
    ensures pixels[..] == Painted(old(pixels[..]), GlyphInk(font[text[i]], width, cursor, y, scale, 7))
  {
    CursorFits(pixels.Length, width, x, y, text, scale, i);
    DrawGlyph(pixels, font[text[i]], width, cursor, y, scale);
  }

  lemma OneMoreGlyph(font: map<char, seq<string>>, width: nat, x: nat, y: nat, text: string, scale: nat, i: nat)
    requires IsFont(font) && i < |text| && text[i] in font && Drawable(font, text[..i])
    ensures Drawable(font, text[..i + 1])
    ensures TextInk(font, width, x, y, text[..i + 1], scale)
            == TextInk(font, width, x, y, text[..i], scale) + GlyphInk(font[text[i]], width, x + 6 * scale * i, y, scale, 7)
  {
    assert text[..i + 1][..i] == text[..i] && text[..i + 1][i] == text[i];
  }

  lemma CursorMoves(x: nat, scale: nat, i: nat)
    ensures x + 6 * scale * (i + 1) == x + 6 * scale * i + 6 * scale
  {
  }

  lemma CursorFits(length: nat, width: nat, x: nat, y: nat, text: string, scale: nat, i: nat)
    requires FitsBuffer(length, width, x, y, |text|, scale) && i < |text|
    ensures scale > 0 ==> 3 * (Index(width, x + 6 * scale * i, y + 7 * scale - 1) + 5 * scale) <= length
  {
    assert 6 * scale * (i + 1) <= 6 * scale * |text|;
    CursorMoves(0, scale, i);
  }

  // ---- Where the ink is ----

  /** A pixel of a picture has one index. */
  lemma IndexUnique(width: nat, px: nat, py: nat, qx: nat, qy: nat)
    requires px < width && qx < width
    ensures Index(width, px, py) == Index(width, qx, qy) <==> px == qx && py == qy
  {
    if py < qy {
      assert (py + 1) * width <= qy * width;
    } else if qy < py {
      assert (qy + 1) * width <= py * width;
    }
  }

  lemma {:induction false} StripAt(width: nat, px: nat, py: nat, n: nat, qx: nat, qy: nat)
    requires px + n <= width && qx < width
    ensures Index(width, qx, qy) in Strip(width, px, py, n) <==> qy == py && px <= qx < px + n
  {
    if n > 0 {
      StripAt(width, px, py, n - 1, qx, qy);
      IndexUnique(width, px + n - 1, py, qx, qy);
    }
  }

  lemma {:induction false} CellAt(width: nat, px: nat, py: nat, n: nat, m: nat, qx: nat, qy: nat)
    requires px + n <= width && qx < width
    ensures Index(width, qx, qy) in Cell(width, px, py, n, m) <==> py <= qy < py + m && px <= qx < px + n
  {
    if m > 0 {
      CellAt(width, px, py, n, m - 1, qx, qy);
      StripAt(width, px, py + m - 1, n, qx, qy);
    }
  }

  /** How many whole cells lie between `start` and `q`. */
  function CellsBefore(start: nat, scale: nat, q: nat): nat
    requires scale > 0 && q >= start
    decreases q - start
  {
    if q < start + scale then 0 else 1 + CellsBefore(start + scale, scale, q)
  }

  lemma {:induction false} CellsBound(start: nat, scale: nat, q: nat)
    requires scale > 0 && q >= start
    ensures start + CellsBefore(start, scale, q) * scale <= q < start + CellsBefore(start, scale, q) * scale + scale
    ensures CellsBefore(start, scale, q) == (q - start) / scale
    decreases q - start
  {
    if q >= start + scale {
      CellsBound(start + scale, scale, q);
      var d := CellsBefore(start + scale, scale, q);
      assert (1 + d) * scale == scale + d * scale;
    }
    Quotient(q - start, scale, CellsBefore(start, scale, q));
  }

  lemma MoreCells(d: nat, j: nat, scale: nat)
    requires d < j
    ensures d * scale + scale <= j * scale
  {
    assert (d + 1) * scale <= j * scale;
  }

  lemma Quotient(n: nat, scale: nat, d: nat)
    requires scale > 0 && d * scale <= n < d * scale + scale
    ensures d == n / scale
  {
    var e := n / scale;
    assert e * scale <= n < e * scale + scale;
    if d != e { MoreCells(if d < e then d else e, if d < e then e else d, scale); }
  }

  lemma Within(start: nat, scale: nat, j: nat, q: nat)
    requires scale > 0 && q >= start
    ensures start + j * scale <= q < start + j * scale + scale <==> CellsBefore(start, scale, q) == j
    ensures q < start + j * scale <==> CellsBefore(start, scale, q) < j
  {
    CellsBound(start, scale, q);
    var d := CellsBefore(start, scale, q);
    if d != j { MoreCells(if d < j then d else j, if d < j then j else d, scale); }
  }

  predicate RowLit(row: string, px: nat, scale: nat, k: nat, qx: nat)
    requires k <= |row| && scale > 0
  {
    qx >= px && CellsBefore(px, scale, qx) < k && row[CellsBefore(px, scale, qx)] == '1'
  }

  lemma RowLitStep(row: string, px: nat, scale: nat, k: nat, qx: nat)
    requires 0 < k <= |row| && scale > 0
    ensures RowLit(row, px, scale, k, qx) <==>
            RowLit(row, px, scale, k - 1, qx)
            || (row[k - 1] == '1' && px + (k - 1) * scale <= qx < px + (k - 1) * scale + scale)
  {
    if qx >= px { Within(px, scale, k - 1, qx); }
  }

  lemma {:induction false} RowInkAt(row: string, width: nat, px: nat, py: nat, scale: nat, k: nat, qx: nat, qy: nat)
    requires k <= |row| && scale > 0 && px + k * scale <= width && qx < width
    ensures Index(width, qx, qy) in RowInk(row, width, px, py, scale, k) <==>
            py <= qy < py + scale && RowLit(row, px, scale, k, qx)
  {
    if k > 0 {
      OneCellMore(k, scale);
      RowInkAt(row, width, px, py, scale, k - 1, qx, qy);
      CellAt(width, px + (k - 1) * scale, py, scale, scale, qx, qy);
      RowLitStep(row, px, scale, k, qx);
    }
  }

  lemma OneCellMore(k: nat, scale: nat)
    requires k > 0
    ensures k * scale == (k - 1) * scale + scale
  {
  }

  predicate GlyphLit(glyph: seq<string>, px: nat, py: nat, scale: nat, r: nat, qx: nat, qy: nat)
    requires r <= |glyph| && scale > 0 && IsGlyph(glyph)
  {
    qy >= py && CellsBefore(py, scale, qy) < r && RowLit(glyph[CellsBefore(py, scale, qy)], px, scale, 5, qx)
  }

  lemma {:induction false} GlyphInkAt(glyph: seq<string>, width: nat, px: nat, py: nat, scale: nat, r: nat, qx: nat, qy: nat)
    requires IsGlyph(glyph) && r <= 7 && scale > 0 && px + 5 * scale <= width && qx < width
    ensures Index(width, qx, qy) in GlyphInk(glyph, width, px, py, scale, r) <==> GlyphLit(glyph, px, py, scale, r, qx, qy)
  {
    if r > 0 {
      GlyphInkAt(glyph, width, px, py, scale, r - 1, qx, qy);
      RowInkAt(glyph[r - 1], width, px, py + (r - 1) * scale, scale, 5, qx, qy);
      if qy >= py { Within(py, scale, r - 1, qy); }
    }
  }

  /** The text as a reader sees it: every character is six cells wide, the sixth blank; the
      pixel is lit when the cell it lies in is. */
  predicate TextLit(font: map<char, seq<string>>, x: nat, y: nat, text: string, scale: nat, qx: nat, qy: nat)
    requires Drawable(font, text) && scale > 0
  {
    qx >= x && qy >= y && CellLit(font, text, CellsBefore(x, scale, qx), CellsBefore(y, scale, qy))
  }

  predicate CellLit(font: map<char, seq<string>>, text: string, column: nat, r: nat)
    requires Drawable(font, text)
  {
    && column / 6 < |text|
    && var glyph := font[text[column / 6]];
       r < |glyph| && column % 6 < |glyph[r]| && glyph[r][column % 6] == '1'
  }

  lemma {:induction false} CellsFrom(x: nat, scale: nat, m: nat, start: nat, qx: nat)
    requires scale > 0 && qx >= x && start == x + m * scale
    ensures qx >= start <==> CellsBefore(x, scale, qx) >= m
    ensures qx >= start ==> CellsBefore(start, scale, qx) == CellsBefore(x, scale, qx) - m
    decreases m
  {
    if m > 0 {
      OneCellMore(m, scale);
      if qx >= x + scale { CellsFrom(x + scale, scale, m - 1, start, qx); }
    }
  }

  lemma CellsShift(x: nat, scale: nat, i: nat, qx: nat)
    requires scale > 0 && qx >= x
    ensures qx >= x + 6 * scale * i <==> CellsBefore(x, scale, qx) >= 6 * i
    ensures qx >= x + 6 * scale * i ==> CellsBefore(x + 6 * scale * i, scale, qx) == CellsBefore(x, scale, qx) - 6 * i
  {
    assert 6 * i * scale == 6 * scale * i;
    CellsFrom(x, scale, 6 * i, x + 6 * scale * i, qx);
  }

  lemma CellLitLast(font: map<char, seq<string>>, text: string, column: nat, r: nat)
    requires IsFont(font) && Drawable(font, text) && text != []
    ensures var n := |text| - 1;
      CellLit(font, text, column, r) <==>
      CellLit(font, text[..n], column, r)
      || (column >= 6 * n && column - 6 * n < 5 && r < 7 && font[text[n]][r][column - 6 * n] == '1')
  {
    var i, n := column / 6, |text| - 1;
    assert column == 6 * i + column % 6;
    if i < n {
      assert text[..n][i] == text[i];
    }
  }

  /** The last character of a text, seen through its own glyph. */
  lemma LastLit(font: map<char, seq<string>>, x: nat, y: nat, text: string, scale: nat, start: nat, qx: nat, qy: nat)
    requires IsFont(font) && Drawable(font, text) && scale > 0 && text != [] && x <= start
    requires qx >= x ==> (qx >= start <==> CellsBefore(x, scale, qx) >= 6 * (|text| - 1))
    requires qx >= start ==> CellsBefore(start, scale, qx) == CellsBefore(x, scale, qx) - 6 * (|text| - 1)
    ensures TextLit(font, x, y, text, scale, qx, qy) <==>
            TextLit(font, x, y, text[..|text| - 1], scale, qx, qy) || GlyphLit(font[text[|text| - 1]], start, y, scale, 7, qx, qy)
  {
    if qx >= x && qy >= y {
      CellLitLast(font, text, CellsBefore(x, scale, qx), CellsBefore(y, scale, qy));
    }
  }

  lemma CursorInside(width: nat, x: nat, scale: nat, n: nat)
    requires x + 6 * scale * (n + 1) - scale <= width
    ensures x <= x + 6 * scale * n && x + 6 * scale * n + 5 * scale <= width && x + 6 * scale * n - scale <= width
  {
    CursorMoves(x, scale, n);
  }

  lemma LastInk(font: map<char, seq<string>>, width: nat, x: nat, y: nat, text: string, scale: nat, pixel: nat)
    requires Drawable(font, text) && text != []
    ensures var n := |text| - 1;
      pixel in TextInk(font, width, x, y, text, scale) <==>
      pixel in TextInk(font, width, x, y, text[..n], scale)
      || pixel in GlyphInk(font[text[n]], width, x + 6 * scale * n, y, scale, |font[text[n]]|)
  {
  }

  /** For text that fits its lines, the ink is exactly what a reader sees. */
  lemma {:induction false} TextInkAt(font: map<char, seq<string>>, width: nat, x: nat, y: nat, text: string, scale: nat,
                                     qx: nat, qy: nat)
    requires IsFont(font) && Drawable(font, text) && scale > 0 && qx < width
    requires text != [] ==> x + 6 * scale * |text| - scale <= width
    ensures Index(width, qx, qy) in TextInk(font, width, x, y, text, scale) <==> TextLit(font, x, y, text, scale, qx, qy)
  {
    if text != [] {
      var n := |text| - 1;
      var start := x + 6 * scale * n;
      CursorInside(width, x, scale, n);
      LastInk(font, width, x, y, text, scale, Index(width, qx, qy));
      TextInkAt(font, width, x, y, text[..n], scale, qx, qy);
      GlyphInkAt(font[text[n]], width, start, y, scale, 7, qx, qy);
      if qx >= x { CellsShift(x, scale, n, qx); }
      LastLit(font, x, y, text, scale, start, qx, qy);
    }
  }
}
