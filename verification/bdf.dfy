/** The BDF (Glyph Bitmap Distribution Format 2.1, Adobe Technical Note #5005)
    font loader of crates/crt-renderer/src/bdf.rs: a line-oriented parser for
    the font header and the glyph records, the hex decoder for bitmap rows,
    the MSB-first bit unpacker that turns a glyph into 0/255 pixels, and the
    nearest-neighbour scaler.

    The source walks one peekable line iterator shared by `parse_str` and
    `parse_glyph`; here the lines are a sequence and the iterator is a
    position in it. Each parsing loop is a method proved equal to a
    tail-recursive specification function over that position. */
module Bdf {
  import opened Wrappers
  import opened Ints
  import opened Text
  import opened Raster

  datatype BdfError =
    | InvalidFormat(message: string)
    | MissingProperty(message: string)
    | ParseNumber(message: string)

  /** `BdfGlyph`: one glyph record; `bitmap` holds one row of bytes per BITMAP line. */
  datatype BdfGlyph = BdfGlyph(
    encoding: nat,
    name: string,
    dwidthX: int,
    width: nat,
    height: nat,
    offsetX: int,
    offsetY: int,
    bitmap: seq<seq<byte>>)

  /** `BdfFont`: the header values and the glyphs indexed by code point. */
  datatype BdfFont = BdfFont(
    name: string,
    pixelSize: nat,
    bboxWidth: nat,
    bboxHeight: nat,
    bboxOffsetX: int,
    bboxOffsetY: int,
    ascent: int,
    descent: int,
    glyphs: map<nat, BdfGlyph>)

  // ---------------------------------------------------------------------
  // Bitmap rows: `parse_hex_row`

  /** The byte for the k-th digit pair of `t`; an odd final digit is paired with '0'. */
  function PairAt(t: string, k: nat): Option<byte>
    requires 2 * k < |t|
  {
    ParseHexPair(t[2 * k], if 2 * k + 1 < |t| then t[2 * k + 1] else '0')
  }

  /** Decoding a trimmed hex row from digit `i` on, after the bytes `acc`. */
  function HexRowFrom(t: string, i: nat, acc: seq<byte>): (r: Result<seq<byte>, BdfError>)
    requires i % 2 == 0
    decreases |t| - i
  {
    if i >= |t| then Ok(acc)
    else
      var lo := if i + 1 < |t| then t[i + 1] else '0';
      match ParseHexPair(t[i], lo)
      case None => Err(InvalidFormat("Invalid hex: " + [t[i], lo]))
      case Some(b) => HexRowFrom(t, i + 2, acc + [b])
  }

  /** The bytes of an already trimmed hex row, pair by pair from the left. */
  function HexRow(t: string): Result<seq<byte>, BdfError> {
    HexRowFrom(t, 0, [])
  }

  lemma {:induction false} HexRowFromMeaning(t: string, i: nat, acc: seq<byte>)
    requires i % 2 == 0 && i <= |t| + 1
    ensures HexRowFrom(t, i, acc).Ok? <==> forall k :: i / 2 <= k < (|t| + 1) / 2 ==> PairAt(t, k).Some?
    ensures HexRowFrom(t, i, acc).Ok? ==>
              var v := HexRowFrom(t, i, acc).value;
              |v| == |acc| + (|t| + 1) / 2 - i / 2 && v[..|acc|] == acc
              && forall k :: i / 2 <= k < (|t| + 1) / 2 ==> v[|acc| + k - i / 2] == PairAt(t, k).value
    ensures HexRowFrom(t, i, acc).Err? ==> HexRowFrom(t, i, acc).error.InvalidFormat?
    decreases |t| - i
  {
    if i < |t| {
      assert PairAt(t, i / 2) == ParseHexPair(t[i], if i + 1 < |t| then t[i + 1] else '0');
      match PairAt(t, i / 2) {
        case None =>
        case Some(b) =>
          HexRowFromMeaning(t, i + 2, acc + [b]);
          if HexRowFrom(t, i, acc).Ok? {
            var v := HexRowFrom(t, i, acc).value;
            assert v[..|acc| + 1][..|acc|] == v[..|acc|];
          }
      }
    }
  }

  /** A row decodes exactly when every digit pair is valid hex; it then has
      ceil(|t|/2) bytes, byte k being the value of pair k; a bad pair is an
      `InvalidFormat` error. */
  lemma HexRowMeaning(t: string)
    ensures HexRow(t).Ok? <==> forall k :: 0 <= k < (|t| + 1) / 2 ==> PairAt(t, k).Some?
    ensures HexRow(t).Ok? ==> |HexRow(t).value| == (|t| + 1) / 2
    ensures HexRow(t).Ok? ==> forall k :: 0 <= k < (|t| + 1) / 2 ==> HexRow(t).value[k] == PairAt(t, k).value
    ensures HexRow(t).Err? ==> HexRow(t).error.InvalidFormat?
  {
    HexRowFromMeaning(t, 0, []);
  }

  /** `parse_hex_row`: trims the row and decodes it pair by pair. */
  method ParseHexRow(hex: string) returns (r: Result<seq<byte>, BdfError>)
    ensures r == HexRow(Trim(hex))
  {
    var t := Trim(hex);
    var bytes: seq<byte> := [];
    var i := 0;
    while i < |t|
      invariant i % 2 == 0
      invariant HexRowFrom(t, i, bytes) == HexRow(t)
      decreases |t| - i
    {
      var hi := t[i];
      var lo := if i + 1 < |t| then t[i + 1] else '0';
      var b := ParseHexPair(hi, lo);
      if b.None? {
        return Err(InvalidFormat("Invalid hex: " + [hi, lo]));
      }
      bytes := bytes + [b.value];
      i := i + 2;
    }
    return Ok(bytes);
  }

  /** The upper-case hex digit of a nibble. */
  function HexDigit(v: nat): (c: char)
    requires v < 16
    ensures IsHexDigit(c) && HexValue(c) == v && !IsWhitespace(c)
  {
    if v < 10 then ('0' as int + v) as char else ('A' as int + v - 10) as char
  }

  /** A row of bytes written as hex, two digits per byte, as BDF files store it. */
  function ToHex(bytes: seq<byte>): (t: string)
    ensures |t| == 2 * |bytes|
    ensures forall i :: 0 <= i < |t| ==> IsHexDigit(t[i]) && !IsWhitespace(t[i])
  {
    if bytes == [] then [] else [HexDigit(bytes[0] / 16), HexDigit(bytes[0] % 16)] + ToHex(bytes[1..])
  }

  /** Decoding inverts encoding: every byte row survives a trip through hex text. */
  lemma {:induction false} HexRowRoundTrip(bytes: seq<byte>)
    ensures HexRow(Trim(ToHex(bytes))) == Ok(bytes)
  {
    TrimNoWhitespace(ToHex(bytes));
    HexRowOfToHex(bytes);
  }

  lemma HexRowOfToHex(bytes: seq<byte>)
    ensures HexRow(ToHex(bytes)) == Ok(bytes)
  {
    var t := ToHex(bytes);
    ToHexPairs(bytes);
    HexRowMeaning(t);
    assert (|t| + 1) / 2 == |bytes|;
    assert HexRow(t).Ok?;
    assert HexRow(t).value == bytes;
  }

  /** Pair k of the hex text is byte k. */
  lemma {:induction false} ToHexPairs(bytes: seq<byte>)
    ensures forall k :: 0 <= k < |bytes| ==> PairAt(ToHex(bytes), k) == Some(bytes[k])
  {
    if bytes != [] {
      var t := ToHex(bytes);
      ToHexPairs(bytes[1..]);
      assert t[2..] == ToHex(bytes[1..]);
      forall k | 0 <= k < |bytes|
        ensures PairAt(t, k) == Some(bytes[k])
      {
        if k > 0 {
          assert PairAt(t, k) == PairAt(t[2..], k - 1);
        }
      }
    }
  }

  /** A string without whitespace is its own trim. */
  lemma TrimNoWhitespace(s: string)
    requires forall i :: 0 <= i < |s| ==> !IsWhitespace(s[i])
    ensures Trim(s) == s
  {
  }

  // ---------------------------------------------------------------------
  // The header: lines up to and including "CHARS "

  /** The header values `parse_str` accumulates. */
  datatype Header = Header(
    name: string,
    pixelSize: nat,
    bboxWidth: nat,
    bboxHeight: nat,
    bboxOffsetX: int,
    bboxOffsetY: int,
    ascent: int,
    descent: int)

  function InitialHeader(): Header {
    Header("", 0, 0, 0, 0, 0, 0, 0)
  }

  /** The effect of one trimmed header line that is not "CHARS ". */
  function HeaderLine(h: Header, line: string): Header {
    if StartsWith(line, "FONT ") then h.(name := line[5..])
    else if StartsWith(line, "SIZE ") then
      var parts := SplitWhitespace(line[5..]);
      if parts != [] then h.(pixelSize := ParseU32(parts[0]).GetOr(0)) else h
    else if StartsWith(line, "PIXEL_SIZE ") then
      h.(pixelSize := ParseU32(Trim(line[11..])).GetOr(h.pixelSize))
    else if StartsWith(line, "FONTBOUNDINGBOX ") then
      var parts := SplitWhitespace(line[16..]);
      if |parts| >= 4 then
        h.(bboxWidth := ParseU32(parts[0]).GetOr(0), bboxHeight := ParseU32(parts[1]).GetOr(0),
           bboxOffsetX := ParseI32(parts[2]).GetOr(0), bboxOffsetY := ParseI32(parts[3]).GetOr(0))
      else h
    else if StartsWith(line, "FONT_ASCENT ") then h.(ascent := ParseI32(Trim(line[12..])).GetOr(0))
    else if StartsWith(line, "FONT_DESCENT ") then h.(descent := ParseI32(Trim(line[13..])).GetOr(0))
    else h
  }

  /** The header loop from line `pos` on: the final values and the position
      just after the "CHARS " line (or the end of the input). */
  function HeaderLoop(lines: seq<string>, pos: nat, h: Header): (r: (Header, nat))
    requires pos <= |lines|
    ensures pos <= r.1 <= |lines|
    decreases |lines| - pos
  {
    if pos == |lines| then (h, pos)
    else
      var line := Trim(lines[pos]);
      if StartsWith(line, "CHARS ") then (h, pos + 1)
      else HeaderLoop(lines, pos + 1, HeaderLine(h, line))
  }

  /** A header line other than "CHARS " updates the header and moves on. */
  lemma HeaderStep(lines: seq<string>, pos: nat, h: Header)
    requires pos < |lines| && !StartsWith(Trim(lines[pos]), "CHARS ")
    ensures HeaderLoop(lines, pos, h) == HeaderLoop(lines, pos + 1, HeaderLine(h, Trim(lines[pos])))
  {
  }

  /** With neither FONT_ASCENT nor FONT_DESCENT set (both 0), the metrics are
      derived from the bounding box; the `i32` arithmetic wraps. */
  function DeriveMetrics(h: Header): (r: Header)
    ensures h.ascent != 0 || h.descent != 0 ==> r == h
  {
    if h.ascent == 0 && h.descent == 0 then
      var descent := WrapI32(-h.bboxOffsetY);
      h.(descent := descent, ascent := WrapI32(WrapI32(h.bboxHeight) - descent))
    else h
  }

  /** The fallback keeps everything but the metrics, takes the descent from the
      bounding-box offset, and makes ascent + descent the box height. */
  lemma DeriveMetricsFallback(h: Header)
    requires h.ascent == 0 && h.descent == 0
    requires I32_MIN < h.bboxOffsetY <= I32_MAX && h.bboxHeight <= I32_MAX
    requires I32_MIN <= h.bboxHeight + h.bboxOffsetY <= I32_MAX
    ensures var r := DeriveMetrics(h);
            r.descent == -h.bboxOffsetY && r.ascent + r.descent == h.bboxHeight
            && r.(ascent := 0, descent := 0) == h
  {
  }

  /** The pixel size a trimmed header line sets, if it sets one: a SIZE line
      with at least one field sets its first field (0 when that is not a
      `u32`), a PIXEL_SIZE line sets its value only when that parses. */
  function SizeSet(line: string): Option<nat> {
    if StartsWith(line, "SIZE ") then
      var parts := SplitWhitespace(line[5..]);
      if parts != [] then Some(ParseU32(parts[0]).GetOr(0)) else None
    else if StartsWith(line, "PIXEL_SIZE ") then ParseU32(Trim(line[11..]))
    else None
  }

  /** A header line leaves the pixel size alone unless it sets one. */
  lemma HeaderLineSize(h: Header, line: string)
    ensures HeaderLine(h, line).pixelSize == SizeSet(line).GetOr(h.pixelSize)
  {
    if |line| > 0 && line[0] == 'F' {
      NotStartsWith(line, "SIZE ", 0);
      NotStartsWith(line, "PIXEL_SIZE ", 0);
    } else {
      NotStartsWith(line, "FONT ", 0);
      NotStartsWith(line, "FONTBOUNDINGBOX ", 0);
      NotStartsWith(line, "FONT_ASCENT ", 0);
      NotStartsWith(line, "FONT_DESCENT ", 0);
    }
  }

  /** The "CHARS " line sets no pixel size. */
  lemma CharsLineSetsNoSize(line: string)
    ensures StartsWith(line, "CHARS ") ==> SizeSet(line).None?
  {
    if |line| >= 6 && line[0] == 'C' {
      assert !StartsWith(line, "SIZE ") && !StartsWith(line, "PIXEL_SIZE ");
    }
  }

  /** Header lines up to the "CHARS " line that set no size keep the pixel size. */
  lemma {:induction false} HeaderLoopKeepsSize(lines: seq<string>, pos: nat, h: Header)
    requires pos <= |lines|
    requires forall k :: pos <= k < HeaderLoop(lines, pos, h).1 ==> SizeSet(Trim(lines[k])).None?
    ensures HeaderLoop(lines, pos, h).0.pixelSize == h.pixelSize
    decreases |lines| - pos
  {
    if pos < |lines| && !StartsWith(Trim(lines[pos]), "CHARS ") {
      var line := Trim(lines[pos]);
      HeaderLineSize(h, line);
      HeaderLoopKeepsSize(lines, pos + 1, HeaderLine(h, line));
    }
  }

  /** The last header line before "CHARS " that sets a size decides the pixel
      size: a PIXEL_SIZE after SIZE overrides it, and a PIXEL_SIZE whose value
      does not parse keeps the size set before it. */
  lemma {:induction false} HeaderLoopLastSize(lines: seq<string>, pos: nat, h: Header, i: nat, v: nat)
    requires pos <= |lines| && pos <= i < HeaderLoop(lines, pos, h).1
    requires SizeSet(Trim(lines[i])) == Some(v)
    requires forall k :: i < k < HeaderLoop(lines, pos, h).1 ==> SizeSet(Trim(lines[k])).None?
    ensures HeaderLoop(lines, pos, h).0.pixelSize == v
    decreases |lines| - pos
  {
    var line := Trim(lines[pos]);
    if pos == i {
      CharsLineSetsNoSize(line);
      HeaderLineSize(h, line);
      HeaderLoopKeepsSize(lines, pos + 1, HeaderLine(h, line));
    } else {
      assert !StartsWith(line, "CHARS ");
      HeaderLoopLastSize(lines, pos + 1, HeaderLine(h, line), i, v);
    }
  }

  // ---------------------------------------------------------------------
  // Glyph records: "STARTCHAR name" up to "ENDCHAR"

  /** The glyph values `parse_glyph` accumulates. */
  datatype GlyphAcc = GlyphAcc(
    encoding: Option<nat>,
    dwidthX: int,
    width: nat,
    height: nat,
    offsetX: int,
    offsetY: int,
    bitmap: seq<seq<byte>>,
    inBitmap: bool)

  function InitialGlyph(): GlyphAcc {
    GlyphAcc(None, 0, 0, 0, 0, 0, [], false)
  }

  /** The effect of a trimmed glyph line that is not ENDCHAR, not a bitmap row
      and not ENCODING. */
  function GlyphLine(g: GlyphAcc, line: string): (r: GlyphAcc)
    ensures r.encoding == g.encoding && r.bitmap == g.bitmap
    ensures line != "BITMAP" ==> r.inBitmap == g.inBitmap
  {
    if StartsWith(line, "DWIDTH ") then
      var parts := SplitWhitespace(line[7..]);
      if parts != [] then g.(dwidthX := ParseI32(parts[0]).GetOr(0)) else g
    else if StartsWith(line, "BBX ") then
      var parts := SplitWhitespace(line[4..]);
      if |parts| >= 4 then
        g.(width := ParseU32(parts[0]).GetOr(0), height := ParseU32(parts[1]).GetOr(0),
           offsetX := ParseI32(parts[2]).GetOr(0), offsetY := ParseI32(parts[3]).GetOr(0))
      else g
    else if line == "BITMAP" then g.(inBitmap := true)
    else g
  }

  /** The finished glyph: none without an ENCODING line. */
  function Finish(name: string, g: GlyphAcc): Option<BdfGlyph> {
    match g.encoding
    case None => None
    case Some(e) => Some(BdfGlyph(e, name, g.dwidthX, g.width, g.height, g.offsetX, g.offsetY, g.bitmap))
  }

  /** The position just after the next trimmed "ENDCHAR" line, or the end. */
  function SkipToEndChar(lines: seq<string>, pos: nat): (r: nat)
    requires pos <= |lines|
    ensures pos <= r <= |lines|
    decreases |lines| - pos
  {
    if pos == |lines| then pos
    else if Trim(lines[pos]) == "ENDCHAR" then pos + 1
    else SkipToEndChar(lines, pos + 1)
  }

  /** One glyph-record line at `pos`: either the accumulator for the next
      line, or the end of the record (its glyph and where parsing resumes, or
      an error). */
  datatype GlyphStep =
    | Continue(next: GlyphAcc)
    | Stop(result: Result<(Option<BdfGlyph>, nat), BdfError>)

  function GlyphLineAt(lines: seq<string>, pos: nat, name: string, g: GlyphAcc): (s: GlyphStep)
    requires pos < |lines|
    ensures s.Stop? && s.result.Ok? ==> pos < s.result.value.1 <= |lines|
    ensures s.Stop? && s.result.Ok? && s.result.value.0.Some? ==> s.result.value.0 == Finish(name, g)
    ensures s.Continue? ==> s.next.encoding == g.encoding
                            || (s.next.encoding.Some? && s.next.encoding.value <= I32_MAX)
    ensures s.Continue? ==> Trim(lines[pos]) != "ENDCHAR"
    ensures s.Continue? && !StartsWith(Trim(lines[pos]), "ENCODING ") ==> s.next.encoding == g.encoding
  {
    var line := Trim(lines[pos]);
    if line == "ENDCHAR" then Stop(Ok((Finish(name, g), pos + 1)))
    else if g.inBitmap then
      match HexRow(Trim(line))
      case Err(e) => Stop(Err(e))
      case Ok(bytes) => Continue(g.(bitmap := g.bitmap + [bytes]))
    else if StartsWith(line, "ENCODING ") then
      var rest := line[9..];
      match ParseI32(Trim(rest))
      case None => Stop(Err(ParseNumber("encoding: " + rest)))
      case Some(enc) =>
        if enc < 0 then Stop(Ok((None, SkipToEndChar(lines, pos + 1))))
        else Continue(g.(encoding := Some(enc)))
    else Continue(GlyphLine(g, line))
  }

  /** The glyph loop from line `pos` on: the glyph (if kept) and the position
      after its ENDCHAR, or the first error. */
  function GlyphLoop(lines: seq<string>, pos: nat, name: string, g: GlyphAcc):
    (r: Result<(Option<BdfGlyph>, nat), BdfError>)
    requires pos <= |lines|
    ensures r.Ok? ==> pos <= r.value.1 <= |lines|
    ensures r.Ok? && r.value.0.Some? && (g.encoding.Some? ==> g.encoding.value <= I32_MAX) ==>
              r.value.0.value.name == name && r.value.0.value.encoding <= I32_MAX
    decreases |lines| - pos
  {
    if pos == |lines| then Ok((Finish(name, g), pos))
    else
      match GlyphLineAt(lines, pos, name, g)
      case Stop(r) => r
      case Continue(g') => GlyphLoop(lines, pos + 1, name, g')
  }

  /** A record line before the bitmap that neither ends the record, starts the
      bitmap nor gives the encoding: SWIDTH, DWIDTH, BBX and unknown keywords. */
  predicate AttributeLine(line: string) {
    line != "ENDCHAR" && line != "BITMAP" && !StartsWith(line, "ENCODING ")
  }

  /** An attribute line before the bitmap only updates the accumulator. */
  lemma AttributeStep(lines: seq<string>, pos: nat, name: string, g: GlyphAcc)
    requires pos < |lines| && !g.inBitmap && AttributeLine(Trim(lines[pos]))
    ensures GlyphLoop(lines, pos, name, g) == GlyphLoop(lines, pos + 1, name, GlyphLine(g, Trim(lines[pos])))
  {
    assert GlyphLineAt(lines, pos, name, g) == Continue(GlyphLine(g, Trim(lines[pos])));
  }

  /** The ENCODING line before the bitmap, at `pos`: a negative number drops
      the record, a number that is not an `i32` is an error. */
  lemma EncodingStep(lines: seq<string>, pos: nat, name: string, g: GlyphAcc)
    requires pos < |lines| && !g.inBitmap && StartsWith(Trim(lines[pos]), "ENCODING ")
    ensures var line := Trim(lines[pos]);
            var enc := ParseI32(Trim(line[9..]));
            && (enc.None? ==> GlyphLoop(lines, pos, name, g) == Err(ParseNumber("encoding: " + line[9..])))
            && (enc.Some? && enc.value < 0 ==>
                  GlyphLoop(lines, pos, name, g) == Ok((None, SkipToEndChar(lines, pos + 1))))
  {
    var line := Trim(lines[pos]);
    assert line != "ENDCHAR";
  }

  /** An ENCODING line before the bitmap with a number that is an `i32` and
      not negative sets the encoding. */
  lemma EncodingSetStep(lines: seq<string>, pos: nat, name: string, g: GlyphAcc, e: nat)
    requires pos < |lines| && !g.inBitmap && StartsWith(Trim(lines[pos]), "ENCODING ")
    requires ParseI32(Trim(Trim(lines[pos])[9..])) == Some(e)
    ensures GlyphLoop(lines, pos, name, g) == GlyphLoop(lines, pos + 1, name, g.(encoding := Some(e)))
  {
    assert Trim(lines[pos]) != "ENDCHAR";
  }

  /** A bitmap line that decodes appends its bytes as the next row. */
  lemma BitmapRowStep(lines: seq<string>, pos: nat, name: string, g: GlyphAcc, row: seq<byte>)
    requires pos < |lines| && g.inBitmap && Trim(lines[pos]) != "ENDCHAR"
    requires HexRow(Trim(Trim(lines[pos]))) == Ok(row)
    ensures GlyphLoop(lines, pos, name, g) == GlyphLoop(lines, pos + 1, name, g.(bitmap := g.bitmap + [row]))
  {
  }

  /** BITMAP before the bitmap starts it. */
  lemma BitmapStartStep(lines: seq<string>, pos: nat, name: string, g: GlyphAcc)
    requires pos < |lines| && !g.inBitmap && Trim(lines[pos]) == "BITMAP"
    ensures GlyphLoop(lines, pos, name, g) == GlyphLoop(lines, pos + 1, name, g.(inBitmap := true))
  {
    var line := Trim(lines[pos]);
    NotStartsWith(line, "ENCODING ", 0);
    NotStartsWith(line, "DWIDTH ", 0);
    NotStartsWith(line, "BBX ", 1);
    assert GlyphLine(g, line) == g.(inBitmap := true);
    assert GlyphLineAt(lines, pos, name, g) == Continue(g.(inBitmap := true));
  }

  /** A bitmap line written as hex appends its row. */
  lemma HexLineStep(lines: seq<string>, pos: nat, name: string, g: GlyphAcc, row: seq<byte>)
    requires g.inBitmap && pos < |lines| && row != [] && lines[pos] == ToHex(row)
    ensures GlyphLoop(lines, pos, name, g) == GlyphLoop(lines, pos + 1, name, g.(bitmap := g.bitmap + [row]))
  {
    TrimNoWhitespace(ToHex(row));
    HexRowRoundTrip(row);
    assert |ToHex(row)| != |"ENDCHAR"|;
    BitmapRowStep(lines, pos, name, g, row);
  }

  /** Byte rows written as hex, one line each. */
  function HexLines(rows: seq<seq<byte>>): (ls: seq<string>)
    ensures |ls| == |rows|
    ensures forall i :: 0 <= i < |rows| ==> HexRow(Trim(ls[i])) == Ok(rows[i])
  {
    HexLinesDecode(rows);
    seq(|rows|, i requires 0 <= i < |rows| => ToHex(rows[i]))
  }

  lemma HexLinesDecode(rows: seq<seq<byte>>)
    ensures forall i :: 0 <= i < |rows| ==> HexRow(Trim(ToHex(rows[i]))) == Ok(rows[i])
  {
    forall i | 0 <= i < |rows| {
      HexRowRoundTrip(rows[i]);
    }
  }

  /** Bitmap lines written as hex append their rows in order. */
  lemma {:induction false} BitmapRows(lines: seq<string>, pos: nat, end: nat, name: string, g: GlyphAcc, rows: seq<seq<byte>>)
    requires g.inBitmap && end == pos + |rows| <= |lines| && lines[pos..end] == HexLines(rows)
    requires [] !in rows
    ensures GlyphLoop(lines, pos, name, g) == GlyphLoop(lines, end, name, g.(bitmap := g.bitmap + rows))
    decreases |rows|
  {
    if rows == [] {
      assert g.bitmap + rows == g.bitmap;
    } else {
      var g' := g.(bitmap := g.bitmap + [rows[0]]);
      HexLinesSplit(lines, pos, end, rows);
      HexLineStep(lines, pos, name, g, rows[0]);
      BitmapRows(lines, pos + 1, end, name, g', rows[1..]);
      AppendRows(g, rows);
    }
  }

  lemma HexLinesSplit(lines: seq<string>, pos: nat, end: nat, rows: seq<seq<byte>>)
    requires end == pos + |rows| <= |lines| && lines[pos..end] == HexLines(rows) && rows != []
    ensures lines[pos] == ToHex(rows[0]) && lines[pos + 1..end] == HexLines(rows[1..])
  {
    assert HexLines(rows)[1..] == HexLines(rows[1..]);
    assert lines[pos] == lines[pos..end][0];
    assert lines[pos + 1..end] == lines[pos..end][1..];
  }

  lemma AppendRows(g: GlyphAcc, rows: seq<seq<byte>>)
    requires rows != []
    ensures var g' := g.(bitmap := g.bitmap + [rows[0]]);
            g'.(bitmap := g'.bitmap + rows[1..]) == g.(bitmap := g.bitmap + rows)
  {
    assert g.bitmap + [rows[0]] + rows[1..] == g.bitmap + rows;
  }

  /** ENDCHAR finishes the record. */
  lemma EndCharStep(lines: seq<string>, pos: nat, name: string, g: GlyphAcc)
    requires pos < |lines| && Trim(lines[pos]) == "ENDCHAR"
    ensures GlyphLoop(lines, pos, name, g) == Ok((Finish(name, g), pos + 1))
  {
  }

  /** A record whose first ENCODING line holds a negative number is dropped,
      and parsing resumes after the record's ENDCHAR. */
  lemma {:induction false} GlyphLoopNegativeDropped(lines: seq<string>, pos: nat, name: string, g: GlyphAcc, i: nat)
    requires pos <= i < |lines| && !g.inBitmap
    requires forall k :: pos <= k < i ==> AttributeLine(Trim(lines[k]))
    requires StartsWith(Trim(lines[i]), "ENCODING ")
    requires var enc := ParseI32(Trim(Trim(lines[i])[9..])); enc.Some? && enc.value < 0
    ensures GlyphLoop(lines, pos, name, g) == Ok((None, SkipToEndChar(lines, i + 1)))
    decreases i - pos
  {
    var line := Trim(lines[pos]);
    if pos < i {
      AttributeStep(lines, pos, name, g);
      GlyphLoopNegativeDropped(lines, pos + 1, name, GlyphLine(g, line), i);
    } else {
      EncodingStep(lines, pos, name, g);
    }
  }

  /** A record whose first ENCODING line does not hold an `i32` fails with a
      number error. */
  lemma {:induction false} GlyphLoopBadEncoding(lines: seq<string>, pos: nat, name: string, g: GlyphAcc, i: nat)
    requires pos <= i < |lines| && !g.inBitmap
    requires forall k :: pos <= k < i ==> AttributeLine(Trim(lines[k]))
    requires StartsWith(Trim(lines[i]), "ENCODING ")
    requires ParseI32(Trim(Trim(lines[i])[9..])).None?
    ensures GlyphLoop(lines, pos, name, g) == Err(ParseNumber("encoding: " + Trim(lines[i])[9..]))
    decreases i - pos
  {
    var line := Trim(lines[pos]);
    if pos < i {
      AttributeStep(lines, pos, name, g);
      GlyphLoopBadEncoding(lines, pos + 1, name, GlyphLine(g, line), i);
    } else {
      EncodingStep(lines, pos, name, g);
    }
  }

  /** A record with no ENCODING line before its ENDCHAR yields no glyph. */
  lemma {:induction false} GlyphLoopNoEncoding(lines: seq<string>, pos: nat, name: string, g: GlyphAcc)
    requires pos <= |lines| && g.encoding.None?
    requires forall k :: pos <= k < SkipToEndChar(lines, pos) ==> !StartsWith(Trim(lines[k]), "ENCODING ")
    ensures GlyphLoop(lines, pos, name, g).Ok? ==> GlyphLoop(lines, pos, name, g).value.0.None?
    decreases |lines| - pos
  {
    if pos < |lines| {
      var step := GlyphLineAt(lines, pos, name, g);
      assert pos < SkipToEndChar(lines, pos);
      if step.Continue? {
        assert SkipToEndChar(lines, pos) == SkipToEndChar(lines, pos + 1);
        assert GlyphLoop(lines, pos, name, g) == GlyphLoop(lines, pos + 1, name, step.next);
        GlyphLoopNoEncoding(lines, pos + 1, name, step.next);
      }
    }
  }

  /** `parse_glyph`: reads one glyph record starting after its STARTCHAR line. */
  method ParseGlyph(lines: seq<string>, start: nat, name: string)
    returns (r: Result<(Option<BdfGlyph>, nat), BdfError>)
    requires start <= |lines|
    ensures r == GlyphLoop(lines, start, name, InitialGlyph())
  {
    var encoding: Option<nat> := None;
    var dwidthX := 0;
    var width := 0;
    var height := 0;
    var offsetX := 0;
    var offsetY := 0;
    var bitmap: seq<seq<byte>> := [];
    var inBitmap := false;
    var pos := start;
    while pos < |lines|
      invariant start <= pos <= |lines|
      invariant GlyphLoop(lines, pos, name, GlyphAcc(encoding, dwidthX, width, height, offsetX, offsetY, bitmap, inBitmap))
                == GlyphLoop(lines, start, name, InitialGlyph())
      decreases |lines| - pos
    {
      var line := Trim(lines[pos]);
      pos := pos + 1;
      if line == "ENDCHAR" {
        break;
      }
      if inBitmap {
        var bytes := ParseHexRow(line);
        if bytes.Err? {
          return Err(bytes.error);
        }
        bitmap := bitmap + [bytes.value];
      } else if StartsWith(line, "ENCODING ") {
        var rest := line[9..];
        var enc := ParseI32(Trim(rest));
        if enc.None? {
          return Err(ParseNumber("encoding: " + rest));
        }
        if enc.value < 0 {
          while pos < |lines|
            invariant start <= pos <= |lines|
            invariant SkipToEndChar(lines, pos) == GlyphLoop(lines, start, name, InitialGlyph()).value.1
            decreases |lines| - pos
          {
            var skipLine := lines[pos];
            pos := pos + 1;
            if Trim(skipLine) == "ENDCHAR" {
              break;
            }
          }
          return Ok((None, pos));
        }
        encoding := Some(enc.value);
      } else if StartsWith(line, "DWIDTH ") {
        var parts := SplitWhitespace(line[7..]);
        if parts != [] {
          dwidthX := ParseI32(parts[0]).GetOr(0);
        }
      } else if StartsWith(line, "BBX ") {
        var parts := SplitWhitespace(line[4..]);
        if |parts| >= 4 {
          width := ParseU32(parts[0]).GetOr(0);
          height := ParseU32(parts[1]).GetOr(0);
          offsetX := ParseI32(parts[2]).GetOr(0);
          offsetY := ParseI32(parts[3]).GetOr(0);
        }
      } else if line == "BITMAP" {
        inBitmap := true;
      }
    }
    var g := GlyphAcc(encoding, dwidthX, width, height, offsetX, offsetY, bitmap, inBitmap);
    r := Ok((Finish(name, g), pos));
  }

  // ---------------------------------------------------------------------
  // The whole font

  /** The glyph section from line `pos` on: each kept glyph is stored under its
      encoding, a later one replacing an earlier one; "ENDFONT" or the end of
      the input stops it. */
  function FontLoop(lines: seq<string>, pos: nat, glyphs: map<nat, BdfGlyph>):
    (r: Result<map<nat, BdfGlyph>, BdfError>)
    requires pos <= |lines|
    decreases |lines| - pos
  {
    if pos == |lines| then Ok(glyphs)
    else
      var line := Trim(lines[pos]);
      if line == "ENDFONT" then Ok(glyphs)
      else if StartsWith(line, "STARTCHAR ") then
        match GlyphLoop(lines, pos + 1, line[10..], InitialGlyph())
        case Err(e) => Err(e)
        case Ok((g, next)) =>
          FontLoop(lines, next, if g.Some? then glyphs[g.value.encoding := g.value] else glyphs)
      else FontLoop(lines, pos + 1, glyphs)
  }

  /** Glyphs are indexed by their own code point: every stored glyph's
      encoding is its key and fits an `i32`. */
  predicate IndexedByEncoding(glyphs: map<nat, BdfGlyph>) {
    forall k :: k in glyphs ==> glyphs[k].encoding == k && k <= I32_MAX
  }

  lemma {:induction false} FontLoopIndexed(lines: seq<string>, pos: nat, glyphs: map<nat, BdfGlyph>)
    requires pos <= |lines|
    requires IndexedByEncoding(glyphs)
    ensures FontLoop(lines, pos, glyphs).Ok? ==> IndexedByEncoding(FontLoop(lines, pos, glyphs).value)
    decreases |lines| - pos
  {
    if pos < |lines| {
      var line := Trim(lines[pos]);
      if line != "ENDFONT" {
        if StartsWith(line, "STARTCHAR ") {
          var r := GlyphLoop(lines, pos + 1, line[10..], InitialGlyph());
          if r.Ok? {
            var (g, next) := r.value;
            var glyphs' := if g.Some? then glyphs[g.value.encoding := g.value] else glyphs;
            assert IndexedByEncoding(glyphs');
            assert FontLoop(lines, pos, glyphs) == FontLoop(lines, next, glyphs');
            FontLoopIndexed(lines, next, glyphs');
          }
        } else {
          assert FontLoop(lines, pos, glyphs) == FontLoop(lines, pos + 1, glyphs);
          FontLoopIndexed(lines, pos + 1, glyphs);
        }
      }
    }
  }

  /** Storing into a merge stores into its right-hand side. */
  lemma MergeStore(earlier: map<nat, BdfGlyph>, glyphs: map<nat, BdfGlyph>, k: nat, g: BdfGlyph)
    ensures (earlier + glyphs)[k := g] == earlier + glyphs[k := g]
  {
  }

  /** One step of the glyph section at a line that is neither ENDFONT nor a
      record that fails: where it resumes and what it stores. */
  lemma FontLoopStep(lines: seq<string>, pos: nat, glyphs: map<nat, BdfGlyph>)
    requires pos < |lines| && Trim(lines[pos]) != "ENDFONT"
    ensures var line := Trim(lines[pos]);
            !StartsWith(line, "STARTCHAR ") ==> FontLoop(lines, pos, glyphs) == FontLoop(lines, pos + 1, glyphs)
    ensures var line := Trim(lines[pos]);
            StartsWith(line, "STARTCHAR ") ==>
              var r := GlyphLoop(lines, pos + 1, line[10..], InitialGlyph());
              && (r.Err? ==> FontLoop(lines, pos, glyphs) == Err(r.error))
              && (r.Ok? && r.value.0.None? ==> FontLoop(lines, pos, glyphs) == FontLoop(lines, r.value.1, glyphs))
              && (r.Ok? && r.value.0.Some? ==>
                    FontLoop(lines, pos, glyphs)
                    == FontLoop(lines, r.value.1, glyphs[r.value.0.value.encoding := r.value.0.value]))
  {
  }

  /** The rest of the glyph section does not depend on the glyphs stored so
      far, and what it stores overrides them: a later glyph with an encoding
      already present replaces the earlier one. */
  lemma {:induction false} FontLoopLaterWins(lines: seq<string>, pos: nat, earlier: map<nat, BdfGlyph>, glyphs: map<nat, BdfGlyph>)
    requires pos <= |lines|
    ensures FontLoop(lines, pos, earlier + glyphs).Ok? <==> FontLoop(lines, pos, glyphs).Ok?
    ensures FontLoop(lines, pos, glyphs).Ok? ==>
              FontLoop(lines, pos, earlier + glyphs).value == earlier + FontLoop(lines, pos, glyphs).value
    decreases |lines| - pos
  {
    if pos < |lines| && Trim(lines[pos]) != "ENDFONT" {
      var line := Trim(lines[pos]);
      FontLoopStep(lines, pos, glyphs);
      FontLoopStep(lines, pos, earlier + glyphs);
      if StartsWith(line, "STARTCHAR ") {
        var r := GlyphLoop(lines, pos + 1, line[10..], InitialGlyph());
        if r.Ok? {
          var (g, next) := r.value;
          if g.Some? {
            MergeStore(earlier, glyphs, g.value.encoding, g.value);
            FontLoopLaterWins(lines, next, earlier, glyphs[g.value.encoding := g.value]);
          } else {
            FontLoopLaterWins(lines, next, earlier, glyphs);
          }
        }
      } else {
        FontLoopLaterWins(lines, pos + 1, earlier, glyphs);
      }
    }
  }

  /** What `parse_str` returns for a file's text. */
  function ParseFont(content: string): Result<BdfFont, BdfError> {
    var lines := Lines(content);
    if lines == [] then Err(InvalidFormat("Empty file"))
    else if !StartsWith(lines[0], "STARTFONT") then Err(InvalidFormat("Missing STARTFONT"))
    else
      var (h0, pos) := HeaderLoop(lines, 1, InitialHeader());
      var h := DeriveMetrics(h0);
      match FontLoop(lines, pos, map[])
      case Err(e) => Err(e)
      case Ok(glyphs) =>
        Ok(BdfFont(h.name, h.pixelSize, h.bboxWidth, h.bboxHeight, h.bboxOffsetX, h.bboxOffsetY,
                   h.ascent, h.descent, glyphs))
  }

  /** An empty file, or one whose first line does not start with "STARTFONT",
      is rejected as invalid; a parsed font's glyphs are indexed by encoding,
      and its metrics are the header's after the bounding-box fallback. */
  lemma ParseFontFacts(content: string)
    ensures Lines(content) == [] || !StartsWith(Lines(content)[0], "STARTFONT") ==>
              ParseFont(content).Err? && ParseFont(content).error.InvalidFormat?
    ensures ParseFont(content).Ok? ==> IndexedByEncoding(ParseFont(content).value.glyphs)
    ensures ParseFont(content).Ok? ==>
              var lines := Lines(content);
              var h := DeriveMetrics(HeaderLoop(lines, 1, InitialHeader()).0);
              var f := ParseFont(content).value;
              f.ascent == h.ascent && f.descent == h.descent && f.bboxHeight == h.bboxHeight
  {
    var lines := Lines(content);
    if lines != [] && StartsWith(lines[0], "STARTFONT") {
      var (h0, pos) := HeaderLoop(lines, 1, InitialHeader());
      FontLoopIndexed(lines, pos, map[]);
    }
  }

  /** The header loop of `parse_str`: from line 1 up to and including the
      "CHARS " line, then the bounding-box fallback for the metrics. */
  method ParseHeader(lines: seq<string>) returns (h: Header, pos: nat)
    requires |lines| >= 1
    ensures pos == HeaderLoop(lines, 1, InitialHeader()).1
    ensures h == DeriveMetrics(HeaderLoop(lines, 1, InitialHeader()).0)
  {
    h := InitialHeader();
    pos := 1;
    while pos < |lines|
      invariant 1 <= pos <= |lines|
      invariant HeaderLoop(lines, pos, h) == HeaderLoop(lines, 1, InitialHeader())
      decreases |lines| - pos
    {
      var line := Trim(lines[pos]);
      assert HeaderLoop(lines, pos, h)
          == if StartsWith(line, "CHARS ") then (h, pos + 1) else HeaderLoop(lines, pos + 1, HeaderLine(h, line));
      pos := pos + 1;
      if StartsWith(line, "CHARS ") {
        break;
      }
      h := HeaderLine(h, line);
    }
    assert HeaderLoop(lines, 1, InitialHeader()) == (h, pos);
    h := DeriveMetrics(h);
  }

  /** The glyph loop of `parse_str`: up to "ENDFONT" or the end of the input. */
  method ParseGlyphs(lines: seq<string>, start: nat) returns (r: Result<map<nat, BdfGlyph>, BdfError>)
    requires start <= |lines|
    ensures r == FontLoop(lines, start, map[])
  {
    var glyphs: map<nat, BdfGlyph> := map[];
    var pos := start;
    while pos < |lines|
      invariant start <= pos <= |lines|
      invariant FontLoop(lines, pos, glyphs) == FontLoop(lines, start, map[])
      decreases |lines| - pos
    {
      var line := Trim(lines[pos]);
      if line == "ENDFONT" {
        break;
      }
      if StartsWith(line, "STARTCHAR ") {
        var glyph := ParseGlyph(lines, pos + 1, line[10..]);
        if glyph.Err? {
          return Err(glyph.error);
        }
        var (g, next) := glyph.value;
        if g.Some? {
          glyphs := glyphs[g.value.encoding := g.value];
        }
        pos := next;
      } else {
        pos := pos + 1;
      }
    }
    r := Ok(glyphs);
  }

  /** `parse_str`. */
  method ParseStr(content: string) returns (r: Result<BdfFont, BdfError>)
    ensures r == ParseFont(content)
  {
    var lines := Lines(content);
    if |lines| == 0 {
      return Err(InvalidFormat("Empty file"));
    }
    if !StartsWith(lines[0], "STARTFONT") {
      return Err(InvalidFormat("Missing STARTFONT"));
    }
    var h, pos := ParseHeader(lines);
    var glyphs := ParseGlyphs(lines, pos);
    if glyphs.Err? {
      return Err(glyphs.error);
    }
    r := Ok(BdfFont(h.name, h.pixelSize, h.bboxWidth, h.bboxHeight, h.bboxOffsetX, h.bboxOffsetY,
                    h.ascent, h.descent, glyphs.value));
  }

  // ---------------------------------------------------------------------
  // Lookups and cell metrics

  /** `get_glyph`: the glyph stored for a code point; in a parsed font it is
      the glyph whose encoding is that code point. */
  function GetGlyph(font: BdfFont, codepoint: nat): (r: Option<BdfGlyph>)
    ensures r.Some? <==> codepoint in font.glyphs
    ensures IndexedByEncoding(font.glyphs) && r.Some? ==> r.value.encoding == codepoint
  {
    if codepoint in font.glyphs then Some(font.glyphs[codepoint]) else None
  }

  /** `cell_width`: the bounding-box width. */
  function CellWidth(font: BdfFont): (w: nat)
    ensures w == font.bboxWidth
  {
    font.bboxWidth
  }

  /** `cell_height`: `(ascent + descent) as u32`, with `i32` wrap-around: the
      `u32` holding the low 32 bits of the sum, so a negative `i32` sum reads
      as that sum plus 2^32. */
  function CellHeight(font: BdfFont): (h: nat)
    ensures h <= U32_MAX && (h - (font.ascent + font.descent)) % TWO_32 == 0
    ensures 0 <= font.ascent + font.descent <= I32_MAX ==> h == font.ascent + font.descent
    ensures I32_MIN <= font.ascent + font.descent < 0 ==> h == font.ascent + font.descent + TWO_32
  {
    var sum := font.ascent + font.descent;
    WrapU32Congruent(WrapI32(sum), sum);
    WrapU32(WrapI32(sum))
  }

  /** When the metrics come from the bounding box, the cell is exactly as tall
      as the box, whatever the offset (the wrap-arounds cancel). */
  lemma DerivedCellHeight(font: BdfFont, h: Header)
    requires h.ascent == 0 && h.descent == 0 && h.bboxHeight <= U32_MAX
    requires font.ascent == DeriveMetrics(h).ascent && font.descent == DeriveMetrics(h).descent
    ensures CellHeight(font) == h.bboxHeight
  {
    var b := h.bboxHeight;
    var d := WrapI32(-h.bboxOffsetY);
    var a := WrapI32(WrapI32(b) - d);
    assert DeriveMetrics(h).ascent == a && DeriveMetrics(h).descent == d;
    assert CellHeight(font) == WrapU32(WrapI32(a + d));
    MultipleAdd(a - (WrapI32(b) - d), WrapI32(b) - b);
    WrapU32Congruent(a + d, b);
    WrapU32Congruent(WrapI32(a + d), a + d);
    assert WrapU32(b) == b;
  }

  // ---------------------------------------------------------------------
  // Rendering

  /** Bit k (0 = least significant) of a byte: `(b >> k) & 1 == 1`. */
  predicate BitSet(b: nat, k: nat) {
    if k == 0 then b % 2 == 1 else BitSet(b / 2, k - 1)
  }

  /** Pixel (row, col) of a glyph: lit when its row and byte exist and bit
      `7 - col % 8` of byte `col / 8` is set (most significant bit first). */
  function Pixel(g: BdfGlyph, row: nat, col: nat): (p: byte)
    ensures p == 0 || p == 255
    ensures p == 255 <==> row < |g.bitmap| && col / 8 < |g.bitmap[row]| && BitSet(g.bitmap[row][col / 8], 7 - col % 8)
  {
    if row < |g.bitmap| && col / 8 < |g.bitmap[row]| && BitSet(g.bitmap[row][col / 8], 7 - col % 8) then 255 else 0
  }

  /** The glyph as an image: `height` rows of `width` pixels. */
  function PixelRows(g: BdfGlyph): (rows: seq<seq<byte>>)
    ensures |rows| == g.height && Uniform(rows, g.width)
  {
    seq(g.height, r requires 0 <= r < g.height => seq(g.width, c requires 0 <= c < g.width => Pixel(g, r, c)))
  }

  /** What `render` returns: the pixels in row-major order. */
  function RenderSpec(g: BdfGlyph): (pixels: seq<byte>)
    ensures |pixels| == g.width * g.height
  {
    FlattenLength(PixelRows(g), g.width);
    Flatten(PixelRows(g))
  }

  /** Pixel (row, col) of the rendered buffer sits at `row * width + col`, and
      the buffer holds nothing else. */
  lemma RenderSpecPixel(g: BdfGlyph, row: nat, col: nat)
    requires row < g.height && col < g.width
    ensures Idx(row, col, g.width) < |RenderSpec(g)|
    ensures RenderSpec(g)[Idx(row, col, g.width)] == Pixel(g, row, col)
  {
    FlattenAt(PixelRows(g), g.width, row, col);
  }

  /** Every rendered pixel is 0 or 255, and rows past the BITMAP lines are blank. */
  lemma RenderSpecValues(g: BdfGlyph, i: nat)
    requires i < |RenderSpec(g)|
    ensures RenderSpec(g)[i] == 0 || RenderSpec(g)[i] == 255
    ensures Idx(|g.bitmap|, 0, g.width) <= i ==> RenderSpec(g)[i] == 0
  {
    var r, c := FlattenCover(PixelRows(g), g.width, i);
    if r < |g.bitmap| {
      IdxRowOrder(r, c, |g.bitmap|, g.width);
    }
  }

  /** `render`: unpacks the bitmap rows into a zeroed buffer, visiting pixels
      in row-major order. */
  method Render(g: BdfGlyph) returns (pixels: seq<byte>)
    ensures pixels == RenderSpec(g)
  {
    var a := new byte[g.width * g.height](_ => 0);
    var rowIdx := 0;
    while rowIdx < |g.bitmap| && rowIdx < g.height
      invariant 0 <= rowIdx <= g.height
      invariant Idx(rowIdx, 0, g.width) <= a.Length
      invariant forall i :: 0 <= i < a.Length ==> a[i] == if i < Idx(rowIdx, 0, g.width) then RenderSpec(g)[i] else 0
    {
      RenderRow(g, a, rowIdx);
      rowIdx := rowIdx + 1;
    }
    RenderTail(g, rowIdx);
    pixels := a[..];
  }

  /** Once the row loop stops, everything not yet visited is blank. */
  lemma RenderTail(g: BdfGlyph, rowIdx: nat)
    requires rowIdx == g.height || rowIdx >= |g.bitmap|
    ensures forall i :: Idx(rowIdx, 0, g.width) <= i < |RenderSpec(g)| ==> RenderSpec(g)[i] == 0
  {
    var spec := RenderSpec(g);
    if rowIdx < g.height {
      IdxRowMonotone(|g.bitmap|, rowIdx, g.width);
      forall i | Idx(rowIdx, 0, g.width) <= i < |spec|
        ensures spec[i] == 0
      {
        RenderSpecValues(g, i);
      }
    } else {
      IdxRowMonotone(g.height, rowIdx, g.width);
      assert Idx(g.height, 0, g.width) == |spec|;
    }
  }

  /** One pass of `render`'s row loop: sets the lit pixels of row `rowIdx`. */
  method RenderRow(g: BdfGlyph, a: array<byte>, rowIdx: nat)
    requires rowIdx < |g.bitmap| && rowIdx < g.height && a.Length == g.width * g.height
    requires forall i :: 0 <= i < a.Length ==> a[i] == if i < Idx(rowIdx, 0, g.width) then RenderSpec(g)[i] else 0
    modifies a
    ensures Idx(rowIdx + 1, 0, g.width) <= a.Length
    ensures forall i :: 0 <= i < a.Length ==> a[i] == if i < Idx(rowIdx + 1, 0, g.width) then RenderSpec(g)[i] else 0
  {
    var w := g.width;
    var rowBytes := g.bitmap[rowIdx];
    IdxInBounds(rowIdx, 0, w + 1, g.height);
    var col := 0;
    while col < w
      invariant 0 <= col <= w
      invariant Idx(rowIdx, col, w) <= a.Length
      invariant forall i :: 0 <= i < a.Length ==> a[i] == if i < Idx(rowIdx, col, w) then RenderSpec(g)[i] else 0
    {
      var byteIdx := col / 8;
      var bitIdx := 7 - col % 8;
      RenderSpecPixel(g, rowIdx, col);
      if byteIdx < |rowBytes| && BitSet(rowBytes[byteIdx], bitIdx) {
        a[Idx(rowIdx, col, w)] := 255;
      }
      col := col + 1;
    }
    IdxNextRow(rowIdx, w);
  }

  // ---------------------------------------------------------------------
  // Scaling

  /** `ScaledGlyph`: a glyph resized to another cell size. */
  datatype ScaledGlyph = ScaledGlyph(
    width: nat,
    height: nat,
    offsetX: int,
    offsetY: int,
    dwidthX: int,
    bitmap: seq<byte>)

  /** A scaled dimension: `(size * scale).round() as u32`, at least 1. */
  function ScaledDim(size: nat, scale: real): (d: nat)
    requires scale >= 0.0
    ensures 1 <= d <= U32_MAX
  {
    Max(SatU32(Round(size as real * scale)), 1)
  }

  /** The source column (or row) sampled for destination `dst`:
      `(dst / scale).floor() as u32`, capped at `size - 1`. A zero scale only
      arises with a one-pixel destination, where `0.0 / 0.0` is NaN and the
      cast gives 0. */
  function SourceIndex(dst: nat, scale: real, size: nat): (s: nat)
    requires scale >= 0.0 && size > 0
    ensures s < size
  {
    if scale == 0.0 then 0
    else Min(SatU32((dst as real / scale).Floor), size - 1)
  }

  /** Source pixel `(SourceIndex(y), SourceIndex(x))` of the rendered glyph. */
  function SampledPixel(g: BdfGlyph, y: nat, x: nat, scaleX: real, scaleY: real): byte
    requires g.width > 0 && g.height > 0 && scaleX >= 0.0 && scaleY >= 0.0
  {
    var sx := SourceIndex(x, scaleX, g.width);
    var sy := SourceIndex(y, scaleY, g.height);
    RenderSpecPixel(g, sy, sx);
    RenderSpec(g)[Idx(sy, sx, g.width)]
  }

  /** The scaled image: `sh` rows of `sw` sampled pixels. */
  function ScaledRows(g: BdfGlyph, sw: nat, sh: nat, scaleX: real, scaleY: real): (rows: seq<seq<byte>>)
    requires g.width > 0 && g.height > 0 && scaleX >= 0.0 && scaleY >= 0.0
    ensures |rows| == sh && Uniform(rows, sw)
  {
    seq(sh, y requires 0 <= y < sh => seq(sw, x requires 0 <= x < sw => SampledPixel(g, y, x, scaleX, scaleY)))
  }

  /** The nearest-neighbour bitmap: destination pixel (y, x) copies the
      sampled source pixel. */
  function NearestNeighbour(g: BdfGlyph, sw: nat, sh: nat, scaleX: real, scaleY: real): (s: seq<byte>)
    requires g.width > 0 && g.height > 0 && scaleX >= 0.0 && scaleY >= 0.0
    ensures |s| == sw * sh
  {
    FlattenLength(ScaledRows(g, sw, sh, scaleX, scaleY), sw);
    Flatten(ScaledRows(g, sw, sh, scaleX, scaleY))
  }

  /** What `render_scaled` returns when scaling from a `sourceW` x `sourceH`
      cell to a `targetW` x `targetH` cell. */
  function ScaleFactor(target: nat, source: nat): (s: real)
    requires source > 0
    ensures s >= 0.0
  {
    target as real / source as real
  }

  /** A scaled offset or advance: `(v as f32 * scale).round() as i32`. */
  function ScaledOffset(v: int, scale: real): (r: int)
    ensures I32_MIN <= r <= I32_MAX
    ensures scale == 1.0 && I32_MIN <= v <= I32_MAX ==> r == v
  {
    SatI32(Round(v as real * scale))
  }

  function ScaledSpec(g: BdfGlyph, targetW: nat, targetH: nat, sourceW: nat, sourceH: nat): ScaledGlyph
    requires sourceW > 0 && sourceH > 0
  {
    ScaledFrom(g, ScaleFactor(targetW, sourceW), ScaleFactor(targetH, sourceH))
  }

  function ScaledFrom(g: BdfGlyph, scaleX: real, scaleY: real): ScaledGlyph
    requires scaleX >= 0.0 && scaleY >= 0.0
  {
    var sw := ScaledDim(g.width, scaleX);
    var sh := ScaledDim(g.height, scaleY);
    var ox := ScaledOffset(g.offsetX, scaleX);
    var oy := ScaledOffset(g.offsetY, scaleY);
    var dx := ScaledOffset(g.dwidthX, scaleX);
    if g.width == sw && g.height == sh then ScaledGlyph(sw, sh, ox, oy, dx, RenderSpec(g))
    else if g.width == 0 || g.height == 0 then ScaledGlyph(0, 0, ox, oy, dx, [])
    else ScaledGlyph(sw, sh, ox, oy, dx, NearestNeighbour(g, sw, sh, scaleX, scaleY))
  }

  /** `render_scaled`. */
  method RenderScaled(g: BdfGlyph, targetW: nat, targetH: nat, sourceW: nat, sourceH: nat)
    returns (r: ScaledGlyph)
    requires sourceW > 0 && sourceH > 0
    ensures r == ScaledSpec(g, targetW, targetH, sourceW, sourceH)
  {
    var scaleX := ScaleFactor(targetW, sourceW);
    var scaleY := ScaleFactor(targetH, sourceH);
    var scaledWidth := ScaledDim(g.width, scaleX);
    var scaledHeight := ScaledDim(g.height, scaleY);
    var scaledOffsetX := ScaledOffset(g.offsetX, scaleX);
    var scaledOffsetY := ScaledOffset(g.offsetY, scaleY);
    var scaledDwidthX := ScaledOffset(g.dwidthX, scaleX);
    var original := Render(g);
    if g.width == scaledWidth && g.height == scaledHeight {
      return ScaledGlyph(scaledWidth, scaledHeight, scaledOffsetX, scaledOffsetY, scaledDwidthX, original);
    }
    if g.width == 0 || g.height == 0 {
      return ScaledGlyph(0, 0, scaledOffsetX, scaledOffsetY, scaledDwidthX, []);
    }
    var bitmap := ScaleNearest(g, original, scaledWidth, scaledHeight, scaleX, scaleY);
    r := ScaledGlyph(scaledWidth, scaledHeight, scaledOffsetX, scaledOffsetY, scaledDwidthX, bitmap);
  }

  /** The nearest-neighbour loops of `render_scaled`. */
  method ScaleNearest(g: BdfGlyph, original: seq<byte>, sw: nat, sh: nat, scaleX: real, scaleY: real)
    returns (bitmap: seq<byte>)
    requires g.width > 0 && g.height > 0 && scaleX >= 0.0 && scaleY >= 0.0
    requires original == RenderSpec(g)
    ensures bitmap == NearestNeighbour(g, sw, sh, scaleX, scaleY)
  {
    var scaled := new byte[sw * sh](_ => 0);
    ghost var spec := NearestNeighbour(g, sw, sh, scaleX, scaleY);
    var dstY := 0;
    while dstY < sh
      invariant 0 <= dstY <= sh
      invariant forall i :: 0 <= i < Idx(dstY, 0, sw) && i < scaled.Length ==> scaled[i] == spec[i]
    {
      ScaleRow(g, original, scaled, sw, sh, scaleX, scaleY, dstY);
      dstY := dstY + 1;
    }
    assert Idx(sh, 0, sw) == scaled.Length;
    bitmap := scaled[..];
  }

  /** One destination row of the nearest-neighbour loops. */
  method ScaleRow(g: BdfGlyph, original: seq<byte>, scaled: array<byte>, sw: nat, sh: nat,
                  scaleX: real, scaleY: real, dstY: nat)
    requires g.width > 0 && g.height > 0 && scaleX >= 0.0 && scaleY >= 0.0
    requires original == RenderSpec(g)
    requires scaled.Length == sw * sh && dstY < sh
    requires forall i :: 0 <= i < Idx(dstY, 0, sw) && i < scaled.Length ==>
               scaled[i] == NearestNeighbour(g, sw, sh, scaleX, scaleY)[i]
    modifies scaled
    ensures forall i :: 0 <= i < Idx(dstY + 1, 0, sw) && i < scaled.Length ==>
              scaled[i] == NearestNeighbour(g, sw, sh, scaleX, scaleY)[i]
  {
    ghost var rows := ScaledRows(g, sw, sh, scaleX, scaleY);
    ghost var spec := NearestNeighbour(g, sw, sh, scaleX, scaleY);
    var dstX := 0;
    while dstX < sw
      invariant 0 <= dstX <= sw
      invariant forall i :: 0 <= i < Idx(dstY, dstX, sw) && i < scaled.Length ==> scaled[i] == spec[i]
    {
      var srcX := SourceIndex(dstX, scaleX, g.width);
      var srcY := SourceIndex(dstY, scaleY, g.height);
      RenderSpecPixel(g, srcY, srcX);
      FlattenAt(rows, sw, dstY, dstX);
      scaled[Idx(dstY, dstX, sw)] := original[Idx(srcY, srcX, g.width)];
      dstX := dstX + 1;
    }
    IdxNextRow(dstY, sw);
  }

  /** Equal target and source sizes give the scale factor 1. */
  lemma ScaleFactorSame(n: nat)
    requires n > 0
    ensures ScaleFactor(n, n) == 1.0
  {
    SelfRatio(n);
  }

  /** A doubled target size gives the scale factor 2. */
  lemma ScaleFactorDouble(n: nat)
    requires n > 0
    ensures ScaleFactor(2 * n, n) == 2.0
  {
    DoubleRatio(n);
  }

  /** A whole-number scale multiplies a non-zero dimension exactly, as long
      as the product fits in a `u32`. */
  lemma ScaledDimWhole(size: nat, k: nat)
    requires size > 0 && k > 0 && size * k <= U32_MAX
    ensures ScaledDim(size, k as real) == size * k
  {
    assert size as real * k as real == (size * k) as real;
    RoundIntegral(size * k);
  }

  /** Under doubling, destination `2c + d` samples source `c`. */
  lemma SourceIndexDouble(c: nat, d: nat, size: nat)
    requires d < 2 && c < size <= U32_MAX
    ensures SourceIndex(2 * c + d, 2.0, size) == c
  {
    HalfFloor(c, d);
  }

  /** Scaling to the source cell size changes nothing: a non-empty glyph
      keeps its size and its bitmap is exactly what `render` produces, and an
      empty glyph stays empty. */
  lemma ScaledSameSize(g: BdfGlyph, w: nat, h: nat)
    requires w > 0 && h > 0 && g.width <= U32_MAX && g.height <= U32_MAX
    ensures ScaledSpec(g, w, h, w, h).bitmap == RenderSpec(g)
    ensures g.width > 0 && g.height > 0 ==>
              ScaledSpec(g, w, h, w, h).width == g.width && ScaledSpec(g, w, h, w, h).height == g.height
  {
    ScaleFactorSame(w);
    ScaleFactorSame(h);
    if g.width > 0 && g.height > 0 {
      ScaledDimWhole(g.width, 1);
      ScaledDimWhole(g.height, 1);
    } else {
      assert |RenderSpec(g)| == 0;
    }
  }

  /** A non-empty glyph keeps non-zero dimensions and a bitmap of exactly
      width * height pixels, each 0 or 255. */
  lemma ScaledShape(g: BdfGlyph, targetW: nat, targetH: nat, sourceW: nat, sourceH: nat)
    requires sourceW > 0 && sourceH > 0 && g.width > 0 && g.height > 0
    ensures var s := ScaledSpec(g, targetW, targetH, sourceW, sourceH);
            s.width >= 1 && s.height >= 1 && |s.bitmap| == s.width * s.height
            && forall i :: 0 <= i < |s.bitmap| ==> s.bitmap[i] == 0 || s.bitmap[i] == 255
  {
    var s := ScaledSpec(g, targetW, targetH, sourceW, sourceH);
    var scaleX := ScaleFactor(targetW, sourceW);
    var scaleY := ScaleFactor(targetH, sourceH);
    forall i | 0 <= i < |s.bitmap|
      ensures s.bitmap[i] == 0 || s.bitmap[i] == 255
    {
      if s.bitmap == RenderSpec(g) {
        RenderSpecValues(g, i);
      } else {
        var y, x := FlattenCover(ScaledRows(g, s.width, s.height, scaleX, scaleY), s.width, i);
        var sx := SourceIndex(x, scaleX, g.width);
        var sy := SourceIndex(y, scaleY, g.height);
        RenderSpecPixel(g, sy, sx);
      }
    }
  }

  /** Exact doubling turns every source pixel into a 2x2 block. */
  lemma ScaledDouble(g: BdfGlyph, sourceW: nat, sourceH: nat, row: nat, col: nat, dy: nat, dx: nat)
    requires sourceW > 0 && sourceH > 0
    requires 2 * g.width <= U32_MAX && 2 * g.height <= U32_MAX
    requires row < g.height && col < g.width && dy < 2 && dx < 2
    ensures var s := ScaledSpec(g, 2 * sourceW, 2 * sourceH, sourceW, sourceH);
            s.width == 2 * g.width && s.height == 2 * g.height
            && Idx(2 * row + dy, 2 * col + dx, s.width) < |s.bitmap|
            && s.bitmap[Idx(2 * row + dy, 2 * col + dx, s.width)] == Pixel(g, row, col)
  {
    ScaleFactorDouble(sourceW);
    ScaleFactorDouble(sourceH);
    ScaledDimWhole(g.width, 2);
    ScaledDimWhole(g.height, 2);
    var sw := 2 * g.width;
    var sh := 2 * g.height;
    assert ScaledSpec(g, 2 * sourceW, 2 * sourceH, sourceW, sourceH)
        == ScaledGlyph(sw, sh, ScaledOffset(g.offsetX, 2.0), ScaledOffset(g.offsetY, 2.0),
                       ScaledOffset(g.dwidthX, 2.0), NearestNeighbour(g, sw, sh, 2.0, 2.0));
    var y := 2 * row + dy;
    var x := 2 * col + dx;
    SourceIndexDouble(col, dx, g.width);
    SourceIndexDouble(row, dy, g.height);
    FlattenAt(ScaledRows(g, sw, sh, 2.0, 2.0), sw, y, x);
    RenderSpecPixel(g, row, col);
  }
}
