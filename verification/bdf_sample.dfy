/** The sample font of the BDF loader's tests (crates/crt-renderer/src/bdf.rs):
    a 6×13 font with a space and a capital A. Its text is read here line by
    line through `ParseFont`, so the values the tests look up in the parsed
    font, and the capital A the rendering facts are about, are what the
    parser produces from that text. */
module BdfSample {
  import opened Wrappers
  import opened Text
  import opened Bdf

  const FONT_NAME: string := "-Test-Fixed-Medium-R-" + "Normal--13-120-75-75-C-60-ISO10646-1"

  /** From STARTFONT to CHARS. */
  const HEADER_LINES: seq<string> :=
    ["STARTFONT 2.1",
     "FONT " + FONT_NAME,
     "SIZE 13 75 75",
     "FONTBOUNDINGBOX 6 13 0 -2",
     "STARTPROPERTIES 2",
     "FONT_ASCENT 11",
     "FONT_DESCENT 2",
     "ENDPROPERTIES",
     "CHARS 2"]

  /** The bitmap rows of the two records, as hex text. */
  const SPACE_HEX: seq<string> := ["00", "00", "00", "00", "00", "00", "00", "00", "00", "00", "00", "00", "00"]
  const A_HEX: seq<string> := ["00", "00", "20", "50", "88", "88", "88", "F8", "88", "88", "88", "00", "00"]

  const SPACE_LINES: seq<string> :=
    ["STARTCHAR space",
     "ENCODING 32",
     "SWIDTH 480 0",
     "DWIDTH 6 0",
     "BBX 6 13 0 -2",
     "BITMAP"] + SPACE_HEX + ["ENDCHAR"]

  const A_LINES: seq<string> :=
    ["STARTCHAR A",
     "ENCODING 65",
     "SWIDTH 480 0",
     "DWIDTH 6 0",
     "BBX 6 13 0 -2",
     "BITMAP"] + A_HEX + ["ENDCHAR"]

  const SAMPLE_LINES: seq<string> := HEADER_LINES + SPACE_LINES + A_LINES + ["ENDFONT"]

  /** The sample font's text: its lines, each ended by a newline. */
  function SampleText(): string {
    JoinLines(SAMPLE_LINES + [""])
  }

  const SPACE_ROWS: seq<seq<byte>> :=
    [[0x00], [0x00], [0x00], [0x00], [0x00], [0x00], [0x00], [0x00], [0x00], [0x00], [0x00], [0x00], [0x00]]

  const A_ROWS: seq<seq<byte>> :=
    [[0x00], [0x00], [0x20], [0x50], [0x88], [0x88], [0x88], [0xF8], [0x88], [0x88], [0x88], [0x00], [0x00]]

  // ---------------------------------------------------------------------
  // The header lines

  lemma FontLine(line: string, h: Header)
    requires line == "FONT " + FONT_NAME
    ensures Trim(line) == line && !StartsWith(line, "CHARS ")
    ensures HeaderLine(h, line) == h.(name := FONT_NAME)
  {
    TrimEnds(line);
    NotStartsWith(line, "CHARS ", 0);
    assert StartsWith(line, "FONT ") && line[5..] == FONT_NAME;
  }

  lemma SizeLine(line: string, h: Header)
    requires line == "SIZE 13 75 75"
    ensures Trim(line) == line && !StartsWith(line, "CHARS ")
    ensures HeaderLine(h, line) == h.(pixelSize := 13)
  {
    SizeText(line);
    SizeWords(line[5..]);
    NumbersRead();
  }

  lemma SizeText(line: string)
    requires line == "SIZE 13 75 75"
    ensures Trim(line) == line && !StartsWith(line, "CHARS ") && !StartsWith(line, "FONT ")
    ensures StartsWith(line, "SIZE ") && line[5..] == "13 75 75"
  {
    TrimEnds(line);
    NotStartsWith(line, "CHARS ", 0);
    NotStartsWith(line, "FONT ", 0);
  }

  lemma SizeWords(t: string)
    requires t == "13 75 75"
    ensures SplitWhitespace(t) == ["13", "75", "75"]
  {
    assert t == "13" + " " + ("75" + " " + "75");
    assert Word("13") && Word("75");
    SplitThree("13", "75", "75");
  }

  /** The numbers of the sample's box, metrics and encoding lines. */
  lemma NumbersRead()
    ensures ParseU32("6") == Some(6) && ParseU32("13") == Some(13)
    ensures ParseI32("0") == Some(0) && ParseI32("-2") == Some(-2) && ParseI32("6") == Some(6)
    ensures ParseI32("11") == Some(11) && ParseI32("2") == Some(2)
    ensures ParseI32("32") == Some(32) && ParseI32("65") == Some(65)
  {
    ParseSmall("6");
    ParseSmall("13");
    ParseSmall("0");
    ParseSmall("2");
    ParseSmall("11");
    ParseSmall("32");
    ParseSmall("65");
    assert ['-'] + "2" == "-2";
  }

  /** "6 13 0 -2": the box of the font and of both glyphs. */
  lemma BoxWords(t: string)
    requires t == "6 13 0 -2"
    ensures SplitWhitespace(t) == ["6", "13", "0", "-2"]
  {
    assert t == "6" + " " + ("13" + " " + ("0" + " " + "-2"));
    assert Word("6") && Word("13") && Word("0") && Word("-2");
    SplitFour("6", "13", "0", "-2");
  }

  lemma BoxLine(line: string, h: Header)
    requires line == "FONTBOUNDINGBOX 6 13 0 -2"
    ensures Trim(line) == line && !StartsWith(line, "CHARS ")
    ensures HeaderLine(h, line) == h.(bboxWidth := 6, bboxHeight := 13, bboxOffsetX := 0, bboxOffsetY := -2)
  {
    BoxText(line);
    BoxWords(line[16..]);
    NumbersRead();
  }

  lemma BoxText(line: string)
    requires line == "FONTBOUNDINGBOX 6 13 0 -2"
    ensures Trim(line) == line && !StartsWith(line, "CHARS ") && !StartsWith(line, "FONT ")
    ensures !StartsWith(line, "SIZE ") && !StartsWith(line, "PIXEL_SIZE ")
    ensures StartsWith(line, "FONTBOUNDINGBOX ") && line[16..] == "6 13 0 -2"
  {
    TrimEnds(line);
    NotStartsWith(line, "CHARS ", 0);
    NotStartsWith(line, "FONT ", 4);
    NotStartsWith(line, "SIZE ", 0);
    NotStartsWith(line, "PIXEL_SIZE ", 0);
  }

  lemma PropertiesLine(line: string, h: Header)
    requires line == "STARTPROPERTIES 2" || line == "ENDPROPERTIES"
    ensures Trim(line) == line && !StartsWith(line, "CHARS ")
    ensures HeaderLine(h, line) == h
  {
    TrimEnds(line);
    NotStartsWith(line, "CHARS ", 0);
    NotStartsWith(line, "FONT ", 0);
    NotStartsWith(line, "SIZE ", 1);
    NotStartsWith(line, "PIXEL_SIZE ", 0);
    NotStartsWith(line, "FONTBOUNDINGBOX ", 0);
    NotStartsWith(line, "FONT_ASCENT ", 0);
    NotStartsWith(line, "FONT_DESCENT ", 0);
  }

  lemma AscentLine(line: string, h: Header)
    requires line == "FONT_ASCENT 11"
    ensures Trim(line) == line && !StartsWith(line, "CHARS ")
    ensures HeaderLine(h, line) == h.(ascent := 11)
  {
    TrimEnds(line);
    NotStartsWith(line, "CHARS ", 0);
    NotStartsWith(line, "FONT ", 4);
    NotStartsWith(line, "SIZE ", 0);
    NotStartsWith(line, "PIXEL_SIZE ", 0);
    NotStartsWith(line, "FONTBOUNDINGBOX ", 4);
    assert StartsWith(line, "FONT_ASCENT ") && line[12..] == "11";
    TrimEnds("11");
    NumbersRead();
  }

  lemma DescentLine(line: string, h: Header)
    requires line == "FONT_DESCENT 2"
    ensures Trim(line) == line && !StartsWith(line, "CHARS ")
    ensures HeaderLine(h, line) == h.(descent := 2)
  {
    TrimEnds(line);
    NotStartsWith(line, "CHARS ", 0);
    NotStartsWith(line, "FONT ", 4);
    NotStartsWith(line, "SIZE ", 0);
    NotStartsWith(line, "PIXEL_SIZE ", 0);
    NotStartsWith(line, "FONTBOUNDINGBOX ", 4);
    NotStartsWith(line, "FONT_ASCENT ", 5);
    assert StartsWith(line, "FONT_DESCENT ") && line[13..] == "2";
    TrimEnds("2");
    NumbersRead();
  }

  lemma CharsLine(line: string)
    requires line == "CHARS 2"
    ensures Trim(line) == line && StartsWith(line, "CHARS ")
  {
    TrimEnds(line);
  }

  /** The header the sample's lines give. */
  const SAMPLE_HEADER: Header := Header(FONT_NAME, 13, 6, 13, 0, -2, 11, 2)

  lemma HeaderAt(lines: seq<string>)
    requires |lines| >= 9 && lines[..9] == HEADER_LINES
    ensures lines[1] == "FONT " + FONT_NAME && lines[2] == "SIZE 13 75 75"
    ensures lines[3] == "FONTBOUNDINGBOX 6 13 0 -2" && lines[4] == "STARTPROPERTIES 2"
    ensures lines[5] == "FONT_ASCENT 11" && lines[6] == "FONT_DESCENT 2"
    ensures lines[7] == "ENDPROPERTIES" && lines[8] == "CHARS 2"
  {
    assert forall k :: 0 <= k < 9 ==> lines[k] == HEADER_LINES[k];
  }

  /** A header line other than CHARS, given its effect. */
  lemma HeaderLineStep(lines: seq<string>, pos: nat, h: Header, h': Header)
    requires pos < |lines| && Trim(lines[pos]) == lines[pos] && !StartsWith(lines[pos], "CHARS ")
    requires HeaderLine(h, lines[pos]) == h'
    ensures HeaderLoop(lines, pos, h) == HeaderLoop(lines, pos + 1, h')
  {
    HeaderStep(lines, pos, h);
  }

  lemma SampleHeaderFirst(lines: seq<string>)
    requires |lines| >= 9 && lines[..9] == HEADER_LINES
    ensures HeaderLoop(lines, 1, InitialHeader())
            == HeaderLoop(lines, 4, InitialHeader().(name := FONT_NAME, pixelSize := 13,
                 bboxWidth := 6, bboxHeight := 13, bboxOffsetX := 0, bboxOffsetY := -2))
  {
    HeaderAt(lines);
    var h0 := InitialHeader();
    var h1 := h0.(name := FONT_NAME);
    var h2 := h1.(pixelSize := 13);
    var h3 := h2.(bboxWidth := 6, bboxHeight := 13, bboxOffsetX := 0, bboxOffsetY := -2);
    FontLine(lines[1], h0);
    HeaderLineStep(lines, 1, h0, h1);
    SizeLine(lines[2], h1);
    HeaderLineStep(lines, 2, h1, h2);
    BoxLine(lines[3], h2);
    HeaderLineStep(lines, 3, h2, h3);
  }

  lemma SampleHeaderRest(lines: seq<string>, h: Header)
    requires |lines| >= 9 && lines[..9] == HEADER_LINES
    ensures HeaderLoop(lines, 4, h) == (h.(ascent := 11, descent := 2), 9)
  {
    HeaderAt(lines);
    var h1 := h.(ascent := 11);
    var h2 := h1.(descent := 2);
    PropertiesLine(lines[4], h);
    HeaderLineStep(lines, 4, h, h);
    AscentLine(lines[5], h);
    HeaderLineStep(lines, 5, h, h1);
    DescentLine(lines[6], h1);
    HeaderLineStep(lines, 6, h1, h2);
    PropertiesLine(lines[7], h2);
    HeaderLineStep(lines, 7, h2, h2);
    CharsLine(lines[8]);
  }

  /** The header loop reads the sample's header up to CHARS. */
  lemma SampleHeader(lines: seq<string>)
    requires |lines| >= 9 && lines[..9] == HEADER_LINES
    ensures HeaderLoop(lines, 1, InitialHeader()) == (SAMPLE_HEADER, 9)
  {
    SampleHeaderFirst(lines);
    SampleHeaderRest(lines, InitialHeader().(name := FONT_NAME, pixelSize := 13,
      bboxWidth := 6, bboxHeight := 13, bboxOffsetX := 0, bboxOffsetY := -2));
  }

  // ---------------------------------------------------------------------
  // The glyph record lines

  lemma StartCharLine(line: string, name: string)
    requires Word(name) && line == "STARTCHAR " + name
    ensures Trim(line) == line && line != "ENDFONT" && StartsWith(line, "STARTCHAR ") && line[10..] == name
  {
    TrimEnds(line);
    assert |line| != |"ENDFONT"|;
  }

  lemma EncodingLine(line: string, e: nat)
    requires (line == "ENCODING 32" && e == 32) || (line == "ENCODING 65" && e == 65)
    ensures Trim(line) == line && StartsWith(line, "ENCODING ") && ParseI32(Trim(line[9..])) == Some(e)
  {
    EncodingText(line);
    NumbersRead();
  }

  lemma EncodingText(line: string)
    requires line == "ENCODING 32" || line == "ENCODING 65"
    ensures Trim(line) == line && StartsWith(line, "ENCODING ")
    ensures line == "ENCODING 32" ==> Trim(line[9..]) == "32"
    ensures line == "ENCODING 65" ==> Trim(line[9..]) == "65"
  {
    TrimEnds(line);
    TrimEnds(line[9..]);
  }

  /** SWIDTH is read past: it leaves the accumulator as it was. */
  lemma SwidthLine(line: string, g: GlyphAcc)
    requires line == "SWIDTH 480 0"
    ensures Trim(line) == line && AttributeLine(line) && GlyphLine(g, line) == g
  {
    TrimEnds(line);
    NotStartsWith(line, "ENCODING ", 0);
    NotStartsWith(line, "DWIDTH ", 0);
    NotStartsWith(line, "BBX ", 0);
  }

  lemma DwidthWords(t: string)
    requires t == "6 0"
    ensures SplitWhitespace(t) == ["6", "0"]
  {
    assert t == "6" + " " + "0";
    assert Word("6") && Word("0");
    SplitTwo("6", "0");
  }

  lemma DwidthLine(line: string, g: GlyphAcc)
    requires line == "DWIDTH 6 0"
    ensures Trim(line) == line && AttributeLine(line) && GlyphLine(g, line) == g.(dwidthX := 6)
  {
    TrimEnds(line);
    NotStartsWith(line, "ENCODING ", 0);
    assert StartsWith(line, "DWIDTH ");
    DwidthWords(line[7..]);
    NumbersRead();
  }

  lemma BbxLine(line: string, g: GlyphAcc)
    requires line == "BBX 6 13 0 -2"
    ensures Trim(line) == line && AttributeLine(line)
    ensures GlyphLine(g, line) == g.(width := 6, height := 13, offsetX := 0, offsetY := -2)
  {
    BbxText(line);
    BoxWords(line[4..]);
    NumbersRead();
  }

  lemma BbxText(line: string)
    requires line == "BBX 6 13 0 -2"
    ensures Trim(line) == line && AttributeLine(line)
    ensures !StartsWith(line, "DWIDTH ") && StartsWith(line, "BBX ") && line[4..] == "6 13 0 -2"
  {
    TrimEnds(line);
    NotStartsWith(line, "ENCODING ", 0);
    NotStartsWith(line, "DWIDTH ", 0);
  }

  lemma KeywordLine(line: string)
    requires line == "BITMAP" || line == "ENDCHAR" || line == "ENDFONT"
    ensures Trim(line) == line
  {
    TrimEnds(line);
  }

  lemma HexByte(b: byte, t: string)
    requires || (b == 0x00 && t == "00") || (b == 0x20 && t == "20") || (b == 0x50 && t == "50")
             || (b == 0x88 && t == "88") || (b == 0xF8 && t == "F8")
    ensures ToHex([b]) == t
  {
  }

  lemma HexLinesOf(rows: seq<seq<byte>>, hex: seq<string>)
    requires |rows| == |hex| && forall i :: 0 <= i < |rows| ==> ToHex(rows[i]) == hex[i]
    ensures HexLines(rows) == hex
  {
  }

  /** Each row of a one-byte-per-row bitmap is written as its byte's two hex digits. */
  lemma SampleHex()
    ensures HexLines(SPACE_ROWS) == SPACE_HEX && HexLines(A_ROWS) == A_HEX
  {
    forall i | 0 <= i < 13 ensures ToHex(SPACE_ROWS[i]) == SPACE_HEX[i] {
      HexByte(SPACE_ROWS[i][0], SPACE_HEX[i]);
      assert SPACE_ROWS[i] == [SPACE_ROWS[i][0]];
    }
    HexLinesOf(SPACE_ROWS, SPACE_HEX);
    forall i | 0 <= i < 13 ensures ToHex(A_ROWS[i]) == A_HEX[i] {
      HexByte(A_ROWS[i][0], A_HEX[i]);
      assert A_ROWS[i] == [A_ROWS[i][0]];
    }
    HexLinesOf(A_ROWS, A_HEX);
  }

  // ---------------------------------------------------------------------
  // One glyph record

  /** A record of the sample after its STARTCHAR line: the ENCODING line,
      the shared SWIDTH, DWIDTH and BBX lines, BITMAP, the rows and ENDCHAR. */
  function RecordBody(encLine: string, rows: seq<seq<byte>>): (body: seq<string>)
    ensures |body| == 6 + |rows|
  {
    [encLine, "SWIDTH 480 0", "DWIDTH 6 0", "BBX 6 13 0 -2", "BITMAP"] + HexLines(rows) + ["ENDCHAR"]
  }

  lemma RecordAt(lines: seq<string>, pos: nat, end: nat, encLine: string, rows: seq<seq<byte>>)
    requires end == pos + 6 + |rows| <= |lines| && lines[pos..end] == RecordBody(encLine, rows)
    ensures lines[pos] == encLine && lines[pos + 1] == "SWIDTH 480 0" && lines[pos + 2] == "DWIDTH 6 0"
    ensures lines[pos + 3] == "BBX 6 13 0 -2" && lines[pos + 4] == "BITMAP"
    ensures lines[pos + 5..end - 1] == HexLines(rows) && lines[end - 1] == "ENDCHAR"
  {
    var body := RecordBody(encLine, rows);
    assert forall k :: 0 <= k < |body| ==> lines[pos + k] == body[k];
    assert lines[pos + 5..end - 1] == body[5..|body| - 1];
  }

  /** The glyph accumulated up to the bitmap. */
  function BoxedGlyph(e: nat): GlyphAcc {
    GlyphAcc(Some(e), 6, 6, 13, 0, -2, [], true)
  }

  lemma RecordHead(lines: seq<string>, pos: nat, name: string, encLine: string, e: nat)
    requires pos + 5 <= |lines| && lines[pos] == encLine && lines[pos + 1] == "SWIDTH 480 0"
    requires lines[pos + 2] == "DWIDTH 6 0" && lines[pos + 3] == "BBX 6 13 0 -2" && lines[pos + 4] == "BITMAP"
    requires (encLine == "ENCODING 32" && e == 32) || (encLine == "ENCODING 65" && e == 65)
    ensures GlyphLoop(lines, pos, name, InitialGlyph()) == GlyphLoop(lines, pos + 5, name, BoxedGlyph(e))
  {
    var g0 := InitialGlyph();
    var g1 := g0.(encoding := Some(e));
    var g2 := g1.(dwidthX := 6);
    var g3 := g2.(width := 6, height := 13, offsetX := 0, offsetY := -2);
    EncodingLine(lines[pos], e);
    EncodingSetStep(lines, pos, name, g0, e);
    SwidthLine(lines[pos + 1], g1);
    AttributeStep(lines, pos + 1, name, g1);
    DwidthLine(lines[pos + 2], g1);
    AttributeStep(lines, pos + 2, name, g1);
    BbxLine(lines[pos + 3], g2);
    AttributeStep(lines, pos + 3, name, g2);
    KeywordLine(lines[pos + 4]);
    BitmapStartStep(lines, pos + 4, name, g3);
  }

  lemma RecordRows(lines: seq<string>, pos: nat, last: nat, name: string, e: nat, rows: seq<seq<byte>>)
    requires last == pos + 5 + |rows| <= |lines| && lines[pos + 5..last] == HexLines(rows)
    requires [] !in rows
    ensures GlyphLoop(lines, pos + 5, name, BoxedGlyph(e)) == GlyphLoop(lines, last, name, BoxedGlyph(e).(bitmap := rows))
  {
    var g := BoxedGlyph(e);
    assert g.bitmap + rows == rows;
    BitmapRows(lines, pos + 5, last, name, g, rows);
  }

  lemma RecordEnd(lines: seq<string>, last: nat, name: string, e: nat, rows: seq<seq<byte>>)
    requires last < |lines| && lines[last] == "ENDCHAR"
    ensures GlyphLoop(lines, last, name, BoxedGlyph(e).(bitmap := rows)) == Ok((Some(BdfGlyph(e, name, 6, 6, 13, 0, -2, rows)), last + 1))
  {
    KeywordLine(lines[last]);
    EndCharStep(lines, last, name, BoxedGlyph(e).(bitmap := rows));
  }

  lemma RecordTail(lines: seq<string>, pos: nat, last: nat, name: string, e: nat, rows: seq<seq<byte>>)
    requires last == pos + 5 + |rows| < |lines| && lines[pos + 5..last] == HexLines(rows) && lines[last] == "ENDCHAR"
    requires [] !in rows
    ensures GlyphLoop(lines, pos + 5, name, BoxedGlyph(e)) == Ok((Some(BdfGlyph(e, name, 6, 6, 13, 0, -2, rows)), last + 1))
  {
    RecordRows(lines, pos, last, name, e, rows);
    RecordEnd(lines, last, name, e, rows);
  }

  /** A sample record is read into its glyph, and reading resumes after its
      ENDCHAR. */
  lemma RecordGlyph(lines: seq<string>, pos: nat, end: nat, name: string, encLine: string, e: nat, rows: seq<seq<byte>>)
    requires end == pos + 6 + |rows| <= |lines| && lines[pos..end] == RecordBody(encLine, rows)
    requires (encLine == "ENCODING 32" && e == 32) || (encLine == "ENCODING 65" && e == 65)
    requires [] !in rows
    ensures GlyphLoop(lines, pos, name, InitialGlyph()) == Ok((Some(BdfGlyph(e, name, 6, 6, 13, 0, -2, rows)), end))
  {
    var last := end - 1;
    assert GlyphLoop(lines, pos, name, InitialGlyph()) == GlyphLoop(lines, pos + 5, name, BoxedGlyph(e)) by {
      RecordAt(lines, pos, end, encLine, rows);
      RecordHead(lines, pos, name, encLine, e);
    }
    assert lines[pos + 5..last] == HexLines(rows) && lines[last] == "ENDCHAR" by {
      RecordAt(lines, pos, end, encLine, rows);
    }
    RecordTail(lines, pos, last, name, e, rows);
  }

  /** With its STARTCHAR line in front, the record's glyph is stored under
      its encoding. */
  lemma RecordStored(lines: seq<string>, pos: nat, end: nat, name: string, encLine: string, e: nat,
                     rows: seq<seq<byte>>, glyphs: map<nat, BdfGlyph>)
    requires Word(name) && pos < |lines| && lines[pos] == "STARTCHAR " + name
    requires end == pos + 7 + |rows| <= |lines| && lines[pos + 1..end] == RecordBody(encLine, rows)
    requires (encLine == "ENCODING 32" && e == 32) || (encLine == "ENCODING 65" && e == 65)
    requires [] !in rows
    ensures FontLoop(lines, pos, glyphs) == FontLoop(lines, end, glyphs[e := BdfGlyph(e, name, 6, 6, 13, 0, -2, rows)])
  {
    StartCharLine(lines[pos], name);
    FontLoopStep(lines, pos, glyphs);
    RecordGlyph(lines, pos + 1, end, name, encLine, e, rows);
  }

  // ---------------------------------------------------------------------
  // The sample's layout and its glyphs

  lemma RecordShape(start: string, encLine: string, rows: seq<seq<byte>>, hex: seq<string>)
    requires HexLines(rows) == hex
    ensures [start, encLine, "SWIDTH 480 0", "DWIDTH 6 0", "BBX 6 13 0 -2", "BITMAP"] + hex + ["ENDCHAR"]
            == [start] + RecordBody(encLine, rows)
  {
    var head := ["SWIDTH 480 0", "DWIDTH 6 0", "BBX 6 13 0 -2", "BITMAP"];
    assert [start, encLine] + head == [start] + ([encLine] + head);
  }

  lemma SpaceRecord()
    ensures SPACE_LINES == ["STARTCHAR space"] + RecordBody("ENCODING 32", SPACE_ROWS) && [] !in SPACE_ROWS
  {
    SampleHex();
    RecordShape("STARTCHAR space", "ENCODING 32", SPACE_ROWS, SPACE_HEX);
  }

  lemma ARecord()
    ensures A_LINES == ["STARTCHAR A"] + RecordBody("ENCODING 65", A_ROWS) && [] !in A_ROWS
  {
    SampleHex();
    RecordShape("STARTCHAR A", "ENCODING 65", A_ROWS, A_HEX);
  }

  lemma Layout(lines: seq<string>, head: seq<string>, first: seq<string>, second: seq<string>, tail: string)
    requires lines == head + first + second + [tail] && |head| == 9 && |first| == 20 && |second| == 20
    ensures |lines| == 50 && lines[..9] == head && lines[9..29] == first && lines[29..49] == second && lines[49] == tail
  {
    assert lines[..9] == head;
    assert lines[9..29] == first;
    assert lines[29..49] == second;
  }

  lemma RecordSlices(lines: seq<string>, pos: nat, end: nat, record: seq<string>, body: seq<string>)
    requires end <= |lines| && pos + 1 <= end && lines[pos..end] == record && record == [record[0]] + body
    ensures lines[pos] == record[0] && lines[pos + 1..end] == body
  {
    assert lines[pos] == lines[pos..end][0];
    assert lines[pos + 1..end] == lines[pos..end][1..];
  }

  /** The capital A the sample's record describes. */
  const A_GLYPH: BdfGlyph := BdfGlyph(65, "A", 6, 6, 13, 0, -2, A_ROWS)
  const SPACE_GLYPH: BdfGlyph := BdfGlyph(32, "space", 6, 6, 13, 0, -2, SPACE_ROWS)

  lemma SampleSpace(lines: seq<string>, glyphs: map<nat, BdfGlyph>)
    requires |lines| == 50 && lines[9..29] == SPACE_LINES
    ensures FontLoop(lines, 9, glyphs) == FontLoop(lines, 29, glyphs[32 := SPACE_GLYPH])
  {
    SpaceRecord();
    RecordSlices(lines, 9, 29, SPACE_LINES, RecordBody("ENCODING 32", SPACE_ROWS));
    assert Word("space");
    RecordStored(lines, 9, 29, "space", "ENCODING 32", 32, SPACE_ROWS, glyphs);
  }

  lemma SampleA(lines: seq<string>, glyphs: map<nat, BdfGlyph>)
    requires |lines| == 50 && lines[29..49] == A_LINES
    ensures FontLoop(lines, 29, glyphs) == FontLoop(lines, 49, glyphs[65 := A_GLYPH])
  {
    ARecord();
    RecordSlices(lines, 29, 49, A_LINES, RecordBody("ENCODING 65", A_ROWS));
    assert Word("A");
    RecordStored(lines, 29, 49, "A", "ENCODING 65", 65, A_ROWS, glyphs);
  }

  /** The glyph loop stores the space and the capital A and stops at ENDFONT. */
  lemma SampleGlyphs(lines: seq<string>)
    requires lines == SAMPLE_LINES
    ensures FontLoop(lines, 9, map[]) == Ok(map[32 := SPACE_GLYPH, 65 := A_GLYPH])
  {
    Layout(lines, HEADER_LINES, SPACE_LINES, A_LINES, "ENDFONT");
    SampleSpace(lines, map[]);
    SampleA(lines, map[32 := SPACE_GLYPH]);
    KeywordLine(lines[49]);
    assert map[32 := SPACE_GLYPH][65 := A_GLYPH] == map[32 := SPACE_GLYPH, 65 := A_GLYPH];
  }

  // ---------------------------------------------------------------------
  // The sample's text and its lines

  lemma HexNoBreaks(rows: seq<seq<byte>>)
    ensures NoBreaks(HexLines(rows))
  {
    forall i | 0 <= i < |rows|
      ensures NoBreakChars(HexLines(rows)[i])
    {
      var t := ToHex(rows[i]);
      assert HexLines(rows)[i] == t;
      assert forall j :: 0 <= j < |t| ==> !IsWhitespace(t[j]);
    }
  }

  lemma NamePiecesFree()
    ensures NoBreakChars("STARTFONT 2.1") && NoBreakChars("FONT ") && NoBreakChars("-Test-Fixed-Medium-R-")
  {
  }

  lemma NameTailFree()
    ensures NoBreakChars("Normal--13-120-75-75-C-60-ISO10646-1")
  {
  }

  lemma SizeLinesFree()
    ensures NoBreakChars("SIZE 13 75 75") && NoBreakChars("FONTBOUNDINGBOX 6 13 0 -2")
  {
  }

  lemma PropertyLinesFree()
    ensures NoBreakChars("STARTPROPERTIES 2") && NoBreakChars("FONT_ASCENT 11")
  {
  }

  lemma CountLinesFree()
    ensures NoBreakChars("FONT_DESCENT 2") && NoBreakChars("ENDPROPERTIES") && NoBreakChars("CHARS 2")
  {
  }

  lemma StartLinesFree()
    ensures NoBreakChars("STARTCHAR space") && NoBreakChars("ENCODING 32")
    ensures NoBreakChars("STARTCHAR A") && NoBreakChars("ENCODING 65")
  {
  }

  lemma WidthLinesFree()
    ensures NoBreakChars("SWIDTH 480 0") && NoBreakChars("DWIDTH 6 0")
  {
  }

  lemma KeywordLinesFree()
    ensures NoBreakChars("BBX 6 13 0 -2") && NoBreakChars("BITMAP")
    ensures NoBreakChars("ENDCHAR") && NoBreakChars("ENDFONT") && NoBreakChars("")
  {
  }

  lemma Free2(a: string, b: string)
    requires NoBreakChars(a) && NoBreakChars(b)
    ensures NoBreaks([a, b])
  {
  }

  lemma Free5(a: string, b: string, c: string, d: string, e: string)
    requires NoBreakChars(a) && NoBreakChars(b) && NoBreakChars(c) && NoBreakChars(d) && NoBreakChars(e)
    ensures NoBreaks([a, b, c, d, e])
  {
  }

  lemma Free6(a: string, b: string, c: string, d: string, e: string, f: string)
    requires NoBreakChars(a) && NoBreakChars(b) && NoBreakChars(c) && NoBreakChars(d)
    requires NoBreakChars(e) && NoBreakChars(f)
    ensures NoBreaks([a, b, c, d, e, f])
  {
  }

  lemma HeaderNoBreaks()
    ensures NoBreaks(HEADER_LINES)
  {
    var a, b := "-Test-Fixed-Medium-R-", "Normal--13-120-75-75-C-60-ISO10646-1";
    NamePiecesFree();
    NameTailFree();
    NoBreakCharsCat(a, b);
    NoBreakCharsCat("FONT ", a + b);
    SizeLinesFree();
    PropertyLinesFree();
    CountLinesFree();
    var first := ["STARTFONT 2.1", "FONT " + FONT_NAME];
    var rest := ["SIZE 13 75 75", "FONTBOUNDINGBOX 6 13 0 -2", "STARTPROPERTIES 2", "FONT_ASCENT 11"];
    var props := ["FONT_DESCENT 2", "ENDPROPERTIES", "CHARS 2"];
    Free2(first[0], first[1]);
    Free5(rest[0], rest[1], rest[2], rest[3], props[0]);
    Free2(props[1], props[2]);
    NoBreaksCat(first, rest + [props[0]]);
    NoBreaksCat(first + (rest + [props[0]]), [props[1], props[2]]);
    assert HEADER_LINES == first + (rest + [props[0]]) + [props[1], props[2]];
  }

  lemma RecordNoBreaks(start: string, encLine: string, rows: seq<seq<byte>>)
    requires NoBreakChars(start) && NoBreakChars(encLine)
    ensures NoBreaks([start] + RecordBody(encLine, rows))
  {
    WidthLinesFree();
    KeywordLinesFree();
    var head := [start, encLine, "SWIDTH 480 0", "DWIDTH 6 0", "BBX 6 13 0 -2", "BITMAP"];
    Free6(start, encLine, "SWIDTH 480 0", "DWIDTH 6 0", "BBX 6 13 0 -2", "BITMAP");
    HexNoBreaks(rows);
    NoBreaksCat(head, HexLines(rows));
    assert NoBreaks(["ENDCHAR"]);
    NoBreaksCat(head + HexLines(rows), ["ENDCHAR"]);
    RecordShape(start, encLine, rows, HexLines(rows));
  }

  lemma JoinFree(h: seq<string>, s: seq<string>, a: seq<string>, e: string)
    requires NoBreaks(h) && NoBreaks(s) && NoBreaks(a) && NoBreakChars(e)
    ensures NoBreaks(h + s + a + [e] + [""])
  {
    Free2(e, "");
    NoBreaksCat(h, s);
    NoBreaksCat(h + s, a);
    NoBreaksCat(h + s + a, [e, ""]);
    assert h + s + a + [e] + [""] == h + s + a + [e, ""];
  }

  lemma SampleNoBreaks()
    ensures NoBreaks(SAMPLE_LINES + [""])
  {
    HeaderNoBreaks();
    StartLinesFree();
    KeywordLinesFree();
    SpaceRecord();
    RecordNoBreaks("STARTCHAR space", "ENCODING 32", SPACE_ROWS);
    ARecord();
    RecordNoBreaks("STARTCHAR A", "ENCODING 65", A_ROWS);
    JoinFree(HEADER_LINES, SPACE_LINES, A_LINES, "ENDFONT");
  }

  /** The sample's text splits back into the sample's lines. */
  lemma SampleLines()
    ensures Lines(SampleText()) == SAMPLE_LINES
  {
    var xs := SAMPLE_LINES + [""];
    SampleNoBreaks();
    LinesOfJoin(xs);
    assert xs[..|xs| - 1] == SAMPLE_LINES;
  }

  // ---------------------------------------------------------------------
  // The parsed sample

  /** The font the sample describes. */
  const SAMPLE_FONT: BdfFont := BdfFont(FONT_NAME, 13, 6, 13, 0, -2, 11, 2, map[32 := SPACE_GLYPH, 65 := A_GLYPH])

  lemma SampleStart(lines: seq<string>)
    requires lines == SAMPLE_LINES
    ensures |lines| == 50 && lines[..9] == HEADER_LINES && StartsWith(lines[0], "STARTFONT")
  {
    Layout(lines, HEADER_LINES, SPACE_LINES, A_LINES, "ENDFONT");
    assert lines[0] == HEADER_LINES[0];
  }

  /** Parsing the sample's text gives the sample font: its header values, a
      space and a capital A. */
  lemma SampleParses()
    ensures ParseFont(SampleText()) == Ok(SAMPLE_FONT)
  {
    var lines := Lines(SampleText());
    SampleLines();
    SampleStart(lines);
    SampleHeader(lines);
    SampleGlyphs(lines);
  }

  lemma TwoGlyphs(glyphs: map<nat, BdfGlyph>)
    requires glyphs == map[32 := SPACE_GLYPH, 65 := A_GLYPH]
    ensures |glyphs| == 2 && 65 in glyphs && glyphs[65] == A_GLYPH
  {
    assert glyphs.Keys == {32, 65};
  }

  lemma SampleCell(f: BdfFont)
    requires f == SAMPLE_FONT
    ensures CellWidth(f) == 6 && CellHeight(f) == 13
  {
  }

  /** What the loader's test checks in the parsed sample: the bounding box,
      ascent and descent, two glyphs, the 6×13 cell, and an A under code
      point 65 with a 6×13 box and 13 bitmap rows. */
  lemma SampleFontFacts(f: BdfFont)
    requires ParseFont(SampleText()) == Ok(f)
    ensures f.bboxWidth == 6 && f.bboxHeight == 13 && f.ascent == 11 && f.descent == 2
    ensures |f.glyphs| == 2 && CellWidth(f) == 6 && CellHeight(f) == 13
    ensures GetGlyph(f, 65) == Some(A_GLYPH)
    ensures A_GLYPH.encoding == 65 && A_GLYPH.width == 6 && A_GLYPH.height == 13 && |A_GLYPH.bitmap| == 13
  {
    SampleParses();
    TwoGlyphs(f.glyphs);
    SampleCell(f);
  }

  /** The rendered A, row 2 (byte 0x20): column 2 is lit and column 0 is not. */
  lemma SampleARow2()
    ensures var p := RenderSpec(A_GLYPH);
            |p| == 78 && p[2 * 6 + 2] == 255 && p[2 * 6] == 0
  {
    var g := A_GLYPH;
    assert BitSet(1, 0) && BitSet(2, 1) && BitSet(4, 2) && BitSet(8, 3) && BitSet(16, 4) && BitSet(32, 5);
    assert !BitSet(0, 0) && !BitSet(0, 1) && !BitSet(1, 2) && !BitSet(2, 3);
    assert !BitSet(4, 4) && !BitSet(8, 5) && !BitSet(16, 6) && !BitSet(32, 7);
    RenderSpecPixel(g, 2, 2);
    RenderSpecPixel(g, 2, 0);
  }

  /** The rendered A, row 7 (byte 0xF8, the cross bar): columns 0 to 4 are
      lit and column 5 is not. */
  lemma SampleARow7()
    ensures var p := RenderSpec(A_GLYPH);
            |p| == 78 && p[7 * 6] == 255 && p[7 * 6 + 4] == 255 && p[7 * 6 + 5] == 0
  {
    var g := A_GLYPH;
    assert BitSet(1, 0) && BitSet(3, 1) && BitSet(7, 2) && BitSet(15, 3);
    assert BitSet(31, 4) && BitSet(62, 5) && BitSet(124, 6) && BitSet(248, 7);
    assert BitSet(31, 0) && BitSet(62, 1) && BitSet(124, 2) && BitSet(248, 3);
    assert !BitSet(62, 0) && !BitSet(124, 1) && !BitSet(248, 2);
    RenderSpecPixel(g, 7, 0);
    RenderSpecPixel(g, 7, 4);
    RenderSpecPixel(g, 7, 5);
  }

  /** The A looked up in the parsed sample renders as the loader's test
      expects. */
  lemma SampleRenderA(f: BdfFont)
    requires ParseFont(SampleText()) == Ok(f)
    ensures GetGlyph(f, 65).Some?
    ensures var p := RenderSpec(GetGlyph(f, 65).value);
            && |p| == 78 && p[2 * 6 + 2] == 255 && p[2 * 6] == 0
            && p[7 * 6] == 255 && p[7 * 6 + 4] == 255 && p[7 * 6 + 5] == 0
  {
    SampleFontFacts(f);
    var g := GetGlyph(f, 65).value;
    assert g == A_GLYPH;
    ARendered(g);
  }

  lemma ARendered(g: BdfGlyph)
    requires g == A_GLYPH
    ensures var p := RenderSpec(g);
            && |p| == 78 && p[2 * 6 + 2] == 255 && p[2 * 6] == 0
            && p[7 * 6] == 255 && p[7 * 6 + 4] == 255 && p[7 * 6 + 5] == 0
  {
    SampleARow2();
    SampleARow7();
  }
}
