/** The scrollback snapshot of a pane: the colour codec between the
    terminal's colours and their serialized form, and the plain-text export
    `to_ansi_output` (one line of UTF-8 text per grid line, trailing
    whitespace trimmed). */
module Scrollback {
  import opened Wrappers
  import opened Text

  /** The terminal's named colours, in the order of the decode table. */
  datatype NamedColor =
    | Black | Red | Green | Yellow | Blue | Magenta | Cyan | White
    | BrightBlack | BrightRed | BrightGreen | BrightYellow
    | BrightBlue | BrightMagenta | BrightCyan | BrightWhite
    | Foreground | Background | Cursor
    | DimBlack | DimRed | DimGreen | DimYellow | DimBlue | DimMagenta | DimCyan | DimWhite
    | BrightForeground | DimForeground

  /** A terminal colour: named, an index into the 256-colour palette, or
      an RGB triple. */
  datatype Color = Named(name: NamedColor) | Indexed(index: byte) | Spec(r: byte, g: byte, b: byte)

  /** The serialized colour: a named colour's code, a palette index or an
      RGB triple. */
  datatype SerializedColor = NamedCode(code: byte) | IndexedCode(idx: byte) | RgbCode(red: byte, green: byte, blue: byte)

  /** The named colour a code decodes to: codes 0 to 28 by the table, any
      other code to `Foreground`. */
  function NamedFromCode(n: byte): NamedColor {
    match n
    case 0 => Black
    case 1 => Red
    case 2 => Green
    case 3 => Yellow
    case 4 => Blue
    case 5 => Magenta
    case 6 => Cyan
    case 7 => White
    case 8 => BrightBlack
    case 9 => BrightRed
    case 10 => BrightGreen
    case 11 => BrightYellow
    case 12 => BrightBlue
    case 13 => BrightMagenta
    case 14 => BrightCyan
    case 15 => BrightWhite
    case 16 => Foreground
    case 17 => Background
    case 18 => Cursor
    case 19 => DimBlack
    case 20 => DimRed
    case 21 => DimGreen
    case 22 => DimYellow
    case 23 => DimBlue
    case 24 => DimMagenta
    case 25 => DimCyan
    case 26 => DimWhite
    case 27 => BrightForeground
    case 28 => DimForeground
    case _ => Foreground
  }

  /** The position of each named colour in the decode table, as a
      reference for it. */
  function TablePosition(c: NamedColor): (n: nat)
    ensures n < 29
  {
    match c
    case Black => 0
    case Red => 1
    case Green => 2
    case Yellow => 3
    case Blue => 4
    case Magenta => 5
    case Cyan => 6
    case White => 7
    case BrightBlack => 8
    case BrightRed => 9
    case BrightGreen => 10
    case BrightYellow => 11
    case BrightBlue => 12
    case BrightMagenta => 13
    case BrightCyan => 14
    case BrightWhite => 15
    case Foreground => 16
    case Background => 17
    case Cursor => 18
    case DimBlack => 19
    case DimRed => 20
    case DimGreen => 21
    case DimYellow => 22
    case DimBlue => 23
    case DimMagenta => 24
    case DimCyan => 25
    case DimWhite => 26
    case BrightForeground => 27
    case DimForeground => 28
  }

  /** A code up to 28 decodes to the colour at that position of the
      table; a code above 28 decodes to `Foreground`. */
  lemma DecodeTable(n: byte)
    ensures n <= 28 ==> TablePosition(NamedFromCode(n)) == n
    ensures n > 28 ==> NamedFromCode(n) == Foreground
  {
  }

  /** Every named colour is the decoding of its table position. */
  lemma TableCovers(c: NamedColor)
    ensures NamedFromCode(TablePosition(c)) == c
  {
  }

  /** The codes 0 to 28 decode to 29 distinct colours. */
  lemma DecodeDistinct(n: byte, m: byte)
    requires n <= 28 && m <= 28 && n != m
    ensures NamedFromCode(n) != NamedFromCode(m)
  {
    DecodeTable(n);
    DecodeTable(m);
  }

  /** `From<SerializedColor> for Color`. */
  function Decode(s: SerializedColor): (c: Color)
    ensures s.NamedCode? <==> c.Named?
    ensures s.IndexedCode? ==> c == Indexed(s.idx)
    ensures s.RgbCode? ==> c == Spec(s.red, s.green, s.blue)
  {
    match s
    case NamedCode(n) => Named(NamedFromCode(n))
    case IndexedCode(i) => Indexed(i)
    case RgbCode(r, g, b) => Spec(r, g, b)
  }

  /** `From<Color> for SerializedColor`. A named colour is stored as its
      enum discriminant cast to `u8`; the discriminants belong to the
      terminal library, so they are the parameter `discriminant`. */
  function Encode(discriminant: NamedColor -> byte, c: Color): (s: SerializedColor)
    ensures c.Named? <==> s.NamedCode?
    ensures c.Named? ==> s.code == discriminant(c.name)
  {
    match c
    case Named(named) => NamedCode(discriminant(named))
    case Indexed(i) => IndexedCode(i)
    case Spec(r, g, b) => RgbCode(r, g, b)
  }

  /** Palette indices and RGB triples survive a round trip in both
      directions, whatever the named discriminants are. */
  lemma IndexedAndRgbRoundTrip(discriminant: NamedColor -> byte, c: Color, s: SerializedColor)
    ensures !c.Named? ==> Decode(Encode(discriminant, c)) == c
    ensures !s.NamedCode? ==> Encode(discriminant, Decode(s)) == s
  {
  }

  /** A named colour survives the round trip exactly when its discriminant
      is its position in the decode table, or, for `Foreground` only, any
      code above 28. */
  lemma NamedRoundTrip(discriminant: NamedColor -> byte, c: NamedColor)
    ensures Decode(Encode(discriminant, Named(c))) == Named(c)
            <==> discriminant(c) == TablePosition(c) || (c == Foreground && discriminant(c) > 28)
  {
    var n := discriminant(c);
    DecodeTable(n);
    TableCovers(c);
    assert Decode(Encode(discriminant, Named(c))) == Named(NamedFromCode(n));
    if n > 28 {
      assert NamedFromCode(n) == Foreground;
    } else if NamedFromCode(n) == c {
      assert TablePosition(c) == n;
    }
  }

  /** One grid cell of the snapshot; `flags` is the cell's 16-bit flag set. */
  datatype SerializedCell = SerializedCell(c: char, fg: SerializedColor, bg: SerializedColor, flags: nat)

  datatype SerializedLine = SerializedLine(cells: seq<SerializedCell>)

  /** A pane's scrollback, oldest line first. */
  datatype ScrollbackData = ScrollbackData(version: nat, columns: nat, lines: seq<SerializedLine>)

  const CURRENT_VERSION: nat := 1

  /** The newline byte. */
  const LF: byte := 0x0A

  /** The characters of a line's cells, in column order. */
  function LineText(cells: seq<SerializedCell>): (s: string)
    ensures |s| == |cells| && forall j :: 0 <= j < |cells| ==> s[j] == cells[j].c
  {
    if cells == [] then [] else LineText(cells[..|cells| - 1]) + [cells[|cells| - 1].c]
  }

  /** A line's text without its trailing whitespace, in UTF-8. */
  function TrimmedBytes(line: SerializedLine): seq<byte> {
    Utf8Str(TrimEnd(LineText(line.cells)))
  }

  /** Each line's trimmed bytes, in line order. */
  function Encodings(lines: seq<SerializedLine>): (rows: seq<seq<byte>>)
    ensures |rows| == |lines| && forall k :: 0 <= k < |lines| ==> rows[k] == TrimmedBytes(lines[k])
  {
    if lines == [] then [] else Encodings(lines[..|lines| - 1]) + [TrimmedBytes(lines[|lines| - 1])]
  }

  /** Rows of bytes, each followed by a newline. */
  function Terminated(rows: seq<seq<byte>>): seq<byte> {
    if rows == [] then [] else Terminated(rows[..|rows| - 1]) + rows[|rows| - 1] + [LF]
  }

  /** The export of `lines`. */
  function AnsiOutput(lines: seq<SerializedLine>): seq<byte> {
    Terminated(Encodings(lines))
  }

  /** `ScrollbackData::to_ansi_output`. */
  method ToAnsiOutput(data: ScrollbackData) returns (output: seq<byte>)
    ensures output == AnsiOutput(data.lines)
  {
    output := [];
    for k := 0 to |data.lines|
      invariant output == Terminated(Encodings(data.lines[..k]))
    {
      assert data.lines[..k + 1][..k] == data.lines[..k];
      ghost var rows := Encodings(data.lines[..k + 1]);
      assert rows[..k] == Encodings(data.lines[..k]);
      var lineStr := CollectLine(data.lines[k].cells);
      var trimmed := TrimEnd(lineStr);
      output := output + Utf8Str(trimmed);
      output := output + [LF];
    }
    assert data.lines[..|data.lines|] == data.lines;
  }

  /** The inner loop of `to_ansi_output`: a line's characters pushed one by one. */
  method CollectLine(cells: seq<SerializedCell>) returns (lineStr: string)
    ensures lineStr == LineText(cells)
  {
    lineStr := [];
    for j := 0 to |cells|
      invariant lineStr == LineText(cells[..j])
    {
      assert cells[..j + 1][..j] == cells[..j];
      lineStr := lineStr + [cells[j].c];
    }
    assert cells[..|cells|] == cells;
  }

  /** Terminating two runs of rows is terminating each, one after the other. */
  lemma {:induction false} TerminatedAppend(a: seq<seq<byte>>, b: seq<seq<byte>>)
    ensures Terminated(a + b) == Terminated(a) + Terminated(b)
  {
    if b == [] {
      assert a + b == a;
    } else {
      var init := b[..|b| - 1];
      var last := b[|b| - 1];
      assert (a + b)[..|a + b| - 1] == a + init;
      assert (a + b)[|a + b| - 1] == last;
      TerminatedAppend(a, init);
      calc {
        Terminated(a + b);
        Terminated(a + init) + last + [LF];
        Terminated(a) + Terminated(init) + last + [LF];
        Terminated(a) + (Terminated(init) + last + [LF]);
        Terminated(a) + Terminated(b);
      }
    }
  }

  /** UTF-8 puts a newline byte only where the text has a newline: every
      byte of a longer encoding is at least 0x80. */
  lemma {:induction false} Utf8NoNewline(s: string)
    requires forall j :: 0 <= j < |s| ==> s[j] != '\n'
    ensures LF !in Utf8Str(s)
  {
    if s != [] {
      Utf8NoNewline(s[..|s| - 1]);
      var c := s[|s| - 1];
      var e := Utf8(c);
      if (c as int) < 0x80 {
        assert e == [c as int];
      } else {
        assert forall t :: 0 <= t < |e| ==> e[t] >= 0x80;
      }
    }
  }

  /** Text made only of ASCII characters encodes to one byte per character. */
  lemma {:induction false} Utf8Ascii(s: string)
    requires forall j :: 0 <= j < |s| ==> (s[j] as int) < 0x80
    ensures |Utf8Str(s)| == |s|
  {
    if s != [] {
      Utf8Ascii(s[..|s| - 1]);
    }
  }

  /** The index of the first newline in `bs`, or `|bs|` when there is none. */
  function FirstNewline(bs: seq<byte>): (i: nat)
    ensures i <= |bs| && LF !in bs[..i]
    ensures i < |bs| ==> bs[i] == LF
  {
    if bs == [] then 0
    else if bs[0] == LF then 0
    else
      var i := FirstNewline(bs[1..]);
      assert bs[..i + 1] == [bs[0]] + bs[1..][..i];
      i + 1
  }

  /** The newline-terminated lines of a byte string; bytes after the last
      newline form a last, unterminated line. The inverse of `Terminated`. */
  function SplitLines(bs: seq<byte>): seq<seq<byte>>
    decreases |bs|
  {
    if bs == [] then []
    else
      var i := FirstNewline(bs);
      if i == |bs| then [bs] else [bs[..i]] + SplitLines(bs[i + 1..])
  }

  /** The first newline of `e + [LF] + rest`, when `e` has none, ends `e`. */
  lemma {:induction false} FirstNewlineAfter(e: seq<byte>, rest: seq<byte>)
    requires LF !in e
    ensures FirstNewline(e + [LF] + rest) == |e|
  {
    if e != [] {
      assert (e + [LF] + rest)[1..] == e[1..] + [LF] + rest;
      FirstNewlineAfter(e[1..], rest);
    }
  }

  /** No row holds a newline byte. */
  predicate NoNewlineRows(rows: seq<seq<byte>>) {
    forall k :: 0 <= k < |rows| ==> LF !in rows[k]
  }

  /** Splitting terminated rows at their newlines gives the rows back. */
  lemma {:induction false} SplitTerminated(rows: seq<seq<byte>>)
    requires NoNewlineRows(rows)
    ensures SplitLines(Terminated(rows)) == rows
  {
    if rows != [] {
      var e := rows[0];
      var rest := rows[1..];
      assert rows == [e] + rest;
      TerminatedAppend([e], rest);
      assert Terminated([e]) == e + [LF] by {
        var none: seq<seq<byte>> := [];
        assert [e][..0] == none;
      }
      var bs := Terminated(rows);
      assert bs == e + [LF] + Terminated(rest);
      FirstNewlineAfter(e, Terminated(rest));
      assert bs[..|e|] == e && bs[|e| + 1..] == Terminated(rest);
      SplitTerminated(rest);
    }
  }

  /** No cell of any line holds a newline character (true of grid cells). */
  predicate NoNewlineCells(lines: seq<SerializedLine>) {
    forall k, j :: 0 <= k < |lines| && 0 <= j < |lines[k].cells| ==> lines[k].cells[j].c != '\n'
  }

  /** Without newline cells, no line's trimmed bytes hold a newline. */
  lemma NoNewlineEncodings(lines: seq<SerializedLine>)
    requires NoNewlineCells(lines)
    ensures NoNewlineRows(Encodings(lines))
  {
    var rows := Encodings(lines);
    forall k | 0 <= k < |rows|
      ensures LF !in rows[k]
    {
      var text := TrimEnd(LineText(lines[k].cells));
      forall j | 0 <= j < |text|
        ensures text[j] != '\n'
      {
        assert text[j] == LineText(lines[k].cells)[j] == lines[k].cells[j].c;
      }
      Utf8NoNewline(text);
    }
  }

  /** Splitting the export at its newlines gives back, line for line and in
      order, each line's text without its trailing whitespace, in UTF-8:
      the export writes exactly one newline per line. */
  lemma ExportLines(lines: seq<SerializedLine>)
    requires NoNewlineCells(lines)
    ensures var split := SplitLines(AnsiOutput(lines));
            && |split| == |lines|
            && forall k :: 0 <= k < |lines| ==> split[k] == Utf8Str(TrimEnd(LineText(lines[k].cells)))
  {
    NoNewlineEncodings(lines);
    SplitTerminated(Encodings(lines));
  }

  /** The number of bytes that are `b` in `bs`. */
  function Count(bs: seq<byte>, b: byte): nat {
    if bs == [] then 0 else Count(bs[..|bs| - 1], b) + (if bs[|bs| - 1] == b then 1 else 0)
  }

  lemma {:induction false} CountAppend(a: seq<byte>, c: seq<byte>, b: byte)
    ensures Count(a + c, b) == Count(a, b) + Count(c, b)
  {
    if c == [] {
      assert a + c == a;
    } else {
      var init := c[..|c| - 1];
      assert (a + c)[..|a + c| - 1] == a + init;
      assert (a + c)[|a + c| - 1] == c[|c| - 1];
      CountAppend(a, init, b);
      assert Count(a + c, b) == Count(a + init, b) + (if c[|c| - 1] == b then 1 else 0);
    }
  }

  lemma {:induction false} CountAbsent(a: seq<byte>, b: byte)
    requires b !in a
    ensures Count(a, b) == 0
  {
    if a != [] {
      CountAbsent(a[..|a| - 1], b);
    }
  }

  /** Terminated rows without newlines hold one newline byte per row. */
  lemma {:induction false} TerminatedNewlines(rows: seq<seq<byte>>)
    requires NoNewlineRows(rows)
    ensures Count(Terminated(rows), LF) == |rows|
  {
    if rows != [] {
      var init := rows[..|rows| - 1];
      var last := rows[|rows| - 1];
      TerminatedNewlines(init);
      CountAbsent(last, LF);
      assert Count([LF], LF) == 1 by {
        var none: seq<byte> := [];
        assert [LF][..0] == none;
      }
      CountAppend(Terminated(init), last, LF);
      CountAppend(Terminated(init) + last, [LF], LF);
    }
  }

  /** The export holds exactly one newline byte per line. */
  lemma ExportNewlines(lines: seq<SerializedLine>)
    requires NoNewlineCells(lines)
    ensures Count(AnsiOutput(lines), LF) == |lines|
  {
    NoNewlineEncodings(lines);
    TerminatedNewlines(Encodings(lines));
  }

  /** The lengths of the rows, summed. */
  function TotalLength(rows: seq<seq<byte>>): nat {
    if rows == [] then 0 else TotalLength(rows[..|rows| - 1]) + |rows[|rows| - 1]|
  }

  /** Terminating rows adds one byte per row. */
  lemma {:induction false} TerminatedLength(rows: seq<seq<byte>>)
    ensures |Terminated(rows)| == TotalLength(rows) + |rows|
  {
    if rows != [] {
      TerminatedLength(rows[..|rows| - 1]);
    }
  }

  /** The trimmed length of every line, summed. */
  function TrimmedLength(lines: seq<SerializedLine>): nat {
    if lines == [] then 0
    else TrimmedLength(lines[..|lines| - 1]) + |TrimEnd(LineText(lines[|lines| - 1].cells))|
  }

  /** Only ASCII characters in the cells. */
  predicate AsciiCells(lines: seq<SerializedLine>) {
    forall k, j :: 0 <= k < |lines| && 0 <= j < |lines[k].cells| ==> (lines[k].cells[j].c as int) < 0x80
  }

  /** For ASCII content the export is as long as the trimmed lines plus one
      newline each. */
  lemma {:induction false} ExportLength(lines: seq<SerializedLine>)
    requires AsciiCells(lines)
    ensures |AnsiOutput(lines)| == TrimmedLength(lines) + |lines|
  {
    TerminatedLength(Encodings(lines));
    AsciiTotal(lines);
  }

  /** Whatever the characters, the export holds at least one byte per kept
      character plus one newline per line: UTF-8 never encodes a character
      in fewer than one byte. */
  lemma ExportLengthBound(lines: seq<SerializedLine>)
    ensures TrimmedLength(lines) + |lines| <= |AnsiOutput(lines)|
  {
    TerminatedLength(Encodings(lines));
    Utf8Total(lines);
  }

  lemma {:induction false} Utf8Total(lines: seq<SerializedLine>)
    ensures TrimmedLength(lines) <= TotalLength(Encodings(lines))
  {
    if lines != [] {
      var init := lines[..|lines| - 1];
      var last := lines[|lines| - 1];
      Utf8Total(init);
      var rows := Encodings(lines);
      assert TotalLength(rows) == TotalLength(Encodings(init)) + |TrimmedBytes(last)| by {
        assert rows == Encodings(init) + [TrimmedBytes(last)];
        assert rows[..|rows| - 1] == Encodings(init);
      }
    }
  }

  lemma {:induction false} AsciiTotal(lines: seq<SerializedLine>)
    requires AsciiCells(lines)
    ensures TotalLength(Encodings(lines)) == TrimmedLength(lines)
  {
    if lines != [] {
      var init := lines[..|lines| - 1];
      var last := lines[|lines| - 1];
      AsciiPrefix(lines);
      AsciiTotal(init);
      AsciiLine(last);
      var rows := Encodings(lines);
      assert TotalLength(rows) == TotalLength(Encodings(init)) + |TrimmedBytes(last)| by {
        assert rows == Encodings(init) + [TrimmedBytes(last)];
        assert rows[..|rows| - 1] == Encodings(init);
      }
    }
  }

  /** Dropping the last line keeps the content ASCII. */
  lemma AsciiPrefix(lines: seq<SerializedLine>)
    requires lines != [] && AsciiCells(lines)
    ensures AsciiCells(lines[..|lines| - 1])
    ensures AsciiLineCells(lines[|lines| - 1])
  {
    var init := lines[..|lines| - 1];
    forall k, j | 0 <= k < |init| && 0 <= j < |init[k].cells|
      ensures (init[k].cells[j].c as int) < 0x80
    {
      assert init[k] == lines[k];
    }
  }

  /** Only ASCII characters in the cells of `line`. */
  predicate AsciiLineCells(line: SerializedLine) {
    forall j :: 0 <= j < |line.cells| ==> (line.cells[j].c as int) < 0x80
  }

  /** An ASCII line's trimmed bytes are one per trimmed character. */
  lemma AsciiLine(line: SerializedLine)
    requires AsciiLineCells(line)
    ensures |TrimmedBytes(line)| == |TrimEnd(LineText(line.cells))|
  {
    var text := TrimEnd(LineText(line.cells));
    forall j | 0 <= j < |text|
      ensures (text[j] as int) < 0x80
    {
      assert text[j] == LineText(line.cells)[j] == line.cells[j].c;
    }
    Utf8Ascii(text);
  }
}
