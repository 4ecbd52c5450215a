/** The pure and stateful helpers of the application's event loop: mouse
    selections over the buffer, the bytes a key press sends to the shell,
    the clipboard text of a selection, the frame-time ring, the beam step
    delay and the pane limit. */
module App {
  import opened Wrappers
  import opened Ints
  import opened Text
  import opened Layout

  // ---------------------------------------------------------------------
  // Selection

  /** A buffer-relative cell position; rows are negative in the history. */
  datatype CellPos = CellPos(col: nat, row: int)

  datatype Selection = Selection(start: CellPos, end: CellPos, active: bool)

  /** Reading order: by row, then by column. */
  predicate NotAfter(a: CellPos, b: CellPos) {
    a.row < b.row || (a.row == b.row && a.col <= b.col)
  }

  /** `Selection::normalized`: the two endpoints in reading order, each
      column kept with its own row. */
  function Normalized(sel: Selection): (r: (CellPos, CellPos))
    ensures NotAfter(r.0, r.1)
    ensures (r.0 == sel.start && r.1 == sel.end) || (r.0 == sel.end && r.1 == sel.start)
  {
    if sel.start.row < sel.end.row || (sel.start.row == sel.end.row && sel.start.col <= sel.end.col) then
      (CellPos(sel.start.col, sel.start.row), CellPos(sel.end.col, sel.end.row))
    else
      (CellPos(sel.end.col, sel.end.row), CellPos(sel.start.col, sel.start.row))
  }

  /** A selection that is not being dragged and has no extent. */
  predicate Collapsed(sel: Selection) {
    !sel.active && sel.start.row == sel.end.row && sel.start.col == sel.end.col
  }

  /** `Selection::contains`. */
  function Contains(sel: Selection, col: nat, row: int): bool {
    if Collapsed(sel) then false
    else
      var (s, e) := Normalized(sel);
      if row < s.row || row > e.row then false
      else if s.row == e.row then col >= s.col && col <= e.col
      else if row == s.row then col >= s.col
      else if row == e.row then col <= e.col
      else true
  }

  /** A selection holds exactly the cells between its endpoints in reading
      order, both included, unless it is collapsed and not being dragged. */
  lemma ContainsIsInterval(sel: Selection, col: nat, row: int)
    ensures Contains(sel, col, row) <==>
              !Collapsed(sel)
              && NotAfter(Normalized(sel).0, CellPos(col, row))
              && NotAfter(CellPos(col, row), Normalized(sel).1)
  {
  }

  /** Which end the drag started from does not matter. */
  lemma ContainsSymmetric(sel: Selection, col: nat, row: int)
    ensures Contains(Selection(sel.end, sel.start, sel.active), col, row) == Contains(sel, col, row)
  {
    var swapped := Selection(sel.end, sel.start, sel.active);
    ContainsIsInterval(sel, col, row);
    ContainsIsInterval(swapped, col, row);
    assert Collapsed(swapped) == Collapsed(sel);
    if sel.start != sel.end {
      assert Normalized(swapped) == Normalized(sel);
    }
  }

  // ---------------------------------------------------------------------
  // Keys

  const ESC: byte := 0x1B

  /** The keys with a name that the shell input handles; `OtherKey` stands
      for every other named key. */
  datatype NamedKey =
    | Enter | Backspace | Tab | Escape
    | ArrowUp | ArrowDown | ArrowRight | ArrowLeft
    | Home | End | PageUp | PageDown | Delete | Space
    | OtherKey

  /** A key press: the text it produces, a named key, or a key with neither. */
  datatype Key = Character(text: string) | Named(name: NamedKey) | Unidentified

  /** The bytes of a named key. */
  function NamedKeyBytes(k: NamedKey, alt: bool): Option<seq<byte>> {
    match k
    case Enter => if alt then Some([ESC, '\r' as int]) else Some(['\r' as int])
    case Backspace => Some([0x7F])
    case Tab => Some(['\t' as int])
    case Escape => Some([ESC])
    case ArrowUp => Some([ESC, '[' as int, 'A' as int])
    case ArrowDown => Some([ESC, '[' as int, 'B' as int])
    case ArrowRight => Some([ESC, '[' as int, 'C' as int])
    case ArrowLeft => Some([ESC, '[' as int, 'D' as int])
    case Home => Some([ESC, '[' as int, 'H' as int])
    case End => Some([ESC, '[' as int, 'F' as int])
    case PageUp => Some([ESC, '[' as int, '5' as int, '~' as int])
    case PageDown => Some([ESC, '[' as int, '6' as int, '~' as int])
    case Delete => Some([ESC, '[' as int, '3' as int, '~' as int])
    case Space => if alt then Some([ESC, ' ' as int]) else Some([' ' as int])
    case OtherKey => None
  }

  /** The key-to-bytes match of the keyboard handler: what a key press
      sends to the focused terminal, if anything. */
  function KeyBytes(key: Key, ctrl: bool, alt: bool): Option<seq<byte>> {
    match key
    case Character(s) =>
      var bytes := Utf8Str(s);
      if ctrl && |bytes| == 1 then
        assert s != [];
        var c := s[0];
        if 'a' <= c <= 'z' then Some([c as int - 'a' as int + 1])
        else if 'A' <= c <= 'Z' then Some([c as int - 'A' as int + 1])
        else Some(bytes)
      else if alt && |bytes| == 1 then Some([ESC] + bytes)
      else Some(bytes)
    case Named(k) => NamedKeyBytes(k, alt)
    case Unidentified => None
  }

  /** Ctrl with a letter sends the C0 control of that letter (Ctrl+A is
      0x01, Ctrl+Z is 0x1A, section 5.2 of ECMA-48), whatever its case and
      whether or not Alt is held. */
  lemma CtrlLetter(c: char, alt: bool)
    requires 'a' <= c <= 'z'
    ensures var upper := (c as int - 32) as char;
            && KeyBytes(Character([c]), true, alt) == Some([c as int - 'a' as int + 1])
            && KeyBytes(Character([upper]), true, alt) == KeyBytes(Character([c]), true, alt)
            && 1 <= c as int - 'a' as int + 1 <= 26
  {
    var upper := (c as int - 32) as char;
    assert Utf8Str([c]) == Utf8([c][0]) by { assert [c][..0] == []; }
    assert Utf8Str([upper]) == Utf8([upper][0]) by { assert [upper][..0] == []; }
  }

  /** Alt with a one-byte character, Enter or Space sends ESC followed by
      what the key sends alone. */
  lemma AltPrefix(key: Key)
    requires (key.Character? && |Utf8Str(key.text)| == 1) || key == Named(Enter) || key == Named(Space)
    ensures KeyBytes(key, false, false).Some? && KeyBytes(key, false, true).Some?
    ensures KeyBytes(key, false, true).value == [ESC] + KeyBytes(key, false, false).value
  {
  }

  /** The navigation keys send control sequences (section 5.4 of ECMA-48):
      ESC '[', parameter digits, then one final byte in 0x40..0x7E. */
  predicate ControlSequence(bs: seq<byte>) {
    |bs| >= 3 && bs[0] == ESC && bs[1] == '[' as int
    && (forall i :: 2 <= i < |bs| - 1 ==> '0' as int <= bs[i] <= '9' as int)
    && 0x40 <= bs[|bs| - 1] <= 0x7E
  }

  predicate Navigation(k: NamedKey) {
    k in {ArrowUp, ArrowDown, ArrowRight, ArrowLeft, Home, End, PageUp, PageDown, Delete}
  }

  lemma NavigationIsControlSequence(k: NamedKey, alt: bool)
    requires Navigation(k)
    ensures NamedKeyBytes(k, alt).Some? && ControlSequence(NamedKeyBytes(k, alt).value)
    ensures NamedKeyBytes(k, alt) == NamedKeyBytes(k, !alt)
  {
  }

  /** The named key a byte sequence stands for, as the shell would read it. */
  function KeyOfBytes(bs: seq<byte>): Option<NamedKey> {
    if bs == ['\r' as int] then Some(Enter)
    else if bs == [0x7F] then Some(Backspace)
    else if bs == ['\t' as int] then Some(Tab)
    else if bs == [ESC] then Some(Escape)
    else if bs == [' ' as int] then Some(Space)
    else if |bs| >= 3 && bs[0] == ESC && bs[1] == '[' as int then
      var rest := bs[2..];
      if rest == ['A' as int] then Some(ArrowUp)
      else if rest == ['B' as int] then Some(ArrowDown)
      else if rest == ['C' as int] then Some(ArrowRight)
      else if rest == ['D' as int] then Some(ArrowLeft)
      else if rest == ['H' as int] then Some(Home)
      else if rest == ['F' as int] then Some(End)
      else if rest == ['5' as int, '~' as int] then Some(PageUp)
      else if rest == ['6' as int, '~' as int] then Some(PageDown)
      else if rest == ['3' as int, '~' as int] then Some(Delete)
      else None
    else None
  }

  /** Without Alt, every handled named key sends a sequence of its own:
      reading the bytes back gives the key. */
  lemma NamedKeysDistinct(k: NamedKey)
    requires k != OtherKey
    ensures NamedKeyBytes(k, false).Some? && KeyOfBytes(NamedKeyBytes(k, false).value) == Some(k)
  {
    var bs := NamedKeyBytes(k, false).value;
    if |bs| >= 3 {
      assert bs[2..] == if |bs| == 3 then [bs[2]] else [bs[2], bs[3]];
    }
  }

  // ---------------------------------------------------------------------
  // Copying a selection

  /** The first column copied from `row`: the start column on the first row. */
  function ColStart(s: CellPos, row: int): nat {
    if row == s.row then s.col else 0
  }

  /** The last column copied from `row`, clamped to the grid on the last row. */
  function ColEnd(e: CellPos, row: int, cols: nat): int {
    var lastCol := SatSub(cols, 1);
    if row == e.row then Min(e.col, lastCol) else lastCol
  }

  /** The characters of `grid` row `row` from column `lo` to `hi` inclusive,
      NUL cells left out. */
  function CellsText(grid: (int, nat) -> char, row: int, lo: nat, hi: int): (t: string)
    ensures |t| <= if hi >= lo then hi - lo + 1 else 0
    ensures forall i :: 0 <= i < |t| ==> t[i] != '\0'
    decreases hi - lo
  {
    if hi < lo then []
    else
      var c := grid(row, hi as nat);
      CellsText(grid, row, lo, hi - 1) + (if c != '\0' then [c] else [])
  }

  /** The copied text of buffer row `row` of the selection from `s` to `e`. */
  function RowText(grid: (int, nat) -> char, cols: nat, s: CellPos, e: CellPos, row: int): string {
    CellsText(grid, row, ColStart(s, row), ColEnd(e, row, cols))
  }

  /** The copied text of the first `n` rows from `s.row`. */
  function RowTexts(grid: (int, nat) -> char, cols: nat, s: CellPos, e: CellPos, n: nat): (rows: seq<string>)
    ensures |rows| == n
  {
    if n == 0 then [] else RowTexts(grid, cols, s, e, n - 1) + [RowText(grid, cols, s, e, s.row + n - 1)]
  }

  /** Entry `i` is the text of the `i`-th selected row. */
  lemma {:induction false} RowTextsAt(grid: (int, nat) -> char, cols: nat, s: CellPos, e: CellPos, n: nat, i: nat)
    requires i < n
    ensures RowTexts(grid, cols, s, e, n)[i] == RowText(grid, cols, s, e, s.row + i)
  {
    if i < n - 1 {
      RowTextsAt(grid, cols, s, e, n - 1, i);
    }
  }

  /** The text the copy loop holds once it has copied `n` rows: their
      texts joined, with the newline that follows every row but the last. */
  function CopiedPrefix(grid: (int, nat) -> char, cols: nat, s: CellPos, e: CellPos, n: nat): string {
    JoinLines(RowTexts(grid, cols, s, e, n)) + (if 0 < n <= e.row - s.row then ['\n'] else [])
  }

  /** One step of the copy loop: the next row's text, then a newline unless
      it is the last row. */
  lemma CopyStep(grid: (int, nat) -> char, cols: nat, s: CellPos, e: CellPos, row: int)
    requires s.row <= row <= e.row
    ensures CopiedPrefix(grid, cols, s, e, row - s.row) + RowText(grid, cols, s, e, row)
              + (if row != e.row then ['\n'] else [])
            == CopiedPrefix(grid, cols, s, e, row + 1 - s.row)
  {
    var n := row - s.row;
    assert row + 1 - s.row == n + 1;
    JoinAppend(RowTexts(grid, cols, s, e, n), RowText(grid, cols, s, e, s.row + n));
  }

  /** The text the copy loop builds: each selected row's characters, rows
      separated by newlines. */
  function RawSelectionText(grid: (int, nat) -> char, cols: nat, sel: Selection): string {
    var (s, e) := Normalized(sel);
    JoinLines(RowTexts(grid, cols, s, e, e.row - s.row + 1))
  }

  /** Each line with its trailing whitespace removed. */
  function TrimAll(xs: seq<string>): (ys: seq<string>)
    ensures |ys| == |xs| && forall i :: 0 <= i < |xs| ==> ys[i] == TrimEnd(xs[i])
  {
    if xs == [] then [] else TrimAll(xs[..|xs| - 1]) + [TrimEnd(xs[|xs| - 1])]
  }

  /** The clipboard text: the raw text's lines, each trimmed, joined by newlines. */
  function ClipboardText(raw: string): string {
    JoinLines(TrimAll(Lines(raw)))
  }

  /** The copy loops of `copy_selection`. */
  method AssembleSelection(grid: (int, nat) -> char, cols: nat, sel: Selection) returns (text: string)
    ensures text == RawSelectionText(grid, cols, sel)
  {
    var (start, end) := Normalized(sel);
    text := [];
    var row := start.row;
    while row <= end.row
      invariant start.row <= row <= end.row + 1
      invariant text == CopiedPrefix(grid, cols, start, end, row - start.row)
      decreases end.row - row
    {
      var line := CopySelectedRow(grid, cols, start, end, row);
      CopyStep(grid, cols, start, end, row);
      text := text + line;
      if row != end.row {
        text := text + ['\n'];
      }
      row := row + 1;
    }
  }

  /** The column bounds of one selected row, then its column loop. */
  method CopySelectedRow(grid: (int, nat) -> char, cols: nat, start: CellPos, end: CellPos, row: int)
    returns (line: string)
    ensures line == RowText(grid, cols, start, end, row)
  {
    var colStart := if row == start.row then start.col else 0;
    var colEnd := if row == end.row then Min(end.col, SatSub(cols, 1)) else SatSub(cols, 1);
    line := CopyRow(grid, row, colStart, colEnd);
  }

  /** The column loop of one row: NUL cells are skipped, everything else,
      spaces included, is kept. */
  method CopyRow(grid: (int, nat) -> char, row: int, lo: nat, hi: int) returns (line: string)
    ensures line == CellsText(grid, row, lo, hi)
  {
    line := [];
    var col := lo;
    while col <= hi
      invariant if hi >= lo then lo <= col <= hi + 1 else col == lo
      invariant line == CellsText(grid, row, lo, col - 1)
      decreases hi - col
    {
      var c := grid(row, col);
      if c != ' ' && c != '\0' {
        line := line + [c];
      } else if c == ' ' {
        line := line + [' '];
      }
      col := col + 1;
    }
    if hi < lo {
      assert CellsText(grid, row, lo, hi) == [] == CellsText(grid, row, lo, lo - 1);
    } else {
      assert col - 1 == hi;
    }
  }

  /** `copy_selection`'s text: the copy loops, then the per-line trim. */
  method CopySelection(grid: (int, nat) -> char, cols: nat, sel: Selection) returns (trimmed: string)
    ensures trimmed == ClipboardText(RawSelectionText(grid, cols, sel))
  {
    var text := AssembleSelection(grid, cols, sel);
    trimmed := JoinLines(TrimAll(Lines(text)));
  }

  /** A grid without line-break cells yields rows without line breaks. */
  lemma {:induction false} CellsNoBreaks(grid: (int, nat) -> char, row: int, lo: nat, hi: int)
    requires forall c: nat :: grid(row, c) != '\n' && grid(row, c) != '\r'
    ensures NoBreakChars(CellsText(grid, row, lo, hi))
    decreases hi - lo
  {
    if hi >= lo {
      CellsNoBreaks(grid, row, lo, hi - 1);
      var prefix := CellsText(grid, row, lo, hi - 1);
      var c := grid(row, hi as nat);
      var last := if c != '\0' then [c] else [];
      assert NoBreakChars(last);
      assert CellsText(grid, row, lo, hi) == prefix + last;
    }
  }

  /** Trimming the lines of joined rows trims each row, an empty last row
      dropping out. */
  lemma ClipboardOfRows(rows: seq<string>)
    requires rows != [] && NoBreaks(rows)
    ensures ClipboardText(JoinLines(rows)) == JoinLines(TrimAll(DropEmptyLast(rows)))
  {
    LinesOfJoin(rows);
  }

  /** No selected row's text holds a line break when no cell does. */
  lemma {:induction false} RowTextsNoBreaks(grid: (int, nat) -> char, cols: nat, s: CellPos, e: CellPos, n: nat)
    requires forall r: int, c: nat :: grid(r, c) != '\n' && grid(r, c) != '\r'
    ensures forall i :: 0 <= i < n ==> NoBreakChars(RowTexts(grid, cols, s, e, n)[i])
  {
    if n > 0 {
      RowTextsNoBreaks(grid, cols, s, e, n - 1);
      var row := s.row + n - 1;
      CellsNoBreaks(grid, row, ColStart(s, row), ColEnd(e, row, cols));
    }
  }

  /** The clipboard receives the selected rows, each without its trailing
      whitespace and without NULs, one per line (an empty last row adds
      no line), when no cell holds a line break. */
  lemma ClipboardRows(grid: (int, nat) -> char, cols: nat, sel: Selection)
    requires forall r: int, c: nat :: grid(r, c) != '\n' && grid(r, c) != '\r'
    ensures var (s, e) := Normalized(sel);
            var rows := RowTexts(grid, cols, s, e, e.row - s.row + 1);
            ClipboardText(RawSelectionText(grid, cols, sel))
              == JoinLines(TrimAll(DropEmptyLast(rows)))
  {
    var (s, e) := Normalized(sel);
    var rows := RowTexts(grid, cols, s, e, e.row - s.row + 1);
    RowTextsNoBreaks(grid, cols, s, e, e.row - s.row + 1);
    assert RawSelectionText(grid, cols, sel) == JoinLines(rows);
    ClipboardOfRows(rows);
  }

  // ---------------------------------------------------------------------
  // Application state

  /** The number of frame-time samples averaged for the FPS display. */
  const FPS_SAMPLES: nat := 60

  /** The most panes a window holds. */
  const MAX_PANES: nat := 16

  const MIN_BEAM_DELAY: nat := 4
  const MAX_BEAM_DELAY: nat := 500

  /** The sum of `xs`. */
  function Sum(xs: seq<real>): real {
    if xs == [] then 0.0 else Sum(xs[..|xs| - 1]) + xs[|xs| - 1]
  }

  /** The frames per second the samples average to, 0 when they average to
      nothing. */
  function AverageFps(samples: seq<real>): real
    requires |samples| == FPS_SAMPLES
  {
    var avg := Sum(samples) / FPS_SAMPLES as real;
    if avg > 0.0 then 1.0 / avg else 0.0
  }

  /** The parts of the application state with logic of their own: the
      pane layout, the frame-time ring and the beam step delay. */
  class AppState {
    var layout: LayoutTree
    const fpsSamples: array<real>
    var fpsSampleIdx: nat
    var beamStepDelayMs: nat

    /** The ring index names a slot, the delay is within its clamp and the
        window holds at most `MAX_PANES` panes. */
    ghost predicate Valid()
      reads this, layout
    {
      layout.Valid()
      && fpsSamples.Length == FPS_SAMPLES && fpsSampleIdx < FPS_SAMPLES
      && MIN_BEAM_DELAY <= beamStepDelayMs <= MAX_BEAM_DELAY
      && |layout.panes| <= MAX_PANES
    }

    /** The initial state: one pane, an empty ring and a 100 ms delay. */
    constructor ()
      ensures Valid() && fresh(layout) && fresh(fpsSamples)
      ensures layout.panes == [PaneId(0)]
      ensures fpsSampleIdx == 0 && fpsSamples[..] == seq(FPS_SAMPLES, _ => 0.0)
      ensures beamStepDelayMs == 100
    {
      layout := new LayoutTree();
      fpsSamples := new real[FPS_SAMPLES](_ => 0.0);
      fpsSampleIdx := 0;
      beamStepDelayMs := 100;
    }

    /** `record_frame_time`: the sample replaces the oldest one, the index
        moves on round the ring, and the result is the average rate. */
    method RecordFrameTime(dt: real) returns (fps: real)
      requires Valid()
      modifies fpsSamples, this`fpsSampleIdx
      ensures Valid()
      ensures fpsSamples[..] == old(fpsSamples[..])[old(fpsSampleIdx) := dt]
      ensures fpsSampleIdx == (old(fpsSampleIdx) + 1) % FPS_SAMPLES
      ensures fps == AverageFps(fpsSamples[..])
    {
      fpsSamples[fpsSampleIdx] := dt;
      fpsSampleIdx := (fpsSampleIdx + 1) % fpsSamples.Length;
      var sum := SumSamples(fpsSamples);
      var avgDt := sum / fpsSamples.Length as real;
      if avgDt > 0.0 {
        fps := 1.0 / avgDt;
      } else {
        fps := 0.0;
      }
    }

    /** Ctrl+Shift+= : ten milliseconds faster, but not below 4. */
    method FasterBeam()
      requires Valid()
      modifies this`beamStepDelayMs
      ensures Valid()
      ensures beamStepDelayMs == Max(MIN_BEAM_DELAY, SatSub(old(beamStepDelayMs), 10))
    {
      beamStepDelayMs := Max(SatSub(beamStepDelayMs, 10), 4);
    }

    /** Ctrl+Shift+- : ten milliseconds slower, but not above 500. */
    method SlowerBeam()
      requires Valid()
      modifies this`beamStepDelayMs
      ensures Valid()
      ensures beamStepDelayMs == Min(old(beamStepDelayMs) + 10, MAX_BEAM_DELAY)
    {
      beamStepDelayMs := Min(beamStepDelayMs + 10, 500);
    }

    /** `add_pane`: nothing happens once `MAX_PANES` panes exist; otherwise
        the layout gains a fresh, focused pane. */
    method AddPane() returns (added: Option<PaneId>)
      requires Valid()
      modifies layout
      ensures Valid()
      ensures old(|layout.panes|) >= MAX_PANES ==>
                added == None && layout.panes == old(layout.panes) && layout.focused == old(layout.focused)
                && layout.nextId == old(layout.nextId)
      ensures old(|layout.panes|) < MAX_PANES ==>
                added == Some(PaneId(old(layout.nextId))) && layout.panes == old(layout.panes) + [added.value]
                && layout.focused == added.value && layout.nextId == old(layout.nextId) + 1
    {
      if |layout.Panes()| >= MAX_PANES {
        return None;
      }
      var id := layout.AddPane();
      added := Some(id);
    }

    /** `close_pane`: the pane leaves the layout. */
    method ClosePane(pane: PaneId)
      requires Valid()
      modifies layout
      ensures Valid()
      ensures layout.nextId == old(layout.nextId)
      ensures pane !in old(layout.panes) ==>
                layout.panes == old(layout.panes) && layout.focused == old(layout.focused)
      ensures pane in old(layout.panes) ==>
                exists idx :: 0 <= idx < |old(layout.panes)| && old(layout.panes)[idx] == pane
                  && layout.panes == old(layout.panes)[..idx] + old(layout.panes)[idx + 1..]
                  && (layout.panes == [] ==> layout.focused == old(layout.focused))
                  && (layout.panes != [] ==>
                        layout.focused == layout.panes[if idx > 0 then idx - 1 else 0])
      ensures pane !in layout.panes
    {
      var _ := layout.Close(pane);
    }
  }

  /** The sum of the ring's samples, slot by slot. */
  method SumSamples(a: array<real>) returns (sum: real)
    ensures sum == Sum(a[..])
  {
    sum := 0.0;
    for i := 0 to a.Length
      invariant sum == Sum(a[..i])
    {
      assert a[..i + 1][..i] == a[..i];
      sum := sum + a[i];
    }
    assert a[..a.Length] == a[..];
  }

  /** Whatever keys are pressed, the delay stays within [4, 500]. */
  lemma BeamDelayBounded(d: nat, faster: bool)
    requires MIN_BEAM_DELAY <= d <= MAX_BEAM_DELAY
    ensures var d' := if faster then Max(MIN_BEAM_DELAY, SatSub(d, 10)) else Min(d + 10, MAX_BEAM_DELAY);
            MIN_BEAM_DELAY <= d' <= MAX_BEAM_DELAY
            && (faster ==> d' <= d && (d' == d <==> d == MIN_BEAM_DELAY))
            && (!faster ==> d' >= d && (d' == d <==> d == MAX_BEAM_DELAY))
  {
  }
}
