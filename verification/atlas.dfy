/** The glyph atlas of the text renderer: a cache from characters to
    `GlyphInfo`, a choice of font (primary, fallback, emoji, or the primary
    font's '?'), and a shelf packer that copies each rasterised glyph into a
    1024 x 1024 byte texture, left to right in rows ("shelves") separated by
    one blank pixel. */
module Atlas {
  import opened Wrappers
  import opened Ints
  import opened Raster

  const ATLAS_WIDTH: nat := 1024
  const ATLAS_HEIGHT: nat := 1024

  // ---------------------------------------------------------------------
  // Rasterised glyphs and fonts (the rasteriser itself is foreign)

  /** What the rasteriser returns for a character: its bitmap size, its
      bearing offsets, its advance width and the coverage bytes, row-major. */
  datatype RasterData = RasterData(
    width: nat,
    height: nat,
    xmin: int,
    ymin: int,
    advanceWidth: real,
    bitmap: seq<byte>)

  /** A rasterised glyph: the bitmap holds exactly width * height bytes, and
      both dimensions fit the `u32` arithmetic of the packer without wrapping. */
  type Rasterized = r: RasterData | |r.bitmap| == r.width * r.height
                                    && r.width < 0x8000_0000 && r.height < 0x8000_0000
    witness RasterData(0, 0, 0, 0, 0.0, [])

  /** A font's ascent and (negative) descent at a size. */
  datatype LineMetrics = LineMetrics(ascent: real, descent: real)

  /** A loaded font: whether it maps a character to a real glyph (not
      .notdef), its rasterisation of a character at a size (whose advance
      width is also what the font's metrics report), and its horizontal line
      metrics at a size, which a font may lack. */
  datatype Font = Font(
    hasGlyph: char -> bool,
    rasterize: (char, real) -> Rasterized,
    lineMetrics: real -> Option<LineMetrics>)

  /** A font at one size. */
  datatype Face = Face(hasGlyph: char -> bool, rasterize: char -> Rasterized)

  function At(f: Font, size: real): (face: Face)
    ensures face.hasGlyph == f.hasGlyph
    ensures forall c :: face.rasterize(c) == f.rasterize(c, size)
  {
    Face(f.hasGlyph, c => f.rasterize(c, size))
  }

  /** The line metrics of a font at a size, or the stand-in the atlas uses
      when the font has none: ascent 0.8 and descent -0.2 of the size. */
  function MetricsOr(f: Font, size: real): (m: LineMetrics)
    ensures f.lineMetrics(size).None? ==> m.ascent - m.descent == size
    ensures f.lineMetrics(size).Some? ==> m == f.lineMetrics(size).value
  {
    match f.lineMetrics(size)
    case Some(m) => m
    case None => LineMetrics(size * 0.8, size * -0.2)
  }

  /** The size at which a fallback font's natural line height (ascent minus
      descent at the primary size) is scaled to the primary cell height. */
  function MatchedSize(fontSize: real, cellHeight: real, m: LineMetrics): (r: real)
    requires m.ascent - m.descent != 0.0
    ensures r * (m.ascent - m.descent) == fontSize * cellHeight
  {
    fontSize * (cellHeight / (m.ascent - m.descent))
  }

  /** A fallback font without line metrics is used at the primary size when
      the cell height is that size. */
  lemma MatchedSizeDefault(f: Font, size: real)
    requires size > 0.0 && f.lineMetrics(size).None?
    ensures MatchedSize(size, size, MetricsOr(f, size)) == size
  {
    var m := MetricsOr(f, size);
    assert m.ascent - m.descent == size;
    assert size / size == 1.0;
  }

  predicate IsEmpty(r: Rasterized) {
    r.width == 0 || r.height == 0
  }

  /** Where a character's glyph came from. */
  datatype Source =
    | Primary
    | FallbackPrimaryEmpty
    | EmojiPrimaryEmpty
    | Fallback
    | Emoji
    | QuestionMark

  predicate FallbackHas(fallback: Option<Face>, c: char) {
    fallback.Some? && fallback.value.hasGlyph(c)
  }

  /** The font-choice order of `get_glyph`: primary, then fallback, then
      emoji, then the primary font's '?'; a primary glyph that rasterises
      empty (other than the space) defers to the fallback or emoji font. */
  function ChooseSource(primary: Face, fallback: Option<Face>, emoji: Option<Face>, c: char): (s: Source)
    ensures s == QuestionMark <==>
              !primary.hasGlyph(c) && !FallbackHas(fallback, c) && !FallbackHas(emoji, c)
    ensures s == Primary ==> primary.hasGlyph(c)
    ensures primary.hasGlyph(c) && (c == ' ' || !IsEmpty(primary.rasterize(c))) ==> s == Primary
    ensures s == Fallback || s == FallbackPrimaryEmpty ==> FallbackHas(fallback, c)
    ensures s == Emoji || s == EmojiPrimaryEmpty ==> FallbackHas(emoji, c) && !FallbackHas(fallback, c)
    ensures !primary.hasGlyph(c) && FallbackHas(fallback, c) ==> s == Fallback
  {
    if primary.hasGlyph(c) then
      if IsEmpty(primary.rasterize(c)) && c != ' ' then
        if FallbackHas(fallback, c) then FallbackPrimaryEmpty
        else if FallbackHas(emoji, c) then EmojiPrimaryEmpty
        else Primary
      else Primary
    else if FallbackHas(fallback, c) then Fallback
    else if FallbackHas(emoji, c) then Emoji
    else QuestionMark
  }

  /** The rasterised glyph of the chosen font. */
  function SourceRaster(primary: Face, fallback: Option<Face>, emoji: Option<Face>, c: char, s: Source): Rasterized
    requires s == Fallback || s == FallbackPrimaryEmpty ==> fallback.Some?
    requires s == Emoji || s == EmojiPrimaryEmpty ==> emoji.Some?
  {
    match s
    case Primary => primary.rasterize(c)
    case FallbackPrimaryEmpty => fallback.value.rasterize(c)
    case Fallback => fallback.value.rasterize(c)
    case EmojiPrimaryEmpty => emoji.value.rasterize(c)
    case Emoji => emoji.value.rasterize(c)
    case QuestionMark => primary.rasterize('?')
  }

  /** The advance: glyphs from the fallback and emoji fonts advance by one
      cell of the primary font, the others by their own advance width. */
  function Advance(s: Source, r: Rasterized, cellWidth: real): (a: real)
    ensures s.Primary? || s.QuestionMark? ==> a == r.advanceWidth
    ensures !(s.Primary? || s.QuestionMark?) ==> a == cellWidth
  {
    match s
    case Primary => r.advanceWidth
    case QuestionMark => r.advanceWidth
    case _ => cellWidth
  }

  // ---------------------------------------------------------------------
  // The shelf packer

  /** The packer state: the next free column and row and the height of the
      current shelf. */
  datatype Shelf = Shelf(nextX: nat, nextY: nat, rowHeight: nat)

  /** An atlas region: top-left corner and size. */
  datatype Block = Block(x: nat, y: nat, w: nat, h: nat)

  /** The outcome of placing a w x h glyph: its corner and the packer state
      after it, or `AtlasFull` with the (possibly wrapped) state. */
  datatype Placement =
    | Placed(x: nat, y: nat, after: Shelf)
    | Full(after: Shelf)

  /** Start a new shelf when the glyph does not fit after `nextX`: the next
      shelf begins one blank row below the tallest glyph of this one. */
  function WrapRow(s: Shelf, w: nat): (t: Shelf)
    ensures s.nextX + w <= ATLAS_WIDTH ==> t == s
    ensures s.nextX + w > ATLAS_WIDTH ==> t == Shelf(0, s.nextY + s.rowHeight + 1, 0)
  {
    if s.nextX + w > ATLAS_WIDTH then Shelf(0, s.nextY + s.rowHeight + 1, 0) else s
  }

  /** Placement as the packer is written: wrap, then reject a glyph that
      runs past the bottom edge. Nothing rejects a glyph wider than the
      atlas. */
  function PlaceAsWritten(s: Shelf, w: nat, h: nat): Placement {
    var t := WrapRow(s, w);
    if t.nextY + h > ATLAS_HEIGHT then Full(t)
    else Placed(t.nextX, t.nextY, Shelf(t.nextX + w + 1, t.nextY, Max(t.rowHeight, h)))
  }

  /** Placement with a glyph wider than the atlas reported as `AtlasFull`
      before anything changes. */
  function Place(s: Shelf, w: nat, h: nat): (p: Placement)
    ensures w <= ATLAS_WIDTH ==> p == PlaceAsWritten(s, w, h)
    ensures p.Placed? ==> p.x + w <= ATLAS_WIDTH && p.y + h <= ATLAS_HEIGHT
  {
    if w > ATLAS_WIDTH then Full(s) else PlaceAsWritten(s, w, h)
  }

  /** A glyph of 1025 x 1023 pixels in an empty atlas is accepted as written
      (it wraps to row 1 and ends on the bottom row), but its last pixel lies
      one past the end of the 1024 x 1024 buffer. */
  lemma WideGlyphOverruns()
    ensures var p := PlaceAsWritten(Shelf(0, 0, 0), 1025, 1023);
            p.Placed? && p.x == 0 && p.y == 1
            && Idx(p.y + 1022, p.x + 1024, ATLAS_WIDTH) == ATLAS_WIDTH * ATLAS_HEIGHT
  {
  }

  predicate Inside(b: Block) {
    b.x + b.w <= ATLAS_WIDTH && b.y + b.h <= ATLAS_HEIGHT
  }

  predicate Disjoint(a: Block, b: Block) {
    a.x + a.w <= b.x || b.x + b.w <= a.x || a.y + a.h <= b.y || b.y + b.h <= a.y
  }

  /** Every placed block lies on an earlier shelf (ending above `nextY`) or
      on the current one (left of `nextX`, no taller than the shelf). */
  predicate Settled(s: Shelf, b: Block) {
    b.y + b.h <= s.nextY || (b.y == s.nextY && b.x + b.w < s.nextX && b.h <= s.rowHeight)
  }

  /** The packer invariant over the placed blocks: each is non-empty, inside
      the atlas, settled relative to the packer state, and no two overlap;
      the state itself stays within one column and one row past the edges. */
  predicate Packed(s: Shelf, blocks: map<char, Block>) {
    && s.nextX <= ATLAS_WIDTH + 1
    && s.nextY <= ATLAS_HEIGHT + 1
    && (s.nextX == 0 ==> s.rowHeight == 0)
    && (s.nextX > 0 ==> s.nextY + s.rowHeight <= ATLAS_HEIGHT)
    && (forall k :: k in blocks ==> blocks[k].w > 0 && blocks[k].h > 0 && Inside(blocks[k]))
    && (forall k :: k in blocks ==> Settled(s, blocks[k]))
    && (forall k, k' :: k in blocks && k' in blocks && k != k' ==> Disjoint(blocks[k], blocks[k']))
  }

  /** The empty atlas satisfies the packer invariant. */
  lemma PackedInitially()
    ensures Packed(Shelf(0, 0, 0), map[])
  {
  }

  /** Wrapping to a new shelf keeps every placed block settled. */
  lemma WrapRowSettles(s: Shelf, blocks: map<char, Block>, w: nat)
    requires Packed(s, blocks)
    ensures forall k :: k in blocks ==> Settled(WrapRow(s, w), blocks[k])
  {
    var t := WrapRow(s, w);
    forall k | k in blocks
      ensures Settled(t, blocks[k])
    {
      assert Settled(s, blocks[k]);
    }
  }

  /** A placed glyph overlaps no earlier glyph, lands inside the atlas, and
      the packer invariant holds with it added; a rejected glyph leaves the
      invariant intact with the wrapped state. */
  lemma PlacePreserves(s: Shelf, blocks: map<char, Block>, c: char, w: nat, h: nat)
    requires Packed(s, blocks) && c !in blocks && w > 0 && h > 0
    ensures var p := Place(s, w, h);
            (p.Placed? ==>
               var b := Block(p.x, p.y, w, h);
               Inside(b)
               && (forall k :: k in blocks ==> Disjoint(blocks[k], b))
               && Packed(p.after, blocks[c := b]))
            && (p.Full? ==> Packed(p.after, blocks))
  {
    var p := Place(s, w, h);
    if w <= ATLAS_WIDTH {
      var t := WrapRow(s, w);
      WrapRowSettles(s, blocks, w);
      if p.Placed? {
        var b := Block(p.x, p.y, w, h);
        var blocks' := blocks[c := b];
        forall k | k in blocks
          ensures Disjoint(blocks[k], b) && Settled(p.after, blocks[k])
        {
          assert Settled(t, blocks[k]);
        }
        forall k, k' | k in blocks' && k' in blocks' && k != k'
          ensures Disjoint(blocks'[k], blocks'[k'])
        {
          if k != c && k' != c {
            assert Disjoint(blocks[k], blocks[k']);
          }
        }
      }
    }
  }

  // ---------------------------------------------------------------------
  // Copying a glyph into the atlas buffer

  /** Pixel (r, c) of the buffer after copying `bitmap` into block `b`: the
      bitmap's pixel inside the block, the old pixel everywhere else. */
  function BlitPixel(buf: seq<byte>, b: Block, bitmap: seq<byte>, r: nat, c: nat): byte
    requires |buf| == ATLAS_WIDTH * ATLAS_HEIGHT && |bitmap| == b.w * b.h
    requires r < ATLAS_HEIGHT && c < ATLAS_WIDTH
  {
    if b.y <= r < b.y + b.h && b.x <= c < b.x + b.w then
      IdxInBounds(r - b.y, c - b.x, b.w, b.h);
      bitmap[Idx(r - b.y, c - b.x, b.w)]
    else buf[Idx(r, c, ATLAS_WIDTH)]
  }

  /** The buffer after copying `bitmap` into block `b`. */
  function Blit(buf: seq<byte>, b: Block, bitmap: seq<byte>): (out: seq<byte>)
    requires |buf| == ATLAS_WIDTH * ATLAS_HEIGHT && |bitmap| == b.w * b.h
    ensures |out| == |buf|
  {
    seq(ATLAS_WIDTH * ATLAS_HEIGHT, i requires 0 <= i < ATLAS_WIDTH * ATLAS_HEIGHT =>
      BlitPixel(buf, b, bitmap, i / ATLAS_WIDTH, i % ATLAS_WIDTH))
  }

  lemma BlitAt(buf: seq<byte>, b: Block, bitmap: seq<byte>, r: nat, c: nat)
    requires |buf| == ATLAS_WIDTH * ATLAS_HEIGHT && |bitmap| == b.w * b.h
    requires r < ATLAS_HEIGHT && c < ATLAS_WIDTH
    ensures Blit(buf, b, bitmap)[Idx(r, c, ATLAS_WIDTH)] == BlitPixel(buf, b, bitmap, r, c)
  {
    var i := Idx(r, c, ATLAS_WIDTH);
    assert i / ATLAS_WIDTH == r && i % ATLAS_WIDTH == c;
  }

  /** Block `b` of `buf` holds `bitmap`, row-major. */
  ghost predicate Holds(buf: seq<byte>, b: Block, bitmap: seq<byte>)
    requires |buf| == ATLAS_WIDTH * ATLAS_HEIGHT && Inside(b) && |bitmap| == b.w * b.h
  {
    forall r, c :: 0 <= r < b.h && 0 <= c < b.w ==>
      Idx(r, c, b.w) < |bitmap| && buf[Idx(b.y + r, b.x + c, ATLAS_WIDTH)] == bitmap[Idx(r, c, b.w)]
  }

  /** After the copy the block holds the glyph's bitmap, and every pixel
      outside the block is what it was. */
  lemma BlitHolds(buf: seq<byte>, b: Block, bitmap: seq<byte>)
    requires |buf| == ATLAS_WIDTH * ATLAS_HEIGHT && Inside(b) && |bitmap| == b.w * b.h
    ensures Holds(Blit(buf, b, bitmap), b, bitmap)
    ensures forall r, c ::
              (0 <= r < ATLAS_HEIGHT && 0 <= c < ATLAS_WIDTH
               && !(b.y <= r < b.y + b.h && b.x <= c < b.x + b.w)) ==>
              Blit(buf, b, bitmap)[Idx(r, c, ATLAS_WIDTH)] == buf[Idx(r, c, ATLAS_WIDTH)]
  {
    forall r, c | 0 <= r < b.h && 0 <= c < b.w
      ensures Idx(r, c, b.w) < |bitmap|
      ensures Blit(buf, b, bitmap)[Idx(b.y + r, b.x + c, ATLAS_WIDTH)] == bitmap[Idx(r, c, b.w)]
    {
      IdxInBounds(r, c, b.w, b.h);
      BlitAt(buf, b, bitmap, b.y + r, b.x + c);
    }
    forall r, c | 0 <= r < ATLAS_HEIGHT && 0 <= c < ATLAS_WIDTH
                  && !(b.y <= r < b.y + b.h && b.x <= c < b.x + b.w)
      ensures Blit(buf, b, bitmap)[Idx(r, c, ATLAS_WIDTH)] == buf[Idx(r, c, ATLAS_WIDTH)]
    {
      BlitAt(buf, b, bitmap, r, c);
    }
  }

  /** Copying into a block leaves every disjoint block's bitmap intact. */
  lemma BlitKeeps(buf: seq<byte>, b: Block, bitmap: seq<byte>, b': Block, bitmap': seq<byte>)
    requires |buf| == ATLAS_WIDTH * ATLAS_HEIGHT && Inside(b) && |bitmap| == b.w * b.h
    requires Inside(b') && |bitmap'| == b'.w * b'.h && Disjoint(b, b')
    requires Holds(buf, b', bitmap')
    ensures Holds(Blit(buf, b, bitmap), b', bitmap')
  {
    BlitHolds(buf, b, bitmap);
    forall r, c | 0 <= r < b'.h && 0 <= c < b'.w
      ensures Idx(r, c, b'.w) < |bitmap'|
      ensures Blit(buf, b, bitmap)[Idx(b'.y + r, b'.x + c, ATLAS_WIDTH)] == bitmap'[Idx(r, c, b'.w)]
    {
      IdxInBounds(r, c, b'.w, b'.h);
      assert buf[Idx(b'.y + r, b'.x + c, ATLAS_WIDTH)] == bitmap'[Idx(r, c, b'.w)];
    }
  }

  /** Block `b` after `x` pixels of its row `y` (and all of its rows above
      `y`) have been copied. */
  predicate Copied(b: Block, y: nat, x: nat, r: nat, c: nat) {
    b.y <= r && b.x <= c < b.x + b.w
    && (r < b.y + y || (r == b.y + y && c < b.x + x))
  }

  /** The buffer part-way through the copy: the copied pixels as after the
      whole copy, the others as before it. */
  ghost predicate Partial(cur: seq<byte>, before: seq<byte>, b: Block, bitmap: seq<byte>, y: nat, x: nat)
    requires |before| == ATLAS_WIDTH * ATLAS_HEIGHT && |bitmap| == b.w * b.h
  {
    |cur| == |before|
    && forall r, c :: 0 <= r < ATLAS_HEIGHT && 0 <= c < ATLAS_WIDTH ==>
         cur[Idx(r, c, ATLAS_WIDTH)]
           == if Copied(b, y, x, r, c) then BlitPixel(before, b, bitmap, r, c) else before[Idx(r, c, ATLAS_WIDTH)]
  }

  /** Copies row `y` of the glyph bitmap into row `b.y + y` of the atlas. */
  method CopyRow(data: array<byte>, b: Block, bitmap: seq<byte>, y: nat, ghost before: seq<byte>)
    requires data.Length == ATLAS_WIDTH * ATLAS_HEIGHT && |before| == data.Length
    requires Inside(b) && |bitmap| == b.w * b.h && y < b.h
    requires Partial(data[..], before, b, bitmap, y, 0)
    modifies data
    ensures Partial(data[..], before, b, bitmap, y + 1, 0)
  {
    var x := 0;
    while x < b.w
      invariant x <= b.w
      invariant Partial(data[..], before, b, bitmap, y, x)
    {
      IdxInBounds(y, x, b.w, b.h);
      data[Idx(b.y + y, b.x + x, ATLAS_WIDTH)] := bitmap[Idx(y, x, b.w)];
      x := x + 1;
    }
    assert forall r, c :: Copied(b, y, b.w, r, c) <==> Copied(b, y + 1, 0, r, c);
  }

  /** The copy loop of `get_glyph`: the glyph bitmap, row by row, into its
      block of the atlas buffer. */
  method CopyGlyph(data: array<byte>, b: Block, bitmap: seq<byte>)
    requires data.Length == ATLAS_WIDTH * ATLAS_HEIGHT
    requires Inside(b) && |bitmap| == b.w * b.h
    modifies data
    ensures data[..] == Blit(old(data[..]), b, bitmap)
  {
    ghost var before := data[..];
    var y := 0;
    while y < b.h
      invariant y <= b.h
      invariant Partial(data[..], before, b, bitmap, y, 0)
    {
      CopyRow(data, b, bitmap, y, before);
      y := y + 1;
    }
    forall i | 0 <= i < data.Length
      ensures data[i] == Blit(before, b, bitmap)[i]
    {
      var r, c := i / ATLAS_WIDTH, i % ATLAS_WIDTH;
      assert Idx(r, c, ATLAS_WIDTH) == i;
      BlitAt(before, b, bitmap, r, c);
    }
  }

  // ---------------------------------------------------------------------
  // Glyph lookup

  /** Where a glyph sits in the atlas (texture coordinates in 0..1), its
      pixel size, its advance and its bearing offsets. */
  datatype GlyphInfo = GlyphInfo(
    uvX: real, uvY: real, uvWidth: real, uvHeight: real,
    width: nat, height: nat,
    advance: real,
    offsetX: real, offsetY: real)

  datatype AtlasError = FontLoadError(message: string) | AtlasFull

  /** The entry of a glyph that occupies no atlas space. */
  function EmptyInfo(advance: real, r: Rasterized): (info: GlyphInfo)
    ensures info.width == 0 && info.height == 0 && info.advance == advance
  {
    GlyphInfo(0.0, 0.0, 0.0, 0.0, 0, 0, advance, r.xmin as real, r.ymin as real)
  }

  /** The entry of a glyph copied into block `b`. */
  function PlacedInfo(b: Block, advance: real, r: Rasterized): (info: GlyphInfo)
    ensures Describes(info, b) && info.advance == advance
  {
    GlyphInfo(b.x as real / ATLAS_WIDTH as real, b.y as real / ATLAS_HEIGHT as real,
              b.w as real / ATLAS_WIDTH as real, b.h as real / ATLAS_HEIGHT as real,
              b.w, b.h, advance, r.xmin as real, r.ymin as real)
  }

  /** A cache entry describes block `b`: its texture coordinates are the
      block's corner and size over the atlas size. */
  predicate Describes(info: GlyphInfo, b: Block) {
    info.uvX == b.x as real / 1024.0
    && info.uvY == b.y as real / 1024.0
    && info.uvWidth == b.w as real / 1024.0
    && info.uvHeight == b.h as real / 1024.0
    && info.width == b.w && info.height == b.h
  }

  /** The results and final state of looking up `cs` one after another. */
  datatype Run = Run(
    results: seq<Result<GlyphInfo, AtlasError>>,
    glyphs: map<char, GlyphInfo>,
    shelf: Shelf,
    atlas: seq<byte>)

  function LookupRun(primary: Face, fallback: Option<Face>, emoji: Option<Face>, cellWidth: real,
                     glyphs: map<char, GlyphInfo>, s: Shelf, buf: seq<byte>, cs: seq<char>): (r: Run)
    requires |buf| == ATLAS_WIDTH * ATLAS_HEIGHT
    ensures |r.results| == |cs| && |r.atlas| == |buf|
  {
    if cs == [] then Run([], glyphs, s, buf)
    else
      var p := LookupRun(primary, fallback, emoji, cellWidth, glyphs, s, buf, cs[..|cs| - 1]);
      var o := GetGlyphSpec(primary, fallback, emoji, cellWidth, p.glyphs, p.shelf, p.atlas, cs[|cs| - 1]);
      Run(p.results + [o.result], o.glyphs, o.shelf, o.atlas)
  }

  /** The `i`-th lookup of a run is `get_glyph` on the state the first `i`
      lookups left behind, and later lookups do not change earlier results. */
  lemma {:induction false} LookupRunAt(primary: Face, fallback: Option<Face>, emoji: Option<Face>, cellWidth: real,
                                       glyphs: map<char, GlyphInfo>, s: Shelf, buf: seq<byte>, cs: seq<char>, i: nat)
    requires |buf| == ATLAS_WIDTH * ATLAS_HEIGHT && i < |cs|
    ensures var r := LookupRun(primary, fallback, emoji, cellWidth, glyphs, s, buf, cs);
            var p := LookupRun(primary, fallback, emoji, cellWidth, glyphs, s, buf, cs[..i]);
            && r.results[..i] == p.results
            && r.results[i] == GetGlyphSpec(primary, fallback, emoji, cellWidth, p.glyphs, p.shelf, p.atlas, cs[i]).result
  {
    var init := cs[..|cs| - 1];
    if i < |cs| - 1 {
      LookupRunAt(primary, fallback, emoji, cellWidth, glyphs, s, buf, init, i);
      assert init[..i] == cs[..i];
    }
  }

  /** The texture coordinates of a block inside the atlas lie in 0..1 and
      scale back to the block's pixel corner and size. */
  lemma TexCoordsInside(info: GlyphInfo, b: Block)
    requires Describes(info, b) && Inside(b)
    ensures 0.0 <= info.uvX && info.uvX + info.uvWidth <= 1.0
    ensures 0.0 <= info.uvY && info.uvY + info.uvHeight <= 1.0
    ensures info.uvX * 1024.0 == b.x as real && info.uvY * 1024.0 == b.y as real
    ensures info.uvWidth * 1024.0 == b.w as real && info.uvHeight * 1024.0 == b.h as real
  {
  }

  /** Everything `get_glyph` changes: its result, the cache, the packer
      state and the atlas buffer. */
  datatype Outcome = Outcome(
    result: Result<GlyphInfo, AtlasError>,
    glyphs: map<char, GlyphInfo>,
    shelf: Shelf,
    atlas: seq<byte>)

  /** `get_glyph`: a cached entry is returned as is; otherwise the glyph of
      the chosen font is either empty (cached without atlas space), or
      placed by the shelf packer and copied into the atlas, or rejected with
      `AtlasFull` (uncached, the wrapped packer state kept). */
  function GetGlyphSpec(primary: Face, fallback: Option<Face>, emoji: Option<Face>, cellWidth: real,
                        glyphs: map<char, GlyphInfo>, s: Shelf, buf: seq<byte>, c: char): (o: Outcome)
    requires |buf| == ATLAS_WIDTH * ATLAS_HEIGHT
    ensures |o.atlas| == |buf|
  {
    if c in glyphs then Outcome(Ok(glyphs[c]), glyphs, s, buf)
    else
      var src := ChooseSource(primary, fallback, emoji, c);
      var r := SourceRaster(primary, fallback, emoji, c, src);
      var advance := Advance(src, r, cellWidth);
      if IsEmpty(r) then
        var info := EmptyInfo(advance, r);
        Outcome(Ok(info), glyphs[c := info], s, buf)
      else
        match Place(s, r.width, r.height)
        case Full(t) => Outcome(Err(AtlasFull), glyphs, t, buf)
        case Placed(x, y, t) =>
          var b := Block(x, y, r.width, r.height);
          var info := PlacedInfo(b, advance, r);
          Outcome(Ok(info), glyphs[c := info], t, Blit(buf, b, r.bitmap))
  }

  /** A lookup changes only the entry of its own character: a cached
      character changes nothing, a failed lookup leaves cache and buffer as
      they were, and a successful one adds exactly that character. */
  lemma GetGlyphFrame(primary: Face, fallback: Option<Face>, emoji: Option<Face>, cellWidth: real,
                      glyphs: map<char, GlyphInfo>, s: Shelf, buf: seq<byte>, c: char)
    requires |buf| == ATLAS_WIDTH * ATLAS_HEIGHT
    ensures var o := GetGlyphSpec(primary, fallback, emoji, cellWidth, glyphs, s, buf, c);
            (c in glyphs ==> o == Outcome(Ok(glyphs[c]), glyphs, s, buf))
            && (o.result.Err? ==> c !in glyphs && o.glyphs == glyphs && o.atlas == buf)
            && (o.result.Ok? ==> c in o.glyphs && o.result.value == o.glyphs[c]
                                 && o.glyphs.Keys == glyphs.Keys + {c})
            && (forall k :: k in glyphs && k != c ==> k in o.glyphs && o.glyphs[k] == glyphs[k])
  {
  }

  /** Looking the same character up again returns the same entry and changes
      nothing. */
  lemma GetGlyphIdempotent(primary: Face, fallback: Option<Face>, emoji: Option<Face>, cellWidth: real,
                           glyphs: map<char, GlyphInfo>, s: Shelf, buf: seq<byte>, c: char)
    requires |buf| == ATLAS_WIDTH * ATLAS_HEIGHT
    ensures var o := GetGlyphSpec(primary, fallback, emoji, cellWidth, glyphs, s, buf, c);
            o.result.Ok? ==>
              GetGlyphSpec(primary, fallback, emoji, cellWidth, o.glyphs, o.shelf, o.atlas, c)
                == Outcome(o.result, o.glyphs, o.shelf, o.atlas)
  {
  }

  /** A glyph with no pixels (such as the space) takes no atlas space and
      leaves the packer and the buffer as they were. */
  lemma EmptyGlyphTakesNoSpace(primary: Face, fallback: Option<Face>, emoji: Option<Face>, cellWidth: real,
                               glyphs: map<char, GlyphInfo>, s: Shelf, buf: seq<byte>, c: char)
    requires |buf| == ATLAS_WIDTH * ATLAS_HEIGHT && c !in glyphs
    requires IsEmpty(SourceRaster(primary, fallback, emoji, c, ChooseSource(primary, fallback, emoji, c)))
    ensures var o := GetGlyphSpec(primary, fallback, emoji, cellWidth, glyphs, s, buf, c);
            o.result.Ok? && o.result.value.width == 0 && o.result.value.height == 0
            && o.shelf == s && o.atlas == buf
  {
  }

  /** A placed glyph's entry describes its block, the block holds the
      glyph's bitmap, and every pixel outside it is unchanged; the next glyph
      starts one blank column to its right. */
  lemma PlacedGlyphCopied(primary: Face, fallback: Option<Face>, emoji: Option<Face>, cellWidth: real,
                          glyphs: map<char, GlyphInfo>, s: Shelf, buf: seq<byte>, c: char)
    requires |buf| == ATLAS_WIDTH * ATLAS_HEIGHT && c !in glyphs
    ensures var o := GetGlyphSpec(primary, fallback, emoji, cellWidth, glyphs, s, buf, c);
            var r := SourceRaster(primary, fallback, emoji, c, ChooseSource(primary, fallback, emoji, c));
            o.result.Ok? && !IsEmpty(r) ==>
              var b := Block(o.shelf.nextX - r.width - 1, o.shelf.nextY, r.width, r.height);
              o.shelf.nextX >= r.width + 1
              && Inside(b)
              && Describes(o.result.value, b)
              && Holds(o.atlas, b, r.bitmap)
              && o.atlas == Blit(buf, b, r.bitmap)
  {
    var o := GetGlyphSpec(primary, fallback, emoji, cellWidth, glyphs, s, buf, c);
    var r := SourceRaster(primary, fallback, emoji, c, ChooseSource(primary, fallback, emoji, c));
    if o.result.Ok? && !IsEmpty(r) {
      var p := Place(s, r.width, r.height);
      var b := Block(p.x, p.y, r.width, r.height);
      BlitHolds(buf, b, r.bitmap);
    }
  }

  /** The atlas invariant: the packer invariant over the placed blocks,
      each block holding its glyph's bitmap, each cache entry describing its
      block, and the entries of glyphs without pixels taking none. */
  ghost predicate AtlasInv(buf: seq<byte>, s: Shelf, glyphs: map<char, GlyphInfo>,
                           blocks: map<char, Block>, bitmaps: map<char, seq<byte>>)
  {
    && |buf| == ATLAS_WIDTH * ATLAS_HEIGHT
    && Packed(s, blocks)
    && BlocksHold(buf, blocks, bitmaps)
    && EntriesDescribe(glyphs, blocks)
  }

  /** Every placed block holds its glyph's bitmap. */
  ghost predicate BlocksHold(buf: seq<byte>, blocks: map<char, Block>, bitmaps: map<char, seq<byte>>) {
    && |buf| == ATLAS_WIDTH * ATLAS_HEIGHT
    && blocks.Keys == bitmaps.Keys
    && (forall k :: k in blocks ==>
          Inside(blocks[k]) && |bitmaps[k]| == blocks[k].w * blocks[k].h
          && Holds(buf, blocks[k], bitmaps[k]))
  }

  /** The cache entry of a placed glyph describes its block; the entry of a
      glyph without a block has no pixels. */
  predicate EntriesDescribe(glyphs: map<char, GlyphInfo>, blocks: map<char, Block>) {
    && blocks.Keys <= glyphs.Keys
    && (forall k :: k in blocks ==> Describes(glyphs[k], blocks[k]))
    && (forall k :: k in glyphs && k !in blocks ==> glyphs[k].width == 0 && glyphs[k].height == 0)
  }

  /** Starting a new shelf keeps the atlas invariant. */
  lemma WrapKeepsInv(buf: seq<byte>, s: Shelf, glyphs: map<char, GlyphInfo>,
                     blocks: map<char, Block>, bitmaps: map<char, seq<byte>>, w: nat)
    requires AtlasInv(buf, s, glyphs, blocks, bitmaps) && w <= ATLAS_WIDTH
    ensures AtlasInv(buf, WrapRow(s, w), glyphs, blocks, bitmaps)
  {
    WrapRowSettles(s, blocks, w);
  }

  /** Placing and copying a new glyph keeps the atlas invariant, with the
      glyph's block, bitmap and entry recorded. */
  lemma PlacedKeepsInv(buf: seq<byte>, s: Shelf, glyphs: map<char, GlyphInfo>,
                       blocks: map<char, Block>, bitmaps: map<char, seq<byte>>,
                       c: char, m: Rasterized, advance: real, b: Block, t: Shelf)
    requires AtlasInv(buf, s, glyphs, blocks, bitmaps) && c !in glyphs && !IsEmpty(m)
    requires s.nextX + m.width <= ATLAS_WIDTH && s.nextY + m.height <= ATLAS_HEIGHT
    requires b == Block(s.nextX, s.nextY, m.width, m.height)
    requires t == Shelf(s.nextX + m.width + 1, s.nextY, Max(s.rowHeight, m.height))
    ensures AtlasInv(Blit(buf, b, m.bitmap), t, glyphs[c := PlacedInfo(b, advance, m)],
                     blocks[c := b], bitmaps[c := m.bitmap])
  {
    assert Place(s, m.width, m.height) == Placed(b.x, b.y, t);
    PlacePreserves(s, blocks, c, m.width, m.height);
    BlitKeepsAll(buf, blocks, bitmaps, c, b, m.bitmap);
    var info := PlacedInfo(b, advance, m);
    assert EntriesDescribe(glyphs[c := info], blocks[c := b]);
  }

  /** Copying a glyph into a block disjoint from every placed block keeps
      them all holding their bitmaps, and the new block holds the glyph. */
  lemma BlitKeepsAll(buf: seq<byte>, blocks: map<char, Block>, bitmaps: map<char, seq<byte>>,
                     c: char, b: Block, bitmap: seq<byte>)
    requires BlocksHold(buf, blocks, bitmaps) && Inside(b) && |bitmap| == b.w * b.h
    requires forall k :: k in blocks ==> Disjoint(blocks[k], b)
    ensures BlocksHold(Blit(buf, b, bitmap), blocks[c := b], bitmaps[c := bitmap])
  {
    var buf' := Blit(buf, b, bitmap);
    BlitHolds(buf, b, bitmap);
    forall k | k in blocks
      ensures Holds(buf', blocks[k], bitmaps[k])
    {
      BlitKeeps(buf, b, bitmap, blocks[k], bitmaps[k]);
    }
  }

  // ---------------------------------------------------------------------
  // The atlas object

  class GlyphAtlas {
    var font: Font
    var fontSize: real
    var ascent: real
    var cellWidth: real
    var cellHeight: real
    var fallbackFont: Option<Font>
    var fallbackFontSize: real
    var emojiFont: Option<Font>
    var emojiFontSize: real
    var glyphs: map<char, GlyphInfo>
    const data: array<byte>
    var nextX: nat
    var nextY: nat
    var rowHeight: nat
    /** The atlas block of every cached glyph that has pixels, and its bitmap. */
    ghost var blocks: map<char, Block>
    ghost var bitmaps: map<char, seq<byte>>

    function Primary(): Face
      reads this`font, this`fontSize
    {
      At(font, fontSize)
    }

    function FallbackFace(): (f: Option<Face>)
      reads this`fallbackFont, this`fallbackFontSize
      ensures f.Some? <==> fallbackFont.Some?
    {
      match fallbackFont
      case Some(ff) => Some(At(ff, fallbackFontSize))
      case None => None
    }

    function EmojiFace(): (f: Option<Face>)
      reads this`emojiFont, this`emojiFontSize
      ensures f.Some? <==> emojiFont.Some?
    {
      match emojiFont
      case Some(ef) => Some(At(ef, emojiFontSize))
      case None => None
    }

    function State(): Shelf
      reads this`nextX, this`nextY, this`rowHeight
    {
      Shelf(nextX, nextY, rowHeight)
    }

    /** The atlas invariant (see `AtlasInv`). */
    ghost predicate Valid()
      reads this`nextX, this`nextY, this`rowHeight, this`glyphs, this`blocks, this`bitmaps, data
    {
      data.Length == ATLAS_WIDTH * ATLAS_HEIGHT
      && AtlasInv(data[..], State(), glyphs, blocks, bitmaps)
    }

    /** `GlyphAtlas::new` for an already loaded font: the cell is the advance
        of 'M' by the font size, the ascent comes from the font's line
        metrics (or 0.8 of the size), and the atlas is an empty 1024 x 1024
        buffer with no fallback fonts. */
    constructor (font: Font, fontSize: real)
      ensures Valid()
      ensures this.font == font && this.fontSize == fontSize
      ensures cellWidth == font.rasterize('M', fontSize).advanceWidth && cellHeight == fontSize
      ensures ascent == MetricsOr(font, fontSize).ascent
      ensures fallbackFont.None? && emojiFont.None?
      ensures fallbackFontSize == fontSize && emojiFontSize == fontSize
      ensures glyphs == map[] && State() == Shelf(0, 0, 0)
      ensures fresh(data) && data[..] == seq(ATLAS_WIDTH * ATLAS_HEIGHT, _ => 0)
    {
      this.font := font;
      this.fontSize := fontSize;
      ascent := MetricsOr(font, fontSize).ascent;
      cellWidth := font.rasterize('M', fontSize).advanceWidth;
      cellHeight := fontSize;
      fallbackFont := None;
      fallbackFontSize := fontSize;
      emojiFont := None;
      emojiFontSize := fontSize;
      glyphs := map[];
      data := new byte[ATLAS_WIDTH * ATLAS_HEIGHT](_ => 0);
      nextX, nextY, rowHeight := 0, 0, 0;
      blocks, bitmaps := map[], map[];
    }

    /** `set_fallback`: the fallback font, sized so that its natural line
        height at the primary size fills the primary cell height. */
    method SetFallback(f: Font)
      requires Valid()
      requires MetricsOr(f, fontSize).ascent - MetricsOr(f, fontSize).descent != 0.0
      modifies this
      ensures Valid()
      ensures font == old(font) && fontSize == old(fontSize) && cellWidth == old(cellWidth)
      ensures cellHeight == old(cellHeight) && ascent == old(ascent)
      ensures fallbackFont == Some(f)
      ensures fallbackFontSize == MatchedSize(fontSize, cellHeight, MetricsOr(f, fontSize))
      ensures emojiFont == old(emojiFont) && emojiFontSize == old(emojiFontSize)
      ensures glyphs == old(glyphs) && State() == old(State())
      ensures blocks == old(blocks) && bitmaps == old(bitmaps)
    {
      fallbackFontSize := MatchedSize(fontSize, cellHeight, MetricsOr(f, fontSize));
      fallbackFont := Some(f);
    }

    /** `set_emoji_fallback`: as `set_fallback`, for the emoji font. */
    method SetEmojiFallback(f: Font)
      requires Valid()
      requires MetricsOr(f, fontSize).ascent - MetricsOr(f, fontSize).descent != 0.0
      modifies this
      ensures Valid()
      ensures font == old(font) && fontSize == old(fontSize) && cellWidth == old(cellWidth)
      ensures cellHeight == old(cellHeight) && ascent == old(ascent)
      ensures emojiFont == Some(f)
      ensures emojiFontSize == MatchedSize(fontSize, cellHeight, MetricsOr(f, fontSize))
      ensures fallbackFont == old(fallbackFont) && fallbackFontSize == old(fallbackFontSize)
      ensures glyphs == old(glyphs) && State() == old(State())
      ensures blocks == old(blocks) && bitmaps == old(bitmaps)
    {
      emojiFontSize := MatchedSize(fontSize, cellHeight, MetricsOr(f, fontSize));
      emojiFont := Some(f);
    }

    /** `get_glyph`, with a glyph wider than the atlas rejected as
        `AtlasFull` before the packer moves. */
    method GetGlyph(c: char) returns (r: Result<GlyphInfo, AtlasError>)
      requires Valid()
      modifies this`nextX, this`nextY, this`rowHeight, this`glyphs, this`blocks, this`bitmaps, data
      ensures Valid()
      ensures var o := GetGlyphSpec(old(Primary()), old(FallbackFace()), old(EmojiFace()), old(cellWidth),
                                    old(glyphs), old(State()), old(data[..]), c);
              r == o.result && glyphs == o.glyphs && State() == o.shelf && data[..] == o.atlas
    {
      if c in glyphs {
        return Ok(glyphs[c]);
      }
      var primary, fallback, emoji := Primary(), FallbackFace(), EmojiFace();
      var src := ChooseSource(primary, fallback, emoji, c);
      var m := SourceRaster(primary, fallback, emoji, c, src);
      var advance := Advance(src, m, cellWidth);
      if m.width == 0 || m.height == 0 {
        var info := EmptyInfo(advance, m);
        glyphs := glyphs[c := info];
        return Ok(info);
      }
      r := PlaceGlyph(c, m, advance);
    }

    /** The packing half of `get_glyph`, for an uncached glyph with pixels. */
    method PlaceGlyph(c: char, m: Rasterized, advance: real) returns (r: Result<GlyphInfo, AtlasError>)
      requires Valid() && c !in glyphs && !IsEmpty(m)
      modifies this`nextX, this`nextY, this`rowHeight, this`glyphs, this`blocks, this`bitmaps, data
      ensures Valid()
      ensures match Place(old(State()), m.width, m.height)
              case Full(t) =>
                r == Err(AtlasFull) && glyphs == old(glyphs) && State() == t && data[..] == old(data[..])
              case Placed(x, y, t) =>
                var b := Block(x, y, m.width, m.height);
                r == Ok(PlacedInfo(b, advance, m)) && glyphs == old(glyphs)[c := r.value]
                && State() == t && data[..] == Blit(old(data[..]), b, m.bitmap)
    {
      if m.width > ATLAS_WIDTH {
        return Err(AtlasFull);
      }
      WrapIfNeeded(m.width);
      if nextY + m.height > ATLAS_HEIGHT {
        return Err(AtlasFull);
      }
      var info := Commit(c, m, advance);
      return Ok(info);
    }

    /** Starts a new shelf when a glyph of width `w` does not fit on this one. */
    method WrapIfNeeded(w: nat)
      requires Valid() && w <= ATLAS_WIDTH
      modifies this`nextX, this`nextY, this`rowHeight
      ensures Valid()
      ensures State() == WrapRow(old(State()), w)
    {
      WrapKeepsInv(data[..], State(), glyphs, blocks, bitmaps, w);
      if nextX + w > ATLAS_WIDTH {
        nextX := 0;
        nextY := nextY + rowHeight + 1;
        rowHeight := 0;
      }
    }

    /** Copies a glyph that fits at (`nextX`, `nextY`) and records it. */
    method Commit(c: char, m: Rasterized, advance: real) returns (info: GlyphInfo)
      requires Valid() && c !in glyphs && !IsEmpty(m)
      requires nextX + m.width <= ATLAS_WIDTH && nextY + m.height <= ATLAS_HEIGHT
      modifies this`nextX, this`rowHeight, this`glyphs, this`blocks, this`bitmaps, data
      ensures Valid()
      ensures var b := Block(old(nextX), old(nextY), m.width, m.height);
              info == PlacedInfo(b, advance, m) && glyphs == old(glyphs)[c := info]
              && State() == Shelf(old(nextX) + m.width + 1, old(nextY), Max(old(rowHeight), m.height))
              && data[..] == Blit(old(data[..]), b, m.bitmap)
    {
      var b := Block(nextX, nextY, m.width, m.height);
      info := PlacedInfo(b, advance, m);
      var x', h' := nextX + m.width + 1, Max(rowHeight, m.height);
      PlacedKeepsInv(data[..], State(), glyphs, blocks, bitmaps, c, m, advance, b, Shelf(x', nextY, h'));
      nextX, rowHeight := x', h';
      glyphs, blocks, bitmaps := glyphs[c := info], blocks[c := b], bitmaps[c := m.bitmap];
      CopyGlyph(data, b, m.bitmap);
    }

    /** `atlas_dimensions`. */
    function Dimensions(): (d: (nat, nat))
      reads this
      ensures d.0 * d.1 == ATLAS_WIDTH * ATLAS_HEIGHT
    {
      (ATLAS_WIDTH, ATLAS_HEIGHT)
    }

    /** `cell_size`: the advance of 'M' at the font size, by the font size. */
    function CellSize(): (size: (real, real))
      reads this
      ensures size.1 == fontSize && size.0 == Primary().rasterize('M').advanceWidth
    {
      (font.rasterize('M', fontSize).advanceWidth, fontSize)
    }
  }
}
