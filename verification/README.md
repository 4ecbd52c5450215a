# cool-rust-terminal, modelled in Dafny

cool-rust-terminal is a GPU terminal emulator with a CRT look: a window splits
into panes, each pane shows a terminal grid, and the grid is drawn as glyphs
from a texture atlas, followed by line overlays and a burn-in (phosphor
persistence) post-process pass. This project models the parts of it that
decide *what* gets drawn and *how the user's input is turned into state*:

- `layout.dfy` (module `Layout`): the pane tree. Panes are laid out as a near-square grid of
  rectangles in normalised coordinates. The model covers focus, adding and closing panes, and hit
  testing.
- `bdf.dfy` (module `Bdf`, with the index arithmetic in `raster.dfy`, module `Raster`): the BDF
  bitmap-font parser. It covers the header, glyph records and hex bitmap rows. It also covers
  rendering a glyph to an 8-bit coverage bitmap and nearest-neighbour scaling.
- `bdf_sample.dfy` (module `BdfSample`): the 6×13 test font of the BDF loader's tests, written
  out as text. Its text is read line by line through the parser. The capital A that the
  rendering facts are about is the glyph that parse produces.
- `atlas.dfy` (module `Atlas`): the glyph atlas. It is a 1024×1024 byte texture, filled by a
  shelf packer. Glyphs come from a primary font, a fallback font or an emoji font, or are
  replaced by `?`.
- `text_pipeline.dfy`, `line_pipeline.dfy`, `burnin.dfy`, `quads.dfy`: the CPU side of the three
  GPU pipelines.
  - The text pipeline turns glyphs into quads and index lists.
  - The line pipeline turns segments into thick-line quads.
  - The burn-in pipeline ping-pongs between two render targets.
- `renderer.dfy` (module `Renderer`): grid sizing, and the flattening of pane cell grids and
  debug text into positioned characters.
- `scrollback.dfy` (module `Scrollback`): the colour (de)serialisation table and the plain-text
  export of saved scrollback.
- `app.dfy` (module `App`), the application state:
  - selections and their copy-to-clipboard text;
  - the key-to-bytes translation;
  - the FPS ring buffer;
  - the beam-speed setting;
  - the pane limit.
- `config_ui.dfy` (module `ConfigUi`): the settings overlay.
  - Its tabs, field lists and visibility rules.
  - What toggling, activating and adjusting each field does.
  - The line text of every kind of field.
  - The panel layout, and the cell-by-cell rendering of the centred panel.
- `text.dfy`, `ints.dfy`, `wrappers.dfy`: Rust standard-library behaviour the core relies on.
  - `lines()`, `trim`, `split_whitespace`, integer parsing, UTF-8 encoding and `{:^n}` padding.
  - Integer casts: `as` wrap-around and saturating float-to-int casts.
  - `Option`/`Result`.

Floating-point values are modelled as `real`. Rust's integer widths are written out where the
source casts (`WrapI32`, `WrapU32`, `SatU32`, `SatU16`). Code that updates objects in place is
modelled as classes:
- `Layout.LayoutTree`, `Atlas.GlyphAtlas` (an `array` for the texture data);
- `TextPipeline.TextPipeline`, `LinePipeline.LinePipeline`, `BurnIn.BurnInPipeline`;
- `App.AppState` (an `array` for the FPS ring);
- `ConfigUi.ConfigUI`.

Loops are methods proved against a specification function. That function's properties are
stated as lemmas.

## Model

| member | source | states |
|---|---|---|
| Layout.Full | crates/crt-layout/src/tree.rs:19-26 | the full rectangle is the unit square at the origin |
| Layout.CeilSqrtFrom | crates/crt-layout/src/tree.rs:135 | the result is the least m with m*m >= n (the ceiling of the square root) |
| Layout.GridRects | crates/crt-layout/src/tree.rs:123-177 | the grid has exactly one rectangle per pane |
| Layout.ComputeGridRects | crates/crt-layout/src/tree.rs:123-177 | the strip-filling loop produces exactly the grid specification |
| Layout.MajorCountBounds | crates/crt-layout/src/tree.rs:135 | for two or more panes, there are between 2 and n strips and each strip gets at least one pane |
| Layout.StripCountsSum | crates/crt-layout/src/tree.rs:139-150 | the first k strips hold k*base panes plus min(k, extras), so all strips together hold all n panes |
| Layout.StripCountsBalanced | crates/crt-layout/src/tree.rs:146-150 | strip sizes differ by at most one and never shrink from first to last strip (the extras go to the last strips) |
| Layout.GridRectsInside | crates/crt-layout/src/tree.rs:144-174 | every pane rectangle lies inside the unit square |
| Layout.GridRectsCover | crates/crt-layout/src/tree.rs:144-174 | every point of the unit square lies in some pane rectangle |
| Layout.GridRectsDisjoint | crates/crt-layout/src/tree.rs:144-174 | no point lies in two different pane rectangles |
| Layout.FivePanesLayout | crates/crt-layout/src/tree.rs:340-371 | five panes in landscape form 3 columns holding 1, 2 and 2 panes, with the expected rectangles |
| Layout.LayoutTree.constructor | crates/crt-layout/src/tree.rs:37-44 | a new tree has the single pane 0, focused, and the next id is 1 |
| Layout.LayoutTree.Panes | crates/crt-layout/src/tree.rs:97-99 | pane ids are distinct and all below the next id |
| Layout.LayoutTree.SetFocus | crates/crt-layout/src/tree.rs:50-54 | focus moves to the pane when it exists, otherwise nothing changes |
| Layout.LayoutTree.AddPane | crates/crt-layout/src/tree.rs:72-78 | a fresh id is appended after the existing panes and becomes focused |
| Layout.LayoutTree.Close | crates/crt-layout/src/tree.rs:81-94 | closing removes the pane and keeps the others in order; focus then moves to the pane before it (or the first pane), which is returned; an unknown pane, or closing the last pane, returns nothing |
| Layout.LayoutTree.PaneRects | crates/crt-layout/src/tree.rs:103-117 | the map has a key for exactly the live panes, and pane i gets grid rectangle i (landscape when width >= height) |
| Layout.LayoutTree.HitTest | crates/crt-layout/src/tree.rs:57-69 | a point hits a pane exactly when it lies in that pane's rectangle; points outside the window hit nothing |
| Layout.HitTestTotal | crates/crt-layout/src/tree.rs:465-473 | a point lies in some pane rectangle if and only if it is inside the unit square |
| Bdf.HexRowMeaning | crates/crt-renderer/src/bdf.rs:234-250 | a hex row parses if and only if every pair of digits parses; it then gives one byte per pair, with a lone trailing digit read as that digit followed by '0' |
| Bdf.ParseHexRow | crates/crt-renderer/src/bdf.rs:234-250 | the pair-by-pair loop over the trimmed row produces exactly the hex-row specification |
| Bdf.ToHex | crates/crt-renderer/src/bdf.rs:234-250 | the encoder writes two hex digits per byte and no whitespace |
| Bdf.HexRowRoundTrip | crates/crt-renderer/src/bdf.rs:234-250 | parsing an encoded row gives the bytes back |
| Bdf.HeaderLoop | crates/crt-renderer/src/bdf.rs:92-120 | the header scan stops at or before the end of the input and never moves backwards |
| Bdf.DeriveMetrics | crates/crt-renderer/src/bdf.rs:122-127 | explicit FONT_ASCENT/FONT_DESCENT values are kept unchanged |
| Bdf.DeriveMetricsFallback | crates/crt-renderer/src/bdf.rs:122-127 | without them, and when the i32 negation and subtraction do not wrap, descent is minus the bounding-box y offset and ascent + descent is the bounding-box height; nothing else changes |
| Bdf.GlyphLine | crates/crt-renderer/src/bdf.rs:156-232 | metric lines of a glyph never change its encoding or its bitmap |
| Bdf.SkipToEndChar | crates/crt-renderer/src/bdf.rs:183-198 | skipping a glyph with a negative encoding resumes after its ENDCHAR, at or before the end of the input |
| Bdf.GlyphLineAt | crates/crt-renderer/src/bdf.rs:156-232 | ENDCHAR finishes the glyph with the values gathered so far and moves past that line |
| Bdf.GlyphLoop | crates/crt-renderer/src/bdf.rs:156-232 | a glyph record ends within the input, and a finished glyph keeps its name and has an i32 encoding |
| Bdf.ParseGlyph | crates/crt-renderer/src/bdf.rs:156-232 | the line loop of one glyph produces exactly the glyph specification |
| Bdf.FontLoopIndexed | crates/crt-renderer/src/bdf.rs:130-140 | every glyph in the parsed font is stored under its own encoding |
| Bdf.ParseFontFacts | crates/crt-renderer/src/bdf.rs:70-154 | an empty file, or one whose first line is not STARTFONT, is rejected as an invalid format; a parsed font indexes its glyphs by encoding and carries the derived metrics |
| Bdf.ParseHeader | crates/crt-renderer/src/bdf.rs:92-127 | the header loop with its metric fallback produces the header specification |
| Bdf.ParseGlyphs | crates/crt-renderer/src/bdf.rs:130-140 | the glyph loop produces the font-loop specification |
| Bdf.ParseStr | crates/crt-renderer/src/bdf.rs:70-154 | the parser produces exactly the font specification |
| Bdf.HeaderLineSize | crates/crt-renderer/src/bdf.rs:99-120 | a header line changes the pixel size only when it is a SIZE line with a field (its first field, 0 when that is not a u32) or a PIXEL_SIZE line whose value parses |
| Bdf.HeaderLoopKeepsSize | crates/crt-renderer/src/bdf.rs:92-120 | header lines up to CHARS that set no size leave the pixel size as it was |
| Bdf.HeaderLoopLastSize | crates/crt-renderer/src/bdf.rs:101-107 | the last line before CHARS that sets a size decides it: PIXEL_SIZE after SIZE overrides it, and an unparsable PIXEL_SIZE sets nothing |
| Bdf.GlyphLoopNegativeDropped | crates/crt-renderer/src/bdf.rs:183-197 | a record whose ENCODING is a negative i32 yields no glyph, and reading resumes after its ENDCHAR |
| Bdf.GlyphLoopBadEncoding | crates/crt-renderer/src/bdf.rs:183-187 | an ENCODING value that is not an i32 aborts the parse with a number error naming the value |
| Bdf.GlyphLoopNoEncoding | crates/crt-renderer/src/bdf.rs:217-220 | a record without an ENCODING line before ENDCHAR yields no glyph |
| Bdf.BitmapRows | crates/crt-renderer/src/bdf.rs:179-182 | inside BITMAP, each hex line appends its decoded row to the bitmap, in order |
| Bdf.HexLines | crates/crt-renderer/src/bdf.rs:234-250 | each encoded line decodes back to its row |
| Bdf.FontLoopLaterWins | crates/crt-renderer/src/bdf.rs:130-140 | glyphs already stored are kept unless a later record has the same encoding, which then replaces them |
| Bdf.GetGlyph | crates/crt-renderer/src/bdf.rs:253-260 | a glyph is found exactly when its code point is in the font, and it carries that encoding |
| Bdf.CellWidth | crates/crt-renderer/src/bdf.rs:263-265 | the cell width is the bounding-box width |
| Bdf.CellHeight | crates/crt-renderer/src/bdf.rs:268-270 | the cell height is the u32 with the low 32 bits of ascent + descent: the sum itself when 0 <= sum <= i32::MAX, the sum plus 2^32 when it is a negative i32 |
| Bdf.DerivedCellHeight | crates/crt-renderer/src/bdf.rs:122-127 | for a font whose metrics were derived, the cell height is the bounding-box height |
| Bdf.RenderSpecPixel | crates/crt-renderer/src/bdf.rs:276-296 | the pixel at (row, col) is 255 when bit 7 - col%8 of byte col/8 of that row is set, and 0 otherwise |
| Bdf.RenderSpecValues | crates/crt-renderer/src/bdf.rs:276-296 | every pixel is 0 or 255, and rows with no bitmap data are all 0 |
| Bdf.Render | crates/crt-renderer/src/bdf.rs:276-296 | the row loop over the zeroed buffer produces the rendering specification |
| Bdf.RenderRow | crates/crt-renderer/src/bdf.rs:276-296 | one row is filled in, and the rows already rendered are kept |
| Bdf.ScaledDim | crates/crt-renderer/src/bdf.rs:301-374 | a scaled dimension is at least 1 and fits in a u32 |
| Bdf.SourceIndex | crates/crt-renderer/src/bdf.rs:301-374 | the nearest source pixel index always lies inside the source |
| Bdf.ScaledOffset | crates/crt-renderer/src/bdf.rs:301-374 | scaled offsets fit in an i32, and a scale of 1 keeps them |
| Bdf.RenderScaled | crates/crt-renderer/src/bdf.rs:301-374 | scaling produces exactly the scaled-glyph specification |
| Bdf.ScaleNearest | crates/crt-renderer/src/bdf.rs:301-374 | the nearest-neighbour loop produces the scaled bitmap specification |
| Bdf.ScaleRow | crates/crt-renderer/src/bdf.rs:301-374 | one destination row is filled in, and the earlier rows are kept |
| Bdf.ScaledSameSize | crates/crt-renderer/src/bdf.rs:502-513 | scaling to the source size leaves the bitmap and the metrics unchanged |
| Bdf.ScaledShape | crates/crt-renderer/src/bdf.rs:301-374 | the scaled bitmap has the scaled width times the scaled height, and every pixel is 0 or 255 |
| Bdf.ScaledDouble | crates/crt-renderer/src/bdf.rs:478-499 | at 2x, each source pixel becomes a 2×2 block of the same value |
| BdfSample.SampleHeader | crates/crt-renderer/src/bdf.rs:392-400 | the header of the loader's test font reads as name, pixel size 13, box 6×13 at (0, -2), ascent 11 and descent 2, and stops after CHARS |
| BdfSample.RecordGlyph | crates/crt-renderer/src/bdf.rs:402-420 | a record of the test font with its ENCODING, DWIDTH, BBX, BITMAP rows and ENDCHAR reads into the glyph with those values, and reading resumes after ENDCHAR |
| BdfSample.RecordStored | crates/crt-renderer/src/bdf.rs:136-139 | with its STARTCHAR line, that glyph is stored under its encoding and the glyph loop continues after the record |
| BdfSample.SampleHex | crates/crt-renderer/src/bdf.rs:407-439 | the bitmap lines of the test font's two glyphs are the hex text of their rows |
| BdfSample.SampleGlyphs | crates/crt-renderer/src/bdf.rs:401-441 | the glyph loop over the test font stores the space under 32 and the A under 65 and stops at ENDFONT |
| BdfSample.SampleLines | crates/crt-renderer/src/bdf.rs:392-442 | splitting the test font's text into lines gives its 50 lines back |
| BdfSample.SampleParses | crates/crt-renderer/src/bdf.rs:392-442 | parsing the test font's text succeeds and gives exactly the font it describes |
| BdfSample.SampleFontFacts | crates/crt-renderer/src/bdf.rs:445-458 | the parsed test font has box 6×13, ascent 11, descent 2, two glyphs, a 6×13 cell, and under 65 an A with a 6×13 box and 13 rows |
| BdfSample.SampleARow2 | crates/crt-renderer/src/bdf.rs:461-469 | row 2 of the parsed 'A' (byte 0x20) lights column 2 and not column 0 |
| BdfSample.SampleARow7 | crates/crt-renderer/src/bdf.rs:471-474 | row 7 of the parsed 'A' (the crossbar, 0xF8) lights columns 0 and 4 and not column 5 |
| BdfSample.SampleRenderA | crates/crt-renderer/src/bdf.rs:460-475 | the A looked up in the parsed test font renders with those pixels |
| Atlas.At | crates/crt-renderer/src/atlas.rs:49-90 | a font at a size rasterises every character at that size |
| Atlas.MetricsOr | crates/crt-renderer/src/atlas.rs:49-90 | without line metrics, the assumed ascent minus descent equals the font size |
| Atlas.MatchedSize | crates/crt-renderer/src/atlas.rs:94-124 | the fallback size makes the fallback's line height equal the primary cell height |
| Atlas.MatchedSizeDefault | crates/crt-renderer/src/atlas.rs:94-124 | a font without metrics keeps the requested size |
| Atlas.ChooseSource | crates/crt-renderer/src/atlas.rs:189-225 | glyphs come from the primary font when it has the character (a non-empty glyph, or the space), else from the fallback, else from the emoji font; '?' is used only when no font has it |
| Atlas.Advance | crates/crt-renderer/src/atlas.rs:236 | primary and '?' glyphs keep their own advance; fallback and emoji glyphs advance one primary cell |
| Atlas.WrapRow | crates/crt-renderer/src/atlas.rs:255-260 | the shelf wraps to a new row one pixel below the tallest glyph exactly when the glyph does not fit in the current row |
| Atlas.WideGlyphOverruns | crates/crt-renderer/src/atlas.rs:255-276 | as written, a 1025-pixel-wide glyph is still placed, and its last pixel lies outside the texture |
| Atlas.PackedInitially | crates/crt-renderer/src/atlas.rs:49-90 | an empty atlas satisfies the packing invariant |
| Atlas.WrapRowSettles | crates/crt-renderer/src/atlas.rs:255-260 | after a wrap, every placed glyph lies above the new shelf |
| Atlas.PlacePreserves | crates/crt-renderer/src/atlas.rs:255-294 | a newly placed glyph lies inside the texture and overlaps no placed glyph, and the packing invariant still holds; a glyph that cannot fit reports full |
| Atlas.Blit | crates/crt-renderer/src/atlas.rs:267-276 | copying keeps the texture size |
| Atlas.BlitHolds | crates/crt-renderer/src/atlas.rs:267-276 | after the copy, the block holds the bitmap and every pixel outside it is unchanged |
| Atlas.BlitKeeps | crates/crt-renderer/src/atlas.rs:267-276 | a copy into one block keeps what a disjoint block holds |
| Atlas.CopyGlyph | crates/crt-renderer/src/atlas.rs:267-276 | the row-by-row copy loop performs exactly the blit |
| Atlas.PlacedInfo | crates/crt-renderer/src/atlas.rs:278-288 | the glyph info gives the block's texture coordinates and size, with the chosen advance |
| Atlas.TexCoordsInside | crates/crt-renderer/src/atlas.rs:278-288 | the texture coordinates of a placed glyph lie inside [0, 1] and scale back to its pixel position |
| Atlas.GetGlyphSpec | crates/crt-renderer/src/atlas.rs:183-295 | looking up a glyph keeps the texture size |
| Atlas.GetGlyphFrame | crates/crt-renderer/src/atlas.rs:183-295 | a cached glyph is returned with nothing changed; a successful lookup caches exactly the new character; an error leaves cache and texture as they were; other cached glyphs are kept |
| Atlas.LookupRun | crates/crt-renderer/src/text_pipeline.rs:257-261 | a run of lookups yields one result per character and keeps the atlas texture size |
| Atlas.LookupRunAt | crates/crt-renderer/src/text_pipeline.rs:257-261 | the i-th result is `get_glyph` on the cache, packer and atlas that the first i lookups left, and later lookups leave earlier results unchanged |
| Atlas.GetGlyphIdempotent | crates/crt-renderer/src/atlas.rs:184-186 | looking the same character up again returns the same info and changes nothing |
| Atlas.EmptyGlyphTakesNoSpace | crates/crt-renderer/src/atlas.rs:238-253 | an empty glyph is cached with zero size and uses no atlas space or pixels |
| Atlas.PlacedGlyphCopied | crates/crt-renderer/src/atlas.rs:255-294 | a placed glyph's bitmap is in the texture at its block, and the shelf moves past it |
| Atlas.WrapKeepsInv | crates/crt-renderer/src/atlas.rs:255-260 | wrapping keeps the atlas invariant |
| Atlas.PlacedKeepsInv | crates/crt-renderer/src/atlas.rs:262-294 | placing, copying and caching a glyph keeps the atlas invariant (placed glyphs are disjoint, inside the texture and hold their bitmaps) |
| Atlas.GlyphAtlas.FallbackFace | crates/crt-renderer/src/atlas.rs:94-124 | a fallback face exists exactly when a fallback font is set |
| Atlas.GlyphAtlas.EmojiFace | crates/crt-renderer/src/atlas.rs:127-154 | an emoji face exists exactly when an emoji font is set |
| Atlas.GlyphAtlas.constructor | crates/crt-renderer/src/atlas.rs:49-90 | a new atlas is empty; its cell width is the advance of 'M' and its cell height the font size |
| Atlas.GlyphAtlas.SetFallback | crates/crt-renderer/src/atlas.rs:94-124 | setting a fallback font changes only the fallback font and its size, which matches its line height to the cell height |
| Atlas.GlyphAtlas.SetEmojiFallback | crates/crt-renderer/src/atlas.rs:127-154 | setting an emoji font changes only the emoji font and its matched size |
| Atlas.GlyphAtlas.GetGlyph | crates/crt-renderer/src/atlas.rs:183-295 | the lookup's result, texture, shelf and cache are those of the specification, and the atlas invariant holds |
| Atlas.GlyphAtlas.PlaceGlyph | crates/crt-renderer/src/atlas.rs:255-294 | a non-empty glyph is placed as the corrected placement says; when it is reported full, the shelf wrap already made stays in the atlas state |
| Atlas.GlyphAtlas.WrapIfNeeded | crates/crt-renderer/src/atlas.rs:255-260 | the shelf becomes the wrapped shelf and the invariant holds |
| Atlas.GlyphAtlas.Commit | crates/crt-renderer/src/atlas.rs:267-294 | the bitmap is copied into its block, the info is cached, and the shelf advances |
| Atlas.GlyphAtlas.Dimensions | crates/crt-renderer/src/atlas.rs:301-303 | the reported dimensions cover the whole texture |
| Atlas.GlyphAtlas.CellSize | crates/crt-renderer/src/atlas.rs:305-308 | the cell size is the advance of 'M' by the font size |
| TextPipeline.Chars | crates/crt-renderer/src/text_pipeline.rs:248-321 | the characters looked up are those of the items, in order |
| TextPipeline.TextVertices | crates/crt-renderer/src/text_pipeline.rs:270-301 | four vertices for each glyph drawn |
| TextPipeline.EmittedAtMost | crates/crt-renderer/src/text_pipeline.rs:310-312 | a frame never holds more glyph quads than the buffer capacity |
| TextPipeline.QuadsAreRectangles | crates/crt-renderer/src/text_pipeline.rs:270-301 | each glyph quad is a non-degenerate axis-aligned rectangle in one colour, the colour of a drawn item |
| TextPipeline.BuiltIndicesInRange | crates/crt-renderer/src/text_pipeline.rs:303-308 | six indices per quad, and every index names an existing vertex |
| TextPipeline.StopAtBreak | crates/crt-renderer/src/text_pipeline.rs:310-312 | the loop stops right after the quad that fills the buffer |
| TextPipeline.Push | crates/crt-renderer/src/text_pipeline.rs:270-308 | appending a drawn glyph extends vertices and indices by its quad |
| TextPipeline.Skip | crates/crt-renderer/src/text_pipeline.rs:257-313 | a glyph that is missing or empty adds nothing |
| TextPipeline.TextPipeline.constructor | crates/crt-renderer/src/text_pipeline.rs:211-234 | a new pipeline has room for the maximum glyph count and nothing to draw |
| TextPipeline.TextPipeline.Prepare | crates/crt-renderer/src/text_pipeline.rs:248-321 | the glyph loop stops where the specification says; the vertices and indices are those of the drawn glyphs; the buffers are written only when there is something to draw; the index count is recorded |
| TextPipeline.TextPipeline.Render | crates/crt-renderer/src/text_pipeline.rs:323-333 | a draw is issued exactly when there are indices, and every index drawn is within the vertex buffer |
| LinePipeline.SegmentQuad | crates/crt-renderer/src/line_pipeline.rs:190-205 | a drawn segment becomes four vertices |
| LinePipeline.LineVertices | crates/crt-renderer/src/line_pipeline.rs:165-221 | four vertices for each drawn segment |
| LinePipeline.Processed | crates/crt-renderer/src/line_pipeline.rs:170-172 | at most the maximum number of lines is processed, taken from the front; all lines are processed when they fit |
| LinePipeline.QuadAroundSegment | crates/crt-renderer/src/line_pipeline.rs:190-205 | the quad's edge midpoints are the segment's end points, offset along the normal by half the thickness |
| LinePipeline.NormalIsPerpendicular | crates/crt-renderer/src/line_pipeline.rs:183-185 | the normal is perpendicular to the segment |
| LinePipeline.NormalLength | crates/crt-renderer/src/line_pipeline.rs:175-185 | given an exact square root, the normal has half the thickness as its length |
| LinePipeline.SkippedAddsNothing | crates/crt-renderer/src/line_pipeline.rs:175-180 | a degenerate segment adds no vertices |
| LinePipeline.DrawnAddsQuad | crates/crt-renderer/src/line_pipeline.rs:190-212 | a drawn segment adds exactly its quad |
| LinePipeline.BuildStep | crates/crt-renderer/src/line_pipeline.rs:190-212 | one loop step keeps the vertices and indices equal to those of the segments seen so far: a short segment adds nothing, a drawn one its quad and six indices |
| LinePipeline.ProcessedFits | crates/crt-renderer/src/line_pipeline.rs:126 | the vertices always fit the buffer allocated for the maximum number of lines |
| LinePipeline.LinePipeline.constructor | crates/crt-renderer/src/line_pipeline.rs:126-150 | a new pipeline has nothing to draw |
| LinePipeline.LinePipeline.UpdateScreenSize | crates/crt-renderer/src/line_pipeline.rs:152-161 | only the screen size changes |
| LinePipeline.LinePipeline.Prepare | crates/crt-renderer/src/line_pipeline.rs:165-221 | the vertices and indices are those of the processed segments; the buffers are written only when there is something to draw; the index count is recorded |
| LinePipeline.LinePipeline.Render | crates/crt-renderer/src/line_pipeline.rs:223-233 | a draw is issued exactly when there are indices, and every index drawn is within the vertex buffer |
| Quads.IndexedDraw | crates/crt-renderer/src/text_pipeline.rs:323-333 | the draw shared by both pipelines is issued exactly when there are indices, and every index drawn is within the vertex buffer |
| Quads.QuadIndices | crates/crt-renderer/src/text_pipeline.rs:303-308 | a quad is drawn as two triangles over its four corners |
| Quads.IndexListAt | crates/crt-renderer/src/text_pipeline.rs:303-308 | index 6j+t of the list is corner t of quad j |
| Quads.IndexListBounds | crates/crt-renderer/src/line_pipeline.rs:207-212 | every index of k quads names one of their 4k vertices |
| BurnIn.InitialUniforms | crates/crt-renderer/src/burnin_pipeline.rs:34-169 | the beam initially covers the whole screen and interlacing is off |
| BurnIn.Other | crates/crt-renderer/src/burnin_pipeline.rs:211-240 | the read target is the target not being written |
| BurnIn.OtherOther | crates/crt-renderer/src/burnin_pipeline.rs:262-264 | the other target of the other target is the first one |
| BurnIn.Flag | crates/crt-renderer/src/burnin_pipeline.rs:268-293 | booleans are sent to the shader as 1 or 0 |
| BurnIn.BurnInPipeline.constructor | crates/crt-renderer/src/burnin_pipeline.rs:34-169 | target 0 is current, no bind groups are prepared, and the uniforms are the initial ones |
| BurnIn.BurnInPipeline.Resize | crates/crt-renderer/src/burnin_pipeline.rs:202-207 | new targets drop both bind groups, and the current target and uniforms are kept |
| BurnIn.BurnInPipeline.PrepareBindGroups | crates/crt-renderer/src/burnin_pipeline.rs:211-240 | the current target's bind group reads the new frame and the other target |
| BurnIn.BurnInPipeline.TargetView | crates/crt-renderer/src/burnin_pipeline.rs:243-245 | the pipeline writes to the current target, never to the one it reads |
| BurnIn.BurnInPipeline.OutputView | crates/crt-renderer/src/burnin_pipeline.rs:248-250 | the output shown is the target just written |
| BurnIn.BurnInPipeline.Render | crates/crt-renderer/src/burnin_pipeline.rs:253-259 | a full-screen triangle is drawn exactly when the current bind group exists |
| BurnIn.BurnInPipeline.Swap | crates/crt-renderer/src/burnin_pipeline.rs:262-264 | swapping changes only which target is current |
| BurnIn.BurnInPipeline.Update | crates/crt-renderer/src/burnin_pipeline.rs:268-293 | the uniforms hold the given values, with the interlace flag as 0 or 1, and nothing else changes |
| BurnIn.SwapTwice | crates/crt-renderer/src/burnin_pipeline.rs:262-264 | swapping twice restores the state |
| Renderer.CellsAcross | crates/crt-renderer/src/renderer.rs:152-157 | the cell count is between 1 and 65535 |
| Renderer.GridSizeForRegion | crates/crt-renderer/src/renderer.rs:143-157 | both grid dimensions are the number of whole cells that fit, between 1 and 65535 |
| Renderer.CellsFit | crates/crt-renderer/src/renderer.rs:152-157 | the counted cells fit the region and one more would not, unless clamped to 1 or to 65535 |
| Renderer.DrawnIsCell | crates/crt-renderer/src/renderer.rs:180-191 | every character drawn from a row is a non-blank cell of that row at its column position |
| Renderer.RowDrawn | crates/crt-renderer/src/renderer.rs:180-191 | a row's characters sit on that row's baseline |
| Renderer.DrawnInRow | crates/crt-renderer/src/renderer.rs:180-191 | every character drawn from a grid comes from one of its rows |
| Renderer.DrawnInPane | crates/crt-renderer/src/renderer.rs:274-289 | every character drawn from the panes comes from one pane's grid, offset by that pane |
| Renderer.PaneDrawn | crates/crt-renderer/src/renderer.rs:274-289 | every character drawn for one pane is among the characters drawn for all panes |
| Renderer.EveryCellDrawn | crates/crt-renderer/src/renderer.rs:180-191 | every non-blank cell of every pane is drawn, at its column on its row's baseline in its foreground colour |
| Renderer.NoBlankItems | crates/crt-renderer/src/renderer.rs:184-186 | spaces and NUL cells are never drawn |
| Renderer.FlattenPanes | crates/crt-renderer/src/renderer.rs:274-289 | the pane loop produces the flattening specification |
| Renderer.FlattenPane | crates/crt-renderer/src/renderer.rs:274-289 | the row loop of one pane produces its grid's characters |
| Renderer.FlattenRow | crates/crt-renderer/src/renderer.rs:183-190 | the column loop of one row produces its characters |
| Renderer.FlattenGrid | crates/crt-renderer/src/renderer.rs:178-191 | a single grid is flattened as one pane at the origin |
| Renderer.DebugLayout | crates/crt-renderer/src/renderer.rs:360-379 | debug text draws at most one character per input character |
| Renderer.DebugPenBaseline | crates/crt-renderer/src/renderer.rs:360-379 | the pen ends one line height lower per newline |
| Renderer.DebugPenItems | crates/crt-renderer/src/renderer.rs:360-379 | every character except newlines is drawn, in order |
| Renderer.LayOutDebugText | crates/crt-renderer/src/renderer.rs:360-379 | the debug-text loop produces the layout specification |
| Scrollback.TablePosition | crates/crt-terminal/src/scrollback.rs:44-76 | every named colour has a position in the 29-entry table |
| Scrollback.DecodeTable | crates/crt-terminal/src/scrollback.rs:44-76 | codes 0 to 28 decode to the colour at that table position, and larger codes decode to Foreground |
| Scrollback.TableCovers | crates/crt-terminal/src/scrollback.rs:44-76 | every named colour is decoded from its table position |
| Scrollback.DecodeDistinct | crates/crt-terminal/src/scrollback.rs:44-76 | distinct codes up to 28 decode to distinct colours |
| Scrollback.Decode | crates/crt-terminal/src/scrollback.rs:39-84 | named codes become named colours; indexed and RGB codes keep their values |
| Scrollback.Encode | crates/crt-terminal/src/scrollback.rs:29-37 | named colours are stored by their discriminant; indexed and RGB colours keep their values |
| Scrollback.IndexedAndRgbRoundTrip | crates/crt-terminal/src/scrollback.rs:181-200 | indexed and RGB colours survive serialisation in both directions |
| Scrollback.NamedRoundTrip | crates/crt-terminal/src/scrollback.rs:29-84 | a named colour survives exactly when its discriminant equals its table position (or it is Foreground and its discriminant is beyond the table) |
| Scrollback.LineText | crates/crt-terminal/src/scrollback.rs:161-165 | a line's text has one character per cell, in order |
| Scrollback.CollectLine | crates/crt-terminal/src/scrollback.rs:162-165 | the cell loop builds the line text |
| Scrollback.TerminatedAppend | crates/crt-terminal/src/scrollback.rs:158-173 | the export of two runs of lines is the concatenation of their exports |
| Scrollback.FirstNewline | crates/crt-terminal/src/scrollback.rs:158-173 | the first newline of the output is found, with none before it |
| Scrollback.ExportLines | crates/crt-terminal/src/scrollback.rs:158-173 | splitting the export at newlines gives back each line's text without trailing whitespace, one entry per line |
| Scrollback.ExportNewlines | crates/crt-terminal/src/scrollback.rs:158-173 | the export holds exactly one newline per line |
| Scrollback.ExportLength | crates/crt-terminal/src/scrollback.rs:158-173 | for ASCII content, the export is exactly the trimmed characters plus one newline per line long |
| Scrollback.AsciiTotal | crates/crt-terminal/src/scrollback.rs:158-173 | for ASCII content, the export has one byte per kept character |
| Scrollback.ExportLengthBound | crates/crt-terminal/src/scrollback.rs:158-173 | for any content, the export has at least one byte per kept character plus one newline per line |
| Scrollback.Utf8Total | crates/crt-terminal/src/scrollback.rs:158-173 | the UTF-8 bytes of the trimmed lines are at least as many as their characters |
| App.Normalized | crates/crt-app/src/main.rs:103-122 | the normalised endpoints are the two original endpoints in reading order |
| App.ContainsIsInterval | crates/crt-app/src/main.rs:124-141 | a cell is selected exactly when it lies between the normalised endpoints in reading order (a collapsed inactive selection holds nothing) |
| App.ContainsSymmetric | crates/crt-app/src/main.rs:124-141 | selecting from either end gives the same cells |
| App.CtrlLetter | crates/crt-app/src/main.rs:1513-1519 | Ctrl with a letter of either case sends the control code 1 to 26 |
| App.AltPrefix | crates/crt-app/src/main.rs:1523-1558 | Alt with a one-byte key, Enter or Space sends ESC and then the unmodified bytes |
| App.NavigationIsControlSequence | crates/crt-app/src/main.rs:1543-1551 | arrow, Home/End and paging keys send a CSI control sequence, whatever Alt is |
| App.NamedKeysDistinct | crates/crt-app/src/main.rs:1532-1559 | every handled named key sends bytes that identify it |
| App.CellsText | crates/crt-app/src/main.rs:374-395 | the copied cells of a row leave out NUL cells and never exceed the column span |
| App.RowTextsAt | crates/crt-app/src/main.rs:374-395 | row i of the copy is the selected span of grid row start + i |
| App.AssembleSelection | crates/crt-app/src/main.rs:374-395 | the row loop produces the selected rows joined by newlines |
| App.CopySelectedRow | crates/crt-app/src/main.rs:376-393 | one row's copy runs from its first selected column to its last (clamped to the grid) |
| App.CopyRow | crates/crt-app/src/main.rs:383-392 | the column loop copies the row's non-NUL cells |
| App.CopySelection | crates/crt-app/src/main.rs:360-405 | the clipboard text is the selection, with every line's trailing whitespace trimmed |
| Text.LinesOfJoin | crates/crt-app/src/main.rs:398-403 | splitting joined rows into lines gives the rows back, except a final empty row |
| App.ClipboardOfRows | crates/crt-app/src/main.rs:398-403 | the clipboard text is the trimmed rows, joined by newlines |
| App.ClipboardRows | crates/crt-app/src/main.rs:360-405 | for a grid without break characters, the clipboard holds each selected row's span, trimmed and joined, with a final empty row dropped |
| App.AppState.constructor | crates/crt-app/src/main.rs:182-211 | the app starts with one pane, a zeroed FPS ring and a beam delay of 100 ms |
| App.AppState.RecordFrameTime | crates/crt-app/src/main.rs:214-225 | the frame time goes in the ring slot at the cursor, the cursor advances cyclically, and the FPS is the average over the ring |
| App.AppState.FasterBeam | crates/crt-app/src/main.rs:1327-1328 | the delay drops by 10 ms, but not below the minimum |
| App.AppState.SlowerBeam | crates/crt-app/src/main.rs:1339 | the delay rises by 10 ms, but not above the maximum |
| App.BeamDelayBounded | crates/crt-app/src/main.rs:1327-1339 | the delay stays within its bounds, and each step changes it unless it is already at that bound |
| App.AppState.AddPane | crates/crt-app/src/main.rs:1038-1052 | with 16 panes nothing changes; otherwise a pane with the next fresh id is appended and focused, and the id counter moves on by one |
| App.AppState.ClosePane | crates/crt-app/src/main.rs:1054-1063 | the layout closes the pane as `close` does: an unknown pane changes nothing; otherwise the others keep their order, focus moves to the pane before it (or the first), and the id counter is unchanged |
| App.SumSamples | crates/crt-app/src/main.rs:214-225 | the summing loop adds up the ring |
| ConfigUi.TabIndex | crates/crt-app/src/config_ui.rs:32-38 | a tab's index finds it in the tab list |
| ConfigUi.TabCycle | crates/crt-app/src/config_ui.rs:324-342 | next and previous tab undo each other, three steps come back, and the cycle visits every tab |
| ConfigUi.FieldKinds | crates/crt-app/src/config_ui.rs:155-234 | every field is exactly one of slider, toggle, selector or button, and only buttons belong to no tab |
| ConfigUi.OrdOfAll | crates/crt-app/src/config_ui.rs:79-113 | the field list holds every field once, each at its rank in that list (`ConfigField::all()` order, not the enum order) |
| ConfigUi.VisibleInMembers | crates/crt-app/src/config_ui.rs:236-246 | the filtered list holds exactly the listed fields that belong to the tab and are shown |
| ConfigUi.VisibleInIncreasing | crates/crt-app/src/config_ui.rs:236-246 | filtering keeps the field list's order |
| ConfigUi.FieldsForTabSpec | crates/crt-app/src/config_ui.rs:236-246 | a tab lists its visible fields once each, in the field list's order, followed by Save and Cancel |
| ConfigUi.Listed | crates/crt-app/src/config_ui.rs:236-260 | a field is listed on a tab exactly when it is visible there or is a button |
| ConfigUi.VisibilityRules | crates/crt-app/src/config_ui.rs:249-260 | TTF font fields show only without a BDF font and the BDF family only with one; interlace shows only with beam simulation |
| ConfigUi.ValuesDetermine | crates/crt-app/src/config_ui.rs:42-76 | the field values together determine the whole configuration |
| ConfigUi.ActionOf | crates/crt-app/src/config_ui.rs:441-443 | only buttons produce an action, and Save is the save action |
| ConfigUi.ToggleSets | crates/crt-app/src/config_ui.rs:390-445 | toggling flips the field's flag or scanline mode, and leaves a field that is not a toggle alone |
| ConfigUi.ToggleChangesOnlyItsField | crates/crt-app/src/config_ui.rs:390-445 | toggling changes no other field (except that the font type carries the BDF family) |
| ConfigUi.ToggleTwice | crates/crt-app/src/config_ui.rs:390-445 | toggling twice restores the configuration; for the font type, the TTF/BDF choice is restored |
| ConfigUi.ToggleKeepsEarlierFields | crates/crt-app/src/config_ui.rs:249-260 | toggling never changes whether an earlier field is shown |
| ConfigUi.ToggleKeepsRow | crates/crt-app/src/config_ui.rs:390-445 | after toggling, the selected row still holds the toggled field |
| ConfigUi.ActivateTwice | crates/crt-app/src/config_ui.rs:390-445 | activating the same row twice restores the configuration, except on the font-type row when a BDF font other than the default 9x18 is selected (the second toggle resets it to that default, as ToggleTwice states) |
| ConfigUi.ActivateResult | crates/crt-app/src/config_ui.rs:390-445 | activation yields an action exactly on a button row, and only a toggle row changes the configuration |
| ConfigUi.MoveBounds | crates/crt-app/src/config_ui.rs:362-374 | moving keeps the selection in the list, stops at both ends, and up undoes down away from the ends |
| ConfigUi.Clamp | crates/crt-app/src/config_ui.rs:447-586 | the clamped value lies in range and values already in range are kept |
| ConfigUi.Position | crates/crt-app/src/config_ui.rs:548-551 | the position found is the first preset with the name |
| ConfigUi.PresetIndex | crates/crt-app/src/config_ui.rs:546-551 | the current preset index is always a valid index (0 when the name is unknown) |
| ConfigUi.StepIndex | crates/crt-app/src/config_ui.rs:552-558 | stepping through presets wraps around and stays in range |
| ConfigUi.StepBack | crates/crt-app/src/config_ui.rs:552-558 | a step forward and a step back undo each other |
| ConfigUi.AdjustSlider | crates/crt-app/src/config_ui.rs:450-535 | a slider always ends within its range; from a value inside its range it moves in the direction of the delta, strictly unless already at the bound (a value outside the range is clamped first and may move against the delta) |
| ConfigUi.AdjustSets | crates/crt-app/src/config_ui.rs:489-583 | on/off fields are set to whether the delta is positive, the colour scheme becomes one of the presets, and buttons change nothing |
| ConfigUi.AdjustChangesOnlyItsField | crates/crt-app/src/config_ui.rs:447-586 | adjusting changes no other field (except that the font type carries the BDF family) |
| ConfigUi.SchemeRoundTrip | crates/crt-app/src/config_ui.rs:545-560 | when the current scheme is the preset that carries its name and the preset names are distinct, stepping the colour scheme forward then back (or back then forward) restores it; a custom scheme becomes a preset instead |
| ConfigUi.AdjustKeepsEarlierFields | crates/crt-app/src/config_ui.rs:249-260 | adjusting never changes whether an earlier field is shown |
| ConfigUi.AdjustKeepsRow | crates/crt-app/src/config_ui.rs:447-586 | after adjusting, the selected row still holds the adjusted field |
| ConfigUi.FieldValueIsFraction | crates/crt-app/src/config_ui.rs:588-606 | a slider value inside its range is shown as a fraction between 0 and 1 |
| ConfigUi.Filled | crates/crt-app/src/config_ui.rs:840 | at most 12 bar cells are filled |
| ConfigUi.FilledMeaning | crates/crt-app/src/config_ui.rs:840-841 | the filled count is the value times 12, rounded, clamped to 0 and 12, and it grows with the value |
| ConfigUi.Bar | crates/crt-app/src/config_ui.rs:843 | the bar is 14 characters: brackets around the filled '=' cells followed by '-' cells |
| ConfigUi.Prefix | crates/crt-app/src/config_ui.rs:867 | the selection marker takes two columns |
| ConfigUi.FieldLineHead | crates/crt-app/src/config_ui.rs:834-929 | every line starts with the marker and then the label |
| ConfigUi.LabelWidth | crates/crt-app/src/config_ui.rs:123-153 | labels fit the 12-column label field, except the scanline field's "Scanline Type" at 13 |
| ConfigUi.SliderLine | crates/crt-app/src/config_ui.rs:837-868 | a slider line holds its value bar at columns 15 to 28 |
| ConfigUi.ChoiceLine | crates/crt-app/src/config_ui.rs:869-901 | a choice line with a value of at most 13 characters (centred in 13 columns) has a fixed width and ends with " >" |
| ConfigUi.ToggleLine | crates/crt-app/src/config_ui.rs:903-922 | a toggle line shows [ON ] or [OFF] at columns 15 to 19, as the toggle's value says |
| ConfigUi.ToggleTail | crates/crt-app/src/config_ui.rs:904-922 | the state shown after the label is [ON ] exactly when the toggle is on |
| ConfigUi.Layout | crates/crt-app/src/config_ui.rs:751-768 | the layout of the first n fields has at least n rows, and every non-separator row names one of those fields |
| ConfigUi.LayoutRow | crates/crt-app/src/config_ui.rs:751-770 | each field has its row, and a separator row comes before a field that has one |
| ConfigUi.LayoutRowUnique | crates/crt-app/src/config_ui.rs:751-770 | a row holds only the field whose row it is |
| ConfigUi.PanelFits | crates/crt-app/src/config_ui.rs:609-629 | the panel is at least 10 rows high, and every tab's rows fit between the tab bar and the bottom border |
| ConfigUi.TabBarWhole | crates/crt-app/src/config_ui.rs:796-801 | the tab bar is the three tags separated by two spaces, 41 columns wide |
| ConfigUi.TabBarSpans | crates/crt-app/src/config_ui.rs:813-829 | columns 0-10, 13-26 and 29-40 belong to the three tabs and the gaps to none |
| ConfigUi.ContentDrawn | crates/crt-app/src/config_ui.rs:770-783 | a field's row shows the characters of its line, bright on the highlight when selected and in the foreground colour otherwise |
| ConfigUi.PanelContent | crates/crt-app/src/config_ui.rs:737-784 | inside the borders, below the tab bar, the panel shows the content cells |
| ConfigUi.FieldDrawn | crates/crt-app/src/config_ui.rs:770-780 | every character of every field line appears on the field's row, inside the panel, in the selection colours |
| ConfigUi.PanelFrame | crates/crt-app/src/config_ui.rs:695-725 | the panel has box corners, the bright centred title on the top border, border-coloured top and bottom edges, and side borders |
| ConfigUi.PanelCentred | crates/crt-app/src/config_ui.rs:637-674 | the screen cell at the panel's offset shows that panel cell |
| ConfigUi.OutsideTransparent | crates/crt-app/src/config_ui.rs:652-660 | outside the panel, each cell is a space with a transparent foreground and a transparent background |
| ConfigUi.ScreenAt | crates/crt-app/src/config_ui.rs:643-677 | the screen has one row per screen line and each cell is the screen cell at that position |
| ConfigUi.RenderTabBarCell | crates/crt-app/src/config_ui.rs:786-832 | the tab-bar cell is the centred bar's character, bright on the current tab, dim on the others |
| ConfigUi.TabUnder | crates/crt-app/src/config_ui.rs:813-829 | the tab under a bar column is found by the tag walk |
| ConfigUi.BuildTabBar | crates/crt-app/src/config_ui.rs:796-801 | the bar loop builds the tab bar |
| ConfigUi.RenderPanelCell | crates/crt-app/src/config_ui.rs:682-784 | each panel cell is the frame, tab bar or content cell as specified |
| ConfigUi.RenderContentCell | crates/crt-app/src/config_ui.rs:737-784 | the content cell is the specified one |
| ConfigUi.FieldOnRow | crates/crt-app/src/config_ui.rs:751-770 | the walk over fields and separators finds the field on a content row, or none |
| ConfigUi.RenderScreen | crates/crt-app/src/config_ui.rs:633-680 | the row and column loops produce the screen specification |
| ConfigUi.ConfigUI.constructor | crates/crt-app/src/config_ui.rs:272-280 | a new overlay is hidden, on the first tab, first row, with the configuration saved as original |
| ConfigUi.ConfigUI.Show | crates/crt-app/src/config_ui.rs:316-322 | showing resets tab and row and keeps the configuration as the original |
| ConfigUi.ConfigUI.NextTab | crates/crt-app/src/config_ui.rs:324-330 | moves to the following tab, cyclically, at the first row |
| ConfigUi.ConfigUI.PrevTab | crates/crt-app/src/config_ui.rs:332-342 | moves to the preceding tab, cyclically, at the first row |
| ConfigUi.ConfigUI.Hide | crates/crt-app/src/config_ui.rs:348-350 | hiding makes the overlay invisible |
| ConfigUi.ConfigUI.Cancel | crates/crt-app/src/config_ui.rs:352-355 | cancelling hides and returns the original configuration |
| ConfigUi.ConfigUI.Save | crates/crt-app/src/config_ui.rs:357-360 | saving hides and returns the edited configuration |
| ConfigUi.ConfigUI.MoveUp | crates/crt-app/src/config_ui.rs:362-366 | the selection moves up one row, stopping at the top |
| ConfigUi.ConfigUI.MoveDown | crates/crt-app/src/config_ui.rs:368-374 | the selection moves down one row, stopping at the last row |
| ConfigUi.ConfigUI.AdjustField | crates/crt-app/src/config_ui.rs:447-586 | the configuration becomes the adjusted one |
| ConfigUi.ConfigUI.AdjustLeft | crates/crt-app/src/config_ui.rs:376-381 | the selected field is adjusted downwards and the selection stays valid |
| ConfigUi.ConfigUI.AdjustRight | crates/crt-app/src/config_ui.rs:383-388 | the selected field is adjusted upwards and the selection stays valid |
| ConfigUi.ConfigUI.ToggleField | crates/crt-app/src/config_ui.rs:396-440 | the configuration becomes the toggled one |
| ConfigUi.ConfigUI.ToggleOrActivate | crates/crt-app/src/config_ui.rs:390-445 | the configuration and action are those of activation, and the selection stays valid |
| ConfigUi.ConfigUI.PanelHeight | crates/crt-app/src/config_ui.rs:609-629 | the loop over tabs produces four plus the largest row count (at least 6) |
| ConfigUi.ConfigUI.Render | crates/crt-app/src/config_ui.rs:633-680 | the overlay is the screen specification at the computed panel height |

## Left out

- Font loading, font-file errors and the rasteriser itself are left out. Each font is a record of
  functions: has-glyph, rasterise at a size, and line metrics.
- GPU resources, shader code, wgpu buffer and texture creation, and queue writes are reduced to
  the values written. Texture views and bind groups are opaque values.
- Floating point is modelled as `real`. Rounding, NaN and infinity are not modelled. The fallback
  font size therefore requires a non-zero line height, where Rust would divide by zero.
- The square root in the line pipeline is a parameter.
- Bdf.Render: the pixel buffer has `width * height` entries, an unbounded product. In the
  source the product is taken in `u32`, which overflows (a panic in debug builds, wrap-around in
  release builds) once it passes `u32::MAX`; the model does not capture that overflow.
- Bdf.DeriveMetrics: the i32 negation `-bbox_offset_y` and the subtraction `bbox_height as i32 - descent`
  (bdf.rs:125-126) are modelled with release-build wrap-around (`WrapI32`). A debug build panics
  on that overflow instead; the model does not capture the panic.
- Bdf.RenderScaled: the scaled buffer has `scaled_width * scaled_height` entries, unbounded in the model; the
  `u32` overflow of that product in the source is not captured, as for Bdf.Render.
- The `Named` colour discriminant, which `as u8` takes from the Rust enum layout, is a parameter.
  `Scrollback.NamedRoundTrip` states which layouts round-trip.
- Serde encoding, zstd compression and decompression, and `from_grid` (which reads the terminal
  grid) are left out. Only the colour table and the text export are modelled.
- The clipboard and the terminal write in `copy_selection` and in key handling are left out; the
  model returns the text or bytes.
- The clock (`Instant`) is left out. Frame times are passed in.
- `TextPipeline.TextPipeline`: `update_screen_size` is left out, because it only writes the
  uniform buffer.
- `Font::next`/`prev`, `BdfFont::next`/`prev`, their labels and `ColorScheme::presets` are not part
  of this model. They are the parameters of a `Catalog` record:
  - `ConfigUi.ConfigUI.AdjustField`, `AdjustLeft` and `AdjustRight` require a non-empty preset
    list, as the source's built-in list is;
  - the default BDF font is `cat.fixed9x18`.
- The slider value text (`{:.2}`, `{:.4}`, `{:.0}px` float formatting) is a parameter of the field
  line.
- `ConfigUi.PanelFits`: does not state the concrete per-tab field lists or the concrete panel
  height. The model proves instead that the height is at least 10 and that every tab fits.
- `render_panel_cell` and `render_tab_bar_cell` are split into several helper methods, one per
  region of the panel. The split does not change the cell computed.
- The overlay's colour helpers (`fg_color` and the others) are modelled as functions of the colour
  scheme.
- `is_wide` is always false in the overlay cells, so it is not modelled.
- Logging (`tracing`) is left out.
- `Layout.LayoutTree.HitTest`: `hit_test` iterates over a `HashMap` in unspecified order. The
  model scans panes in order; since the rectangles are disjoint, the result is the same.
- `App.AppState.ClosePane`: removing the pane's terminal, resizing the remaining terminals and the log line are left out; the layout is the only state modelled.
- `App.AppState.AddPane`: resizing and creating terminals are left out.
- The other `Config` fields and their file persistence are left out.

## Findings

| source | as written | input that shows it | evidently intended | confidence | as-written member | corrected member |
|---|---|---|---|---|---|---|
| crates/crt-renderer/src/atlas.rs:255-276 | the wrap test only moves to a new row, so a glyph wider than the 1024-pixel atlas is still placed at x = 0 | a 1025×1023 glyph in an empty atlas is placed at (0, 1), and its last pixel has index 1024*1024, past the end of the texture | report the atlas as full when the glyph cannot fit the width | not executed | Atlas.WideGlyphOverruns | Atlas.PlacePreserves |
