/** The CPU half of the text pipeline: `prepare` turns positioned characters
    into textured quads over the glyph atlas (four vertices and six indices
    per visible glyph), writes them to fixed-size vertex and index buffers,
    and `render` draws the prepared indices. */
module TextPipeline {
  import opened Wrappers
  import opened Quads
  import opened Atlas

  /** The number of characters the buffers are sized for. */
  const MAX_CHARS: nat := 10000

  /** A character to draw: the character, its pen x, its baseline y, its colour. */
  datatype TextItem = TextItem(c: char, x: real, baseline: real, color: Rgba)

  datatype Vertex = Vertex(x: real, y: real, u: real, v: real, color: Rgba)

  function Chars(items: seq<TextItem>): (cs: seq<char>)
    ensures |cs| == |items| && forall k :: 0 <= k < |items| ==> cs[k] == items[k].c
  {
    seq(|items|, k requires 0 <= k < |items| => items[k].c)
  }

  /** A lookup that yields a quad: a glyph with pixels. */
  predicate Emits(r: Result<GlyphInfo, AtlasError>) {
    r.Ok? && r.value.width != 0 && r.value.height != 0
  }

  /** The quad of glyph `g` for `item`: its top-left corner is the pen x
      plus the bearing and the baseline minus the glyph height and the
      vertical offset; it spans the glyph's pixel size and atlas region, and
      all four corners carry the item's colour. */
  function GlyphQuad(item: TextItem, g: GlyphInfo): (q: seq<Vertex>)
    ensures |q| == 4
  {
    var x0 := item.x + g.offsetX;
    var y0 := item.baseline - g.height as real - g.offsetY;
    var x1 := x0 + g.width as real;
    var y1 := y0 + g.height as real;
    var u0, v0 := g.uvX, g.uvY;
    var u1, v1 := g.uvX + g.uvWidth, g.uvY + g.uvHeight;
    [Vertex(x0, y0, u0, v0, item.color), Vertex(x1, y0, u1, v0, item.color),
     Vertex(x1, y1, u1, v1, item.color), Vertex(x0, y1, u0, v1, item.color)]
  }

  /** How many of the lookups yield a quad. */
  function Emitted(rs: seq<Result<GlyphInfo, AtlasError>>): (n: nat)
    ensures n <= |rs|
  {
    if rs == [] then 0 else Emitted(rs[..|rs| - 1]) + (if Emits(rs[|rs| - 1]) then 1 else 0)
  }

  /** The vertices for the items whose lookups are `rs`, in order. */
  function TextVertices(items: seq<TextItem>, rs: seq<Result<GlyphInfo, AtlasError>>): (vs: seq<Vertex>)
    requires |rs| <= |items|
    ensures |vs| == 4 * Emitted(rs)
  {
    if rs == [] then []
    else
      var last := rs[|rs| - 1];
      TextVertices(items, rs[..|rs| - 1])
        + (if Emits(last) then GlyphQuad(items[|rs| - 1], last.value) else [])
  }

  /** Where the loop of `prepare` stops: after the last item, or right after
      the first quad emitted for an item at index `max - 1` or later. */
  predicate StopsAt(items: seq<TextItem>, rs: seq<Result<GlyphInfo, AtlasError>>, max: nat) {
    && |rs| <= |items|
    && (forall j :: 0 <= j < |rs| - 1 ==> !(Emits(rs[j]) && j + 1 >= max))
    && (|rs| == |items| || (|rs| > 0 && Emits(rs[|rs| - 1]) && |rs| >= max))
  }

  /** Lookups past index `k` that emit nothing add nothing to the count. */
  lemma {:induction false} EmittedQuietTail(rs: seq<Result<GlyphInfo, AtlasError>>, k: nat)
    requires k <= |rs|
    requires forall j :: k <= j < |rs| ==> !Emits(rs[j])
    ensures Emitted(rs) == Emitted(rs[..k])
  {
    if |rs| > k {
      assert rs[..|rs| - 1][..k] == rs[..k];
      EmittedQuietTail(rs[..|rs| - 1], k);
    } else {
      assert rs[..k] == rs;
    }
  }

  /** The loop emits at most `max` quads, so the buffers sized for `max`
      characters always hold what it writes. */
  lemma EmittedAtMost(items: seq<TextItem>, rs: seq<Result<GlyphInfo, AtlasError>>, max: nat)
    requires max > 0 && StopsAt(items, rs, max)
    ensures Emitted(rs) <= max
  {
    if |rs| > max {
      var init := rs[..|rs| - 1];
      EmittedQuietTail(init, max - 1);
      assert init[..max - 1] == rs[..max - 1];
      assert Emitted(rs) <= Emitted(init) + 1;
    }
  }

  /** Every quad of the prepared vertices is an axis-aligned rectangle of
      positive size whose four corners carry one item's colour. */
  lemma {:induction false} QuadsAreRectangles(items: seq<TextItem>, rs: seq<Result<GlyphInfo, AtlasError>>, q: nat)
    requires |rs| <= |items| && q < Emitted(rs)
    ensures var vs := TextVertices(items, rs);
            && vs[4 * q].y == vs[4 * q + 1].y && vs[4 * q + 2].y == vs[4 * q + 3].y
            && vs[4 * q].x == vs[4 * q + 3].x && vs[4 * q + 1].x == vs[4 * q + 2].x
            && vs[4 * q].x < vs[4 * q + 1].x && vs[4 * q].y < vs[4 * q + 3].y
            && vs[4 * q].color == vs[4 * q + 1].color == vs[4 * q + 2].color == vs[4 * q + 3].color
            && (exists k :: 0 <= k < |rs| && Emits(rs[k]) && vs[4 * q].color == items[k].color)
  {
    var init := rs[..|rs| - 1];
    var last := rs[|rs| - 1];
    var vs := TextVertices(items, rs);
    if q < Emitted(init) {
      QuadsAreRectangles(items, init, q);
      var k :| 0 <= k < |init| && Emits(init[k]) && TextVertices(items, init)[4 * q].color == items[k].color;
      assert rs[k] == init[k];
    } else {
      assert vs[4 * q..4 * q + 4] == GlyphQuad(items[|rs| - 1], last.value);
    }
  }

  /** The index list names only prepared vertices, six indices for every
      four vertices. */
  lemma BuiltIndicesInRange(items: seq<TextItem>, rs: seq<Result<GlyphInfo, AtlasError>>, vs: seq<Vertex>, ix: seq<nat>)
    requires Built(items, rs, vs, ix)
    ensures 2 * |ix| == 3 * |vs|
    ensures forall k :: 0 <= k < |ix| ==> ix[k] < |vs|
  {
    IndexListBounds(Emitted(rs));
  }

  /** The atlas is where the lookups of `cs` leave it, starting from the
      given faces, cache, shelf and pixels, and `lookups` are their results. */
  ghost predicate Follows(atlas: GlyphAtlas, P: Face, F: Option<Face>, E: Option<Face>, cw: real,
                          g0: map<char, GlyphInfo>, s0: Shelf, b0: seq<byte>,
                          cs: seq<char>, lookups: seq<Result<GlyphInfo, AtlasError>>)
    reads atlas, atlas.data
  {
    && |b0| == ATLAS_WIDTH * ATLAS_HEIGHT
    && atlas.Primary() == P && atlas.FallbackFace() == F && atlas.EmojiFace() == E && atlas.cellWidth == cw
    && var run := LookupRun(P, F, E, cw, g0, s0, b0, cs);
       lookups == run.results && atlas.glyphs == run.glyphs && atlas.State() == run.shelf
       && atlas.data[..] == run.atlas
  }

  /** The vertices and indices are those of the lookups `rs`. */
  ghost predicate Built(items: seq<TextItem>, rs: seq<Result<GlyphInfo, AtlasError>>, vs: seq<Vertex>, ix: seq<nat>) {
    |rs| <= |items| && vs == TextVertices(items, rs) && ix == IndexList(Emitted(rs))
  }

  /** The loop of `prepare`: one atlas lookup per item until the loop
      stops; items whose lookup fails or whose glyph has no pixels are
      skipped; every other item adds its quad and the quad's six indices. */
  method Collect(atlas: GlyphAtlas, items: seq<TextItem>, max: nat,
                 ghost P: Face, ghost F: Option<Face>, ghost E: Option<Face>, ghost cw: real,
                 ghost g0: map<char, GlyphInfo>, ghost s0: Shelf, ghost b0: seq<byte>)
    returns (vertices: seq<Vertex>, indices: seq<nat>, ghost lookups: seq<Result<GlyphInfo, AtlasError>>)
    requires atlas.Valid() && max > 0
    requires Follows(atlas, P, F, E, cw, g0, s0, b0, [], [])
    modifies atlas`nextX, atlas`nextY, atlas`rowHeight, atlas`glyphs, atlas`blocks, atlas`bitmaps, atlas.data
    ensures atlas.Valid()
    ensures StopsAt(items, lookups, max)
    ensures Follows(atlas, P, F, E, cw, g0, s0, b0, Chars(items[..|lookups|]), lookups)
    ensures Built(items, lookups, vertices, indices)
    ensures |vertices| <= 4 * max
  {
    vertices, indices, lookups := [], [], [];
    var i := 0;
    while i < |items|
      invariant i <= |items| && |lookups| == i
      invariant atlas.Valid()
      invariant Follows(atlas, P, F, E, cw, g0, s0, b0, Chars(items[..i]), lookups)
      invariant Running(items, lookups, max)
      invariant Built(items, lookups, vertices, indices)
    {
      var r, emits;
      r, emits, vertices, indices := Step(atlas, items, i, lookups, vertices, indices, P, F, E, cw, g0, s0, b0);
      if emits && i + 1 >= max {
        StopAtBreak(items, lookups, r, max);
        lookups := lookups + [r];
        break;
      }
      Continue(items, lookups, r, max);
      lookups := lookups + [r];
      i := i + 1;
    }
    EmittedAtMost(items, lookups, max);
  }

  /** No lookup so far has stopped the loop. */
  ghost predicate Running(items: seq<TextItem>, rs: seq<Result<GlyphInfo, AtlasError>>, max: nat) {
    |rs| <= |items| && forall j :: 0 <= j < |rs| ==> !(Emits(rs[j]) && j + 1 >= max)
  }

  /** A lookup that does not stop the loop keeps it running, and the loop
      that runs out of items stops where `StopsAt` says. */
  lemma Continue(items: seq<TextItem>, rs: seq<Result<GlyphInfo, AtlasError>>, r: Result<GlyphInfo, AtlasError>, max: nat)
    requires Running(items, rs, max) && |rs| < |items| && !(Emits(r) && |rs| + 1 >= max)
    ensures Running(items, rs + [r], max)
    ensures |rs| + 1 == |items| ==> StopsAt(items, rs + [r], max)
  {
  }

  /** The loop that breaks after an emitting lookup stops where `StopsAt` says. */
  lemma StopAtBreak(items: seq<TextItem>, rs: seq<Result<GlyphInfo, AtlasError>>, r: Result<GlyphInfo, AtlasError>, max: nat)
    requires Running(items, rs, max) && |rs| < |items| && Emits(r) && |rs| + 1 >= max
    ensures StopsAt(items, rs + [r], max)
  {
  }

  /** The quad of an item whose glyph has pixels: four vertices, and six
      indices based at the number of vertices so far. */
  method Push(items: seq<TextItem>, i: nat, ghost rs: seq<Result<GlyphInfo, AtlasError>>,
              r: Result<GlyphInfo, AtlasError>, vs: seq<Vertex>, ix: seq<nat>)
    returns (vs': seq<Vertex>, ix': seq<nat>)
    requires i == |rs| < |items| && Emits(r) && Built(items, rs, vs, ix)
    ensures Built(items, rs + [r], vs', ix')
  {
    assert (rs + [r])[..|rs|] == rs;
    var e := Emitted(rs);
    QuadBase(|vs|, e);
    IndexListNext(e);
    var base := (|vs| / 4) * 4;
    vs' := vs + GlyphQuad(items[i], r.value);
    ix' := ix + QuadIndices(base);
  }

  /** One pass of the loop body: the atlas lookup of item `i`, then its
      quad when the glyph has pixels. */
  method Step(atlas: GlyphAtlas, items: seq<TextItem>, i: nat, ghost lookups: seq<Result<GlyphInfo, AtlasError>>,
              vertices: seq<Vertex>, indices: seq<nat>,
              ghost P: Face, ghost F: Option<Face>, ghost E: Option<Face>, ghost cw: real,
              ghost g0: map<char, GlyphInfo>, ghost s0: Shelf, ghost b0: seq<byte>)
    returns (r: Result<GlyphInfo, AtlasError>, emits: bool, vertices': seq<Vertex>, indices': seq<nat>)
    requires atlas.Valid() && i == |lookups| < |items|
    requires Follows(atlas, P, F, E, cw, g0, s0, b0, Chars(items[..i]), lookups)
    requires Built(items, lookups, vertices, indices)
    modifies atlas`nextX, atlas`nextY, atlas`rowHeight, atlas`glyphs, atlas`blocks, atlas`bitmaps, atlas.data
    ensures atlas.Valid()
    ensures Follows(atlas, P, F, E, cw, g0, s0, b0, Chars(items[..i + 1]), lookups + [r])
    ensures Built(items, lookups + [r], vertices', indices') && emits == Emits(r)
  {
    r := LookUp(atlas, items, i, lookups, P, F, E, cw, g0, s0, b0);
    emits := r.Ok? && r.value.width != 0 && r.value.height != 0;
    if emits {
      vertices', indices' := Push(items, i, lookups, r, vertices, indices);
    } else {
      Skip(items, lookups, r, vertices, indices);
      vertices', indices' := vertices, indices;
    }
  }

  /** A lookup that emits nothing leaves the vertices and their count. */
  lemma Skip(items: seq<TextItem>, rs: seq<Result<GlyphInfo, AtlasError>>, r: Result<GlyphInfo, AtlasError>,
             vs: seq<Vertex>, ix: seq<nat>)
    requires |rs| < |items| && !Emits(r) && Built(items, rs, vs, ix)
    ensures Built(items, rs + [r], vs, ix)
  {
    assert (rs + [r])[..|rs|] == rs;
  }

  /** One atlas lookup of the loop, extending the run of lookups by one. */
  method LookUp(atlas: GlyphAtlas, items: seq<TextItem>, i: nat, ghost lookups: seq<Result<GlyphInfo, AtlasError>>,
                ghost P: Face, ghost F: Option<Face>, ghost E: Option<Face>, ghost cw: real,
                ghost g0: map<char, GlyphInfo>, ghost s0: Shelf, ghost b0: seq<byte>)
    returns (r: Result<GlyphInfo, AtlasError>)
    requires atlas.Valid() && i < |items|
    requires Follows(atlas, P, F, E, cw, g0, s0, b0, Chars(items[..i]), lookups)
    modifies atlas`nextX, atlas`nextY, atlas`rowHeight, atlas`glyphs, atlas`blocks, atlas`bitmaps, atlas.data
    ensures atlas.Valid()
    ensures Follows(atlas, P, F, E, cw, g0, s0, b0, Chars(items[..i + 1]), lookups + [r])
  {
    assert Chars(items[..i + 1])[..i] == Chars(items[..i]);
    r := atlas.GetGlyph(items[i].c);
  }

  class TextPipeline {
    const maxChars: nat
    var numIndices: nat
    /** The contents of the GPU vertex and index buffers. */
    var vertexBuffer: seq<Vertex>
    var indexBuffer: seq<nat>
    /** The number of quads last prepared. */
    ghost var quads: nat

    /** Buffers of `MAX_CHARS` quads; the first `numIndices` indices are the
        index list of the prepared quads, which all lie in the buffer. */
    ghost predicate Valid()
      reads this
    {
      && maxChars == MAX_CHARS
      && |vertexBuffer| == 4 * maxChars && |indexBuffer| == 6 * maxChars
      && quads <= maxChars && numIndices == 6 * quads
      && indexBuffer[..numIndices] == IndexList(quads)
    }

    /** The state part of `TextPipeline::new`: zeroed buffers, nothing to draw. */
    constructor ()
      ensures Valid() && numIndices == 0
    {
      maxChars := MAX_CHARS;
      numIndices := 0;
      vertexBuffer := seq(4 * MAX_CHARS, _ => Vertex(0.0, 0.0, 0.0, 0.0, Rgba(0.0, 0.0, 0.0, 0.0)));
      indexBuffer := seq(6 * MAX_CHARS, _ => 0);
      quads := 0;
    }

    /** `prepare`: the quads of `Collect`, written over the start of the
        buffers when there are any; the index count becomes the number of
        indices collected. */
    method Prepare(atlas: GlyphAtlas, items: seq<TextItem>)
      returns (vertices: seq<Vertex>, indices: seq<nat>, ghost lookups: seq<Result<GlyphInfo, AtlasError>>)
      requires Valid() && atlas.Valid()
      modifies this, atlas`nextX, atlas`nextY, atlas`rowHeight, atlas`glyphs, atlas`blocks, atlas`bitmaps, atlas.data
      ensures Valid() && atlas.Valid()
      ensures StopsAt(items, lookups, maxChars)
      ensures Follows(atlas, old(atlas.Primary()), old(atlas.FallbackFace()), old(atlas.EmojiFace()),
                      old(atlas.cellWidth), old(atlas.glyphs), old(atlas.State()), old(atlas.data[..]),
                      Chars(items[..|lookups|]), lookups)
      ensures Built(items, lookups, vertices, indices)
      ensures numIndices == |indices|
      ensures vertices != [] ==> vertexBuffer[..|vertices|] == vertices && indexBuffer[..|indices|] == indices
      ensures vertices == [] ==> vertexBuffer == old(vertexBuffer) && indexBuffer == old(indexBuffer)
    {
      assert Chars(items[..0]) == [];
      vertices, indices, lookups := Collect(atlas, items, maxChars, atlas.Primary(), atlas.FallbackFace(),
                                            atlas.EmojiFace(), atlas.cellWidth, atlas.glyphs, atlas.State(),
                                            atlas.data[..]);
      if vertices != [] {
        vertexBuffer := vertices + vertexBuffer[|vertices|..];
        indexBuffer := indices + indexBuffer[|indices|..];
      }
      quads := Emitted(lookups);
      numIndices := |indices|;
    }

    /** `render`: the shared indexed draw over this pipeline's buffers. */
    function Render(): (count: Option<nat>)
      requires Valid()
      reads this
      ensures count.Some? <==> numIndices != 0
      ensures count.Some? ==> count.value == numIndices
                              && forall k :: 0 <= k < count.value ==> indexBuffer[k] < 4 * quads <= |vertexBuffer|
    {
      IndexedDraw(numIndices, quads, indexBuffer, |vertexBuffer|)
    }
  }
}
