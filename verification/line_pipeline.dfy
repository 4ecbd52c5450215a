/** The CPU half of the line pipeline: `prepare` turns line segments into
    quads of the segment's thickness (four vertices and six indices per
    segment), writes them to fixed-size buffers, and `render` draws them.
    The square root is a parameter: it is a floating-point routine outside
    this model. */
module LinePipeline {
  import opened Wrappers
  import opened Quads

  /** The number of segments the buffers are sized for. */
  const MAX_LINES: nat := 50000

  /** Segments shorter than this are not drawn. */
  const MIN_LENGTH: real := 0.001

  /** A segment to draw: its endpoints, its thickness and its colour. */
  datatype Segment = Segment(x0: real, y0: real, x1: real, y1: real, thickness: real, color: Rgba)

  datatype LineVertex = LineVertex(x: real, y: real, color: Rgba)

  /** The length of a segment, with the given square root. */
  function Length(sqrt: real -> real, s: Segment): real {
    sqrt((s.x1 - s.x0) * (s.x1 - s.x0) + (s.y1 - s.y0) * (s.y1 - s.y0))
  }

  /** A segment that yields a quad: one not shorter than `MIN_LENGTH`. */
  predicate Drawn(sqrt: real -> real, s: Segment) {
    !(Length(sqrt, s) < MIN_LENGTH)
  }

  /** Half the thickness along the unit normal of the segment. */
  function Normal(sqrt: real -> real, s: Segment): (n: (real, real))
    requires Drawn(sqrt, s)
  {
    (-(s.y1 - s.y0) / Length(sqrt, s) * (s.thickness / 2.0), (s.x1 - s.x0) / Length(sqrt, s) * (s.thickness / 2.0))
  }

  /** The quad of a drawn segment: both endpoints pushed out along the
      normal on either side, all four corners in the segment's colour. */
  function SegmentQuad(sqrt: real -> real, s: Segment): (q: seq<LineVertex>)
    requires Drawn(sqrt, s)
    ensures |q| == 4
  {
    var (px, py) := Normal(sqrt, s);
    [LineVertex(s.x0 + px, s.y0 + py, s.color), LineVertex(s.x0 - px, s.y0 - py, s.color),
     LineVertex(s.x1 - px, s.y1 - py, s.color), LineVertex(s.x1 + px, s.y1 + py, s.color)]
  }

  /** How many of the segments are drawn. */
  function DrawnCount(sqrt: real -> real, segs: seq<Segment>): (n: nat)
    ensures n <= |segs|
  {
    if segs == [] then 0
    else DrawnCount(sqrt, segs[..|segs| - 1]) + (if Drawn(sqrt, segs[|segs| - 1]) then 1 else 0)
  }

  /** The vertices of the drawn segments, in order. */
  function LineVertices(sqrt: real -> real, segs: seq<Segment>): (vs: seq<LineVertex>)
    ensures |vs| == 4 * DrawnCount(sqrt, segs)
  {
    if segs == [] then []
    else
      var last := segs[|segs| - 1];
      LineVertices(sqrt, segs[..|segs| - 1]) + (if Drawn(sqrt, last) then SegmentQuad(sqrt, last) else [])
  }

  /** The segments `prepare` looks at: the first `MAX_LINES`. */
  function Processed(lines: seq<Segment>): (p: seq<Segment>)
    ensures |p| <= MAX_LINES && p <= lines
    ensures |lines| <= MAX_LINES ==> p == lines
  {
    if |lines| <= MAX_LINES then lines else lines[..MAX_LINES]
  }

  /** The quad of a drawn segment is a parallelogram centred on it: the
      first two corners are symmetric about the start point, the last two
      about the end point, both pairs are offset by the same normal, and
      all four corners carry the segment's colour. */
  lemma QuadAroundSegment(sqrt: real -> real, s: Segment)
    requires Drawn(sqrt, s)
    ensures var q := SegmentQuad(sqrt, s);
            var (px, py) := Normal(sqrt, s);
            && q[0].x + q[1].x == 2.0 * s.x0 && q[0].y + q[1].y == 2.0 * s.y0
            && q[2].x + q[3].x == 2.0 * s.x1 && q[2].y + q[3].y == 2.0 * s.y1
            && q[0].x - q[1].x == q[3].x - q[2].x == 2.0 * px
            && q[0].y - q[1].y == q[3].y - q[2].y == 2.0 * py
            && q[0].color == q[1].color == q[2].color == q[3].color == s.color
  {
  }

  /** The normal is perpendicular to the segment. */
  lemma NormalIsPerpendicular(sqrt: real -> real, s: Segment)
    requires Drawn(sqrt, s)
    ensures var (px, py) := Normal(sqrt, s);
            px * (s.x1 - s.x0) + py * (s.y1 - s.y0) == 0.0
  {
    var dx, dy := s.x1 - s.x0, s.y1 - s.y0;
    var a := (s.thickness / 2.0) / Length(sqrt, s);
    ScaledNormal(dx, dy, Length(sqrt, s), s.thickness / 2.0);
    var (px, py) := Normal(sqrt, s);
    assert px * dx + py * dy == a * (dx * dy - dy * dx);
  }

  /** When the square root is exact at the squared length, the normal is
      half the thickness long. */
  lemma NormalLength(sqrt: real -> real, s: Segment)
    requires Drawn(sqrt, s)
    ensures var len := Length(sqrt, s);
            var (px, py) := Normal(sqrt, s);
            len * len == (s.x1 - s.x0) * (s.x1 - s.x0) + (s.y1 - s.y0) * (s.y1 - s.y0) ==>
              px * px + py * py == (s.thickness / 2.0) * (s.thickness / 2.0)
  {
    var len := Length(sqrt, s);
    var dx, dy, h := s.x1 - s.x0, s.y1 - s.y0, s.thickness / 2.0;
    var a := h / len;
    ScaledNormal(dx, dy, len, h);
    var (px, py) := Normal(sqrt, s);
    if len * len == dx * dx + dy * dy {
      assert px * px + py * py == (a * a) * (dx * dx + dy * dy);
      assert a * len == h;
    }
  }

  /** `-dy / len * h` is `-dy` times `h / len`. */
  lemma ScaledNormal(dx: real, dy: real, len: real, h: real)
    requires len != 0.0
    ensures -dy / len * h == -dy * (h / len) && dx / len * h == dx * (h / len)
  {
  }

  /** A segment that is not drawn adds nothing. */
  lemma {:induction false} SkippedAddsNothing(sqrt: real -> real, segs: seq<Segment>, s: Segment)
    requires !Drawn(sqrt, s)
    ensures LineVertices(sqrt, segs + [s]) == LineVertices(sqrt, segs)
    ensures DrawnCount(sqrt, segs + [s]) == DrawnCount(sqrt, segs)
  {
    assert (segs + [s])[..|segs|] == segs;
  }

  /** A drawn segment appends its quad and one to the count. */
  lemma {:induction false} DrawnAddsQuad(sqrt: real -> real, segs: seq<Segment>, s: Segment)
    requires Drawn(sqrt, s)
    ensures LineVertices(sqrt, segs + [s]) == LineVertices(sqrt, segs) + SegmentQuad(sqrt, s)
    ensures DrawnCount(sqrt, segs + [s]) == DrawnCount(sqrt, segs) + 1
  {
    assert (segs + [s])[..|segs|] == segs;
  }

  /** One step of the `prepare` loop: a skipped segment adds nothing, a drawn
      one appends its quad and that quad's six indices. */
  lemma BuildStep(sqrt: real -> real, lines: seq<Segment>, i: nat, vertices: seq<LineVertex>, indices: seq<nat>)
    requires i < |lines| && vertices == LineVertices(sqrt, lines[..i])
    requires indices == IndexList(DrawnCount(sqrt, lines[..i]))
    ensures !Drawn(sqrt, lines[i]) ==>
              vertices == LineVertices(sqrt, lines[..i + 1]) && indices == IndexList(DrawnCount(sqrt, lines[..i + 1]))
    ensures Drawn(sqrt, lines[i]) ==>
              && vertices + SegmentQuad(sqrt, lines[i]) == LineVertices(sqrt, lines[..i + 1])
              && indices + QuadIndices(|vertices|) == IndexList(DrawnCount(sqrt, lines[..i + 1]))
  {
    var s := lines[i];
    assert lines[..i + 1] == lines[..i] + [s];
    if Drawn(sqrt, s) {
      DrawnAddsQuad(sqrt, lines[..i], s);
      IndexListNext(DrawnCount(sqrt, lines[..i]));
    } else {
      SkippedAddsNothing(sqrt, lines[..i], s);
    }
  }

  /** The prepared vertices fit the buffers: at most `MAX_LINES` quads. */
  lemma ProcessedFits(sqrt: real -> real, lines: seq<Segment>)
    ensures |LineVertices(sqrt, Processed(lines))| <= 4 * MAX_LINES
  {
  }

  class LinePipeline {
    const maxLines: nat
    var numIndices: nat
    /** The contents of the GPU vertex and index buffers and of the uniform
        screen size. */
    var vertexBuffer: seq<LineVertex>
    var indexBuffer: seq<nat>
    var screenSize: (real, real)
    /** The number of quads last prepared. */
    ghost var quads: nat

    /** Buffers of `MAX_LINES` quads; the first `numIndices` indices are the
        index list of the prepared quads, which all lie in the buffer. */
    ghost predicate Valid()
      reads this
    {
      && maxLines == MAX_LINES
      && |vertexBuffer| == 4 * maxLines && |indexBuffer| == 6 * maxLines
      && quads <= maxLines && numIndices == 6 * quads
      && indexBuffer[..numIndices] == IndexList(quads)
    }

    /** The state part of `LinePipeline::new`: zeroed buffers, nothing to draw. */
    constructor ()
      ensures Valid() && numIndices == 0
    {
      maxLines := MAX_LINES;
      numIndices := 0;
      vertexBuffer := seq(4 * MAX_LINES, _ => LineVertex(0.0, 0.0, Rgba(0.0, 0.0, 0.0, 0.0)));
      indexBuffer := seq(6 * MAX_LINES, _ => 0);
      screenSize := (0.0, 0.0);
      quads := 0;
    }

    /** `update_screen_size`: the uniform screen size. */
    method UpdateScreenSize(width: real, height: real)
      requires Valid()
      modifies this`screenSize
      ensures Valid() && screenSize == (width, height)
    {
      screenSize := (width, height);
    }

    /** `prepare`: segments from index `maxLines` on are never looked at;
        segments shorter than `MIN_LENGTH` are skipped; every other segment
        adds its quad and the quad's six indices, based at the vertex count
        so far. The buffers are overwritten from the start when anything
        was emitted. */
    method Prepare(lines: seq<Segment>, sqrt: real -> real) returns (vertices: seq<LineVertex>, indices: seq<nat>)
      requires Valid()
      modifies this`numIndices, this`vertexBuffer, this`indexBuffer, this`quads
      ensures Valid()
      ensures vertices == LineVertices(sqrt, Processed(lines))
      ensures indices == IndexList(DrawnCount(sqrt, Processed(lines)))
      ensures numIndices == |indices|
      ensures vertices != [] ==> vertexBuffer[..|vertices|] == vertices && indexBuffer[..|indices|] == indices
      ensures vertices == [] ==> vertexBuffer == old(vertexBuffer) && indexBuffer == old(indexBuffer)
    {
      vertices, indices := Build(lines, sqrt, maxLines);
      ProcessedFits(sqrt, lines);
      if vertices != [] {
        vertexBuffer := vertices + vertexBuffer[|vertices|..];
        indexBuffer := indices + indexBuffer[|indices|..];
      }
      quads := DrawnCount(sqrt, Processed(lines));
      numIndices := |indices|;
    }

    /** The loop of `prepare`: it stops before index `max`, skips segments
        shorter than `MIN_LENGTH` and appends the quad of every other. */
    static method Build(lines: seq<Segment>, sqrt: real -> real, max: nat) returns (vertices: seq<LineVertex>, indices: seq<nat>)
      requires max == MAX_LINES
      ensures vertices == LineVertices(sqrt, Processed(lines))
      ensures indices == IndexList(DrawnCount(sqrt, Processed(lines)))
    {
      vertices, indices := [], [];
      var i := 0;
      while i < |lines|
        invariant i <= |lines| && i <= max
        invariant vertices == LineVertices(sqrt, lines[..i])
        invariant indices == IndexList(DrawnCount(sqrt, lines[..i]))
      {
        if i >= max {
          break;
        }
        var s := lines[i];
        var len := Length(sqrt, s);
        BuildStep(sqrt, lines, i, vertices, indices);
        if len < MIN_LENGTH {
          i := i + 1;
          continue;
        }
        vertices, indices := vertices + SegmentQuad(sqrt, s), indices + QuadIndices(|vertices|);
        i := i + 1;
      }
      if |lines| <= max {
        assert lines[..i] == lines;
      }
    }

    /** `render`: the shared indexed draw over this pipeline's buffers. */
    function Render(): (count: Option<nat>)
      requires Valid()
      reads this
      ensures count.Some? <==> numIndices != 0
      ensures count.Some? ==> count.value == numIndices
                              && forall k :: 0 <= k < count.value ==> indexBuffer[k] < 4 * quads <= |vertexBuffer|
    {
      IndexedDraw(numIndices, quads, indexBuffer, |vertexBuffer|)
    }
  }
}
