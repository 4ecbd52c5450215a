/** The index layout shared by the text and line pipelines: every quad is
    four vertices drawn as two triangles, (0, 1, 2) and (0, 2, 3). */
module Quads {
  import opened Wrappers

  /** An RGBA colour. */
  datatype Rgba = Rgba(r: real, g: real, b: real, a: real)

  /** The corner of a quad that its `t`-th index names. */
  function Corner(t: nat): (k: nat)
    requires t < 6
    ensures k < 4
  {
    [0, 1, 2, 0, 2, 3][t]
  }

  /** The six indices of the quad whose first vertex is `base`. */
  function QuadIndices(base: nat): (r: seq<nat>)
    ensures |r| == 6
    ensures forall t :: 0 <= t < 6 ==> r[t] == base + Corner(t)
  {
    [base, base + 1, base + 2, base, base + 2, base + 3]
  }

  /** The index list of `k` consecutive quads. */
  function IndexList(k: nat): (r: seq<nat>)
    ensures |r| == 6 * k
  {
    if k == 0 then [] else IndexList(k - 1) + QuadIndices(4 * (k - 1))
  }

  /** The first vertex of the next quad, `(n / 4) * 4` for `n` vertices,
      is `n` itself when the vertices are whole quads. */
  lemma QuadBase(n: nat, k: nat)
    requires n == 4 * k
    ensures (n / 4) * 4 == n
  {
  }

  /** One quad more appends that quad's six indices. */
  lemma IndexListNext(k: nat)
    ensures IndexList(k + 1) == IndexList(k) + QuadIndices(4 * k)
  {
  }

  /** Index `6j + t` of the list names corner `Corner(t)` of quad `j`. */
  lemma {:induction false} IndexListAt(k: nat, j: nat, t: nat)
    requires j < k && t < 6
    ensures IndexList(k)[6 * j + t] == 4 * j + Corner(t)
  {
    if j < k - 1 {
      IndexListAt(k - 1, j, t);
    }
  }

  /** Every index names one of the `4k` vertices. */
  lemma IndexListBounds(k: nat)
    ensures forall i :: 0 <= i < |IndexList(k)| ==> IndexList(k)[i] < 4 * k
  {
    forall i | 0 <= i < |IndexList(k)|
      ensures IndexList(k)[i] < 4 * k
    {
      IndexListAt(k, i / 6, i % 6);
    }
  }

  /** The `render` step both pipelines share: an indexed draw of the first
      `numIndices` indices, which hold the index list of `quads` quads over
      `vertexCount` vertices, or nothing when there are none; every drawn
      index names a prepared vertex. */
  function IndexedDraw(numIndices: nat, ghost quads: nat, indexBuffer: seq<nat>, vertexCount: nat): (count: Option<nat>)
    requires numIndices == 6 * quads <= |indexBuffer| && 4 * quads <= vertexCount
    requires indexBuffer[..numIndices] == IndexList(quads)
    ensures count.Some? <==> numIndices != 0
    ensures count.Some? ==> count.value == numIndices
                            && forall k :: 0 <= k < count.value ==> indexBuffer[k] < 4 * quads <= vertexCount
  {
    IndexListBounds(quads);
    assert forall k :: 0 <= k < numIndices ==> indexBuffer[k] == IndexList(quads)[k];
    if numIndices == 0 then None else Some(numIndices)
  }
}
