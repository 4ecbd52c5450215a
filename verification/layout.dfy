/** The automatic pane layout of crates/crt-layout/src/tree.rs: an ordered list
    of pane ids with a focused pane and an id counter, the near-square grid
    that places N panes in normalised window space, and the hit test that maps
    a normalised point back to a pane. Coordinates are `f32` in the source and
    exact reals here. */
module Layout {
  import opened Wrappers

  /** `PaneId(u64)`: an opaque identifier, never reused within a session. */
  datatype PaneId = PaneId(id: nat)

  /** A rectangle in normalised window coordinates. */
  datatype Rect = Rect(x: real, y: real, width: real, height: real)

  /** `Rect::full`: the whole unit square. */
  function Full(): (r: Rect)
    ensures r.x == 0.0 && r.y == 0.0 && r.width == 1.0 && r.height == 1.0
  {
    Rect(0.0, 0.0, 1.0, 1.0)
  }

  /** The half-open containment test of `hit_test`. */
  predicate Contains(r: Rect, px: real, py: real) {
    r.x <= px < r.x + r.width && r.y <= py < r.y + r.height
  }

  /** `(n as f32).sqrt().ceil() as usize`, computed exactly: the least m with m*m >= n. */
  function CeilSqrt(n: nat): (m: nat)
    ensures m * m >= n
    ensures m == 0 || (m - 1) * (m - 1) < n
  {
    CeilSqrtFrom(n, 0)
  }

  function CeilSqrtFrom(n: nat, m: nat): (r: nat)
    requires m == 0 || (m - 1) * (m - 1) < n
    ensures r * r >= n
    ensures r == 0 || (r - 1) * (r - 1) < n
    decreases n - m
  {
    if m * m >= n then m
    else
      assert m < n by {
        if m > 0 { assert m <= m * m; }
      }
      CeilSqrtFrom(n, m + 1)
  }

  /** The number of major divisions (columns in landscape, rows in portrait). */
  function MajorCount(n: nat): nat {
    CeilSqrt(n)
  }

  /** Items in major division `k` of `major`: `n / major`, one more for the
      last `n % major` divisions. */
  function StripCount(n: nat, major: nat, k: nat): nat
    requires major > 0
  {
    if k < major - n % major then n / major else n / major + 1
  }

  /** The rectangle of item `j` of major division `k` when that division has `c` items. */
  function RectAt(major: nat, c: nat, k: nat, j: nat, landscape: bool): Rect
    requires major > 0 && c > 0
  {
    var majorStart := k as real / major as real;
    var majorSize := 1.0 / major as real;
    var minorStart := j as real / c as real;
    var minorSize := 1.0 / c as real;
    if landscape then Rect(majorStart, minorStart, majorSize, minorSize)
    else Rect(minorStart, majorStart, minorSize, majorSize)
  }

  /** All rectangles of major division `k`, in minor order. */
  function Strip(n: nat, major: nat, k: nat, landscape: bool): (s: seq<Rect>)
    requires major > 0
    ensures |s| == StripCount(n, major, k)
  {
    var c := StripCount(n, major, k);
    seq(c, j requires 0 <= j < c => RectAt(major, c, k, j, landscape))
  }

  /** The rectangles of the first `k` major divisions, in push order. */
  function StripsBefore(n: nat, major: nat, k: nat, landscape: bool): seq<Rect>
    requires major > 0
  {
    if k == 0 then [] else StripsBefore(n, major, k - 1, landscape) + Strip(n, major, k - 1, landscape)
  }

  /** What `compute_grid_rects(n, landscape)` returns: exactly n rectangles. */
  function GridRects(n: nat, landscape: bool): (r: seq<Rect>)
    ensures |r| == n
  {
    if n == 0 then []
    else if n == 1 then [Full()]
    else
      var m := MajorCount(n);
      MajorCountBounds(n);
      StripCountsSum(n, m, m, landscape);
      DivMod(n, m);
      StripsBefore(n, m, m, landscape)
  }

  lemma DivMod(n: nat, m: nat)
    requires m > 0
    ensures m * (n / m) + n % m == n
  {
  }

  /** `compute_grid_rects`: the nested loops that push one rectangle per item. */
  method ComputeGridRects(n: nat, landscape: bool) returns (rects: seq<Rect>)
    ensures rects == GridRects(n, landscape)
  {
    if n == 0 {
      return [];
    }
    if n == 1 {
      return [Full()];
    }
    var majorCount := CeilSqrt(n);
    var basePerMajor := n / majorCount;
    var extras := n % majorCount;
    rects := [];
    var majorIdx := 0;
    while majorIdx < majorCount
      invariant 0 <= majorIdx <= majorCount
      invariant rects == StripsBefore(n, majorCount, majorIdx, landscape)
    {
      var itemsInThisMajor := if majorIdx < majorCount - extras then basePerMajor else basePerMajor + 1;
      var majorStart := majorIdx as real / majorCount as real;
      var majorSize := 1.0 / majorCount as real;
      ghost var before := rects;
      var minorIdx := 0;
      while minorIdx < itemsInThisMajor
        invariant 0 <= minorIdx <= itemsInThisMajor
        invariant rects == before + Strip(n, majorCount, majorIdx, landscape)[..minorIdx]
      {
        var minorStart := minorIdx as real / itemsInThisMajor as real;
        var minorSize := 1.0 / itemsInThisMajor as real;
        var rect := if landscape then Rect(majorStart, minorStart, majorSize, minorSize)
                    else Rect(minorStart, majorStart, minorSize, majorSize);
        assert rect == Strip(n, majorCount, majorIdx, landscape)[minorIdx];
        rects := rects + [rect];
        minorIdx := minorIdx + 1;
      }
      assert Strip(n, majorCount, majorIdx, landscape)[..minorIdx] == Strip(n, majorCount, majorIdx, landscape);
      majorIdx := majorIdx + 1;
    }
  }

  // ---------------------------------------------------------------------
  // Counting: exactly n rectangles, strips of n/major or n/major + 1 items

  /** For n >= 2 there are at least two major divisions and every division
      holds at least one item. */
  lemma {:induction false} MajorCountBounds(n: nat)
    requires n >= 2
    ensures 2 <= MajorCount(n) <= n
    ensures n / MajorCount(n) >= 1
  {
    var m := MajorCount(n);
    assert m >= 2 by {
      if m <= 1 {
        MulMonotone(m, 1, m, 1);
      }
    }
    assert m <= n by {
      if m > n {
        MulMonotone(n, m - 1, n, m - 1);
        MulMonotone(1, n, n, n);
      }
    }
    assert n / m >= 1 by {
      assert (n / m) * m + n % m == n && n % m < m;
    }
  }

  lemma MulMonotone(a: nat, b: nat, c: nat, d: nat)
    requires a <= b && c <= d
    ensures a * c <= b * d
  {
    assert a * c <= b * c;
    assert b * c <= b * d;
  }

  /** The per-division counts: `n / major` for the first divisions, one more
      for the last `n % major`, never decreasing, and summing to n. */
  lemma {:induction false} StripCountsSum(n: nat, major: nat, k: nat, landscape: bool)
    requires 0 < major && k <= major
    ensures |StripsBefore(n, major, k, landscape)|
            == k * (n / major) + (if k <= major - n % major then 0 else k - (major - n % major))
  {
    if k > 0 {
      StripCountsSum(n, major, k - 1, landscape);
    }
  }

  /** The extra items go to the last divisions: counts never decrease from one
      division to the next and differ by at most one. */
  lemma StripCountsBalanced(n: nat, major: nat, k: nat, k': nat)
    requires 0 < major && k <= k' < major
    ensures n / major <= StripCount(n, major, k) <= StripCount(n, major, k') <= n / major + 1
  {
  }

  // ---------------------------------------------------------------------
  // Indexing: where the item of division k, position j, sits in the list

  /** The index of the first rectangle of division k. */
  function Offset(n: nat, major: nat, k: nat): nat
    requires major > 0
  {
    if k == 0 then 0 else Offset(n, major, k - 1) + StripCount(n, major, k - 1)
  }

  lemma {:induction false} StripsBeforeLength(n: nat, major: nat, k: nat, landscape: bool)
    requires major > 0
    ensures |StripsBefore(n, major, k, landscape)| == Offset(n, major, k)
  {
    if k > 0 {
      StripsBeforeLength(n, major, k - 1, landscape);
    }
  }

  lemma {:induction false} OffsetMonotone(n: nat, major: nat, k: nat, k': nat)
    requires major > 0 && k <= k'
    ensures Offset(n, major, k) <= Offset(n, major, k')
    decreases k' - k
  {
    if k < k' {
      OffsetMonotone(n, major, k, k' - 1);
    }
  }

  /** Item j of division k is at index Offset(k) + j, and later divisions only append. */
  lemma {:induction false} StripsBeforeAt(n: nat, major: nat, k: nat, k': nat, j: nat, landscape: bool)
    requires major > 0 && k < k' && j < StripCount(n, major, k)
    ensures Offset(n, major, k) + j < |StripsBefore(n, major, k', landscape)|
    ensures StripsBefore(n, major, k', landscape)[Offset(n, major, k) + j]
            == RectAt(major, StripCount(n, major, k), k, j, landscape)
    decreases k'
  {
    StripsBeforeLength(n, major, k', landscape);
    StripsBeforeLength(n, major, k' - 1, landscape);
    if k == k' - 1 {
    } else {
      StripsBeforeAt(n, major, k, k' - 1, j, landscape);
    }
  }

  /** Every index i of the list belongs to exactly one (division, position) pair. */
  lemma {:induction false} DecomposeIndex(n: nat, major: nat, k': nat, i: nat, landscape: bool)
    returns (k: nat, j: nat)
    requires major > 0 && i < Offset(n, major, k')
    ensures k < k' && j < StripCount(n, major, k) && i == Offset(n, major, k) + j
    decreases k'
  {
    if i >= Offset(n, major, k' - 1) {
      k, j := k' - 1, i - Offset(n, major, k' - 1);
    } else {
      k, j := DecomposeIndex(n, major, k' - 1, i, landscape);
    }
  }

  // ---------------------------------------------------------------------
  // Tiling: every point of [0,1) x [0,1) lies in exactly one rectangle

  /** k/m <= u < k/m + 1/m holds exactly when k <= u*m < k + 1. */
  lemma CellIff(u: real, m: nat, k: int)
    requires m > 0
    ensures (k as real / m as real <= u < k as real / m as real + 1.0 / m as real)
            <==> (k as real <= u * m as real < (k + 1) as real)
  {
    var M := m as real;
    assert k as real / M + 1.0 / M == (k + 1) as real / M;
    CellLower(u, m, k);
    CellLower(u, m, k + 1);
  }

  /** k/m <= u holds exactly when k <= u*m. */
  lemma CellLower(u: real, m: nat, k: int)
    requires m > 0
    ensures k as real / m as real <= u <==> k as real <= u * m as real
  {
    var M := m as real;
    var lo := k as real / M;
    assert lo * M == k as real;
    if lo <= u {
      RealMulMonotone(lo, u, M);
    } else {
      RealMulStrict(u, lo, M);
    }
  }

  lemma RealMulMonotone(a: real, b: real, M: real)
    requires a <= b && M > 0.0
    ensures a * M <= b * M
  {
  }

  lemma RealMulStrict(a: real, b: real, M: real)
    requires a < b && M > 0.0
    ensures a * M < b * M
  {
  }

  /** The cell of a coordinate: floor(u*m) is the unique k in [0, m) whose
      half-open interval [k/m, (k+1)/m) contains u. */
  lemma CellOf(u: real, m: nat) returns (k: nat)
    requires m > 0 && 0.0 <= u < 1.0
    ensures k < m
    ensures k as real / m as real <= u < k as real / m as real + 1.0 / m as real
  {
    var M := m as real;
    assert 0.0 <= u * M < M by {
      assert u * M < 1.0 * M;
    }
    k := (u * M).Floor;
    CellIff(u, m, k);
  }

  lemma CellUnique(u: real, m: nat, k: int, k': int)
    requires m > 0
    requires k as real / m as real <= u < k as real / m as real + 1.0 / m as real
    requires k' as real / m as real <= u < k' as real / m as real + 1.0 / m as real
    ensures k == k'
  {
    CellIff(u, m, k);
    CellIff(u, m, k');
  }

  /** The interval of cell k of m lies inside [0, 1]. */
  lemma CellInside(m: nat, k: nat)
    requires k < m
    ensures 0.0 <= k as real / m as real
    ensures k as real / m as real + 1.0 / m as real <= 1.0
  {
    var M := m as real;
    assert k as real / M + 1.0 / M == (k + 1) as real / M;
    assert (k + 1) as real <= M;
  }

  /** Every rectangle of the grid lies inside the unit square. */
  lemma GridRectsInside(n: nat, landscape: bool, i: nat)
    requires i < |GridRects(n, landscape)|
    ensures var r := GridRects(n, landscape)[i];
            0.0 <= r.x && r.x + r.width <= 1.0 && 0.0 <= r.y && r.y + r.height <= 1.0
  {
    if n >= 2 {
      var m := MajorCount(n);
      MajorCountBounds(n);
      StripsBeforeLength(n, m, m, landscape);
      var k, j := DecomposeIndex(n, m, m, i, landscape);
      StripsBeforeAt(n, m, k, m, j, landscape);
      CellInside(m, k);
      CellInside(StripCount(n, m, k), j);
    }
  }

  /** Coverage: a point of [0,1) x [0,1) lies in some grid rectangle (n >= 1). */
  lemma GridRectsCover(n: nat, landscape: bool, px: real, py: real) returns (i: nat)
    requires n >= 1 && 0.0 <= px < 1.0 && 0.0 <= py < 1.0
    ensures i < |GridRects(n, landscape)| && Contains(GridRects(n, landscape)[i], px, py)
  {
    if n == 1 {
      i := 0;
    } else {
      var m := MajorCount(n);
      MajorCountBounds(n);
      var u := if landscape then px else py;
      var v := if landscape then py else px;
      var k := CellOf(u, m);
      var c := StripCount(n, m, k);
      var j := CellOf(v, c);
      i := Offset(n, m, k) + j;
      StripsBeforeAt(n, m, k, m, j, landscape);
    }
  }

  /** No overlap: a point lies in at most one grid rectangle. */
  lemma GridRectsDisjoint(n: nat, landscape: bool, px: real, py: real, i: nat, i': nat)
    requires i < |GridRects(n, landscape)| && i' < |GridRects(n, landscape)|
    requires Contains(GridRects(n, landscape)[i], px, py)
    requires Contains(GridRects(n, landscape)[i'], px, py)
    ensures i == i'
  {
    if n >= 2 {
      var m := MajorCount(n);
      MajorCountBounds(n);
      StripsBeforeLength(n, m, m, landscape);
      var k, j := DecomposeIndex(n, m, m, i, landscape);
      var k', j' := DecomposeIndex(n, m, m, i', landscape);
      StripsBeforeAt(n, m, k, m, j, landscape);
      StripsBeforeAt(n, m, k', m, j', landscape);
      var u := if landscape then px else py;
      var v := if landscape then py else px;
      CellUnique(u, m, k, k');
      CellUnique(v, StripCount(n, m, k), j, j');
    }
  }

  /** The n = 5 landscape scenario: three columns holding 1, 2 and 2 panes. */
  lemma FivePanesLayout()
    ensures MajorCount(5) == 3
    ensures StripCount(5, 3, 0) == 1 && StripCount(5, 3, 1) == 2 && StripCount(5, 3, 2) == 2
    ensures |GridRects(5, true)| == 5
    ensures GridRects(5, true)[0] == Rect(0.0, 0.0, 1.0 / 3.0, 1.0)
    ensures GridRects(5, true)[1] == Rect(1.0 / 3.0, 0.0, 1.0 / 3.0, 0.5)
    ensures GridRects(5, true)[4] == Rect(2.0 / 3.0, 0.5, 1.0 / 3.0, 0.5)
  {
    assert CeilSqrtFrom(5, 0) == 3 by {
      assert CeilSqrtFrom(5, 0) == CeilSqrtFrom(5, 1) == CeilSqrtFrom(5, 2) == CeilSqrtFrom(5, 3);
    }
    StripsBeforeAt(5, 3, 0, 3, 0, true);
    StripsBeforeAt(5, 3, 1, 3, 0, true);
    StripsBeforeAt(5, 3, 2, 3, 1, true);
  }

  // ---------------------------------------------------------------------
  // The tree

  /** A window is laid out in columns (landscape) when it is at least as wide as tall. */
  predicate Landscape(width: real, height: real) {
    width >= height
  }

  /** `LayoutTree`: the panes in insertion order, the focused pane and the
      next id to hand out. */
  class LayoutTree {
    var panes: seq<PaneId>
    var focused: PaneId
    var nextId: nat

    /** Ids are distinct and all below `nextId` (so a fresh id is never in use);
        while panes remain, the focused pane is one of them. */
    ghost predicate Valid()
      reads this
    {
      (forall i, j :: 0 <= i < j < |panes| ==> panes[i] != panes[j])
      && (forall i :: 0 <= i < |panes| ==> panes[i].id < nextId)
      && focused.id < nextId
      && (panes != [] ==> focused in panes)
    }

    /** `LayoutTree::new`: one pane, `PaneId(0)`, focused; the next id is 1. */
    constructor ()
      ensures Valid()
      ensures panes == [PaneId(0)] && focused == PaneId(0) && nextId == 1
    {
      panes := [PaneId(0)];
      focused := PaneId(0);
      nextId := 1;
    }

    /** `panes()`: the ids in insertion order, pairwise distinct. */
    function Panes(): (r: seq<PaneId>)
      reads this
      requires Valid()
      ensures forall i, j :: 0 <= i < j < |r| ==> r[i] != r[j]
      ensures forall i :: 0 <= i < |r| ==> r[i].id < nextId
    {
      panes
    }

    /** `set_focus`: focus moves only to a pane of the tree. */
    method SetFocus(pane: PaneId)
      requires Valid()
      modifies this
      ensures Valid()
      ensures panes == old(panes) && nextId == old(nextId)
      ensures focused == if pane in old(panes) then pane else old(focused)
    {
      if pane in panes {
        focused := pane;
      }
    }

    /** `add_pane`: the new id is the old counter, appended last and focused. */
    method AddPane() returns (id: PaneId)
      requires Valid()
      modifies this
      ensures Valid()
      ensures id == PaneId(old(nextId)) && id !in old(panes)
      ensures panes == old(panes) + [id]
      ensures focused == id
      ensures nextId == old(nextId) + 1
    {
      id := PaneId(nextId);
      nextId := nextId + 1;
      panes := panes + [id];
      focused := id;
    }

    /** `close`: removes a member, focusing the pane just before it (or the new
        first one); closing the last pane returns None and leaves `focused`
        naming the removed id; closing a non-member changes nothing. */
    method Close(pane: PaneId) returns (r: Option<PaneId>)
      requires Valid()
      modifies this
      ensures Valid()
      ensures nextId == old(nextId)
      ensures pane !in old(panes) ==> r == None && panes == old(panes) && focused == old(focused)
      ensures pane in old(panes) ==>
                exists idx :: 0 <= idx < |old(panes)| && old(panes)[idx] == pane
                  && panes == old(panes)[..idx] + old(panes)[idx + 1..]
                  && (panes == [] ==> r == None && focused == old(focused))
                  && (panes != [] ==> r == Some(focused)
                                      && focused == panes[if idx > 0 then idx - 1 else 0])
      ensures pane !in panes
    {
      var idx := 0;
      while idx < |panes| && panes[idx] != pane
        invariant 0 <= idx <= |panes|
        invariant forall i :: 0 <= i < idx ==> panes[i] != pane
      {
        idx := idx + 1;
      }
      if idx == |panes| {
        return None;
      }
      ghost var before := panes;
      panes := panes[..idx] + panes[idx + 1..];
      assert forall i :: 0 <= i < |panes| ==> panes[i] == if i < idx then before[i] else before[i + 1];
      if panes == [] {
        return None;
      }
      var newFocusIdx := if idx > 0 then idx - 1 else 0;
      focused := panes[newFocusIdx];
      r := Some(focused);
    }

    /** `pane_rects`: each pane mapped to its grid rectangle; the layout is
        landscape exactly when `width >= height`. */
    function PaneRects(width: real, height: real): (m: map<PaneId, Rect>)
      reads this
      requires Valid()
      ensures forall p :: p in m <==> p in panes
      ensures forall i :: 0 <= i < |panes| ==> m[panes[i]] == GridRects(|panes|, Landscape(width, height))[i]
    {
      var rects := GridRects(|panes|, Landscape(width, height));
      map i | 0 <= i < |panes| :: panes[i] := rects[i]
    }

    /** `hit_test`: the pane whose rectangle contains the normalised point.
        The rectangles do not overlap, so the answer does not depend on the
        order in which the source's hash map is walked. */
    method HitTest(normX: real, normY: real, width: real, height: real) returns (r: Option<PaneId>)
      requires Valid()
      ensures r.Some? ==> exists i :: 0 <= i < |panes| && panes[i] == r.value
                            && Contains(GridRects(|panes|, Landscape(width, height))[i], normX, normY)
      ensures r.None? ==> forall i :: 0 <= i < |panes| ==>
                            !Contains(GridRects(|panes|, Landscape(width, height))[i], normX, normY)
    {
      var rects := GridRects(|panes|, Landscape(width, height));
      var i := 0;
      while i < |panes|
        invariant 0 <= i <= |panes|
        invariant forall i' :: 0 <= i' < i ==> !Contains(rects[i'], normX, normY)
      {
        if Contains(rects[i], normX, normY) {
          return Some(panes[i]);
        }
        i := i + 1;
      }
      return None;
    }
  }

  /** Inside the window a pane is always hit, and it is the pane at the single
      index whose rectangle holds the point; outside [0,1) x [0,1) none is. */
  lemma HitTestTotal(panes: seq<PaneId>, landscape: bool, px: real, py: real)
    requires |panes| >= 1
    ensures (0.0 <= px < 1.0 && 0.0 <= py < 1.0) <==>
            exists i :: 0 <= i < |panes| && Contains(GridRects(|panes|, landscape)[i], px, py)
  {
    if 0.0 <= px < 1.0 && 0.0 <= py < 1.0 {
      var i := GridRectsCover(|panes|, landscape, px, py);
    }
    forall i | 0 <= i < |panes| && Contains(GridRects(|panes|, landscape)[i], px, py)
      ensures 0.0 <= px < 1.0 && 0.0 <= py < 1.0
    {
      GridRectsInside(|panes|, landscape, i);
    }
  }
}
