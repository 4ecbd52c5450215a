/** Row-major indexing of a width-`w` pixel buffer, shared by the glyph
    renderer, the scaler and the atlas copy: pixel (row, col) lives at
    `row * w + col`. */
module Raster {

  function Idx(row: nat, col: nat, w: nat): nat {
    row * w + col
  }

  /** A pixel inside an h-by-w image has an index inside the w*h buffer. */
  lemma IdxInBounds(row: nat, col: nat, w: nat, h: nat)
    requires row < h && col < w
    ensures Idx(row, col, w) < w * h
  {
    assert row * w + w == (row + 1) * w;
    assert (row + 1) * w <= h * w;
  }

  /** Different pixels have different indices. */
  lemma {:induction false} IdxInjective(row: nat, col: nat, row': nat, col': nat, w: nat)
    requires col < w && col' < w
    requires Idx(row, col, w) == Idx(row', col', w)
    ensures row == row' && col == col'
  {
    if row > 0 && row' > 0 {
      assert Idx(row - 1, col, w) == Idx(row, col, w) - w;
      assert Idx(row' - 1, col', w) == Idx(row', col', w) - w;
      IdxInjective(row - 1, col, row' - 1, col', w);
    } else {
      assert row * w >= 0 && row' * w >= 0;
      assert row > 0 ==> row * w >= w;
      assert row' > 0 ==> row' * w >= w;
    }
  }

  /** Every index of the buffer is the index of exactly the pixel (i / w, i % w). */
  lemma IdxOf(i: nat, w: nat, h: nat)
    requires i < w * h
    ensures w > 0 && i / w < h && i % w < w
    ensures Idx(i / w, i % w, w) == i
  {
    assert w > 0;
  }

  /** Pixels of an earlier row come before every pixel of a later one. */
  lemma IdxRowOrder(row: nat, col: nat, row': nat, w: nat)
    requires row < row' && col < w
    ensures Idx(row, col, w) < Idx(row', 0, w)
  {
    assert (row + 1) * w <= row' * w;
  }

  lemma IdxRowMonotone(row: nat, row': nat, w: nat)
    requires row <= row'
    ensures Idx(row, 0, w) <= Idx(row', 0, w)
  {
  }

  /** The next pixel after the last of a row is the first of the next row. */
  lemma IdxNextRow(row: nat, w: nat)
    ensures Idx(row, w, w) == Idx(row + 1, 0, w)
  {
  }

  /** Rows of equal width `w`. */
  predicate Uniform<T>(rows: seq<seq<T>>, w: nat) {
    forall r :: 0 <= r < |rows| ==> |rows[r]| == w
  }

  /** The rows laid end to end: the row-major buffer of an image. */
  function Flatten<T>(rows: seq<seq<T>>): seq<T> {
    if rows == [] then [] else Flatten(rows[..|rows| - 1]) + rows[|rows| - 1]
  }

  lemma {:induction false} FlattenLength<T>(rows: seq<seq<T>>, w: nat)
    requires Uniform(rows, w)
    ensures |Flatten(rows)| == |rows| * w
  {
    if rows != [] {
      FlattenLength(rows[..|rows| - 1], w);
      assert (|rows| - 1) * w + w == |rows| * w;
    }
  }

  /** Pixel (r, c) of the image is element `Idx(r, c, w)` of its buffer. */
  lemma {:induction false} FlattenAt<T>(rows: seq<seq<T>>, w: nat, r: nat, c: nat)
    requires Uniform(rows, w) && r < |rows| && c < w
    ensures Idx(r, c, w) < |Flatten(rows)|
    ensures Flatten(rows)[Idx(r, c, w)] == rows[r][c]
  {
    var init := rows[..|rows| - 1];
    FlattenLength(rows, w);
    FlattenLength(init, w);
    IdxInBounds(r, c, w, |rows|);
    if r < |rows| - 1 {
      FlattenAt(init, w, r, c);
    } else {
      assert Idx(r, c, w) == |Flatten(init)| + c;
    }
  }

  /** Every element of the buffer is some pixel of the image. */
  lemma FlattenCover<T>(rows: seq<seq<T>>, w: nat, i: nat) returns (r: nat, c: nat)
    requires Uniform(rows, w) && i < |Flatten(rows)|
    ensures r < |rows| && c < w && i == Idx(r, c, w)
    ensures Flatten(rows)[i] == rows[r][c]
  {
    FlattenLength(rows, w);
    IdxOf(i, w, |rows|);
    r, c := i / w, i % w;
    FlattenAt(rows, w, r, c);
  }
}
