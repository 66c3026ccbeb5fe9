/**
  The two array reshapings the simulators apply: swapping the two axes of a
  rectangular matrix (`swapaxes(0, 1)` and `.T`) and repeating a matrix
  along its last axis (`np.tile(m, reps)` on a two-dimensional `m`).
  A matrix is a sequence of rows.
 */
module Matrices {
  import opened Arithmetic

  /** Every row of `m` has `width` entries. */
  predicate IsMatrix<T>(m: seq<seq<T>>, width: nat) {
    forall i | 0 <= i < |m| :: |m[i]| == width
  }

  /** The `width x |m|` matrix whose entry `(j, i)` is entry `(i, j)` of `m`. */
  function Transpose<T>(m: seq<seq<T>>, width: nat): (r: seq<seq<T>>)
    requires IsMatrix(m, width)
    ensures |r| == width && IsMatrix(r, |m|)
  {
    seq(width, j requires 0 <= j < width => seq(|m|, i requires 0 <= i < |m| => m[i][j]))
  }

  /** Swapping the axes twice gives back the matrix. */
  lemma TransposeTwice<T>(m: seq<seq<T>>, width: nat)
    requires IsMatrix(m, width)
    ensures Transpose(Transpose(m, width), |m|) == m
  {
    var t := Transpose(m, width);
    var tt := Transpose(t, |m|);
    forall i | 0 <= i < |m|
      ensures tt[i] == m[i]
    {
      assert forall j | 0 <= j < width :: tt[i][j] == t[j][i] == m[i][j];
    }
  }

  /** `row` written out `reps` times, one copy after the other. */
  function TileRow<T>(row: seq<T>, reps: nat): (r: seq<T>)
    ensures |r| == |row| * reps
    decreases reps
  {
    if reps == 0 then [] else TileRow(row, reps - 1) + row
  }

  /** Entry `k` of a tiled row is entry `k % |row|` of the row. */
  lemma {:induction false} TileRowAt<T>(row: seq<T>, reps: nat, k: nat)
    requires k < |row| * reps
    ensures 0 < |row| && TileRow(row, reps)[k] == row[k % |row|]
    decreases reps
  {
    var n := |row|;
    assert reps > 0;
    assert n * reps == n * (reps - 1) + n;
    if k < n * (reps - 1) {
      TileRowAt(row, reps - 1, k);
    } else {
      DivModUnique(k, n, reps - 1, k - n * (reps - 1));
    }
  }

  /** `np.tile(m, reps)` for a matrix: every row tiled `reps` times. */
  function Tile<T>(m: seq<seq<T>>, reps: nat): (r: seq<seq<T>>)
    ensures |r| == |m|
    ensures forall i | 0 <= i < |m| :: |r[i]| == |m[i]| * reps
  {
    seq(|m|, i requires 0 <= i < |m| => TileRow(m[i], reps))
  }

  /** Entry `(i, k)` of a tiled matrix repeats column `k mod width` of row `i`. */
  lemma TileAt<T>(m: seq<seq<T>>, reps: nat, i: nat, k: nat)
    requires i < |m| && k < |m[i]| * reps
    ensures 0 < |m[i]| && Tile(m, reps)[i][k] == m[i][k % |m[i]|]
  {
    TileRowAt(m[i], reps, k);
  }
}
