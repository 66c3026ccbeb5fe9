/**
  Tower layout of the trace simulators: how the grid policy resolves the
  requested tower count and where it puts each tower, plus the nearest-tower
  query of the tower manager, kept abstract.

  Coordinates are exact rationals (`real`), so the grid positions below are the
  values the float computation approximates.
 */
module Geometry {
  import opened Arithmetic

  /** A position in the simulation's unit square. */
  datatype Point = Point(x: real, y: real)

  function Square(k: nat): nat { k * k }

  ghost predicate IsPerfectSquare(n: nat) {
    exists k: nat :: Square(k) == n
  }

  lemma SquareMonotone(a: nat, b: nat)
    requires a <= b
    ensures Square(a) <= Square(b)
  {
    assert a * a <= a * b;
    assert a * b <= b * b;
  }

  /** The least `step >= s` whose square reaches `n`, counting up from `s`. */
  function CeilSqrtFrom(n: nat, s: nat): (step: nat)
    requires s == 0 || Square(s - 1) < n
    ensures s <= step
    ensures n <= Square(step)
    ensures step == 0 || Square(step - 1) < n
    decreases n - s
  {
    if n <= Square(s) then s
    else
      assert s < n by {
        if s > 0 { SquareMonotone(1, s); assert s <= s * s; }
      }
      CeilSqrtFrom(n, s + 1)
  }

  /** `ceil(sqrt(n))` computed exactly: the side of the grid for `n` towers. */
  function CeilSqrt(n: nat): (step: nat)
    ensures n <= Square(step)
    ensures step == 0 || Square(step - 1) < n
  {
    CeilSqrtFrom(n, 0)
  }

  /** The tower count a grid layout ends up with when `n` towers are requested. */
  function ResolvedCount(n: nat): (count: nat)
    ensures n <= count && IsPerfectSquare(count)
  {
    Square(CeilSqrt(n))
  }

  /**
    The grid policy rounds the tower count up to the smallest perfect square
    that holds it, and leaves it alone exactly when it already is a square.
   */
  lemma ResolvedCountIsSmallestSquare(n: nat)
    ensures n <= ResolvedCount(n)
    ensures IsPerfectSquare(ResolvedCount(n))
    ensures forall k: nat :: n <= Square(k) ==> ResolvedCount(n) <= Square(k)
    ensures ResolvedCount(n) == n <==> IsPerfectSquare(n)
  {
    var s := CeilSqrt(n);
    assert Square(s) == ResolvedCount(n);
    forall k: nat | n <= Square(k)
      ensures ResolvedCount(n) <= Square(k)
    {
      if k < s {
        SquareMonotone(k, s - 1);
      } else {
        SquareMonotone(s, k);
      }
    }
    if IsPerfectSquare(n) {
      var k: nat :| Square(k) == n;
      assert ResolvedCount(n) <= Square(k);
    }
  }

  /** Ten requested towers become sixteen: the count is rounded up, not down. */
  lemma TenTowersBecomeSixteen()
    ensures CeilSqrt(10) == 4 && ResolvedCount(10) == 16
    ensures CeilSqrt(9) == 3 && ResolvedCount(9) == 9
  {
    assert CeilSqrtFrom(10, 4) == 4;
    assert CeilSqrtFrom(9, 3) == 3;
  }

  /**
    One axis of `np.mgrid[0:stop:num*1j]`: `num` evenly spaced values from 0
    to `stop`, both ends included; a single value is the start, 0.
   */
  function MgridAxis(stop: real, num: nat): (axis: seq<real>)
    ensures |axis| == num
    ensures 0 < num ==> axis[0] == 0.0
    ensures 1 < num ==> axis[num - 1] == stop
  {
    seq(num, i => if num == 1 then 0.0 else (i as real) * stop / ((num - 1) as real))
  }

  /** Neighbouring values of an `MgridAxis` are `stop / (num - 1)` apart. */
  lemma MgridAxisEvenlySpaced(stop: real, num: nat, i: nat)
    requires 0 < i < num
    ensures MgridAxis(stop, num)[i] - MgridAxis(stop, num)[i - 1] == stop / ((num - 1) as real)
  {
    var axis := MgridAxis(stop, num);
    var d := (num - 1) as real;
    var r := i as real;
    assert axis[i] == r * stop / d && axis[i - 1] == (r - 1.0) * stop / d;
    assert r * stop / d - (r - 1.0) * stop / d == (r * stop - (r - 1.0) * stop) / d;
  }

  lemma DivBelow(k: nat, step: nat)
    requires k < Square(step)
    ensures 0 < step && k / step < step
  {
    if step != 0 && k / step >= step {
      assert step * (k / step) >= step * step by {
        MulMonotone(step, step, k / step);
      }
    }
  }

  /**
    The grid layout with `step` cells per axis: the mesh of `MgridAxis` over
    `[0, 1 - 1/step]` on both axes, flattened in C order (first axis
    slowest), then shifted by half a cell.
   */
  function GridTowers(step: nat): (towers: seq<Point>)
    ensures |towers| == Square(step)
  {
    seq(Square(step), k requires 0 <= k < Square(step) => MeshPoint(step, k))
  }

  /**
    Entry `k` of the flattened, padded mesh: row `k / step` of the first axis
    and column `k % step` of the second, each the centre of its cell.
   */
  function MeshPoint(step: nat, k: nat): (p: Point)
    requires k < Square(step)
    ensures 0 < step && k / step < step
    ensures p == Point(CellCentre(step, k / step), CellCentre(step, k % step))
  {
    DivBelow(k, step);
    AxisValueIsCentre(step, k / step);
    AxisValueIsCentre(step, k % step);
    var axis := MgridAxis(1.0 - 1.0 / (step as real), step);
    var pad := 1.0 / ((2 * step) as real);
    Point(axis[k / step] + pad, axis[k % step] + pad)
  }

  /** The centre of cell `i` of `step` equal cells along one axis of [0, 1]. */
  function CellCentre(step: nat, i: nat): real
    requires 0 < step
  {
    ((2 * i + 1) as real) / ((2 * step) as real)
  }

  lemma AxisValueIsCentre(step: nat, i: nat)
    requires i < step
    ensures MgridAxis(1.0 - 1.0 / (step as real), step)[i] + 1.0 / ((2 * step) as real)
            == CellCentre(step, i)
  {
    var s := step as real;
    var r := i as real;
    var axis := MgridAxis(1.0 - 1.0 / s, step);
    assert (2 * step) as real == 2.0 * s;
    assert (2 * i + 1) as real == 2.0 * r + 1.0;
    if step == 1 {
      assert axis[i] == 0.0;
    } else {
      assert ((step - 1) as real) == s - 1.0;
      assert 1.0 - 1.0 / s == (s - 1.0) / s;
      assert axis[i] == r * ((s - 1.0) / s) / (s - 1.0);
      assert r * ((s - 1.0) / s) / (s - 1.0) == r / s;
      assert r / s + 1.0 / (2.0 * s) == (2.0 * r + 1.0) / (2.0 * s);
    }
  }

  /** Tower `k` of the grid is the centre of cell `(k / step, k % step)`. */
  lemma GridTowerAt(step: nat, k: nat)
    requires k < Square(step)
    ensures 0 < step && k / step < step
    ensures GridTowers(step)[k] == Point(CellCentre(step, k / step), CellCentre(step, k % step))
  {
    assert GridTowers(step)[k] == MeshPoint(step, k);
  }

  lemma DivModOfCell(step: nat, i: nat, j: nat)
    requires i < step && j < step
    ensures i * step + j < Square(step)
    ensures (i * step + j) / step == i && (i * step + j) % step == j
  {
    MulMonotone(step, i + 1, step);
    assert step * (i + 1) == step * i + step;
    DivModUnique(i * step + j, step, i, j);
  }

  /**
    The towers run through the cells in C order: cell `(i, j)`, the `i`-th
    value of the first axis and the `j`-th of the second, is tower `i * step + j`.
   */
  lemma GridCellAt(step: nat, i: nat, j: nat)
    requires i < step && j < step
    ensures i * step + j < |GridTowers(step)|
    ensures GridTowers(step)[i * step + j] == Point(CellCentre(step, i), CellCentre(step, j))
  {
    DivModOfCell(step, i, j);
    GridTowerAt(step, i * step + j);
  }

  lemma CellCentreInside(step: nat, i: nat)
    requires i < step
    ensures 0.0 < CellCentre(step, i) < 1.0
  {
    var a := (2 * i + 1) as real;
    var b := (2 * step) as real;
    QuotientInside(a, b);
  }

  lemma QuotientInside(a: real, b: real)
    requires 0.0 < a < b
    ensures 0.0 < a / b < 1.0
  {
    var q := a / b;
    assert q * b == a;
    if q <= 0.0 {
      assert false;
    }
    if q >= 1.0 {
      assert false;
    }
  }

  lemma CellCentreInjective(step: nat, i: nat, j: nat)
    requires 0 < step
    ensures CellCentre(step, i) == CellCentre(step, j) <==> i == j
  {
    var b := (2 * step) as real;
    assert ((2 * i + 1) as real) == CellCentre(step, i) * b;
    assert ((2 * j + 1) as real) == CellCentre(step, j) * b;
  }

  lemma SameCellSameIndex(step: nat, k1: nat, k2: nat)
    requires 0 < step && k1 != k2
    ensures k1 / step != k2 / step || k1 % step != k2 % step
  {
    assert k1 == step * (k1 / step) + k1 % step;
    assert k2 == step * (k2 / step) + k2 % step;
  }

  /** Every grid tower lies strictly inside the unit square. */
  lemma GridTowersInside(step: nat, k: nat)
    requires k < Square(step)
    ensures 0.0 < GridTowers(step)[k].x < 1.0
    ensures 0.0 < GridTowers(step)[k].y < 1.0
  {
    GridTowerAt(step, k);
    var i, j := k / step, k % step;
    assert GridTowers(step)[k] == Point(CellCentre(step, i), CellCentre(step, j));
    CellCentreInside(step, i);
    CellCentreInside(step, j);
  }

  /** Distinct tower indices of the grid are distinct positions. */
  lemma GridTowersDistinct(step: nat, k1: nat, k2: nat)
    requires k1 < Square(step) && k2 < Square(step) && k1 != k2
    ensures GridTowers(step)[k1] != GridTowers(step)[k2]
  {
    GridTowerAt(step, k1);
    GridTowerAt(step, k2);
    CellPointsDistinct(step, k1, k2);
  }

  lemma CellPointsDistinct(step: nat, k1: nat, k2: nat)
    requires 0 < step && k1 / step < step && k2 / step < step && k1 != k2
    ensures Point(CellCentre(step, k1 / step), CellCentre(step, k1 % step))
         != Point(CellCentre(step, k2 / step), CellCentre(step, k2 % step))
  {
    SameCellSameIndex(step, k1, k2);
    CellCentreInjective(step, k1 / step, k2 / step);
    CellCentreInjective(step, k1 % step, k2 % step);
  }

  /**
    The nearest-tower query of the tower manager: a tower index for a point,
    given the tower list. Its geometry is not modelled; it only must name one
    of the towers.
   */
  type NearestTower = (seq<Point>, Point) -> int

  ghost predicate NearestInRange(nearest: NearestTower) {
    forall towers, p :: 0 < |towers| ==> 0 <= nearest(towers, p) < |towers|
  }
}
