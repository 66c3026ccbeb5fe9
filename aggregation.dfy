/**
  `generate_aggregate_data` of both simulators: from the users x cycles matrix
  of tower indices, the cycles x towers matrix of how many users each tower
  holds at each cycle.
 */
module Aggregation {
  import opened Matrices

  /** `np.sum(traces == tower, axis=0)[cycle]`: the rows holding `tower` in column `cycle`. */
  function ColumnCount(traces: seq<seq<int>>, cycle: nat, tower: int): (k: nat)
    requires forall u | 0 <= u < |traces| :: cycle < |traces[u]|
    ensures k <= |traces|
    decreases |traces|
  {
    if traces == [] then 0
    else
      var last := |traces| - 1;
      ColumnCount(traces[..last], cycle, tower) + (if traces[last][cycle] == tower then 1 else 0)
  }

  /** The users that are at `tower` at `cycle`. */
  function UsersAt(traces: seq<seq<int>>, cycle: nat, tower: int): set<nat>
    requires forall u | 0 <= u < |traces| :: cycle < |traces[u]|
  {
    set u: nat | u < |traces| && traces[u][cycle] == tower
  }

  lemma {:induction false} ColumnCountIsUsers(traces: seq<seq<int>>, cycle: nat, tower: int)
    requires forall u | 0 <= u < |traces| :: cycle < |traces[u]|
    ensures ColumnCount(traces, cycle, tower) == |UsersAt(traces, cycle, tower)|
    decreases |traces|
  {
    if traces != [] {
      var last := |traces| - 1;
      var prefix := traces[..last];
      ColumnCountIsUsers(prefix, cycle, tower);
      var here: set<nat> := if traces[last][cycle] == tower then {last} else {};
      assert UsersAt(traces, cycle, tower) == UsersAt(prefix, cycle, tower) + here;
      assert last !in UsersAt(prefix, cycle, tower);
    }
  }

  /**
    The occupancy matrix: the per-tower counts over the cycles, one row per
    tower, then transposed to one row per cycle.
   */
  function AggregateData(traces: seq<seq<int>>, numberCycles: nat, numberTowers: nat): (r: seq<seq<nat>>)
    requires IsMatrix(traces, numberCycles)
    ensures |r| == numberCycles && IsMatrix(r, numberTowers)
  {
    var perTower := seq(numberTowers, t requires 0 <= t < numberTowers =>
      seq(numberCycles, c requires 0 <= c < numberCycles => ColumnCount(traces, c, t)));
    Transpose(perTower, numberCycles)
  }

  /**
    Entry `(c, t)` of the occupancy matrix is the number of users at tower `t`
    at cycle `c`, and so never more than the number of users.
   */
  lemma AggregateDataAt(traces: seq<seq<int>>, numberCycles: nat, numberTowers: nat, c: nat, t: nat)
    requires IsMatrix(traces, numberCycles)
    requires c < numberCycles && t < numberTowers
    ensures AggregateData(traces, numberCycles, numberTowers)[c][t] == |UsersAt(traces, c, t)|
    ensures AggregateData(traces, numberCycles, numberTowers)[c][t] <= |traces|
  {
    ColumnCountIsUsers(traces, c, t);
  }

  function Sum(s: seq<nat>): nat {
    if s == [] then 0 else Sum(s[..|s| - 1]) + s[|s| - 1]
  }

  /** The users at towers `0 .. n-1` at `cycle`, counted tower by tower. */
  function TowerTotal(traces: seq<seq<int>>, cycle: nat, n: nat): nat
    requires forall u | 0 <= u < |traces| :: cycle < |traces[u]|
  {
    if n == 0 then 0 else TowerTotal(traces, cycle, n - 1) + ColumnCount(traces, cycle, n - 1)
  }

  lemma {:induction false} TowerTotalSplit(traces: seq<seq<int>>, cycle: nat, n: nat)
    requires traces != []
    requires forall u | 0 <= u < |traces| :: cycle < |traces[u]|
    ensures var last := |traces| - 1;
      TowerTotal(traces, cycle, n)
      == TowerTotal(traces[..last], cycle, n) + (if 0 <= traces[last][cycle] < n then 1 else 0)
  {
    if n > 0 {
      TowerTotalSplit(traces, cycle, n - 1);
    }
  }

  lemma {:induction false} TowerTotalCountsAll(traces: seq<seq<int>>, cycle: nat, n: nat)
    requires forall u | 0 <= u < |traces| :: cycle < |traces[u]| && 0 <= traces[u][cycle] < n
    ensures TowerTotal(traces, cycle, n) == |traces|
    decreases |traces|
  {
    if traces == [] {
      TowerTotalOfNone(traces, cycle, n);
    } else {
      var last := |traces| - 1;
      TowerTotalSplit(traces, cycle, n);
      TowerTotalCountsAll(traces[..last], cycle, n);
    }
  }

  lemma {:induction false} TowerTotalOfNone(traces: seq<seq<int>>, cycle: nat, n: nat)
    requires traces == []
    ensures TowerTotal(traces, cycle, n) == 0
  {
    if n > 0 {
      TowerTotalOfNone(traces, cycle, n - 1);
    }
  }

  lemma {:induction false} SumOfCounts(traces: seq<seq<int>>, cycle: nat, row: seq<nat>)
    requires forall u | 0 <= u < |traces| :: cycle < |traces[u]|
    requires forall t | 0 <= t < |row| :: row[t] == ColumnCount(traces, cycle, t)
    ensures Sum(row) == TowerTotal(traces, cycle, |row|)
  {
    if row != [] {
      SumOfCounts(traces, cycle, row[..|row| - 1]);
    }
  }

  /**
    When every trace entry names one of the towers, each cycle's row of the
    occupancy matrix sums to the number of users: every user is somewhere.
   */
  lemma AggregateRowSum(traces: seq<seq<int>>, numberCycles: nat, numberTowers: nat, c: nat)
    requires IsMatrix(traces, numberCycles) && c < numberCycles
    requires forall u, k | 0 <= u < |traces| && 0 <= k < numberCycles :: 0 <= traces[u][k] < numberTowers
    ensures Sum(AggregateData(traces, numberCycles, numberTowers)[c]) == |traces|
  {
    var row := AggregateData(traces, numberCycles, numberTowers)[c];
    SumOfCounts(traces, c, row);
    TowerTotalCountsAll(traces, c, numberTowers);
  }
}
