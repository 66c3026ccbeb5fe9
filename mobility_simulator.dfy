/**
  `MobilitySimulator`: the users' positions come from an external mobility
  model; the simulator lays out the towers the same way `TraceSimulator`
  does, turns each position into its nearest tower, repeats the walk
  `repeat` times and aggregates.

  The mobility model is given by its output: `snapshots[c]` is what the
  model's `c`-th step yields, the positions of all users.
 */
module MobilitySimulation {
  import opened Geometry
  import opened Matrices
  import opened Aggregation

  /** What `generate_traces` gives: the users' paths, or numpy's `AxisError`. */
  datatype Traces = Paths(paths: seq<seq<Point>>) | AxisError

  /**
    `generate_traces`: one snapshot per cycle, turned from cycles x users into
    users x cycles, so that row `u` is user `u`'s path. With no cycle the
    stacked snapshots are a one-dimensional empty array, which has no axis 1
    to swap.
   */
  function GenerateTraces(snapshots: seq<seq<Point>>, numberCycles: nat, numberUsers: nat): (r: Traces)
    requires numberCycles <= |snapshots|
    requires forall c | 0 <= c < numberCycles :: |snapshots[c]| == numberUsers
    ensures r.AxisError? <==> numberCycles == 0
    ensures r.Paths? ==> |r.paths| == numberUsers && IsMatrix(r.paths, numberCycles)
    ensures r.Paths? ==>
      forall u, c | 0 <= u < numberUsers && 0 <= c < numberCycles :: r.paths[u][c] == snapshots[c][u]
  {
    if numberCycles == 0 then AxisError
    else Paths(Transpose(snapshots[..numberCycles], numberUsers))
  }

  /** Swapping the paths back gives the snapshots: no position is lost or moved. */
  lemma GenerateTracesUndone(snapshots: seq<seq<Point>>, numberCycles: nat, numberUsers: nat)
    requires numberCycles <= |snapshots|
    requires forall c | 0 <= c < numberCycles :: |snapshots[c]| == numberUsers
    requires 0 < numberCycles
    ensures Transpose(GenerateTraces(snapshots, numberCycles, numberUsers).paths, numberCycles)
            == snapshots[..numberCycles]
  {
    TransposeTwice(snapshots[..numberCycles], numberUsers);
  }

  /** The nearest tower of every point of one path. */
  function NearestTowers(towers: seq<Point>, path: seq<Point>, nearest: NearestTower): (r: seq<int>)
    ensures |r| == |path|
    ensures forall i | 0 <= i < |path| :: r[i] == nearest(towers, path[i])
    ensures NearestInRange(nearest) && 0 < |towers| ==> forall i | 0 <= i < |r| :: 0 <= r[i] < |towers|
  {
    seq(|path|, i requires 0 <= i < |path| => nearest(towers, path[i]))
  }

  /** How `generate` ended: it ran through, or the snapshots had no axis to swap. */
  datatype Status = Generated(countChanged: bool) | NoCycles

  class MobilitySimulator {
    var numberTowers: nat
    const numberUsers: nat
    const numberCycles: nat
    const repeat: nat
    const randomTowers: bool

    var towers: seq<Point>
    var tracesPoints: seq<seq<Point>>
    var traces: seq<seq<int>>
    var aggregatedData: seq<seq<nat>>

    constructor (numberTowers: nat, numberUsers: nat := 100, numberCycles: nat := 24, repeat: nat := 1,
                 randomTowers: bool := false)
      ensures this.numberTowers == numberTowers && this.numberUsers == numberUsers
      ensures this.numberCycles == numberCycles && this.repeat == repeat && this.randomTowers == randomTowers
      ensures towers == [] && tracesPoints == [] && traces == [] && aggregatedData == []
    {
      this.numberTowers := numberTowers;
      this.numberUsers := numberUsers;
      this.numberCycles := numberCycles;
      this.repeat := repeat;
      this.randomTowers := randomTowers;
      towers, tracesPoints, traces, aggregatedData := [], [], [], [];
    }

    /**
      `generate_tower_traces`: each user's path mapped point by point to the
      nearest tower, and the result repeated `repeat` times along the cycles.
     */
    method GenerateTowerTraces(nearest: NearestTower) returns (result: seq<seq<int>>)
      requires NearestInRange(nearest)
      ensures |result| == |tracesPoints|
      ensures forall u | 0 <= u < |result| :: |result[u]| == |tracesPoints[u]| * repeat
      ensures forall u, k | 0 <= u < |result| && 0 <= k < |result[u]| ::
        0 < |tracesPoints[u]| && result[u][k] == nearest(towers, tracesPoints[u][k % |tracesPoints[u]|])
      ensures 0 < |towers| ==>
        forall u, k | 0 <= u < |result| && 0 <= k < |result[u]| :: 0 <= result[u][k] < |towers|
    {
      var results: seq<seq<int>> := [];
      for u := 0 to |tracesPoints|
        invariant |results| == u
        invariant forall v | 0 <= v < u :: results[v] == NearestTowers(towers, tracesPoints[v], nearest)
      {
        results := results + [NearestTowers(towers, tracesPoints[u], nearest)];
      }
      result := Tile(results, repeat);
      forall u, k | 0 <= u < |result| && 0 <= k < |result[u]|
        ensures 0 < |tracesPoints[u]| && result[u][k] == nearest(towers, tracesPoints[u][k % |tracesPoints[u]|])
      {
        TileAt(results, repeat, u, k);
      }
    }

    /**
      The whole simulation. The random layout is `randomPoints`; `snapshots`
      is what the mobility model yields, one step per cycle. With no cycle
      `generate_traces` fails after the layout, and nothing after it changes.
     */
    method Generate(randomPoints: seq<Point>, snapshots: seq<seq<Point>>, nearest: NearestTower)
      returns (status: Status)
      requires randomTowers ==> |randomPoints| == numberTowers
      requires numberCycles <= |snapshots|
      requires forall c | 0 <= c < numberCycles :: |snapshots[c]| == numberUsers
      requires NearestInRange(nearest)
      modifies this
      ensures numberTowers == if randomTowers then old(numberTowers) else ResolvedCount(old(numberTowers))
      ensures towers == if randomTowers then randomPoints else GridTowers(CeilSqrt(old(numberTowers)))
      ensures |towers| == numberTowers
      ensures status == if numberCycles == 0 then NoCycles else Generated(numberTowers != old(numberTowers))
      ensures status.NoCycles? ==>
        tracesPoints == old(tracesPoints) && traces == old(traces) && aggregatedData == old(aggregatedData)
      ensures status.Generated? ==>
        && tracesPoints == GenerateTraces(snapshots, numberCycles, numberUsers).paths
        && |traces| == numberUsers && IsMatrix(traces, numberCycles * repeat)
        && (forall u, k | 0 <= u < numberUsers && 0 <= k < numberCycles * repeat ::
              traces[u][k] == nearest(towers, snapshots[k % numberCycles][u]))
        && aggregatedData == AggregateData(traces, numberCycles * repeat, numberTowers)
    {
      var requested := numberTowers;
      if randomTowers {
        towers := randomPoints;
      } else {
        var step := CeilSqrt(numberTowers);
        if Square(step) != numberTowers {
          numberTowers := Square(step);
        }
        towers := GridTowers(step);
      }
      var points := GenerateTraces(snapshots, numberCycles, numberUsers);
      if points.AxisError? {
        return NoCycles;
      }
      tracesPoints := points.paths;
      traces := GenerateTowerTraces(nearest);
      aggregatedData := AggregateData(traces, numberCycles * repeat, numberTowers);
      status := Generated(numberTowers != requested);
    }
  }
}
