/**
  `TraceSimulator`: lays out the towers, takes a transition kernel built from
  them, walks every user through the cycles and aggregates the walks.

  The random draws are an abstract `Sampler`. A draw is identified by the user
  and cycle it belongs to, and is told which distribution it must follow:
  uniform over all towers, or one row of the kernel. All the sampler must do
  is return one of the towers. The tower manager's point prediction
  (`get_new_point`) is an abstract `Predictor`, and its nearest-tower lookup
  is `Geometry.NearestTower`.
 */
module TraceSimulation {
  import opened Geometry
  import opened Matrices
  import opened Aggregation

  /** Which draw of the simulation is being made. */
  datatype Draw = Draw(user: nat, cycle: nat)

  /** What `np.random.choice` is given: no weights, or one kernel row as `p`. */
  datatype Weights = Uniform | Weighted(p: seq<real>)

  /** `np.random.choice(np.arange(n), p)` for the given draw. */
  type Sampler = (Draw, nat, Weights) -> int

  ghost predicate SamplerInRange(choose: Sampler) {
    forall d, n, w :: 0 < n ==> 0 <= choose(d, n, w) < n
  }

  /** The tower manager's extrapolated next position from the direction history. */
  type Predictor = seq<Point> -> Point

  /** The distribution a cycle samples from: all towers alike, or a kernel row. */
  datatype Source = AllTowers | KernelRow(row: int)

  predicate InRange(trace: seq<int>, n: nat) {
    forall c | 0 <= c < |trace| :: 0 <= trace[c] < n
  }

  /**
    The direction history after `trace`: the positions of its last two towers,
    or of all of them while it is shorter.
   */
  function RecentPositions(towers: seq<Point>, trace: seq<int>): (direction: seq<Point>)
    requires InRange(trace, |towers|)
    ensures |direction| == if |trace| < 2 then |trace| else 2
  {
    if |trace| == 0 then []
    else if |trace| == 1 then [towers[trace[0]]]
    else [towers[trace[|trace| - 2]], towers[trace[|trace| - 1]]]
  }

  /**
    The distribution the cycle after `trace` samples from: all towers for the
    first cycle, a kernel row, which names a tower, for every later one.
   */
  function NextSource(towers: seq<Point>, trace: seq<int>, predict: Predictor, nearest: NearestTower): (source: Source)
    requires InRange(trace, |towers|)
    ensures source.AllTowers? <==> |trace| == 0
    ensures NearestInRange(nearest) && source.KernelRow? ==> 0 <= source.row < |towers|
  {
    if |trace| == 0 then AllTowers
    else if |trace| == 1 then KernelRow(trace[0])
    else KernelRow(nearest(towers, predict(RecentPositions(towers, trace))))
  }

  function WeightsOf(kernel: seq<seq<real>>, source: Source): Weights
    requires source.KernelRow? ==> 0 <= source.row < |kernel|
  {
    match source
    case AllTowers => Uniform
    case KernelRow(k) => Weighted(kernel[k])
  }

  /** What the walk needs of the towers, the kernel and the oracles. */
  ghost predicate WalkReady(towers: seq<Point>, kernel: seq<seq<real>>, choose: Sampler, nearest: NearestTower) {
    0 < |towers| && |kernel| == |towers| && SamplerInRange(choose) && NearestInRange(nearest)
  }

  /**
    The first `cycles` towers of `user`'s walk: each cycle draws from the
    distribution `NextSource` picks for the walk so far.
   */
  function UserTrace(towers: seq<Point>, kernel: seq<seq<real>>, cycles: nat, user: nat,
                     choose: Sampler, predict: Predictor, nearest: NearestTower): (trace: seq<int>)
    requires WalkReady(towers, kernel, choose, nearest)
    ensures |trace| == cycles && InRange(trace, |towers|)
    decreases cycles
  {
    if cycles == 0 then []
    else
      var walk := UserTrace(towers, kernel, cycles - 1, user, choose, predict, nearest);
      walk + [choose(Draw(user, cycles - 1), |towers|, WeightsOf(kernel, NextSource(towers, walk, predict, nearest)))]
  }

  /** A longer walk extends a shorter one: cycles already drawn never change. */
  lemma {:induction false} UserTracePrefix(towers: seq<Point>, kernel: seq<seq<real>>, cycles: nat, user: nat,
                                           choose: Sampler, predict: Predictor, nearest: NearestTower, c: nat)
    requires WalkReady(towers, kernel, choose, nearest) && c <= cycles
    ensures UserTrace(towers, kernel, cycles, user, choose, predict, nearest)[..c]
            == UserTrace(towers, kernel, c, user, choose, predict, nearest)
    decreases cycles
  {
    if c < cycles {
      var walk := UserTrace(towers, kernel, cycles - 1, user, choose, predict, nearest);
      UserTracePrefix(towers, kernel, cycles - 1, user, choose, predict, nearest, c);
      assert UserTrace(towers, kernel, cycles, user, choose, predict, nearest)[..c] == walk[..c];
    }
  }

  /**
    The sampling rule of the walk. Cycle 0 draws uniformly; cycle 1 draws from
    the kernel row of the tower of cycle 0; every later cycle draws from the
    kernel row of the tower nearest to the point predicted from the positions
    of the two previous towers.
   */
  lemma SamplingRule(towers: seq<Point>, kernel: seq<seq<real>>, cycles: nat, user: nat,
                     choose: Sampler, predict: Predictor, nearest: NearestTower, c: nat)
    requires WalkReady(towers, kernel, choose, nearest) && c < cycles
    ensures var t := UserTrace(towers, kernel, cycles, user, choose, predict, nearest);
      && (c == 0 ==> t[0] == choose(Draw(user, 0), |towers|, Uniform))
      && (c == 1 ==> t[1] == choose(Draw(user, 1), |towers|, Weighted(kernel[t[0]])))
      && (c >= 2 ==>
            t[c] == choose(Draw(user, c), |towers|,
                           Weighted(kernel[nearest(towers, predict([towers[t[c - 2]], towers[t[c - 1]]]))])))
  {
    var t := UserTrace(towers, kernel, cycles, user, choose, predict, nearest);
    UserTracePrefix(towers, kernel, cycles, user, choose, predict, nearest, c + 1);
    UserTracePrefix(towers, kernel, c + 1, user, choose, predict, nearest, c);
    var walk := UserTrace(towers, kernel, c, user, choose, predict, nearest);
    assert t[..c + 1] == walk + [t[c]];
    assert walk == t[..c];
  }

  /** A user's walk depends on that user's own draws and on nothing else. */
  lemma {:induction false} UserTraceOwnDraws(towers: seq<Point>, kernel: seq<seq<real>>, cycles: nat, user: nat,
                                             choose1: Sampler, choose2: Sampler,
                                             predict: Predictor, nearest: NearestTower)
    requires WalkReady(towers, kernel, choose1, nearest) && SamplerInRange(choose2)
    requires forall c, n, w :: choose1(Draw(user, c), n, w) == choose2(Draw(user, c), n, w)
    ensures UserTrace(towers, kernel, cycles, user, choose1, predict, nearest)
            == UserTrace(towers, kernel, cycles, user, choose2, predict, nearest)
    decreases cycles
  {
    if cycles > 0 {
      UserTraceOwnDraws(towers, kernel, cycles - 1, user, choose1, choose2, predict, nearest);
    }
  }

  /** The trace matrix: row `u` is the walk of user `u`. */
  function TraceMatrix(towers: seq<Point>, kernel: seq<seq<real>>, users: nat, cycles: nat,
                       choose: Sampler, predict: Predictor, nearest: NearestTower): (m: seq<seq<int>>)
    requires WalkReady(towers, kernel, choose, nearest)
    ensures |m| == users && IsMatrix(m, cycles)
    ensures forall u | 0 <= u < users :: InRange(m[u], |towers|)
  {
    seq(users, u requires 0 <= u < users => UserTrace(towers, kernel, cycles, u, choose, predict, nearest))
  }

  /**
    Rows of the trace matrix are independent: two samplers that agree on the
    draws of user `u` give user `u` the same row, whatever they do for others.
   */
  lemma TraceRowsIndependent(towers: seq<Point>, kernel: seq<seq<real>>, users: nat, cycles: nat,
                             choose1: Sampler, choose2: Sampler, predict: Predictor, nearest: NearestTower, u: nat)
    requires WalkReady(towers, kernel, choose1, nearest) && SamplerInRange(choose2) && u < users
    requires forall c, n, w :: choose1(Draw(u, c), n, w) == choose2(Draw(u, c), n, w)
    ensures TraceMatrix(towers, kernel, users, cycles, choose1, predict, nearest)[u]
            == TraceMatrix(towers, kernel, users, cycles, choose2, predict, nearest)[u]
  {
    UserTraceOwnDraws(towers, kernel, cycles, u, choose1, choose2, predict, nearest);
  }

  /** How `generate` ended: it ran through, or it had no tower to build a kernel over. */
  datatype Status = Generated(countChanged: bool) | NoTowers

  class TraceSimulator {
    var numberTowers: nat
    const numberUsers: nat
    const numberCycles: nat
    const randomTowers: bool

    var towers: seq<Point>
    var probabilities: seq<seq<real>>
    var traces: seq<seq<int>>
    var aggregatedData: seq<seq<nat>>

    constructor (numberTowers: nat := 100, numberUsers: nat := 100, numberCycles: nat := 24,
                 randomTowers: bool := false)
      ensures this.numberTowers == numberTowers && this.numberUsers == numberUsers
      ensures this.numberCycles == numberCycles && this.randomTowers == randomTowers
      ensures towers == [] && probabilities == [] && traces == [] && aggregatedData == []
    {
      this.numberTowers := numberTowers;
      this.numberUsers := numberUsers;
      this.numberCycles := numberCycles;
      this.randomTowers := randomTowers;
      towers, probabilities, traces, aggregatedData := [], [], [], [];
    }

    /** Towers and kernel are in place, one of each per tower. */
    ghost predicate Laid()
      reads this
    {
      0 < numberTowers && |towers| == numberTowers && |probabilities| == numberTowers
    }

    /**
      One user's walk, built cycle by cycle while the direction history slides
      along; the history returned is the one left after the last cycle.
     */
    method GenerateWeightedUserTrace(user: nat, choose: Sampler, predict: Predictor, nearest: NearestTower)
      returns (trace: seq<int>, ghost history: seq<Point>)
      requires Laid() && SamplerInRange(choose) && NearestInRange(nearest)
      ensures trace == UserTrace(towers, probabilities, numberCycles, user, choose, predict, nearest)
      ensures |trace| == numberCycles && InRange(trace, numberTowers)
      ensures history == RecentPositions(towers, trace)
    {
      trace := [];
      var direction: seq<Point> := [];
      for cycle := 0 to numberCycles
        invariant trace == UserTrace(towers, probabilities, cycle, user, choose, predict, nearest)
        invariant direction == RecentPositions(towers, trace)
      {
        var tower: int;
        if cycle == 0 {
          tower := choose(Draw(user, cycle), numberTowers, Uniform);
          trace := trace + [tower];
          direction := direction + [towers[tower]];
        } else if cycle == 1 {
          var lastTower := trace[cycle - 1];
          tower := choose(Draw(user, cycle), numberTowers, Weighted(probabilities[lastTower]));
          trace := trace + [tower];
          direction := direction + [towers[tower]];
        } else {
          var newPoint := predict(direction);
          var nearestTower := nearest(towers, newPoint);
          tower := choose(Draw(user, cycle), numberTowers, Weighted(probabilities[nearestTower]));
          trace := trace + [tower];
          direction := [direction[1], towers[tower]];
        }
      }
      history := direction;
    }

    /** One independent walk per user. */
    method GenerateWeightedUsersTraces(choose: Sampler, predict: Predictor, nearest: NearestTower)
      returns (result: seq<seq<int>>)
      requires Laid() && SamplerInRange(choose) && NearestInRange(nearest)
      ensures result == TraceMatrix(towers, probabilities, numberUsers, numberCycles, choose, predict, nearest)
    {
      result := [];
      for u := 0 to numberUsers
        invariant |result| == u
        invariant forall v | 0 <= v < u ::
          result[v] == UserTrace(towers, probabilities, numberCycles, v, choose, predict, nearest)
      {
        var trace, _ := GenerateWeightedUserTrace(u, choose, predict, nearest);
        result := result + [trace];
      }
    }

    /**
      The whole simulation. The random layout is `randomPoints`; the kernel is
      what `buildKernel` makes of the towers (one row per tower).
     */
    method Generate(randomPoints: seq<Point>, buildKernel: seq<Point> -> seq<seq<real>>,
                    choose: Sampler, predict: Predictor, nearest: NearestTower)
      returns (status: Status)
      requires randomTowers ==> |randomPoints| == numberTowers
      requires forall ts :: |buildKernel(ts)| == |ts|
      requires SamplerInRange(choose) && NearestInRange(nearest)
      modifies this
      ensures numberTowers == if randomTowers then old(numberTowers) else ResolvedCount(old(numberTowers))
      ensures towers == if randomTowers then randomPoints else GridTowers(CeilSqrt(old(numberTowers)))
      ensures |towers| == numberTowers
      ensures status == if numberTowers == 0 then NoTowers else Generated(numberTowers != old(numberTowers))
      ensures status.NoTowers? ==>
        probabilities == old(probabilities) && traces == old(traces) && aggregatedData == old(aggregatedData)
      ensures status.Generated? ==>
        && probabilities == buildKernel(towers)
        && WalkReady(towers, probabilities, choose, nearest)
        && traces == TraceMatrix(towers, probabilities, numberUsers, numberCycles, choose, predict, nearest)
        && aggregatedData == AggregateData(traces, numberCycles, numberTowers)
    {
      var requested := numberTowers;
      if randomTowers {
        towers := randomPoints;
      } else {
        var step := CeilSqrt(numberTowers);
        if Square(step) != numberTowers {
          numberTowers := Square(step);
        }
        towers := GridTowers(step);
      }
      if numberTowers == 0 {
        // the kernel's stability offset takes the maximum of an empty matrix
        return NoTowers;
      }
      probabilities := buildKernel(towers);
      traces := GenerateWeightedUsersTraces(choose, predict, nearest);
      aggregatedData := AggregateData(traces, numberCycles, numberTowers);
      status := Generated(numberTowers != requested);
    }
  }
}
