/**
  `InstanceOrchestrator`: integer instances on top of the partition plans.

  For one plan the heap greedy hands every further instance to the slowest
  group; `solve` keeps the best plan for every GPU count.  The heap always pops
  the least pair (value, index), which is the first index of least value.
 */
module InstanceOrchestrator {
  import opened Collections
  import opened MaxMin
  import opened PartitionPlanner

  /** (num_gpus, context_lower_bound, context_upper_bound, throughput). */
  datatype InstanceGroup = InstanceGroup(gpus: int, lower: int, upper: int, tp: real)

  datatype InstanceAssignment = InstanceAssignment(throughput: real, instances: seq<InstanceGroup>)

  const EMPTY := InstanceAssignment(0.0, [])

  /** Constructor arguments; `maxIdx` is max_context_length // context_step. */
  datatype Settings = Settings(contextStep: nat, maxIdx: nat, gpuStep: nat) {
    predicate Valid() { contextStep > 0 && gpuStep > 0 }
  }

  ghost predicate Usable(scheme: seq<Cell>) {
    scheme != [] && forall i :: 0 <= i < |scheme| ==> scheme[i].tp > 0.0
  }

  // ---------------------------------------------------------------- the greedy

  function Rate(scheme: seq<Cell>, i: int, count: int): real {
    if 0 <= i < |scheme| then count as real * scheme[i].tp else 0.0
  }

  /** The same as a curve for the max-min argument. */
  function RateCurve(scheme: seq<Cell>): Curves {
    (i: int, count: int) => Rate(scheme, i, count)
  }

  function Rates(scheme: seq<Cell>, counts: seq<int>): (r: seq<real>)
    requires |counts| == |scheme|
    ensures |r| == |scheme|
  {
    Values(RateCurve(scheme), counts)
  }

  /** Instances per group after `n` have been handed out. */
  function GroupCounts(scheme: seq<Cell>, n: nat): (counts: seq<int>)
    requires 0 < |scheme| <= n
    ensures |counts| == |scheme|
  {
    GreedyCounts(RateCurve(scheme), |scheme|, n)
  }

  function GreedyThroughput(scheme: seq<Cell>, n: nat): real
    requires 0 < |scheme| <= n
  {
    GreedyValue(RateCurve(scheme), |scheme|, n)
  }

  function Groups(settings: Settings, scheme: seq<Cell>, counts: seq<int>): (r: seq<InstanceGroup>)
    requires |counts| == |scheme|
  {
    seq(|scheme|, i requires 0 <= i < |scheme| =>
      InstanceGroup(counts[i] * settings.gpuStep,
                    scheme[i].lo * settings.contextStep,
                    scheme[i].hi * settings.contextStep,
                    scheme[i].tp))
  }

  function GreedyAssignment(settings: Settings, scheme: seq<Cell>, n: int): InstanceAssignment
    requires scheme != []
  {
    if n < |scheme| then EMPTY
    else
      InstanceAssignment(GreedyThroughput(scheme, n),
                         Groups(settings, scheme, GroupCounts(scheme, n)))
  }

  /** The group runs at this rate: whole instances times throughput per instance. */
  ghost predicate RunsAt(settings: Settings, g: InstanceGroup, rate: real)
    requires settings.Valid()
  {
    (g.gpus / settings.gpuStep) as real * g.tp == rate
  }

  /** The reported throughput is what the slowest of the returned groups runs at. */
  ghost predicate ThroughputIsLeast(settings: Settings, a: InstanceAssignment)
    requires settings.Valid()
  {
    && (forall i :: 0 <= i < |a.instances| ==>
          a.throughput <= (a.instances[i].gpus / settings.gpuStep) as real * a.instances[i].tp)
    && (exists i :: 0 <= i < |a.instances| && RunsAt(settings, a.instances[i], a.throughput))
  }

  /** The group serves the cell's range at the cell's throughput per instance. */
  ghost predicate Covers(settings: Settings, cell: Cell, g: InstanceGroup) {
    g.lower == cell.lo * settings.contextStep && g.upper == cell.hi * settings.contextStep && g.tp == cell.tp
  }

  /** One group per cell, in order, and the throughput of the slowest. */
  ghost predicate RunsScheme(settings: Settings, scheme: seq<Cell>, a: InstanceAssignment)
    requires settings.Valid()
  {
    && |a.instances| == |scheme| && ThroughputIsLeast(settings, a)
    && (forall i :: 0 <= i < |scheme| ==> Covers(settings, scheme[i], a.instances[i]))
  }

  lemma LeastOfGroups(settings: Settings, scheme: seq<Cell>, counts: seq<int>)
    requires settings.Valid() && scheme != [] && |counts| == |scheme| && Positive(counts)
    ensures ThroughputIsLeast(settings,
              InstanceAssignment(Least(Rates(scheme, counts)), Groups(settings, scheme, counts)))
  {
    var rates, groups := Rates(scheme, counts), Groups(settings, scheme, counts);
    forall i | 0 <= i < |scheme|
      ensures RunsAt(settings, groups[i], rates[i]) && Least(rates) <= rates[i]
    {
      GroupRate(settings, scheme, counts, i);
      ArgMinIsLeast(rates, i);
    }
    assert RunsAt(settings, groups[ArgMin(rates)], Least(rates));
  }

  lemma GroupRate(settings: Settings, scheme: seq<Cell>, counts: seq<int>, i: nat)
    requires settings.Valid() && i < |scheme| == |counts| && counts[i] >= 1
    ensures RunsAt(settings, Groups(settings, scheme, counts)[i], Rates(scheme, counts)[i])
  {
    MultipleOf(counts[i], settings.gpuStep);
    assert Rates(scheme, counts)[i] == RateCurve(scheme)(i, counts[i]);
  }

  /** `_allocate_instances_greedily`. */
  method AllocateInstancesGreedily(settings: Settings, scheme: seq<Cell>, totalNumGpus: nat)
    returns (r: InstanceAssignment)
    requires settings.Valid() && scheme != []
    ensures r == GreedyAssignment(settings, scheme, totalNumGpus / settings.gpuStep)
    ensures totalNumGpus / settings.gpuStep < |scheme| ==> r == EMPTY
    ensures totalNumGpus / settings.gpuStep >= |scheme| ==> RunsScheme(settings, scheme, r)
  {
    var total := totalNumGpus / settings.gpuStep;
    if total < |scheme| {
      return EMPTY;
    }
    var counts: seq<int> := seq(|scheme|, _ => 1);
    var heap := seq(|scheme|, i requires 0 <= i < |scheme| => scheme[i].tp);
    assert heap == Rates(scheme, counts);
    for handed := |scheme| to total
      invariant counts == GroupCounts(scheme, handed) && Positive(counts)
      invariant heap == Rates(scheme, counts)
    {
      var idx := ArgMin(heap);
      counts := counts[idx := counts[idx] + 1];
      heap := heap[idx := Rate(scheme, idx, counts[idx])];
      assert heap == Rates(scheme, counts);
    }
    LeastOfGroups(settings, scheme, counts);
    r := InstanceAssignment(Least(heap), Groups(settings, scheme, counts));
  }

  lemma RateCurveNondecreasing(scheme: seq<Cell>)
    requires Usable(scheme)
    ensures Nondecreasing(RateCurve(scheme), |scheme|)
  {
    forall i, a, b | 0 <= i < |scheme| && 1 <= a <= b
      ensures Ordered(RateCurve(scheme), i, a, b)
    {
      ScaleOrder(a as real, b as real, scheme[i].tp);
    }
  }

  lemma ScaleOrder(a: real, b: real, t: real)
    requires a <= b && t >= 0.0
    ensures a * t <= b * t
  {
    assert (b - a) * t >= 0.0;
  }

  /** For a fixed scheme the greedy throughput is at least that of every other
      split of the same number of instances with one instance per group. */
  lemma {:induction false} GreedyIsMaxMinForScheme(scheme: seq<Cell>, n: nat, rival: seq<int>)
    requires Usable(scheme) && n >= |scheme|
    requires |rival| == |scheme| && Positive(rival) && Sum(rival) == n
    ensures Least(Rates(scheme, rival)) <= GreedyThroughput(scheme, n)
  {
    RateCurveNondecreasing(scheme);
    GreedyIsMaxMin(RateCurve(scheme), |scheme|, n, rival);
  }

  /** One more instance goes to exactly one group and never slows the plan down. */
  lemma OneMoreInstance(scheme: seq<Cell>, n: nat) returns (m: nat)
    requires Usable(scheme) && n >= |scheme|
    ensures m < |scheme| && GroupCounts(scheme, n + 1) == GroupCounts(scheme, n)[m := GroupCounts(scheme, n)[m] + 1]
    ensures GreedyThroughput(scheme, n) <= GreedyThroughput(scheme, n + 1)
  {
    RateCurveNondecreasing(scheme);
    m := GreedyGrowsByOne(RateCurve(scheme), |scheme|, n);
  }

  // ---------------------------------------------------------------- bounds against the relaxation

  /** Every group runs at `x` or above. */
  ghost predicate RatesAtLeast(scheme: seq<Cell>, counts: seq<int>, x: real)
    requires |counts| == |scheme|
  {
    forall i :: 0 <= i < |scheme| ==> x <= Rate(scheme, i, counts[i])
  }

  /** Every group with one instance taken away runs at `x` or below. */
  ghost predicate ShrunkRatesAtMost(scheme: seq<Cell>, counts: seq<int>, x: real)
    requires |counts| == |scheme|
  {
    forall i :: 0 <= i < |scheme| ==> Rate(scheme, i, counts[i] - 1) <= x
  }

  /** A group's term of x * S is at most `c`, or at least `c`. */
  ghost predicate TermBelow(x: real, t: real, c: int)
    requires t > 0.0
  {
    x * (1.0 / t) <= c as real
  }

  ghost predicate TermAbove(x: real, t: real, c: int)
    requires t > 0.0
  {
    c as real <= x * (1.0 / t)
  }

  lemma {:induction false} CountsAboveScaledCost(scheme: seq<Cell>, counts: seq<int>, x: real, s: real)
    requires |counts| == |scheme|
    requires forall i :: 0 <= i < |scheme| ==> scheme[i].tp > 0.0 && TermBelow(x, scheme[i].tp, counts[i])
    requires s == ChainCost(scheme)
    ensures x * s <= Sum(counts) as real
  {
    if scheme != [] {
      var k := |scheme| - 1;
      var s' := ChainCost(scheme[..k]);
      CountsAboveScaledCost(scheme[..k], counts[..k], x, s');
      AddTerm(x, s, s', counts[k], scheme[k].tp);
      SumLast(counts);
    }
  }

  lemma {:induction false} CountsBelowScaledCost(scheme: seq<Cell>, counts: seq<int>, x: real, s: real)
    requires |counts| == |scheme|
    requires forall i :: 0 <= i < |scheme| ==> scheme[i].tp > 0.0 && TermAbove(x, scheme[i].tp, counts[i])
    requires s == ChainCost(scheme)
    ensures Sum(counts) as real <= x * s
  {
    if scheme != [] {
      var k := |scheme| - 1;
      var s' := ChainCost(scheme[..k]);
      CountsBelowScaledCost(scheme[..k], counts[..k], x, s');
      AddTerm(x, s, s', counts[k], scheme[k].tp);
      SumLast(counts);
    }
  }

  lemma AddTerm(x: real, s: real, s': real, c: int, t: real)
    requires t > 0.0 && s == s' + 1.0 / t
    ensures TermBelow(x, t, c) ==> x * s <= x * s' + c as real
    ensures TermAbove(x, t, c) ==> x * s' + c as real <= x * s
  {
    assert x * s == x * s' + x * (1.0 / t);
  }

  lemma TermsFromRates(scheme: seq<Cell>, counts: seq<int>, x: real)
    requires Usable(scheme) && |counts| == |scheme| && RatesAtLeast(scheme, counts, x)
    ensures forall i :: 0 <= i < |scheme| ==> TermBelow(x, scheme[i].tp, counts[i])
  {
    forall i | 0 <= i < |scheme|
      ensures TermBelow(x, scheme[i].tp, counts[i])
    {
      assert x <= Rate(scheme, i, counts[i]);
      DivideOut(x, counts[i] as real, scheme[i].tp);
    }
  }

  function Shrunk(counts: seq<int>): (r: seq<int>)
    ensures |r| == |counts|
  {
    seq(|counts|, i requires 0 <= i < |counts| => counts[i] - 1)
  }

  lemma {:induction false} SumShrunk(counts: seq<int>)
    ensures Sum(Shrunk(counts)) == Sum(counts) - |counts|
  {
    if counts != [] {
      assert Shrunk(counts)[1..] == Shrunk(counts[1..]);
      SumShrunk(counts[1..]);
    }
  }

  lemma TermsFromShrunkRates(scheme: seq<Cell>, counts: seq<int>, x: real)
    requires Usable(scheme) && |counts| == |scheme| && ShrunkRatesAtMost(scheme, counts, x)
    ensures forall i :: 0 <= i < |scheme| ==> TermAbove(x, scheme[i].tp, Shrunk(counts)[i])
  {
    forall i | 0 <= i < |scheme|
      ensures TermAbove(x, scheme[i].tp, Shrunk(counts)[i])
    {
      assert Rate(scheme, i, counts[i] - 1) <= x;
      DivideOutAbove(x, (counts[i] - 1) as real, scheme[i].tp);
    }
  }

  lemma DivideOut(x: real, c: real, t: real)
    requires t > 0.0 && x <= c * t
    ensures x * (1.0 / t) <= c
  {
    assert x * (1.0 / t) == x / t;
    assert (c - x / t) * t >= 0.0;
  }

  lemma DivideOutAbove(x: real, c: real, t: real)
    requires t > 0.0 && c * t <= x
    ensures c <= x * (1.0 / t)
  {
    assert x * (1.0 / t) == x / t;
    assert (x / t - c) * t >= 0.0;
  }

  lemma {:induction false} SumLast(xs: seq<int>)
    requires xs != []
    ensures Sum(xs) == Sum(xs[..|xs| - 1]) + xs[|xs| - 1]
  {
    if |xs| > 1 {
      assert xs[1..][..|xs| - 2] == xs[..|xs| - 1][1..];
      SumLast(xs[1..]);
    }
  }

  lemma LeastBelowRates(scheme: seq<Cell>, counts: seq<int>)
    requires Usable(scheme) && |counts| == |scheme| && Positive(counts)
    ensures Least(Rates(scheme, counts)) > 0.0
    ensures RatesAtLeast(scheme, counts, Least(Rates(scheme, counts)))
  {
    var rates := Rates(scheme, counts);
    var m := ArgMin(rates);
    RatePositive(scheme, m, counts[m]);
    forall i | 0 <= i < |scheme|
      ensures rates[m] <= Rate(scheme, i, counts[i])
    {
      ArgMinIsLeast(rates, i);
      assert rates[i] == RateCurve(scheme)(i, counts[i]);
    }
  }

  lemma GreedyAboveShrunkRates(scheme: seq<Cell>, n: nat)
    requires Usable(scheme) && n >= |scheme|
    ensures Positive(GroupCounts(scheme, n)) && Sum(GroupCounts(scheme, n)) == n
    ensures ShrunkRatesAtMost(scheme, GroupCounts(scheme, n), GreedyThroughput(scheme, n))
  {
    RateCurveNondecreasing(scheme);
    GreedyIsBalanced(RateCurve(scheme), |scheme|, n);
    GreedyHandsOutAll(RateCurve(scheme), |scheme|, n);
    var counts := GroupCounts(scheme, n);
    LeastBelowRates(scheme, counts);
    BalancedShrinksBelow(RateCurve(scheme), counts);
    forall i | 0 <= i < |scheme|
      ensures Rate(scheme, i, counts[i] - 1) <= GreedyThroughput(scheme, n)
    {
      if counts[i] > 1 {
        assert RateCurve(scheme)(i, counts[i] - 1) == Rate(scheme, i, counts[i] - 1);
      } else {
        assert Rate(scheme, i, 0) == 0.0;
      }
    }
  }

  lemma BalancedShrinksBelow(f: Curves, counts: seq<int>)
    requires counts != [] && Balanced(f, counts)
    ensures forall i :: 0 <= i < |counts| && counts[i] > 1 ==> f(i, counts[i] - 1) <= Least(Values(f, counts))
  {
    forall i | 0 <= i < |counts| && counts[i] > 1
      ensures f(i, counts[i] - 1) <= Least(Values(f, counts))
    {
      assert Tight(f, counts, i, ArgMin(Values(f, counts)));
    }
  }

  lemma RatePositive(scheme: seq<Cell>, i: int, count: int)
    requires Usable(scheme) && 0 <= i < |scheme| && count >= 1
    ensures Rate(scheme, i, count) > 0.0
  {
    ScaleOrder(1.0, count as real, scheme[i].tp);
  }

  /** The greedy value M against the relaxed optimum: n - k <= M * S <= n,
      where S is the scheme's total inverse throughput. */
  lemma {:induction false} GreedyBracket(scheme: seq<Cell>, n: nat, m: real, s: real)
    requires Usable(scheme) && n >= |scheme|
    requires m == GreedyThroughput(scheme, n) && s == ChainCost(scheme)
    ensures m > 0.0 && s > 0.0
    ensures (n - |scheme|) as real <= m * s <= n as real
  {
    var counts := GroupCounts(scheme, n);
    GreedyAboveShrunkRates(scheme, n);
    LeastBelowRates(scheme, counts);
    TermsFromRates(scheme, counts, m);
    CountsAboveScaledCost(scheme, counts, m, s);
    TermsFromShrunkRates(scheme, counts, m);
    SumShrunk(counts);
    CountsBelowScaledCost(scheme, Shrunk(counts), m, s);
  }

  lemma GreedyPositive(scheme: seq<Cell>, n: nat)
    requires Usable(scheme) && n >= |scheme|
    ensures GreedyThroughput(scheme, n) > 0.0
  {
    GreedyAboveShrunkRates(scheme, n);
    LeastBelowRates(scheme, GroupCounts(scheme, n));
  }

  /** Any integer split of `n` over any scheme is at most the relaxed optimum n / S. */
  lemma {:induction false} SplitBelowRelaxation(scheme: seq<Cell>, counts: seq<int>, m: real, s: real)
    requires Usable(scheme) && |counts| == |scheme| && Positive(counts)
    requires m == Least(Rates(scheme, counts)) && s == ChainCost(scheme)
    ensures 0.0 <= m && m * s <= Sum(counts) as real
  {
    LeastBelowRates(scheme, counts);
    TermsFromRates(scheme, counts, m);
    CountsAboveScaledCost(scheme, counts, m, s);
  }

  // ---------------------------------------------------------------- solve

  /** The assignment `solve` considers for `k` groups; empty when `k` is skipped. */
  function Considered(settings: Settings, cache: seq<Cell>, n: int, k: int): InstanceAssignment {
    var plan := Plan(cache, settings.maxIdx, k);
    if n < k || plan == [] then EMPTY else GreedyAssignment(settings, plan, n)
  }

  /** The first assignment of greatest throughput among f(lo) .. f(hi - 1). */
  function BestOf(f: int -> InstanceAssignment, lo: int, hi: int): (best: InstanceAssignment)
    ensures best.throughput >= 0.0
    decreases hi - lo
  {
    if hi <= lo then EMPTY
    else
      var best := BestOf(f, lo, hi - 1);
      if f(hi - 1).throughput > best.throughput then f(hi - 1) else best
  }

  /** Best assignment over the group counts lo .. hi - 1, the smallest count on a tie. */
  function BestOver(settings: Settings, cache: seq<Cell>, n: int, lo: int, hi: int): InstanceAssignment {
    BestOf(k => Considered(settings, cache, n, k), lo, hi)
  }

  /** The value of `solve` at one GPU count. */
  function SolveAt(settings: Settings, cache: seq<Cell>, minGroup: int, maxGroup: int, gpus: int): InstanceAssignment
    requires settings.Valid()
  {
    BestOver(settings, cache, gpus / settings.gpuStep, minGroup, maxGroup + 1)
  }

  /** `solve`: the whole curve from 0 to the GPU budget. */
  method Solve(settings: Settings, cache: seq<Cell>, total: int, minGroup: int, maxGroup: nat)
    returns (result: map<int, InstanceAssignment>)
    requires settings.Valid() && WellFormed(cache, settings.maxIdx)
    ensures forall g :: g in result <==> 0 <= g <= total
    ensures forall g :: g in result ==> result[g] == SolveAt(settings, cache, minGroup, maxGroup, g)
    ensures forall g :: g in result && result[g].throughput > 0.0 ==> IsBackedUp(settings, cache, result[g])
  {
    var plans := BuildPartitionPlans(cache, maxGroup, settings.maxIdx);
    result := map[];
    var g := 0;
    while g <= total
      invariant 0 <= g && (g <= total + 1 || g == 0)
      invariant forall h :: h in result <==> 0 <= h < g
      invariant forall h :: h in result ==> result[h] == SolveAt(settings, cache, minGroup, maxGroup, h)
      invariant forall h :: h in result && result[h].throughput > 0.0 ==> IsBackedUp(settings, cache, result[h])
    {
      var best := BestForBudget(settings, cache, plans, g, minGroup, maxGroup);
      if best.throughput > 0.0 {
        SolveIsBackedUp(settings, cache, minGroup, maxGroup, g);
      }
      result := result[g := best];
      g := g + 1;
    }
  }

  /** The inner loop of `solve`. */
  method BestForBudget(settings: Settings, cache: seq<Cell>, plans: map<int, seq<Cell>>,
                       gpus: nat, minGroup: int, maxGroup: nat)
    returns (best: InstanceAssignment)
    requires settings.Valid()
    requires forall k :: k in plans <==> 1 <= k <= maxGroup && Plan(cache, settings.maxIdx, k) != []
    requires forall k :: k in plans ==> plans[k] == Plan(cache, settings.maxIdx, k)
    ensures best == SolveAt(settings, cache, minGroup, maxGroup, gpus)
  {
    best := EMPTY;
    var n := gpus / settings.gpuStep;
    var k := minGroup;
    while k <= maxGroup
      invariant k <= maxGroup + 1 || k == minGroup
      invariant minGroup <= k
      invariant best == BestOver(settings, cache, n, minGroup, k)
    {
      if k <= n && k in plans {
        var assignment := AllocateInstancesGreedily(settings, plans[k], gpus);
        if assignment.throughput > best.throughput {
          best := assignment;
        }
      }
      k := k + 1;
    }
  }

  ghost predicate Feasible(settings: Settings, cache: seq<Cell>, n: int, k: int) {
    1 <= k <= n && Plan(cache, settings.maxIdx, k) != []
  }

  lemma PlanUsable(settings: Settings, cache: seq<Cell>, k: int)
    requires Plan(cache, settings.maxIdx, k) != []
    ensures Usable(Plan(cache, settings.maxIdx, k)) && |Plan(cache, settings.maxIdx, k)| == k
    ensures IsChain(cache, Plan(cache, settings.maxIdx, k), settings.maxIdx)
  {
    PlanIsOptimalPartition(cache, settings.maxIdx, k);
  }

  /** What is considered has positive throughput exactly for the feasible group counts. */
  lemma ConsideredIffFeasible(settings: Settings, cache: seq<Cell>, n: int, k: int)
    ensures Feasible(settings, cache, n, k) <==> Considered(settings, cache, n, k).throughput > 0.0
    ensures !Feasible(settings, cache, n, k) ==> Considered(settings, cache, n, k) == EMPTY
  {
    if Feasible(settings, cache, n, k) {
      PlanUsable(settings, cache, k);
      GreedyPositive(Plan(cache, settings.maxIdx, k), n);
    }
  }

  lemma {:induction false} BestOfIsMax(f: int -> InstanceAssignment, lo: int, hi: int)
    ensures forall k :: lo <= k < hi ==> f(k).throughput <= BestOf(f, lo, hi).throughput
    ensures BestOf(f, lo, hi) == EMPTY || exists k :: lo <= k < hi && BestOf(f, lo, hi) == f(k)
    decreases hi - lo
  {
    if lo < hi {
      BestOfIsMax(f, lo, hi - 1);
    }
  }

  /** `BestOver` is at least everything considered, and is one of them or empty. */
  lemma BestOverIsMax(settings: Settings, cache: seq<Cell>, n: int, lo: int, hi: int)
    ensures forall k :: lo <= k < hi ==>
              Considered(settings, cache, n, k).throughput <= BestOver(settings, cache, n, lo, hi).throughput
    ensures BestOver(settings, cache, n, lo, hi) == EMPTY ||
            exists k :: lo <= k < hi && BestOver(settings, cache, n, lo, hi) == Considered(settings, cache, n, k)
    ensures BestOver(settings, cache, n, lo, hi).throughput >= 0.0
  {
    var f := k => Considered(settings, cache, n, k);
    BestOfIsMax(f, lo, hi);
    forall k | lo <= k < hi
      ensures Considered(settings, cache, n, k).throughput <= BestOf(f, lo, hi).throughput
    {
      assert f(k) == Considered(settings, cache, n, k);
    }
    if BestOf(f, lo, hi) != EMPTY {
      var k :| lo <= k < hi && BestOf(f, lo, hi) == f(k);
      assert f(k) == Considered(settings, cache, n, k);
    }
  }

  /** n * t >= (n - k) * rival. */
  ghost predicate Approximates(t: real, n: int, k: int, rival: real) {
    n as real * t >= (n - k) as real * rival
  }

  /** Global approximation bound.  For every contiguous partition into a permitted
      number of usable cells and every positive integer split of the n instances
      over it, the throughput of `solve` satisfies n * T >= (n - k) * min_j c_j * t_j. */
  lemma {:induction false} SolveApproximatesEveryPartition(settings: Settings, cache: seq<Cell>, minGroup: int,
                                                           maxGroup: int, gpus: nat, cells: seq<Cell>,
                                                           split: seq<int>)
    requires settings.Valid()
    requires IsChain(cache, cells, settings.maxIdx) && 1 <= |cells| && minGroup <= |cells| <= maxGroup
    requires |split| == |cells| && Positive(split) && Sum(split) == gpus / settings.gpuStep
    ensures Approximates(SolveAt(settings, cache, minGroup, maxGroup, gpus).throughput,
                         gpus / settings.gpuStep, |cells|, Least(Rates(cells, split)))
  {
    BestApproximates(settings, cache, gpus / settings.gpuStep, minGroup, maxGroup + 1, cells, split);
  }

  lemma {:induction false} BestApproximates(settings: Settings, cache: seq<Cell>, n: int, lo: int, hi: int,
                                            cells: seq<Cell>, split: seq<int>)
    requires IsChain(cache, cells, settings.maxIdx) && 1 <= |cells| && lo <= |cells| < hi
    requires |split| == |cells| && Positive(split) && Sum(split) == n
    ensures Approximates(BestOver(settings, cache, n, lo, hi).throughput, n, |cells|, Least(Rates(cells, split)))
  {
    SumAtLeastLength(split);
    PlanNoDearer(settings, cache, cells);
    var plan := Plan(cache, settings.maxIdx, |cells|);
    BestOverIsMax(settings, cache, n, lo, hi);
    assert Considered(settings, cache, n, |cells|).throughput == GreedyThroughput(plan, n);
    BoundThroughPlan(plan, cells, split, n, GreedyThroughput(plan, n), Least(Rates(cells, split)),
                     ChainCost(plan), ChainCost(cells), BestOver(settings, cache, n, lo, hi).throughput);
  }

  /** The plan for as many groups exists and is no dearer than the given partition. */
  lemma {:induction false} PlanNoDearer(settings: Settings, cache: seq<Cell>, cells: seq<Cell>)
    requires IsChain(cache, cells, settings.maxIdx) && 1 <= |cells|
    ensures var plan := Plan(cache, settings.maxIdx, |cells|);
            Usable(plan) && |plan| == |cells| && ChainCost(plan) <= ChainCost(cells)
  {
    PlanIsOptimalPartition(cache, settings.maxIdx, |cells|);
  }

  lemma {:induction false} BoundThroughPlan(plan: seq<Cell>, cells: seq<Cell>, split: seq<int>, n: nat, m: real,
                                            rival: real, s: real, s': real, t: real)
    requires Usable(plan) && Usable(cells) && |plan| == |cells| == |split| <= n
    requires Positive(split) && Sum(split) == n
    requires m == GreedyThroughput(plan, n) && rival == Least(Rates(cells, split))
    requires s == ChainCost(plan) && s' == ChainCost(cells) && s <= s' && m <= t
    ensures Approximates(t, n, |cells|, rival)
  {
    GreedyBracket(plan, n, m, s);
    SplitBelowRelaxation(cells, split, rival, s');
    CrossBound(n, |cells|, m, s, rival, s', t);
  }

  lemma CrossBound(n: nat, k: nat, m: real, s: real, rival: real, s': real, t: real)
    requires 0.0 <= m <= t && 0.0 <= rival && 0.0 <= s <= s'
    requires (n - k) as real <= m * s && rival * s' <= n as real
    ensures Approximates(t, n, k, rival)
  {
    CrossMultiply(n as real, (n - k) as real, m, s, rival, s', t);
  }

  lemma CrossMultiply(n: real, slack: real, m: real, s: real, rival: real, s': real, t: real)
    requires 0.0 <= n && 0.0 <= m <= t && 0.0 <= rival && 0.0 <= s <= s'
    requires slack <= m * s && rival * s' <= n
    ensures slack * rival <= n * t
  {
    ScaleOrder(slack, m * s, rival);
    assert m * s * rival == m * (rival * s);
    ScaleOrder(s, s', rival);
    ScaleOrder(rival * s, n, m);
    ScaleOrder(m, t, n);
  }

  lemma {:induction false} SumAtLeastLength(xs: seq<int>)
    requires Positive(xs)
    ensures Sum(xs) >= |xs|
  {
    if xs != [] {
      SumAtLeastLength(xs[1..]);
    }
  }

  lemma GreedyThroughputMonotone(scheme: seq<Cell>, n: nat, n': nat)
    requires Usable(scheme) && |scheme| <= n <= n'
    ensures GreedyThroughput(scheme, n) <= GreedyThroughput(scheme, n')
  {
    RateCurveNondecreasing(scheme);
    GreedyMonotone(RateCurve(scheme), |scheme|, n, n');
  }

  /** An agent's curve never goes down: more GPUs cannot lower the solved throughput. */
  lemma SolveMonotone(settings: Settings, cache: seq<Cell>, minGroup: int, maxGroup: int, gpus: nat, gpus': nat)
    requires settings.Valid() && gpus <= gpus'
    ensures 0.0 <= SolveAt(settings, cache, minGroup, maxGroup, gpus).throughput
    ensures SolveAt(settings, cache, minGroup, maxGroup, gpus).throughput
         <= SolveAt(settings, cache, minGroup, maxGroup, gpus').throughput
  {
    DivMonotone(gpus, gpus', settings.gpuStep);
    BestMonotone(settings, cache, gpus / settings.gpuStep, gpus' / settings.gpuStep, minGroup, maxGroup + 1);
  }

  lemma ConsideredMonotone(settings: Settings, cache: seq<Cell>, n: nat, n': nat, k: int)
    requires n <= n' && Feasible(settings, cache, n, k)
    ensures Considered(settings, cache, n, k).throughput <= Considered(settings, cache, n', k).throughput
  {
    PlanUsable(settings, cache, k);
    GreedyThroughputMonotone(Plan(cache, settings.maxIdx, k), n, n');
  }

  lemma BestMonotone(settings: Settings, cache: seq<Cell>, n: nat, n': nat, lo: int, hi: int)
    requires n <= n'
    ensures BestOver(settings, cache, n, lo, hi).throughput <= BestOver(settings, cache, n', lo, hi).throughput
  {
    BestOverIsMax(settings, cache, n, lo, hi);
    BestOverIsMax(settings, cache, n', lo, hi);
    var best := BestOver(settings, cache, n, lo, hi);
    if best.throughput > 0.0 {
      var k :| lo <= k < hi && best == Considered(settings, cache, n, k);
      ConsideredIffFeasible(settings, cache, n, k);
      ConsideredMonotone(settings, cache, n, n', k);
    }
  }

  lemma DivMonotone(a: nat, b: nat, d: nat)
    requires d > 0 && a <= b
    ensures 0 <= a / d <= b / d
  {
    QuotientsInOrder(a, b, d, a / d, b / d, a % d, b % d);
  }

  lemma QuotientsInOrder(a: int, b: int, d: int, q: int, q': int, r: int, r': int)
    requires d > 0 && 0 <= a <= b && a == d * q + r && b == d * q' + r' && 0 <= r < d && 0 <= r' < d
    ensures 0 <= q <= q'
  {
    NoNegativeMultiple(d, q' - q);
    NoNegativeMultiple(d, q);
  }

  lemma NoNegativeMultiple(d: int, e: int)
    requires d > 0 && -d < d * e
    ensures e >= 0
  {}

  function GroupGpus(groups: seq<InstanceGroup>): seq<int> {
    seq(|groups|, i requires 0 <= i < |groups| => groups[i].gpus)
  }

  /** The groups of a returned assignment tile the context range and use up the budget. */
  ghost predicate Tiles(settings: Settings, a: InstanceAssignment, gpus: nat)
    requires settings.Valid()
  {
    var gs := a.instances;
    && gs != []
    && gs[0].lower == 0 && gs[|gs| - 1].upper == settings.maxIdx * settings.contextStep
    && (forall i :: 0 <= i < |gs| - 1 ==> gs[i].upper == gs[i + 1].lower)
    && (forall i :: 0 <= i < |gs| ==> gs[i].tp > 0.0 && gs[i].gpus >= settings.gpuStep &&
                                      gs[i].gpus % settings.gpuStep == 0)
    && Sum(GroupGpus(gs)) == gpus / settings.gpuStep * settings.gpuStep
  }

  /** Some permitted group count has a contiguous partition and enough instances. */
  ghost predicate HasPartition(settings: Settings, cache: seq<Cell>, n: int, minGroup: int, maxGroup: int) {
    exists cells :: IsChain(cache, cells, settings.maxIdx) && 1 <= |cells| <= n && minGroup <= |cells| <= maxGroup
  }

  /** `solve` answers with a positive throughput exactly when there is a partition to serve;
      its answer then tiles the context range and spends every whole instance of the budget. */
  lemma SolvePositiveIffFeasible(settings: Settings, cache: seq<Cell>, minGroup: int, maxGroup: int, gpus: nat)
    requires settings.Valid()
    ensures var a := SolveAt(settings, cache, minGroup, maxGroup, gpus);
            && (a.throughput > 0.0 <==> HasPartition(settings, cache, gpus / settings.gpuStep, minGroup, maxGroup))
            && (a.throughput > 0.0 ==> Tiles(settings, a, gpus))
            && (a.throughput <= 0.0 ==> a == EMPTY)
  {
    BestPositiveIffFeasible(settings, cache, gpus / settings.gpuStep, minGroup, maxGroup);
    if SolveAt(settings, cache, minGroup, maxGroup, gpus) != EMPTY {
      SolveTiles(settings, cache, minGroup, maxGroup, gpus);
    }
  }

  lemma BestPositiveIffFeasible(settings: Settings, cache: seq<Cell>, n: int, minGroup: int, maxGroup: int)
    ensures BestOver(settings, cache, n, minGroup, maxGroup + 1).throughput > 0.0 <==>
            HasPartition(settings, cache, n, minGroup, maxGroup)
  {
    BestOverIsMax(settings, cache, n, minGroup, maxGroup + 1);
    var a := BestOver(settings, cache, n, minGroup, maxGroup + 1);
    forall cells | IsChain(cache, cells, settings.maxIdx) && 1 <= |cells| <= n && minGroup <= |cells| <= maxGroup
      ensures a.throughput > 0.0
    {
      PlanNoDearer(settings, cache, cells);
      ConsideredIffFeasible(settings, cache, n, |cells|);
    }
    if a.throughput > 0.0 {
      var k :| minGroup <= k < maxGroup + 1 && a == Considered(settings, cache, n, k);
      ConsideredIffFeasible(settings, cache, n, k);
      PlanUsable(settings, cache, k);
    }
  }

  // ---------------------------------------------------------------- what an answer says

  /** The group is a cell of the cache, scaled to context lengths. */
  ghost predicate IsCellOf(settings: Settings, cache: seq<Cell>, g: InstanceGroup)
    requires settings.Valid()
  {
    && g.lower % settings.contextStep == 0 && g.upper % settings.contextStep == 0
    && Cell(g.lower / settings.contextStep, g.upper / settings.contextStep, g.tp) in cache
  }

  /** The answer's groups are cells of the cache, and its throughput is what the slowest of them runs at. */
  ghost predicate IsBackedUp(settings: Settings, cache: seq<Cell>, a: InstanceAssignment)
    requires settings.Valid()
  {
    && (forall i :: 0 <= i < |a.instances| ==> IsCellOf(settings, cache, a.instances[i]))
    && ThroughputIsLeast(settings, a)
  }

  /** Every answer with positive throughput is backed up by its own groups. */
  lemma SolveIsBackedUp(settings: Settings, cache: seq<Cell>, minGroup: int, maxGroup: int, gpus: nat)
    requires settings.Valid() && WellFormed(cache, settings.maxIdx)
    requires SolveAt(settings, cache, minGroup, maxGroup, gpus).throughput > 0.0
    ensures IsBackedUp(settings, cache, SolveAt(settings, cache, minGroup, maxGroup, gpus))
  {
    var k := SolvedGroupCount(settings, cache, minGroup, maxGroup, gpus);
    GreedyIsBackedUp(settings, cache, Plan(cache, settings.maxIdx, k), gpus / settings.gpuStep);
  }

  lemma GreedyIsBackedUp(settings: Settings, cache: seq<Cell>, scheme: seq<Cell>, n: nat)
    requires settings.Valid() && WellFormed(cache, settings.maxIdx)
    requires Usable(scheme) && IsChain(cache, scheme, settings.maxIdx) && |scheme| <= n
    ensures IsBackedUp(settings, cache, GreedyAssignment(settings, scheme, n))
  {
    GreedyAboveShrunkRates(scheme, n);
    LeastOfGroups(settings, scheme, GroupCounts(scheme, n));
    var a := GreedyAssignment(settings, scheme, n);
    forall i | 0 <= i < |scheme|
      ensures IsCellOf(settings, cache, a.instances[i])
    {
      assert scheme[i] in cache;
      ScaledCell(settings, cache, scheme[i], a.instances[i]);
    }
  }

  lemma ScaledCell(settings: Settings, cache: seq<Cell>, cell: Cell, g: InstanceGroup)
    requires settings.Valid() && cell in cache && 0 <= cell.lo < cell.hi && Covers(settings, cell, g)
    ensures IsCellOf(settings, cache, g)
  {
    QuotientUnique(g.lower, settings.contextStep, cell.lo, 0);
    QuotientUnique(g.upper, settings.contextStep, cell.hi, 0);
  }

  lemma SolveTiles(settings: Settings, cache: seq<Cell>, minGroup: int, maxGroup: int, gpus: nat)
    requires settings.Valid() && SolveAt(settings, cache, minGroup, maxGroup, gpus) != EMPTY
    ensures SolveAt(settings, cache, minGroup, maxGroup, gpus).throughput > 0.0
    ensures Tiles(settings, SolveAt(settings, cache, minGroup, maxGroup, gpus), gpus)
  {
    var k := SolvedGroupCount(settings, cache, minGroup, maxGroup, gpus);
    GreedyTiles(settings, cache, Plan(cache, settings.maxIdx, k), gpus);
  }

  /** The group count behind a nonempty answer. */
  lemma SolvedGroupCount(settings: Settings, cache: seq<Cell>, minGroup: int, maxGroup: int, gpus: nat) returns (k: int)
    requires settings.Valid() && SolveAt(settings, cache, minGroup, maxGroup, gpus) != EMPTY
    ensures minGroup <= k <= maxGroup && Feasible(settings, cache, gpus / settings.gpuStep, k)
    ensures Usable(Plan(cache, settings.maxIdx, k)) && |Plan(cache, settings.maxIdx, k)| == k
    ensures IsChain(cache, Plan(cache, settings.maxIdx, k), settings.maxIdx)
    ensures SolveAt(settings, cache, minGroup, maxGroup, gpus) ==
            GreedyAssignment(settings, Plan(cache, settings.maxIdx, k), gpus / settings.gpuStep)
    ensures SolveAt(settings, cache, minGroup, maxGroup, gpus).throughput > 0.0
  {
    var n := gpus / settings.gpuStep;
    BestOverIsMax(settings, cache, n, minGroup, maxGroup + 1);
    k :| minGroup <= k < maxGroup + 1 &&
         SolveAt(settings, cache, minGroup, maxGroup, gpus) == Considered(settings, cache, n, k);
    ConsideredIffFeasible(settings, cache, n, k);
    PlanUsable(settings, cache, k);
  }

  lemma GreedyTiles(settings: Settings, cache: seq<Cell>, scheme: seq<Cell>, gpus: nat)
    requires settings.Valid() && Usable(scheme) && IsChain(cache, scheme, settings.maxIdx)
    requires |scheme| <= gpus / settings.gpuStep
    ensures Tiles(settings, GreedyAssignment(settings, scheme, gpus / settings.gpuStep), gpus)
  {
    var n := gpus / settings.gpuStep;
    GreedyAboveShrunkRates(scheme, n);
    var counts := GroupCounts(scheme, n);
    var gs := Groups(settings, scheme, counts);
    forall i | 0 <= i < |gs|
      ensures gs[i].gpus >= settings.gpuStep && gs[i].gpus % settings.gpuStep == 0
    {
      MultipleOf(counts[i], settings.gpuStep);
    }
    SumScaled(counts, settings.gpuStep, GroupGpus(gs));
  }

  lemma MultipleOf(c: int, d: nat)
    requires c >= 1 && d > 0
    ensures c * d >= d && c * d % d == 0 && c * d / d == c
  {
    assert (c - 1) * d >= 0;
    QuotientUnique(c * d, d, c, 0);
  }

  lemma QuotientUnique(x: int, d: nat, q: int, r: int)
    requires d > 0 && x == d * q + r && 0 <= r < d
    ensures x / d == q && x % d == r
  {
    assert d * (q - x / d) == x % d - r;
    NoMultipleBelow(d, q - x / d);
  }

  lemma NoMultipleBelow(d: int, e: int)
    requires -d < d * e < d
    ensures e == 0
  {}

  lemma {:induction false} SumScaled(xs: seq<int>, d: int, ys: seq<int>)
    requires |xs| == |ys| && forall i :: 0 <= i < |xs| ==> ys[i] == xs[i] * d
    ensures Sum(ys) == Sum(xs) * d
  {
    if xs != [] {
      SumScaled(xs[1..], d, ys[1..]);
    }
  }
}
