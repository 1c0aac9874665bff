/**
  How good the plans behind `solve` are.  The dynamic program minimises the total
  inverse throughput, which is right for a divisible budget; instances are whole,
  and then the best partition may be another one.  This file states both, and
  when `solve` is exactly optimal all the same.
 */
module PlanOptimality {
  import opened Collections
  import opened MaxMin
  import opened PartitionPlanner
  import opened InstanceOrchestrator

  // ---------------------------------------------------------------- a divisible budget

  /** Every group runs at `x` or above on real-valued shares of the budget. */
  ghost predicate SharesReach(cells: seq<Cell>, shares: seq<real>, x: real)
    requires |shares| == |cells|
  {
    forall j :: 0 <= j < |cells| ==> ShareReaches(shares[j], cells[j].tp, x)
  }

  ghost predicate ShareReaches(share: real, t: real, x: real) {
    x <= share * t
  }

  lemma {:induction false} SharesAboveScaledCost(cells: seq<Cell>, shares: seq<real>, x: real, s: real)
    requires |shares| == |cells| && forall j :: 0 <= j < |cells| ==> cells[j].tp > 0.0
    requires SharesReach(cells, shares, x) && s == ChainCost(cells)
    ensures x * s <= SumReal(shares)
  {
    if cells != [] {
      var k := |cells| - 1;
      var s' := ChainCost(cells[..k]);
      SharesAboveScaledCost(cells[..k], shares[..k], x, s');
      assert ShareReaches(shares[k], cells[k].tp, x);
      DivideOut(x, shares[k], cells[k].tp);
      Distribute(x, s', 1.0 / cells[k].tp);
    }
  }

  lemma Distribute(x: real, a: real, b: real)
    ensures x * (a + b) == x * a + x * b
  {}

  /** The share on which a group of throughput `t` runs at `v`. */
  function RelaxedShare(v: real, t: real): real
    requires t > 0.0
  {
    v * (1.0 / t)
  }

  function RelaxedShares(cells: seq<Cell>, v: real): (shares: seq<real>)
    requires forall j :: 0 <= j < |cells| ==> cells[j].tp > 0.0
    ensures |shares| == |cells|
  {
    seq(|cells|, j requires 0 <= j < |cells| => RelaxedShare(v, cells[j].tp))
  }

  lemma {:induction false} RelaxedSharesAddUp(cells: seq<Cell>, v: real)
    requires forall j :: 0 <= j < |cells| ==> cells[j].tp > 0.0
    ensures SumReal(RelaxedShares(cells, v)) == v * ChainCost(cells)
  {
    if cells != [] {
      var k := |cells| - 1;
      RelaxedSharesAddUp(cells[..k], v);
      assert RelaxedShares(cells, v)[..k] == RelaxedShares(cells[..k], v);
      Distribute(v, ChainCost(cells[..k]), 1.0 / cells[k].tp);
    }
  }

  lemma ShareTimesThroughput(v: real, t: real)
    requires t > 0.0
    ensures RelaxedShare(v, t) * t == v
  {
    Inverse(t);
    assert v * (1.0 / t) * t == v * (1.0 / t * t);
  }

  lemma Inverse(t: real)
    requires t > 0.0
    ensures 1.0 / t * t == 1.0
  {}

  /** `x` is reached on some real-valued shares of `n`. */
  ghost predicate ReachableOnShares(cells: seq<Cell>, n: real, x: real) {
    exists shares :: |shares| == |cells| && SumReal(shares) == n && SharesReach(cells, shares, x)
  }

  /** With real-valued shares the plan is optimal: it can run all its groups at n / S, and no partition
      into as many cells can run all of its groups any faster. */
  lemma PlanIsOptimalForDivisibleBudget(cache: seq<Cell>, maxIdx: int, k: int, n: real)
    requires k >= 1 && Plan(cache, maxIdx, k) != [] && n >= 0.0
    ensures var plan := Plan(cache, maxIdx, k);
            Usable(plan) && ReachableOnShares(plan, n, n / ChainCost(plan))
    ensures forall cells, x :: IsChain(cache, cells, maxIdx) && |cells| == k && ReachableOnShares(cells, n, x) ==>
              x <= n / ChainCost(Plan(cache, maxIdx, k))
  {
    PlanIsOptimalPartition(cache, maxIdx, k);
    var plan := Plan(cache, maxIdx, k);
    RelaxedOptimumAttained(plan, n, ChainCost(plan));
    forall cells: seq<Cell>, x: real | IsChain(cache, cells, maxIdx) && |cells| == k && ReachableOnShares(cells, n, x)
      ensures x <= n / ChainCost(plan)
    {
      NothingAboveQuotient(cells, n, x, ChainCost(plan), ChainCost(cells));
    }
  }

  lemma {:induction false} RelaxedOptimumAttained(plan: seq<Cell>, n: real, s: real)
    requires Usable(plan) && s == ChainCost(plan)
    ensures ReachableOnShares(plan, n, n / s)
  {
    QuotientTimes(n, s);
    RelaxedSharesAttain(plan, n, n / s);
  }

  lemma {:induction false} RelaxedSharesAttain(plan: seq<Cell>, n: real, v: real)
    requires Usable(plan) && v * ChainCost(plan) == n
    ensures ReachableOnShares(plan, n, v)
  {
    var shares := RelaxedShares(plan, v);
    RelaxedSharesAddUp(plan, v);
    forall j | 0 <= j < |plan|
      ensures ShareReaches(shares[j], plan[j].tp, v)
    {
      ShareTimesThroughput(v, plan[j].tp);
    }
    assert SharesReach(plan, shares, v);
  }

  lemma {:induction false} NothingAboveQuotient(cells: seq<Cell>, n: real, x: real, s: real, s': real)
    requires Usable(cells) && n >= 0.0 && ReachableOnShares(cells, n, x) && s' == ChainCost(cells) && 0.0 < s <= s'
    ensures x <= n / s
  {
    var shares :| |shares| == |cells| && SumReal(shares) == n && SharesReach(cells, shares, x);
    SharesAboveScaledCost(cells, shares, x, s');
    BelowQuotient(x, s, s', n);
  }

  lemma BelowQuotient(x: real, s: real, s': real, n: real)
    requires 0.0 < s <= s' && n >= 0.0 && x * s' <= n
    ensures x <= n / s
  {
    if x <= 0.0 {
      QuotientNonNegative(n, s);
    } else {
      ScaleOrder(s, s', x);
      assert x * s <= n;
      ProductBelow(x, s, n);
    }
  }

  lemma ProductBelow(x: real, s: real, n: real)
    requires s > 0.0
    ensures x * s <= n <==> x <= n / s
  {
    QuotientTimes(n, s);
    var d := n / s - x;
    assert d * s == n - x * s;
    SignOfProduct(d, s);
  }

  // ---------------------------------------------------------------- whole instances

  /** A permitted partition with a positive integer split of the `n` instances over it. */
  ghost predicate Permitted(settings: Settings, cache: seq<Cell>, minGroup: int, maxGroup: int, n: int,
                            cells: seq<Cell>, split: seq<int>)
  {
    && IsChain(cache, cells, settings.maxIdx) && 1 <= |cells| && minGroup <= |cells| <= maxGroup
    && |split| == |cells| && Positive(split) && Sum(split) == n
  }

  /** No permitted partition and split is faster than what `solve` answers. */
  ghost predicate ExactlyOptimal(settings: Settings, cache: seq<Cell>, minGroup: int, maxGroup: int, gpus: nat)
    requires settings.Valid()
  {
    NothingFaster(settings, cache, minGroup, maxGroup, gpus / settings.gpuStep,
                  SolveAt(settings, cache, minGroup, maxGroup, gpus).throughput)
  }

  ghost predicate NothingFaster(settings: Settings, cache: seq<Cell>, minGroup: int, maxGroup: int, n: int, t: real) {
    forall cells, split ::
      Permitted(settings, cache, minGroup, maxGroup, n, cells, split) ==> Least(Rates(cells, split)) <= t
  }

  /** The instances a group of throughput `t` needs to run at `x`. */
  function CeilDiv(x: real, t: real): int
    requires t > 0.0
  {
    -((-(x / t)).Floor)
  }

  lemma CeilDivIsLeast(x: real, t: real, c: int)
    requires t > 0.0
    ensures x <= c as real * t <==> CeilDiv(x, t) <= c
  {
    QuotientBelow(x, c as real, t);
    CeilBelow(x / t, c);
  }

  lemma QuotientBelow(x: real, c: real, t: real)
    requires t > 0.0
    ensures x <= c * t <==> x / t <= c
  {
    QuotientTimes(x, t);
    var d := c - x / t;
    assert d * t == c * t - x;
    SignOfProduct(d, t);
  }

  lemma CeilBelow(q: real, c: int)
    ensures q <= c as real <==> -((-q).Floor) <= c
  {}

  function Needs(cells: seq<Cell>, x: real): (needs: seq<int>)
    requires forall j :: 0 <= j < |cells| ==> cells[j].tp > 0.0
    ensures |needs| == |cells|
  {
    seq(|cells|, j requires 0 <= j < |cells| => CeilDiv(x, cells[j].tp))
  }

  /** The instances a partition needs so that every group runs at `x`. */
  function Needed(cells: seq<Cell>, x: real): int
    requires forall j :: 0 <= j < |cells| ==> cells[j].tp > 0.0
  {
    Sum(Needs(cells, x))
  }

  lemma {:induction false} SumOrdered(a: seq<int>, b: seq<int>)
    requires |a| == |b| && forall j :: 0 <= j < |a| ==> a[j] <= b[j]
    ensures Sum(a) <= Sum(b)
  {
    if a != [] {
      SumOrdered(a[1..], b[1..]);
    }
  }

  /** Counts on which every group reaches `x` are at least what is needed. */
  lemma {:induction false} ReachingTakesNeeded(cells: seq<Cell>, counts: seq<int>, x: real)
    requires Usable(cells) && |counts| == |cells| && RatesAtLeast(cells, counts, x)
    ensures Needed(cells, x) <= Sum(counts)
  {
    forall j | 0 <= j < |cells|
      ensures Needs(cells, x)[j] <= counts[j]
    {
      assert x <= Rate(cells, j, counts[j]);
      CeilDivIsLeast(x, cells[j].tp, counts[j]);
    }
    SumOrdered(Needs(cells, x), counts);
  }

  lemma NeedsPositive(cells: seq<Cell>, x: real)
    requires Usable(cells) && x > 0.0
    ensures Positive(Needs(cells, x)) && Needed(cells, x) >= |cells|
  {
    forall j | 0 <= j < |cells|
      ensures Needs(cells, x)[j] >= 1
    {
      CeilDivIsLeast(x, cells[j].tp, 0);
    }
    SumAtLeastLength(Needs(cells, x));
  }

  /** With enough instances there is a split on which every group reaches `x`. */
  lemma EnoughToReach(cells: seq<Cell>, n: nat, x: real) returns (split: seq<int>)
    requires Usable(cells) && x > 0.0 && Needed(cells, x) <= n
    ensures |split| == |cells| && Positive(split) && Sum(split) == n && RatesAtLeast(cells, split, x)
  {
    var needs := Needs(cells, x);
    NeedsPositive(cells, x);
    split := needs[0 := needs[0] + n - Sum(needs)];
    SumUpdate(needs, 0, needs[0] + n - Sum(needs));
    forall j | 0 <= j < |cells|
      ensures x <= Rate(cells, j, split[j])
    {
      CeilDivIsLeast(x, cells[j].tp, split[j]);
    }
  }

  lemma LeastReaches(cells: seq<Cell>, split: seq<int>, x: real)
    requires Usable(cells) && |split| == |cells| && RatesAtLeast(cells, split, x)
    ensures x <= Least(Rates(cells, split))
  {
    var m := ArgMin(Rates(cells, split));
    assert x <= Rate(cells, m, split[m]);
  }

  /** The greedy on a partition reaches `x` exactly when it is given what the partition needs for it. */
  lemma GreedyReachesIff(cells: seq<Cell>, n: nat, x: real)
    requires Usable(cells) && x > 0.0
    ensures Needed(cells, x) <= n <==> |cells| <= n && GreedyThroughput(cells, n) >= x
  {
    NeedsPositive(cells, x);
    if Needed(cells, x) <= n {
      var split := EnoughToReach(cells, n, x);
      LeastReaches(cells, split, x);
      GreedyIsMaxMinForScheme(cells, n, split);
    } else if |cells| <= n && GreedyThroughput(cells, n) >= x {
      GreedyAboveShrunkRates(cells, n);
      LeastBelowRates(cells, GroupCounts(cells, n));
      ReachingTakesNeeded(cells, GroupCounts(cells, n), x);
    }
  }

  /** Some plan for a permitted number of groups needs at most `n` instances to reach `x`. */
  ghost predicate SomePlanReaches(settings: Settings, cache: seq<Cell>, minGroup: int, maxGroup: int, n: int, x: real) {
    exists k :: minGroup <= k <= maxGroup && PlanReaches(settings, cache, n, x, k)
  }

  ghost predicate PlanReaches(settings: Settings, cache: seq<Cell>, n: int, x: real, k: int) {
    var plan := Plan(cache, settings.maxIdx, k);
    plan != [] && Usable(plan) && Needed(plan, x) <= n
  }

  /** What `solve` answers, said without the greedy: the greatest rate for which some plan of least
      total inverse throughput can be given the instances it needs. */
  lemma SolveReachesIff(settings: Settings, cache: seq<Cell>, minGroup: int, maxGroup: int, gpus: nat, x: real)
    requires settings.Valid() && x > 0.0
    ensures SolveAt(settings, cache, minGroup, maxGroup, gpus).throughput >= x <==>
            SomePlanReaches(settings, cache, minGroup, maxGroup, gpus / settings.gpuStep, x)
  {
    BestReachesIff(settings, cache, minGroup, maxGroup, gpus / settings.gpuStep, x);
  }

  lemma BestReachesIff(settings: Settings, cache: seq<Cell>, minGroup: int, maxGroup: int, n: nat, x: real)
    requires x > 0.0
    ensures BestOver(settings, cache, n, minGroup, maxGroup + 1).throughput >= x <==>
            SomePlanReaches(settings, cache, minGroup, maxGroup, n, x)
  {
    BestOverIsMax(settings, cache, n, minGroup, maxGroup + 1);
    var best := BestOver(settings, cache, n, minGroup, maxGroup + 1);
    if best.throughput >= x {
      var k :| minGroup <= k < maxGroup + 1 && best == Considered(settings, cache, n, k);
      ConsideredReachesIff(settings, cache, n, k, x);
    }
    if SomePlanReaches(settings, cache, minGroup, maxGroup, n, x) {
      var k :| minGroup <= k <= maxGroup && PlanReaches(settings, cache, n, x, k);
      ConsideredReachesIff(settings, cache, n, k, x);
    }
  }

  lemma ConsideredReachesIff(settings: Settings, cache: seq<Cell>, n: nat, k: int, x: real)
    requires x > 0.0
    ensures Considered(settings, cache, n, k).throughput >= x <==> PlanReaches(settings, cache, n, x, k)
  {
    if Plan(cache, settings.maxIdx, k) != [] {
      PlanUsable(settings, cache, k);
      GreedyReachesIff(Plan(cache, settings.maxIdx, k), n, x);
    }
  }

  /** A permitted partition needs at most `n` instances to reach `x`. */
  ghost predicate PartitionReaches(settings: Settings, cache: seq<Cell>, minGroup: int, maxGroup: int, n: int, x: real,
                                   cells: seq<Cell>)
  {
    && IsChain(cache, cells, settings.maxIdx) && 1 <= |cells| && minGroup <= |cells| <= maxGroup
    && x > 0.0 && Usable(cells) && Needed(cells, x) <= n
  }

  /** Exact optimality, decided on the cache: `solve` is optimal for whole instances exactly when every
      rate for which some permitted partition gets by with `n` instances is one for which a plan of
      least total inverse throughput gets by with them too. */
  lemma SolveOptimalIff(settings: Settings, cache: seq<Cell>, minGroup: int, maxGroup: int, gpus: nat)
    requires settings.Valid()
    ensures ExactlyOptimal(settings, cache, minGroup, maxGroup, gpus) <==>
            forall cells, x ::
              PartitionReaches(settings, cache, minGroup, maxGroup, gpus / settings.gpuStep, x, cells) ==>
                SomePlanReaches(settings, cache, minGroup, maxGroup, gpus / settings.gpuStep, x)
  {
    OptimalIff(settings, cache, minGroup, maxGroup, gpus / settings.gpuStep,
               SolveAt(settings, cache, minGroup, maxGroup, gpus).throughput);
  }

  lemma OptimalIff(settings: Settings, cache: seq<Cell>, minGroup: int, maxGroup: int, n: nat, t: real)
    requires t == BestOver(settings, cache, n, minGroup, maxGroup + 1).throughput
    ensures NothingFaster(settings, cache, minGroup, maxGroup, n, t) <==>
            forall cells, x :: PartitionReaches(settings, cache, minGroup, maxGroup, n, x, cells) ==>
              SomePlanReaches(settings, cache, minGroup, maxGroup, n, x)
  {
    forall cells, x | PartitionReaches(settings, cache, minGroup, maxGroup, n, x, cells)
      ensures SomePlanReaches(settings, cache, minGroup, maxGroup, n, x) <==> x <= t
    {
      BestReachesIff(settings, cache, minGroup, maxGroup, n, x);
    }
    forall cells, split | Permitted(settings, cache, minGroup, maxGroup, n, cells, split)
      ensures PartitionReaches(settings, cache, minGroup, maxGroup, n, Least(Rates(cells, split)), cells)
    {
      LeastBelowRates(cells, split);
      ReachingTakesNeeded(cells, split, Least(Rates(cells, split)));
    }
    if NothingFaster(settings, cache, minGroup, maxGroup, n, t) {
      forall cells, x | PartitionReaches(settings, cache, minGroup, maxGroup, n, x, cells)
        ensures x <= t
      {
        var split := EnoughToReach(cells, n, x);
        assert Permitted(settings, cache, minGroup, maxGroup, n, cells, split);
        LeastReaches(cells, split, x);
      }
    }
  }

  // ---------------------------------------------------------------- two cases in which it is exact

  /** There is at most one partition into `k` usable cells. */
  ghost predicate OnePartition(cache: seq<Cell>, maxIdx: int, k: int) {
    forall a, b :: IsChain(cache, a, maxIdx) && IsChain(cache, b, maxIdx) && |a| == |b| == k ==> a == b
  }

  predicate IsWhole(x: real) { x == x.Floor as real }

  /** The relaxed shares of the plan are whole numbers of instances. */
  ghost predicate WholeShares(plan: seq<Cell>, n: nat) {
    Usable(plan) && forall j :: 0 <= j < |plan| ==> IsWhole(RelaxedShare(n as real / ChainCost(plan), plan[j].tp))
  }

  ghost predicate UniqueOrWhole(cache: seq<Cell>, maxIdx: int, n: nat, k: int) {
    Plan(cache, maxIdx, k) != [] ==> OnePartition(cache, maxIdx, k) || WholeShares(Plan(cache, maxIdx, k), n)
  }

  /** `solve` is exactly optimal when, for every permitted number of groups that has a partition, the
      partition is the only one or the plan's relaxed shares are whole. */
  lemma SolveExactWhenUniqueOrWhole(settings: Settings, cache: seq<Cell>, minGroup: int, maxGroup: int, gpus: nat)
    requires settings.Valid()
    requires forall k :: 1 <= k && minGroup <= k <= maxGroup ==>
               UniqueOrWhole(cache, settings.maxIdx, gpus / settings.gpuStep, k)
    ensures ExactlyOptimal(settings, cache, minGroup, maxGroup, gpus)
  {
    ExactWhenUniqueOrWhole(settings, cache, minGroup, maxGroup, gpus / settings.gpuStep);
  }

  lemma ExactWhenUniqueOrWhole(settings: Settings, cache: seq<Cell>, minGroup: int, maxGroup: int, n: nat)
    requires forall k :: 1 <= k && minGroup <= k <= maxGroup ==> UniqueOrWhole(cache, settings.maxIdx, n, k)
    ensures NothingFaster(settings, cache, minGroup, maxGroup, n,
                          BestOver(settings, cache, n, minGroup, maxGroup + 1).throughput)
  {
    forall cells, split | Permitted(settings, cache, minGroup, maxGroup, n, cells, split)
      ensures Least(Rates(cells, split)) <= BestOver(settings, cache, n, minGroup, maxGroup + 1).throughput
    {
      assert UniqueOrWhole(cache, settings.maxIdx, n, |cells|);
      BestBeats(settings, cache, n, minGroup, maxGroup + 1, cells, split, Least(Rates(cells, split)));
    }
  }

  lemma {:induction false} BestBeats(settings: Settings, cache: seq<Cell>, n: nat, lo: int, hi: int, cells: seq<Cell>,
                                     split: seq<int>, x: real)
    requires IsChain(cache, cells, settings.maxIdx) && 1 <= |cells| == |split| && Positive(split) && Sum(split) == n
    requires UniqueOrWhole(cache, settings.maxIdx, n, |cells|) && x == Least(Rates(cells, split)) && lo <= |cells| < hi
    ensures x <= BestOver(settings, cache, n, lo, hi).throughput
  {
    PlanBeats(settings, cache, n, cells, split, x);
    BestAtLeast(settings, cache, n, lo, hi, |cells|, x);
  }

  lemma BestAtLeast(settings: Settings, cache: seq<Cell>, n: int, lo: int, hi: int, k: int, x: real)
    requires lo <= k < hi && x <= Considered(settings, cache, n, k).throughput
    ensures x <= BestOver(settings, cache, n, lo, hi).throughput
  {
    BestOverIsMax(settings, cache, n, lo, hi);
  }

  lemma {:induction false} PlanBeats(settings: Settings, cache: seq<Cell>, n: nat, cells: seq<Cell>, split: seq<int>,
                                     x: real)
    requires IsChain(cache, cells, settings.maxIdx) && 1 <= |cells| == |split| && Positive(split) && Sum(split) == n
    requires UniqueOrWhole(cache, settings.maxIdx, n, |cells|) && x == Least(Rates(cells, split))
    ensures x <= Considered(settings, cache, n, |cells|).throughput
  {
    var plan := Plan(cache, settings.maxIdx, |cells|);
    PlanNoDearer(settings, cache, cells);
    PlanUsable(settings, cache, |cells|);
    SumAtLeastLength(split);
    if OnePartition(cache, settings.maxIdx, |cells|) {
      assert plan == cells;
      GreedyIsMaxMinForScheme(cells, n, split);
    } else {
      var s, s' := ChainCost(plan), ChainCost(cells);
      SplitBelowRelaxation(cells, split, x, s');
      BelowQuotient(x, s, s', n as real);
      WholeSharesAttain(plan, n);
    }
  }

  lemma {:induction false} WholeSharesAttain(plan: seq<Cell>, n: nat)
    requires WholeShares(plan, n) && |plan| <= n
    ensures n as real / ChainCost(plan) <= GreedyThroughput(plan, n)
  {
    var split := WholeSplit(plan, n, ChainCost(plan), n as real / ChainCost(plan));
    LeastReaches(plan, split, n as real / ChainCost(plan));
    GreedyIsMaxMinForScheme(plan, n, split);
  }

  /** Whole relaxed shares are a split that runs every group at n / S. */
  lemma WholeSplit(plan: seq<Cell>, n: nat, s: real, v: real) returns (split: seq<int>)
    requires WholeShares(plan, n) && |plan| <= n && s == ChainCost(plan) && v == n as real / s
    ensures |split| == |plan| && Positive(split) && Sum(split) == n && RatesAtLeast(plan, split, v)
  {
    QuotientPositive(n as real, s);
    SharesUseBudget(plan, n as real, s, v);
    split := Floors(RelaxedShares(plan, v));
    FloorsReach(plan, v, split);
    FloorsAddUp(RelaxedShares(plan, v));
  }

  lemma {:induction false} SharesUseBudget(plan: seq<Cell>, n: real, s: real, v: real)
    requires Usable(plan) && s == ChainCost(plan) && v == n / s
    ensures SumReal(RelaxedShares(plan, v)) == n
  {
    RelaxedSharesAddUp(plan, v);
    QuotientTimes(n, s);
  }

  lemma FloorsReach(plan: seq<Cell>, v: real, split: seq<int>)
    requires Usable(plan) && v > 0.0 && split == Floors(RelaxedShares(plan, v))
    requires forall j :: 0 <= j < |plan| ==> IsWhole(RelaxedShare(v, plan[j].tp))
    ensures Positive(split) && RatesAtLeast(plan, split, v)
  {
    forall j | 0 <= j < |plan|
      ensures v <= Rate(plan, j, split[j]) && split[j] >= 1
    {
      WholeShareReaches(v, plan[j].tp, split[j]);
    }
  }

  lemma QuotientPositive(n: real, s: real)
    requires n > 0.0 && s > 0.0
    ensures n / s > 0.0
  {}

  lemma WholeShareReaches(v: real, t: real, c: int)
    requires v > 0.0 && t > 0.0 && c as real == RelaxedShare(v, t)
    ensures v <= c as real * t && c >= 1
  {
    ShareTimesThroughput(v, t);
    assert 1.0 / t > 0.0;
  }

  function Floors(xs: seq<real>): (r: seq<int>)
    ensures |r| == |xs|
  {
    seq(|xs|, j requires 0 <= j < |xs| => xs[j].Floor)
  }

  lemma {:induction false} FloorsAddUp(xs: seq<real>)
    requires forall j :: 0 <= j < |xs| ==> IsWhole(xs[j])
    ensures Sum(Floors(xs)) as real == SumReal(xs)
  {
    if xs != [] {
      var k := |xs| - 1;
      FloorsAddUp(xs[..k]);
      SumLast(Floors(xs));
      assert Floors(xs)[..k] == Floors(xs[..k]);
    }
  }

  // ---------------------------------------------------------------- where it is not

  /** One partition pairs a very fast cell with one of throughput 1.9, the other has two cells of 2.0. */
  ghost predicate Lopsided(cache: seq<Cell>) {
    |cache| == 4 && cache[0] == Cell(0, 1, 100.0) && cache[1] == Cell(1, 3, 1.9) &&
    cache[2] == Cell(0, 2, 2.0) && cache[3] == Cell(2, 3, 2.0)
  }

  /** The documented optimality fails for whole instances: with one instance per group the plan of
      least total inverse throughput runs at 1.9, the other partition at 2.0. */
  lemma SolveCanBeSuboptimal(settings: Settings, cache: seq<Cell>, k: nat)
    requires settings == Settings(1, 3, 1) && Lopsided(cache) && k == 2
    ensures SolveAt(settings, cache, k, k, 2).throughput == 1.9
    ensures Permitted(settings, cache, k, k, 2, [cache[2], cache[3]], [1, 1])
    ensures Least(Rates([cache[2], cache[3]], [1, 1])) == 2.0
    ensures !ExactlyOptimal(settings, cache, k, k, 2)
  {
    OnesEach([cache[0], cache[1]]);
    OnesEach([cache[2], cache[3]]);
    OnesSum();
    LopsidedPlan(cache, 3, k);
    LopsidedSolved(settings, cache, k, 2);
    assert 2 / settings.gpuStep == 2;
  }

  lemma LopsidedSolved(settings: Settings, cache: seq<Cell>, k: nat, n: nat)
    requires Lopsided(cache) && k == n == 2 && Plan(cache, settings.maxIdx, k) == [cache[0], cache[1]]
    requires GreedyThroughput([cache[0], cache[1]], n) == 1.9
    ensures BestOver(settings, cache, n, k, k + 1).throughput == 1.9
  {
    var f := k => Considered(settings, cache, n, k);
    assert f(k).throughput == 1.9;
    assert BestOf(f, k, k) == EMPTY;
  }

  lemma OnesSum()
    ensures Sum([1, 1]) == 2
  {
    SumOfOnes(2);
    assert seq(2, _ => 1) == [1, 1];
  }

  lemma OnesEach(cells: seq<Cell>)
    requires |cells| == 2
    ensures Least(Rates(cells, [1, 1])) == if cells[1].tp < cells[0].tp then cells[1].tp else cells[0].tp
    ensures GreedyThroughput(cells, 2) == Least(Rates(cells, [1, 1]))
  {
    assert seq(2, _ => 1) == [1, 1];
    assert RateCurve(cells)(0, 1) == cells[0].tp && RateCurve(cells)(1, 1) == cells[1].tp;
    assert Rates(cells, [1, 1]) == [cells[0].tp, cells[1].tp];
    assert Rates(cells, [1, 1])[..1] == [cells[0].tp];
    assert ArgMin([cells[0].tp]) == 0;
  }

  lemma LopsidedPlan(cache: seq<Cell>, maxIdx: int, k: nat)
    requires Lopsided(cache) && maxIdx == 3 && k == 2
    ensures Plan(cache, maxIdx, k) == [cache[0], cache[1]]
  {
    var plan := Plan(cache, maxIdx, k);
    PlanIsOptimalPartition(cache, maxIdx, k);
    assert IsChain(cache, [cache[0], cache[1]], maxIdx);
    assert plan == [plan[0], plan[1]];
    TwoChains(cache, plan, maxIdx);
    PairCost(cache[0], cache[1]);
    PairCost(cache[2], cache[3]);
  }

  lemma TwoChains(cache: seq<Cell>, cells: seq<Cell>, maxIdx: int)
    requires Lopsided(cache) && maxIdx == 3 && |cells| == 2 && IsChain(cache, cells, maxIdx)
    ensures cells == [cache[0], cache[1]] || cells == [cache[2], cache[3]]
  {
    assert cells[0] in cache && cells[1] in cache && cells[0].hi == cells[1].lo;
  }

  lemma PairCost(a: Cell, b: Cell)
    requires a.tp > 0.0 && b.tp > 0.0
    ensures ChainCost([a, b]) == 1.0 / a.tp + 1.0 / b.tp
  {
    assert [a, b][..1] == [a] && [a][..0] == [];
    assert ChainCost([a]) == ChainCost([]) + 1.0 / a.tp;
  }
}
