/**
  `WorkflowAllocator.allocate`: split the GPU budget over agents, one instance
  at a time, always to the agent of least normalized throughput.

  The per-agent curves come from `InstanceOrchestrator.Solve`.  Random access
  dictionaries keyed by agent are maps; agent names are distinct.
 */
module WorkflowAllocator {
  import opened Collections
  import opened MaxMin
  import opened PartitionPlanner
  import opened InstanceOrchestrator

  type Curve = map<int, InstanceAssignment>

  datatype WorkflowAllocation = WorkflowAllocation(
    gpuAllocation: map<string, int>,
    agentThroughput: map<string, real>,
    dpResults: map<string, Curve>,
    minThroughput: real,
    iterations: int)

  const NOTHING := WorkflowAllocation(map[], map[], map[], 0.0, 0)

  datatype Outcome = Ok(value: WorkflowAllocation) | StepNotPositive | NotDivisible | TooFewGpus

  /** Everything `allocate` reads: one throughput cache and one invocation average per agent. */
  datatype Workflow = Workflow(
    agents: seq<string>,
    caches: map<string, seq<Cell>>,
    invocations: map<string, real>,
    settings: Settings,
    minGroup: int,
    maxGroup: nat)
  {
    ghost predicate Valid() {
      && settings.Valid()
      && Distinct(agents)
      && (forall i :: 0 <= i < |agents| ==>
            agents[i] in caches && WellFormed(caches[agents[i]], settings.maxIdx))
    }

    /** Solved throughput of agent `i` on `gpus` GPUs, per workflow run. */
    function Normalized(i: int, gpus: int): real
      requires settings.Valid()
    {
      if !(0 <= i < |agents|) || agents[i] !in caches || agents[i] !in invocations || invocations[agents[i]] <= 0.0
      then 0.0
      else
        SolveAt(settings, caches[agents[i]], minGroup, maxGroup, gpus).throughput / invocations[agents[i]]
    }

    function NormalizedAll(gpus: seq<int>): (r: seq<real>)
      requires settings.Valid() && |gpus| == |agents|
    {
      seq(|agents|, i requires 0 <= i < |agents| => Normalized(i, gpus[i]))
    }
  }

  /** Python's order on strings, by code point. */
  predicate NameLess(a: string, b: string) {
    b != [] && (a == [] || a[0] < b[0] || (a[0] == b[0] && NameLess(a[1..], b[1..])))
  }

  /** The agent is invoked at all. */
  ghost predicate Invoked(w: Workflow, i: int)
    requires 0 <= i < |w.agents|
  {
    w.agents[i] in w.invocations && w.invocations[w.agents[i]] > 0.0
  }

  /** `value` workflow runs per second take exactly the agent's throughput `tp`; 0 for an agent never invoked. */
  ghost predicate IsPerRun(w: Workflow, i: int, tp: real, value: real)
    requires 0 <= i < |w.agents|
  {
    if Invoked(w, i) then Takes(value, w.invocations[w.agents[i]], tp) else value == 0.0
  }

  /** `value` runs per second, each invoking the agent `invocations` times on average, take exactly `tp`. */
  ghost predicate Takes(value: real, invocations: real, tp: real) {
    value * invocations == tp
  }

  ghost predicate TakesAtLeast(value: real, invocations: real, tp: real) {
    value * invocations >= tp
  }

  lemma QuotientTakes(tp: real, invocations: real)
    requires invocations > 0.0
    ensures Takes(tp / invocations, invocations, tp)
  {
    QuotientTimes(tp, invocations);
  }

  lemma MoreTakesMore(tp: real, invocations: real, value: real)
    requires invocations > 0.0 && tp / invocations <= value
    ensures TakesAtLeast(value, invocations, tp)
  {
    QuotientTimes(tp, invocations);
    ScaleOrder(tp / invocations, value, invocations);
  }

  /** On this throughput the agent allows for at most `value` workflow runs per second. */
  ghost predicate AllowsAtMost(w: Workflow, i: int, tp: real, value: real)
    requires 0 <= i < |w.agents|
  {
    if Invoked(w, i) then TakesAtLeast(value, w.invocations[w.agents[i]], tp) else 0.0 <= value
  }

  /** What agent `i` is solved to on `gpus` GPUs. */
  ghost function Solved(w: Workflow, i: int, gpus: int): real
    requires w.Valid() && 0 <= i < |w.agents|
  {
    SolveAt(w.settings, w.caches[w.agents[i]], w.minGroup, w.maxGroup, gpus).throughput
  }

  lemma NormalizedIsPerRun(w: Workflow, i: int, gpus: int)
    requires w.Valid() && 0 <= i < |w.agents|
    ensures IsPerRun(w, i, Solved(w, i, gpus), w.Normalized(i, gpus))
  {
    if Invoked(w, i) {
      QuotientTakes(Solved(w, i, gpus), w.invocations[w.agents[i]]);
    }
  }

  lemma NormalizedBelow(w: Workflow, i: int, gpus: int, value: real)
    requires w.Valid() && 0 <= i < |w.agents| && w.Normalized(i, gpus) <= value
    ensures AllowsAtMost(w, i, Solved(w, i, gpus), value)
  {
    if Invoked(w, i) {
      MoreTakesMore(Solved(w, i, gpus), w.invocations[w.agents[i]], value);
    }
  }

  /** `_normalized_throughputs`. */
  method NormalizedThroughputs(w: Workflow, gpus: seq<int>, dpResults: map<string, Curve>, ghost total: int)
    returns (throughputs: seq<real>)
    requires w.Valid() && |gpus| == |w.agents|
    requires HoldsCurves(w, dpResults, total)
    requires forall i :: 0 <= i < |gpus| ==> 0 <= gpus[i] <= total
    ensures throughputs == w.NormalizedAll(gpus)
    ensures forall i :: 0 <= i < |gpus| ==> IsPerRun(w, i, dpResults[w.agents[i]][gpus[i]].throughput, throughputs[i])
  {
    throughputs := [];
    for i := 0 to |w.agents|
      invariant |throughputs| == i
      invariant forall j :: 0 <= j < i ==> throughputs[j] == w.Normalized(j, gpus[j])
      invariant forall j :: 0 <= j < i ==> IsPerRun(w, j, dpResults[w.agents[j]][gpus[j]].throughput, throughputs[j])
    {
      var agent := w.agents[i];
      assert IsCurve(w, i, dpResults[agent], total);
      NormalizedIsPerRun(w, i, gpus[i]);
      var invocations := if agent in w.invocations then w.invocations[agent] else 0.0;
      if invocations <= 0.0 {
        throughputs := throughputs + [0.0];
      } else {
        throughputs := throughputs + [dpResults[agent][gpus[i]].throughput / invocations];
      }
    }
  }

  /** `dp_results` holds the solved curve of every agent. */
  ghost predicate HoldsCurves(w: Workflow, dpResults: map<string, Curve>, total: int)
    requires w.Valid()
  {
    forall i :: 0 <= i < |w.agents| ==>
      w.agents[i] in dpResults && IsCurve(w, i, dpResults[w.agents[i]], total)
  }

  ghost predicate IsCurve(w: Workflow, i: int, curve: Curve, total: int)
    requires w.Valid() && 0 <= i < |w.agents|
  {
    && (forall g :: g in curve <==> 0 <= g <= total)
    && (forall g :: g in curve ==>
          curve[g] == SolveAt(w.settings, w.caches[w.agents[i]], w.minGroup, w.maxGroup, g))
  }

  lemma {:induction false} NameLessTransitive(a: string, b: string, c: string)
    requires NameLess(a, b) && NameLess(b, c)
    ensures NameLess(a, c)
    decreases |a|
  {
    if a != [] && a[0] == b[0] == c[0] {
      NameLessTransitive(a[1..], b[1..], c[1..]);
    }
  }

  lemma {:induction false} NameLessConnected(a: string, b: string)
    requires a != b
    ensures NameLess(a, b) || NameLess(b, a)
    decreases |a|
  {
    if a != [] && b != [] && a[0] == b[0] {
      assert a == [a[0]] + a[1..] && b == [b[0]] + b[1..];
      NameLessConnected(a[1..], b[1..]);
    }
  }

  /** `min(range(n), key=(throughput, name))`: the least throughput, the least name on a tie. */
  method PickBottleneck(agents: seq<string>, throughputs: seq<real>) returns (m: nat)
    requires |throughputs| == |agents| > 0
    requires Distinct(agents)
    ensures m < |agents|
    ensures forall j :: 0 <= j < |agents| ==> throughputs[m] <= throughputs[j]
    ensures forall j :: 0 <= j < |agents| && j != m && throughputs[j] == throughputs[m] ==>
              NameLess(agents[m], agents[j])
  {
    m := 0;
    for k := 1 to |agents|
      invariant m < k
      invariant forall j :: 0 <= j < k ==> throughputs[m] <= throughputs[j]
      invariant forall j :: 0 <= j < k && j != m && throughputs[j] == throughputs[m] ==>
                  NameLess(agents[m], agents[j])
    {
      NameLessConnected(agents[k], agents[m]);
      if throughputs[k] < throughputs[m] {
        m := k;
      } else if throughputs[k] == throughputs[m] && NameLess(agents[k], agents[m]) {
        forall j | 0 <= j < k && j != m && throughputs[j] == throughputs[m]
          ensures NameLess(agents[k], agents[j])
        {
          NameLessTransitive(agents[k], agents[m], agents[j]);
        }
        m := k;
      }
    }
  }

  /** A way of spending the whole budget: a positive multiple of the step for every agent. */
  ghost predicate IsSplit(w: Workflow, total: int, step: int, shares: seq<int>) {
    && |shares| == |w.agents| && step > 0
    && (forall i :: 0 <= i < |shares| ==> shares[i] > 0 && shares[i] % step == 0)
    && Sum(shares) == total
  }

  function UnitCurve(w: Workflow, step: int): Curves
    requires w.settings.Valid()
  {
    (i: int, units: int) => w.Normalized(i, units * step)
  }

  function Shares(units: seq<int>, step: int): (shares: seq<int>)
    ensures |shares| == |units|
  {
    seq(|units|, i requires 0 <= i < |units| => units[i] * step)
  }

  lemma NormalizedMonotone(w: Workflow, i: int, g: nat, g': nat)
    requires w.settings.Valid() && g <= g'
    ensures w.Normalized(i, g) <= w.Normalized(i, g')
  {
    if 0 <= i < |w.agents| && w.agents[i] in w.caches && w.agents[i] in w.invocations &&
       w.invocations[w.agents[i]] > 0.0 {
      SolveMonotone(w.settings, w.caches[w.agents[i]], w.minGroup, w.maxGroup, g, g');
      DivideOrder(SolveAt(w.settings, w.caches[w.agents[i]], w.minGroup, w.maxGroup, g).throughput,
                  SolveAt(w.settings, w.caches[w.agents[i]], w.minGroup, w.maxGroup, g').throughput,
                  w.invocations[w.agents[i]]);
    }
  }

  lemma DivideOrder(a: real, b: real, d: real)
    requires a <= b && d > 0.0
    ensures a / d <= b / d
  {
    assert (b / d - a / d) * d == b - a;
  }

  lemma UnitCurveNondecreasing(w: Workflow, step: int)
    requires w.settings.Valid() && step > 0
    ensures Nondecreasing(UnitCurve(w, step), |w.agents|)
  {
    forall i, a, b | 0 <= i < |w.agents| && 1 <= a <= b
      ensures Ordered(UnitCurve(w, step), i, a, b)
    {
      assert (b - a) * step >= 0 && a * step >= 0;
      NormalizedMonotone(w, i, a * step, b * step);
    }
  }

  lemma SharesSplit(w: Workflow, total: int, step: int, units: seq<int>)
    requires step > 0 && |units| == |w.agents| && Positive(units) && Sum(Shares(units, step)) == total
    ensures IsSplit(w, total, step, Shares(units, step))
  {
    var shares := Shares(units, step);
    forall i | 0 <= i < |shares|
      ensures shares[i] > 0 && shares[i] % step == 0
    {
      MultipleOf(units[i], step);
    }
  }

  /** Balanced shares beat every other split of the same budget. */
  lemma BalancedSharesAreBest(w: Workflow, total: int, step: int, units: seq<int>, rival: seq<int>)
    requires w.settings.Valid() && |units| == |w.agents| > 0 && step > 0
    requires Balanced(UnitCurve(w, step), units) && Sum(Shares(units, step)) == total
    requires IsSplit(w, total, step, rival)
    ensures Least(w.NormalizedAll(rival)) <= Least(w.NormalizedAll(Shares(units, step)))
  {
    var rivalUnits := seq(|rival|, i requires 0 <= i < |rival| => rival[i] / step);
    forall i | 0 <= i < |rival|
      ensures rival[i] == rivalUnits[i] * step && rivalUnits[i] >= 1
    {
      assert rival[i] == step * (rival[i] / step) + rival[i] % step;
    }
    SumScaled(rivalUnits, step, rival);
    SumScaled(units, step, Shares(units, step));
    SameFactor(Sum(rivalUnits), Sum(units), step);
    UnitCurveNondecreasing(w, step);
    BalancedBeatsRival(UnitCurve(w, step), units, rivalUnits);
    assert Values(UnitCurve(w, step), rivalUnits) == w.NormalizedAll(rival);
    assert Values(UnitCurve(w, step), units) == w.NormalizedAll(Shares(units, step));
  }

  lemma SameFactor(a: int, b: int, step: int)
    requires step > 0 && a * step == b * step
    ensures a == b
  {}

  /** Solve every agent's curve once. */
  method SolveAgents(w: Workflow, total: int) returns (dpResults: map<string, Curve>)
    requires w.Valid()
    ensures HoldsCurves(w, dpResults, total)
  {
    dpResults := map[];
    for i := 0 to |w.agents|
      invariant forall j :: 0 <= j < i ==>
                  w.agents[j] in dpResults && IsCurve(w, j, dpResults[w.agents[j]], total)
    {
      var curve := Solve(w.settings, w.caches[w.agents[i]], total, w.minGroup, w.maxGroup);
      dpResults := dpResults[w.agents[i] := curve];
    }
  }

  lemma GrowShares(units: seq<int>, step: int, m: nat)
    requires m < |units|
    ensures var grown := Shares(units[m := units[m] + 1], step);
            grown == Shares(units, step)[m := Shares(units, step)[m] + step] &&
            Sum(grown) == Sum(Shares(units, step)) + step
  {
    var shares := Shares(units, step);
    assert Shares(units[m := units[m] + 1], step) == shares[m := shares[m] + step];
    SumUpdate(shares, m, shares[m] + step);
  }

  lemma RoomForOneMore(units: seq<int>, total: int, step: int)
    requires step > 0 && total % step == 0 && Sum(Shares(units, step)) < total
    ensures Sum(Shares(units, step)) + step <= total
  {
    SumScaled(units, step, Shares(units, step));
    MultiplesApart(Sum(units), total / step, step);
  }

  lemma MultiplesApart(a: int, b: int, step: int)
    requires step > 0 && a * step < b * step
    ensures a * step + step <= b * step
  {
    NoNegativeMultiple(step, b - a - 1);
    assert (b - a - 1) * step >= 0;
  }

  lemma {:induction false} BudgetUsedUp(units: seq<int>, step: int, total: int)
    requires step > 0 && Sum(Shares(units, step)) == total
    ensures Sum(units) == total / step
  {
    SumScaled(units, step, Shares(units, step));
    QuotientUnique(total, step, Sum(units), 0);
  }

  lemma {:induction false} SharesWithinBudget(units: seq<int>, step: int)
    requires Positive(units) && step > 0
    ensures forall i :: 0 <= i < |units| ==> 0 <= Shares(units, step)[i] <= Sum(Shares(units, step))
  {
    var shares := Shares(units, step);
    forall i | 0 <= i < |units|
      ensures shares[i] >= 1
    {
      MultipleOf(units[i], step);
    }
    forall i | 0 <= i < |units|
      ensures 0 <= shares[i] <= Sum(shares)
    {
      PartBelowSum(shares, i);
    }
  }

  lemma {:induction false} PartBelowSum(xs: seq<int>, i: nat)
    requires Positive(xs) && i < |xs|
    ensures xs[i] <= Sum(xs)
  {
    SumAtLeastLength(xs[1..]);
    if i > 0 {
      PartBelowSum(xs[1..], i - 1);
    }
  }

  /** What a successful allocation promises: it is one of the possible splits, its
      throughputs are the agents' own, and no other split has a better worst agent. */
  ghost predicate IsMaxMinSplit(w: Workflow, total: int, step: int, shares: seq<int>, r: WorkflowAllocation)
    requires w.Valid() && w.agents != []
  {
    && IsSplit(w, total, step, shares)
    && r.gpuAllocation.Keys == r.agentThroughput.Keys == (set a | a in w.agents)
    && (forall i :: 0 <= i < |w.agents| ==>
          r.gpuAllocation[w.agents[i]] == shares[i] &&
          IsPerRun(w, i, Solved(w, i, shares[i]), r.agentThroughput[w.agents[i]]))
    && (forall i :: 0 <= i < |w.agents| ==> r.minThroughput <= r.agentThroughput[w.agents[i]])
    && (exists i :: 0 <= i < |w.agents| && r.minThroughput == r.agentThroughput[w.agents[i]])
    && Unbeaten(w, total, step, r.minThroughput)
  }

  /** Every split of the whole budget leaves some agent that allows for at most `value` runs. */
  ghost predicate Unbeaten(w: Workflow, total: int, step: int, value: real)
    requires w.Valid() && w.agents != []
  {
    forall rival :: IsSplit(w, total, step, rival) ==>
      exists i :: 0 <= i < |w.agents| && AllowsAtMost(w, i, Solved(w, i, rival[i]), value)
  }

  lemma BalancedIsUnbeaten(w: Workflow, total: int, step: int, units: seq<int>)
    requires w.Valid() && |units| == |w.agents| > 0 && step > 0
    requires Balanced(UnitCurve(w, step), units) && Sum(Shares(units, step)) == total
    ensures Unbeaten(w, total, step, Least(w.NormalizedAll(Shares(units, step))))
  {
    forall rival | IsSplit(w, total, step, rival)
      ensures exists i :: 0 <= i < |w.agents| &&
                AllowsAtMost(w, i, Solved(w, i, rival[i]), Least(w.NormalizedAll(Shares(units, step))))
    {
      BalancedSharesAreBest(w, total, step, units, rival);
      var i := ArgMin(w.NormalizedAll(rival));
      NormalizedBelow(w, i, rival[i], Least(w.NormalizedAll(Shares(units, step))));
    }
  }

  /** Handing the next instance to an agent of least throughput keeps the balance. */
  lemma GrowLeastShare(w: Workflow, step: int, units: seq<int>, throughputs: seq<real>, m: nat)
    requires w.Valid() && step > 0 && m < |units| == |w.agents| && Balanced(UnitCurve(w, step), units)
    requires throughputs == w.NormalizedAll(Shares(units, step))
    requires forall j :: 0 <= j < |throughputs| ==> throughputs[m] <= throughputs[j]
    ensures Balanced(UnitCurve(w, step), units[m := units[m] + 1])
    ensures Sum(units[m := units[m] + 1]) == Sum(units) + 1
  {
    UnitCurveNondecreasing(w, step);
    forall j | 0 <= j < |units|
      ensures NoBetter(UnitCurve(w, step), units, m, units[m], j)
    {
      assert throughputs[m] <= throughputs[j];
    }
    GrowKeepsBalance(UnitCurve(w, step), units, m);
  }

  /** The state of the greedy loop: `units` instances each, balanced, within the budget. */
  ghost predicate HandedOut(w: Workflow, total: int, step: int, units: seq<int>, gpus: seq<int>, spent: int,
                            iterations: int)
    requires w.Valid()
  {
    && |units| == |w.agents| && gpus == Shares(units, step) && Balanced(UnitCurve(w, step), units)
    && spent == Sum(gpus) <= total && iterations == Sum(units) - |w.agents|
    && (forall i :: 0 <= i < |gpus| ==> 0 <= gpus[i] <= total)
  }

  lemma HandOneOut(w: Workflow, total: int, step: int, units: seq<int>, gpus: seq<int>, spent: int, iterations: int,
                   throughputs: seq<real>, m: nat)
    requires w.Valid() && step > 0 && total % step == 0 && m < |w.agents| && spent < total
    requires HandedOut(w, total, step, units, gpus, spent, iterations) && throughputs == w.NormalizedAll(gpus)
    requires forall j :: 0 <= j < |throughputs| ==> throughputs[m] <= throughputs[j]
    ensures HandedOut(w, total, step, units[m := units[m] + 1], gpus[m := gpus[m] + step], spent + step, iterations + 1)
  {
    GrowLeastShare(w, step, units, throughputs, m);
    GrowShares(units, step, m);
    RoomForOneMore(units, total, step);
    SharesWithinBudget(units[m := units[m] + 1], step);
  }

  /** The greedy loop: hand out the budget one instance at a time. */
  method HandOutBudget(w: Workflow, dpResults: map<string, Curve>, total: int, step: int)
    returns (gpus: seq<int>, iterations: int)
    requires w.Valid() && w.agents != [] && step > 0 && total % step == 0 && |w.agents| * step <= total
    requires HoldsCurves(w, dpResults, total)
    ensures IsSplit(w, total, step, gpus) && Unbeaten(w, total, step, Least(w.NormalizedAll(gpus)))
    ensures forall i :: 0 <= i < |gpus| ==> 0 <= gpus[i] <= total
    ensures iterations == total / step - |w.agents|
  {
    ghost var units := seq(|w.agents|, _ => 1);
    gpus := seq(|w.agents|, _ => step);
    var spent := |w.agents| * step;
    iterations := 0;
    StartBalanced(w, total, step, units, gpus, spent);
    while spent < total
      invariant HandedOut(w, total, step, units, gpus, spent, iterations)
      decreases total - spent
    {
      var throughputs := NormalizedThroughputs(w, gpus, dpResults, total);
      var m := PickBottleneck(w.agents, throughputs);
      HandOneOut(w, total, step, units, gpus, spent, iterations, throughputs, m);
      gpus := gpus[m := gpus[m] + step];
      units := units[m := units[m] + 1];
      spent := spent + step;
      iterations := iterations + 1;
    }
    BalancedIsFinal(w, total, step, units);
  }

  lemma StartBalanced(w: Workflow, total: int, step: int, units: seq<int>, gpus: seq<int>, spent: int)
    requires w.Valid() && units == seq(|w.agents|, _ => 1) && gpus == seq(|w.agents|, _ => step) && step > 0
    requires spent == |w.agents| * step <= total
    ensures HandedOut(w, total, step, units, gpus, spent, 0)
  {
    assert gpus == Shares(units, step);
    SumOfOnes(|w.agents|);
    SumScaled(units, step, gpus);
    SharesWithinBudget(units, step);
  }

  lemma {:induction false} BalancedIsFinal(w: Workflow, total: int, step: int, units: seq<int>)
    requires w.Valid() && |units| == |w.agents| > 0 && step > 0
    requires Balanced(UnitCurve(w, step), units) && Sum(Shares(units, step)) == total
    ensures IsSplit(w, total, step, Shares(units, step))
    ensures Unbeaten(w, total, step, Least(w.NormalizedAll(Shares(units, step))))
    ensures Sum(units) == total / step
  {
    BudgetUsedUp(units, step, total);
    SharesSplit(w, total, step, units);
    BalancedIsUnbeaten(w, total, step, units);
  }

  /** `dict(zip(agents, xs))`. */
  function Zip<T>(agents: seq<string>, xs: seq<T>): (m: map<string, T>)
    requires |agents| == |xs|
    requires Distinct(agents)
    ensures m.Keys == set a | a in agents
    ensures forall i :: 0 <= i < |agents| ==> m[agents[i]] == xs[i]
  {
    if agents == [] then map[]
    else
      var k := |agents| - 1;
      var front := Zip(agents[..k], xs[..k]);
      assert agents == agents[..k] + [agents[k]];
      front[agents[k] := xs[k]]
  }

  lemma PackagedCurves(w: Workflow, total: int, step: int, gpus: seq<int>, r: WorkflowAllocation)
    requires w.Valid() && w.agents != [] && IsMaxMinSplit(w, total, step, gpus, r) && HoldsCurves(w, r.dpResults, total)
    requires forall i :: 0 <= i < |gpus| ==> 0 <= gpus[i] <= total
    ensures ReportsCurves(w, r)
  {
    forall i | 0 <= i < |w.agents|
      ensures gpus[i] in r.dpResults[w.agents[i]]
      ensures r.dpResults[w.agents[i]][gpus[i]].throughput == Solved(w, i, gpus[i])
    {
      assert IsCurve(w, i, r.dpResults[w.agents[i]], total);
    }
  }

  /** The part of `allocate` after the argument checks. */
  method AllocateChecked(w: Workflow, total: int, step: int) returns (r: WorkflowAllocation, ghost shares: seq<int>)
    requires w.Valid() && w.agents != [] && step > 0 && total % step == 0 && |w.agents| * step <= total
    ensures IsMaxMinSplit(w, total, step, shares, r) && HoldsCurves(w, r.dpResults, total) && ReportsCurves(w, r)
    ensures r.iterations == total / step - |w.agents|
  {
    var dpResults := SolveAgents(w, total);
    var gpus, iterations := HandOutBudget(w, dpResults, total, step);
    shares := gpus;
    var final := NormalizedThroughputs(w, gpus, dpResults, total);
    r := WorkflowAllocation(Zip(w.agents, gpus), Zip(w.agents, final), dpResults, Least(final), iterations);
    PackagedResult(w, total, step, gpus, final, r);
    PackagedCurves(w, total, step, gpus, r);
  }

  lemma {:induction false} PackagedResult(w: Workflow, total: int, step: int, gpus: seq<int>, final: seq<real>,
                                          r: WorkflowAllocation)
    requires w.Valid() && w.agents != [] && IsSplit(w, total, step, gpus) && final == w.NormalizedAll(gpus)
    requires Unbeaten(w, total, step, Least(final)) && r.minThroughput == Least(final)
    requires r.gpuAllocation == Zip(w.agents, gpus) && r.agentThroughput == Zip(w.agents, final)
    ensures IsMaxMinSplit(w, total, step, gpus, r)
  {
    forall i | 0 <= i < |w.agents|
      ensures IsPerRun(w, i, Solved(w, i, gpus[i]), r.agentThroughput[w.agents[i]])
      ensures r.minThroughput <= r.agentThroughput[w.agents[i]]
    {
      NormalizedIsPerRun(w, i, gpus[i]);
      ArgMinIsLeast(final, i);
    }
    assert r.minThroughput == r.agentThroughput[w.agents[ArgMin(final)]];
  }

  /** The reported throughputs times the invocations are the curves' values at the reported shares. */
  ghost predicate ReportsCurves(w: Workflow, r: WorkflowAllocation) {
    forall i :: 0 <= i < |w.agents| ==>
      var a := w.agents[i];
      && a in r.gpuAllocation && a in r.agentThroughput && a in r.dpResults && r.gpuAllocation[a] in r.dpResults[a]
      && IsPerRun(w, i, r.dpResults[a][r.gpuAllocation[a]].throughput, r.agentThroughput[a])
  }

  /** `WorkflowAllocator.allocate`: the argument checks in order, then the greedy. */
  method Allocate(w: Workflow, total: int, step: int) returns (r: Outcome, ghost shares: seq<int>)
    requires w.Valid()
    ensures w.agents == [] ==> r == Ok(NOTHING)
    ensures r.StepNotPositive? <==> w.agents != [] && step <= 0
    ensures r.NotDivisible? <==> w.agents != [] && step > 0 && total % step != 0
    ensures r.TooFewGpus? <==> w.agents != [] && step > 0 && total % step == 0 && total < |w.agents| * step
    ensures r.Ok? && w.agents != [] ==>
              && IsMaxMinSplit(w, total, step, shares, r.value)
              && HoldsCurves(w, r.value.dpResults, total) && ReportsCurves(w, r.value)
              && r.value.iterations == total / step - |w.agents|
  {
    shares := [];
    if w.agents == [] {
      r := Ok(NOTHING);
    } else if step <= 0 {
      r := StepNotPositive;
    } else if total % step != 0 {
      r := NotDivisible;
    } else if total < |w.agents| * step {
      r := TooFewGpus;
    } else {
      var allocation;
      allocation, shares := AllocateChecked(w, total, step);
      r := Ok(allocation);
    }
  }
}
