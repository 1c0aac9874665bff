/**
  The layered dynamic program of `InstanceOrchestrator`: choose a contiguous
  partition of the context range `[0, maxIdx)` into exactly `k` cells of the
  throughput cache so that the total inverse throughput is least.

  `float("inf")` is the constructor `Inf`; throughputs are exact reals.
 */
module PartitionPlanner {
  import opened Collections

  /** A cache item, and also one step `(prev, cur, throughput)` of a scheme. */
  datatype Cell = Cell(lo: int, hi: int, tp: real)

  datatype Transition = Transition(prev: int, cost: real, tp: real)

  datatype Cost = Inf | Fin(v: real)

  /** What the table and the parent dictionary hold for one state. */
  datatype Label = Unreached | Origin | Reached(cost: real, prev: int, tp: real) {
    function Cost(): (c: Cost)
      ensures c.Inf? <==> Unreached?
    {
      match this
      case Unreached => Inf
      case Origin => Fin(0.0)
      case Reached(v, _, _) => Fin(v)
    }
  }

  type ParentMap = map<(int, int), (int, real)>

  /** The throughput estimator only produces keys with 0 <= lo < hi <= maxIdx. */
  ghost predicate WellFormed(cache: seq<Cell>, maxIdx: int) {
    forall i :: 0 <= i < |cache| ==> 0 <= cache[i].lo < cache[i].hi <= maxIdx
  }

  // ---------------------------------------------------------------- chains

  /** `cells` leads from 0 to `c` through positive-throughput cells of the cache. */
  ghost predicate IsChain(cache: seq<Cell>, cells: seq<Cell>, c: int) {
    && (cells == [] ==> c == 0)
    && (cells != [] ==> cells[0].lo == 0 && cells[|cells| - 1].hi == c)
    && (forall i :: 0 <= i < |cells| ==> cells[i] in cache && cells[i].tp > 0.0)
    && (forall i :: 0 <= i < |cells| - 1 ==> cells[i].hi == cells[i + 1].lo)
  }

  function ChainCost(cells: seq<Cell>): (r: real)
    requires forall i :: 0 <= i < |cells| ==> cells[i].tp > 0.0
    ensures r >= 0.0 && (cells != [] ==> r > 0.0)
  {
    if cells == [] then 0.0
    else
      ChainCost(cells[..|cells| - 1]) + 1.0 / cells[|cells| - 1].tp
  }

  lemma ChainPrefix(cache: seq<Cell>, cells: seq<Cell>, c: int)
    requires IsChain(cache, cells, c) && cells != []
    ensures IsChain(cache, cells[..|cells| - 1], cells[|cells| - 1].lo)
  {
    var front := cells[..|cells| - 1];
    if front != [] {
      assert cells[|front| - 1].hi == cells[|front|].lo;
    }
  }

  lemma {:induction false} ChainExtend(cache: seq<Cell>, cells: seq<Cell>, last: Cell)
    requires IsChain(cache, cells, last.lo) && last in cache && last.tp > 0.0
    ensures IsChain(cache, cells + [last], last.hi)
    ensures ChainCost(cells + [last]) == ChainCost(cells) + 1.0 / last.tp
  {
    assert (cells + [last])[..|cells|] == cells;
  }

  // ---------------------------------------------------------------- the value being computed

  /** The usable cache items that end at `hi`, in cache order. */
  function Into(cache: seq<Cell>, hi: int): (ts: seq<Transition>)
    ensures |ts| <= |cache|
    ensures forall t :: t in ts ==>
              t.tp > 0.0 && t.cost == 1.0 / t.tp && Cell(t.prev, hi, t.tp) in cache
    ensures forall e :: e in cache && e.hi == hi && e.tp > 0.0 ==>
              Transition(e.lo, 1.0 / e.tp, e.tp) in ts
  {
    if cache == [] then []
    else
      var front := Into(cache[..|cache| - 1], hi);
      var e := cache[|cache| - 1];
      assert cache == cache[..|cache| - 1] + [e];
      if e.hi == hi && e.tp > 0.0 then front + [Transition(e.lo, 1.0 / e.tp, e.tp)] else front
  }

  /** Keep the old label unless the new route is strictly cheaper. */
  function Relax(old_: Label, t: Transition, before: Label): Label {
    match before.Cost()
    case Inf => old_
    case Fin(p) =>
      match old_.Cost()
      case Inf => Reached(p + t.cost, t.prev, t.tp)
      case Fin(v) => if p + t.cost < v then Reached(p + t.cost, t.prev, t.tp) else old_
  }

  function Best(cache: seq<Cell>, k: nat, c: int): Label
    decreases k, |cache| + 1
  {
    if k == 0 then (if c == 0 then Origin else Unreached)
    else BestVia(cache, k, Into(cache, c))
  }

  function BestVia(cache: seq<Cell>, k: nat, ts: seq<Transition>): (l: Label)
    requires k > 0 && |ts| <= |cache|
    ensures !l.Origin?
    decreases k, |ts|
  {
    if ts == [] then Unreached
    else
      var t := ts[|ts| - 1];
      Relax(BestVia(cache, k, ts[..|ts| - 1]), t, Best(cache, k - 1, t.prev))
  }

  /** BestVia is at most every route it has seen, and is one of them. */
  lemma {:induction false} BestViaIsLeast(cache: seq<Cell>, k: nat, ts: seq<Transition>)
    requires k > 0 && |ts| <= |cache|
    ensures var l := BestVia(cache, k, ts);
            forall t :: t in ts && !Best(cache, k - 1, t.prev).Unreached? ==>
              l.Reached? && l.cost <= Best(cache, k - 1, t.prev).Cost().v + t.cost
    ensures var l := BestVia(cache, k, ts);
            l.Reached? ==>
              exists t :: t in ts && t.prev == l.prev && t.tp == l.tp &&
                !Best(cache, k - 1, t.prev).Unreached? &&
                l.cost == Best(cache, k - 1, t.prev).Cost().v + t.cost
  {
    if ts != [] {
      BestViaIsLeast(cache, k, ts[..|ts| - 1]);
      assert ts == ts[..|ts| - 1] + [ts[|ts| - 1]];
      assert ts[|ts| - 1] in ts;
    }
  }

  /** Lower bound: no k-step chain to `c` is cheaper than the table entry. */
  lemma {:induction false} NoChainIsCheaper(cache: seq<Cell>, cells: seq<Cell>, c: int)
    requires IsChain(cache, cells, c)
    ensures var l := Best(cache, |cells|, c);
            !l.Unreached? && l.Cost().v <= ChainCost(cells)
  {
    if cells != [] {
      var last := cells[|cells| - 1];
      ChainPrefix(cache, cells, c);
      NoChainIsCheaper(cache, cells[..|cells| - 1], last.lo);
      BestViaIsLeast(cache, |cells|, Into(cache, c));
      assert Transition(last.lo, 1.0 / last.tp, last.tp) in Into(cache, c);
    }
  }

  /** Follow the parent labels back from `(k, c)`. */
  function Trace(cache: seq<Cell>, k: nat, c: int): seq<Cell> {
    match Best(cache, k, c)
    case Reached(_, prev, tp) =>
      if k == 0 then [] else Trace(cache, k - 1, prev) + [Cell(prev, c, tp)]
    case _ => []
  }

  /** Upper bound: a finite entry is the cost of the chain its parents spell out. */
  lemma {:induction false} TraceAttainsBest(cache: seq<Cell>, k: nat, c: int)
    requires !Best(cache, k, c).Unreached?
    ensures |Trace(cache, k, c)| == k
    ensures IsChain(cache, Trace(cache, k, c), c)
    ensures ChainCost(Trace(cache, k, c)) == Best(cache, k, c).Cost().v
  {
    if k > 0 {
      var l := Best(cache, k, c);
      BestStep(cache, k, c);
      TraceAttainsBest(cache, k - 1, l.prev);
      TraceUnfolds(cache, k, c);
      ExtendsAtCost(cache, Trace(cache, k - 1, l.prev), Cell(l.prev, c, l.tp),
                    Best(cache, k - 1, l.prev).Cost().v, l.cost);
    }
  }

  lemma {:induction false} TraceUnfolds(cache: seq<Cell>, k: nat, c: int)
    requires k > 0 && Best(cache, k, c).Reached?
    ensures var l := Best(cache, k, c); Trace(cache, k, c) == Trace(cache, k - 1, l.prev) + [Cell(l.prev, c, l.tp)]
  {}

  lemma {:induction false} ExtendsAtCost(cache: seq<Cell>, cells: seq<Cell>, last: Cell, before: real, after: real)
    requires IsChain(cache, cells, last.lo) && ChainCost(cells) == before
    requires last in cache && last.tp > 0.0 && after == before + 1.0 / last.tp
    ensures IsChain(cache, cells + [last], last.hi) && ChainCost(cells + [last]) == after
  {
    ChainExtend(cache, cells, last);
  }

  /** A reached label points to a usable cell and a reached predecessor, and its cost adds up. */
  lemma BestStep(cache: seq<Cell>, k: nat, c: int)
    requires k > 0 && !Best(cache, k, c).Unreached?
    ensures var l := Best(cache, k, c);
            && l.Reached? && Cell(l.prev, c, l.tp) in cache && l.tp > 0.0
            && !Best(cache, k - 1, l.prev).Unreached?
            && l.cost == Best(cache, k - 1, l.prev).Cost().v + 1.0 / l.tp
  {
    var l := Best(cache, k, c);
    BestViaIsLeast(cache, k, Into(cache, c));
    var t :| t in Into(cache, c) && t.prev == l.prev && t.tp == l.tp &&
             !Best(cache, k - 1, t.prev).Unreached? &&
             l.cost == Best(cache, k - 1, t.prev).Cost().v + t.cost;
  }

  /** The table entry is exact: finite exactly when some k-step chain exists, and
      then it is the least total inverse throughput over all of them. */
  lemma {:induction false} TableEntryIsExact(cache: seq<Cell>, k: nat, c: int)
    ensures Best(cache, k, c).Cost().Inf? <==>
            !exists cells :: IsChain(cache, cells, c) && |cells| == k
    ensures Best(cache, k, c).Cost().Fin? ==>
              var v := Best(cache, k, c).Cost().v;
              && (exists cells :: IsChain(cache, cells, c) && |cells| == k && ChainCost(cells) == v)
              && (forall cells :: IsChain(cache, cells, c) && |cells| == k ==> v <= ChainCost(cells))
  {
    if !Best(cache, k, c).Unreached? {
      TraceAttainsBest(cache, k, c);
    }
    forall cells | IsChain(cache, cells, c) && |cells| == k
      ensures !Best(cache, k, c).Unreached? && Best(cache, k, c).Cost().v <= ChainCost(cells)
    {
      NoChainIsCheaper(cache, cells, c);
    }
  }

  // ---------------------------------------------------------------- the code

  /** First loop of `_build_partition_plans`: bucket usable items by upper index. */
  method GroupTransitions(cache: seq<Cell>) returns (m: map<int, seq<Transition>>)
    ensures forall hi :: (if hi in m then m[hi] else []) == Into(cache, hi)
  {
    m := map[];
    for i := 0 to |cache|
      invariant forall hi :: (if hi in m then m[hi] else []) == Into(cache[..i], hi)
    {
      var e := cache[i];
      assert cache[..i + 1][..i] == cache[..i];
      if e.tp > 0.0 {
        var bucket := if e.hi in m then m[e.hi] else [];
        m := m[e.hi := bucket + [Transition(e.lo, 1.0 / e.tp, e.tp)]];
      }
    }
    assert cache[..|cache|] == cache;
  }

  /** A table entry and the parent dictionary agree with the label of state `(k, c)`. */
  ghost predicate Agrees(l: Label, entry: Cost, parent: ParentMap, k: int, c: int) {
    && entry == l.Cost()
    && Records(l, parent, k, c)
  }

  ghost predicate Records(l: Label, parent: ParentMap, k: int, c: int) {
    if l.Reached? then (k, c) in parent && parent[(k, c)] == (l.prev, l.tp) else (k, c) !in parent
  }

  /** Row `k` of the table holds the labels' costs and the dictionary their predecessors. */
  ghost predicate RowExact(cache: seq<Cell>, row: seq<Cost>, parent: ParentMap, k: nat) {
    forall c :: 0 <= c < |row| ==> Agrees(Best(cache, k, c), row[c], parent, k, c)
  }

  ghost predicate SameElsewhere(before: ParentMap, after: ParentMap, k: int) {
    forall key: (int, int) :: key.0 != k ==>
      (key in after <==> key in before) && (key in before ==> after[key] == before[key])
  }

  /** The dictionaries differ at most at `key`. */
  ghost predicate OnlyAt(before: ParentMap, after: ParentMap, key: (int, int)) {
    before - {key} == after - {key}
  }

  lemma OnlyAtElsewhere(before: ParentMap, after: ParentMap, key: (int, int), other: (int, int))
    requires OnlyAt(before, after, key) && other != key
    ensures other in after <==> other in before
    ensures other in before ==> after[other] == before[other]
  {
    assert other in before <==> other in before - {key};
    assert other in after <==> other in after - {key};
    if other in before {
      assert (before - {key})[other] == before[other] && (after - {key})[other] == after[other];
    }
  }

  /** The innermost loop: relax every transition into `(k, c)`. */
  method RelaxState(cache: seq<Cell>, ts: seq<Transition>, previousRow: seq<Cost>, parent: ParentMap,
                    k: nat, c: nat)
    returns (entry: Cost, parent': ParentMap)
    requires k > 0 && |ts| <= |cache|
    requires forall t :: t in ts ==> 0 <= t.prev < |previousRow|
    requires forall b :: 0 <= b < |previousRow| ==> previousRow[b] == Best(cache, k - 1, b).Cost()
    requires (k, c) !in parent
    ensures Agrees(BestVia(cache, k, ts), entry, parent', k, c)
    ensures OnlyAt(parent, parent', (k, c))
  {
    entry, parent' := Inf, parent;
    for i := 0 to |ts|
      invariant Agrees(BestVia(cache, k, ts[..i]), entry, parent', k, c)
      invariant OnlyAt(parent, parent', (k, c))
    {
      var t := ts[i];
      FrontOf(ts, i);
      var prevCost := previousRow[t.prev];
      if prevCost.Fin? {
        var newCost := prevCost.v + t.cost;
        if entry.Inf? || newCost < entry.v {
          entry := Fin(newCost);
          parent' := parent'[(k, c) := (t.prev, t.tp)];
        }
      }
    }
    assert ts[..|ts|] == ts;
  }

  lemma FrontOf(ts: seq<Transition>, i: nat)
    requires i < |ts|
    ensures ts[..i + 1][..i] == ts[..i] && ts[..i + 1][i] == ts[i]
  {}

  /** One layer of the table: the loop over context indices for a fixed group count. */
  method FillLayer(cache: seq<Cell>, m: map<int, seq<Transition>>, previousRow: seq<Cost>,
                   parent: ParentMap, k: nat, maxIdx: nat)
    returns (row: seq<Cost>, parent': ParentMap)
    requires WellFormed(cache, maxIdx) && k > 0
    requires forall hi :: (if hi in m then m[hi] else []) == Into(cache, hi)
    requires |previousRow| == maxIdx + 1
    requires forall b :: 0 <= b < |previousRow| ==> previousRow[b] == Best(cache, k - 1, b).Cost()
    requires forall c :: (k, c) !in parent
    ensures |row| == maxIdx + 1 && RowExact(cache, row, parent', k)
    ensures SameElsewhere(parent, parent', k)
  {
    row, parent' := seq(maxIdx + 1, _ => Inf), parent;
    NothingEndsAtZero(cache, k, maxIdx);
    for c := 1 to maxIdx + 1
      invariant |row| == maxIdx + 1
      invariant forall b :: 0 <= b < c ==> Agrees(Best(cache, k, b), row[b], parent', k, b)
      invariant forall b :: c <= b ==> (k, b) !in parent'
      invariant SameElsewhere(parent, parent', k)
    {
      var ts := if c in m then m[c] else [];
      assert ts == Into(cache, c);
      forall t | t in ts
        ensures 0 <= t.prev < |previousRow|
      {
        assert Cell(t.prev, c, t.tp) in cache;
      }
      var entry, parent'' := RelaxState(cache, ts, previousRow, parent', k, c);
      forall key | key != (k, c)
        ensures key in parent'' <==> key in parent'
        ensures key in parent' ==> parent''[key] == parent'[key]
      {
        OnlyAtElsewhere(parent', parent'', (k, c), key);
      }
      row, parent' := row[c := entry], parent'';
    }
  }

  lemma {:induction false} NothingEndsAtZero(cache: seq<Cell>, k: nat, maxIdx: int)
    requires WellFormed(cache, maxIdx) && k > 0
    ensures Best(cache, k, 0) == Unreached
  {
    NothingEndsAt(cache, 0);
  }

  lemma {:induction false} NothingEndsAt(cache: seq<Cell>, hi: int)
    requires forall i :: 0 <= i < |cache| ==> cache[i].hi != hi
    ensures Into(cache, hi) == []
  {
    if cache != [] {
      NothingEndsAt(cache[..|cache| - 1], hi);
    }
  }

  /** The whole table: every entry is exact and the parent dictionary records a best predecessor. */
  method FillTable(cache: seq<Cell>, maxGroup: nat, maxIdx: nat)
    returns (dp: seq<seq<Cost>>, parent: ParentMap)
    requires WellFormed(cache, maxIdx)
    ensures |dp| == maxGroup + 1
    ensures forall k :: 0 <= k <= maxGroup ==> |dp[k]| == maxIdx + 1 && RowExact(cache, dp[k], parent, k)
  {
    var m := GroupTransitions(cache);
    dp := seq(maxGroup + 1, _ => seq(maxIdx + 1, _ => Inf));
    parent := map[];
    dp := dp[0 := dp[0][0 := Fin(0.0)]];
    for k := 1 to maxGroup + 1
      invariant |dp| == maxGroup + 1
      invariant forall a :: 0 <= a < k ==> |dp[a]| == maxIdx + 1 && RowExact(cache, dp[a], parent, a)
      invariant forall a, c :: k <= a ==> (a, c) !in parent
    {
      assert RowExact(cache, dp[k - 1], parent, k - 1);
      var row, parent' := FillLayer(cache, m, dp[k - 1], parent, k, maxIdx);
      forall a | 0 <= a < k
        ensures RowExact(cache, dp[a], parent', a)
      {
        RowSurvives(cache, dp[a], parent, parent', a, k);
      }
      dp, parent := dp[k := row], parent';
    }
  }

  lemma RowSurvives(cache: seq<Cell>, row: seq<Cost>, before: ParentMap, after: ParentMap, a: nat, k: nat)
    requires RowExact(cache, row, before, a) && SameElsewhere(before, after, k) && a != k
    ensures RowExact(cache, row, after, a)
  {
    forall c | 0 <= c < |row|
      ensures Agrees(Best(cache, a, c), row[c], after, a, c)
    {
      assert Agrees(Best(cache, a, c), row[c], before, a, c);
      assert (a, c).0 != k;
    }
  }

  /** The scheme spelled out by a parent dictionary, if the walk from `(k, c)` ends at the origin. */
  function WalkBack(parent: ParentMap, k: nat, c: int): Option<seq<Cell>> {
    if k == 0 then (if c == 0 then Some([]) else None)
    else if (k, c) !in parent then None
    else
      var (prev, tp) := parent[(k, c)];
      match WalkBack(parent, k - 1, prev)
      case None => None
      case Some(front) => Some(front + [Cell(prev, c, tp)])
  }

  /** The rest of the walk, followed by what has been walked already. */
  function Followed(walk: Option<seq<Cell>>, backwards: seq<Cell>): Option<seq<Cell>> {
    match walk
    case None => None
    case Some(front) => Some(front + Reverse(backwards))
  }

  /** `_reconstruct_scheme`: walk the parent dictionary, whatever it holds, then reverse. */
  method ReconstructScheme(parent: ParentMap, k: nat, c: int) returns (scheme: seq<Cell>)
    ensures WalkBack(parent, k, c) == None ==> scheme == []
    ensures WalkBack(parent, k, c).Some? ==> scheme == WalkBack(parent, k, c).value
  {
    var backwards: seq<Cell> := [];
    var curK, curC := k, c;
    FollowedByNothing(WalkBack(parent, k, c));
    while curK > 0
      invariant 0 <= curK <= k
      invariant WalkBack(parent, k, c) == Followed(WalkBack(parent, curK, curC), backwards)
    {
      if (curK, curC) !in parent {
        return [];
      }
      var (prev, tp) := parent[(curK, curC)];
      FollowedStep(WalkBack(parent, curK - 1, prev), Cell(prev, curC, tp), backwards);
      backwards := backwards + [Cell(prev, curC, tp)];
      curC := prev;
      curK := curK - 1;
    }
    if curC != 0 {
      return [];
    }
    assert [] + Reverse(backwards) == Reverse(backwards);
    return Reverse(backwards);
  }

  lemma FollowedByNothing(walk: Option<seq<Cell>>)
    ensures Followed(walk, []) == walk
  {
    if walk.Some? {
      assert walk.value + [] == walk.value;
    }
  }

  lemma FollowedStep(walk: Option<seq<Cell>>, cell: Cell, backwards: seq<Cell>)
    ensures Followed(walk, backwards + [cell]) ==
            if walk.None? then None else Followed(Some(walk.value + [cell]), backwards)
  {
    ReverseSnoc(backwards, cell);
    if walk.Some? {
      assert walk.value + [cell] + Reverse(backwards) == walk.value + ([cell] + Reverse(backwards));
    }
  }

  lemma {:induction false} ReverseSnoc(cells: seq<Cell>, x: Cell)
    ensures Reverse(cells + [x]) == [x] + Reverse(cells)
  {
    assert (cells + [x])[..|cells|] == cells;
  }

  /** On a dictionary that records the labels, the walk succeeds exactly from reached states,
      and spells out their trace. */
  lemma {:induction false} WalkBackIsTrace(cache: seq<Cell>, parent: ParentMap, k: nat, c: int, maxIdx: int)
    requires WellFormed(cache, maxIdx) && 0 <= c <= maxIdx
    requires forall a, b :: 0 <= a <= k && 0 <= b <= maxIdx ==> Records(Best(cache, a, b), parent, a, b)
    ensures WalkBack(parent, k, c) == if Best(cache, k, c).Unreached? then None else Some(Trace(cache, k, c))
  {
    assert Records(Best(cache, k, c), parent, k, c);
    if k > 0 && !Best(cache, k, c).Unreached? {
      ReachedFrom(cache, k, c, maxIdx);
      WalkBackIsTrace(cache, parent, k - 1, Best(cache, k, c).prev, maxIdx);
    }
  }

  function Reverse(cells: seq<Cell>): seq<Cell> {
    if cells == [] then [] else [cells[|cells| - 1]] + Reverse(cells[..|cells| - 1])
  }

  lemma ReachedFrom(cache: seq<Cell>, k: nat, c: int, maxIdx: int)
    requires WellFormed(cache, maxIdx) && k > 0 && Best(cache, k, c).Reached?
    ensures var l := Best(cache, k, c);
            0 <= l.prev <= maxIdx && !Best(cache, k - 1, l.prev).Unreached?
  {
    BestStep(cache, k, c);
  }

  /** The plan for `k` groups, empty when there is none. */
  function Plan(cache: seq<Cell>, maxIdx: int, k: int): (plan: seq<Cell>)
    ensures plan != [] ==> |plan| == k
  {
    if k <= 0 || Best(cache, k, maxIdx).Unreached? then []
    else
      TraceAttainsBest(cache, k, maxIdx);
      Trace(cache, k, maxIdx)
  }

  /** `_build_partition_plans`: a plan is recorded for exactly the feasible group counts. */
  method BuildPartitionPlans(cache: seq<Cell>, maxGroup: nat, maxIdx: nat)
    returns (plans: map<int, seq<Cell>>)
    requires WellFormed(cache, maxIdx)
    ensures forall k :: k in plans <==> 1 <= k <= maxGroup && Plan(cache, maxIdx, k) != []
    ensures forall k :: k in plans ==> plans[k] == Plan(cache, maxIdx, k)
  {
    var dp, parent := FillTable(cache, maxGroup, maxIdx);
    plans := map[];
    for k := 1 to maxGroup + 1
      invariant forall j :: j in plans <==> 1 <= j < k && Plan(cache, maxIdx, j) != []
      invariant forall j :: j in plans ==> plans[j] == Plan(cache, maxIdx, j)
    {
      TableHoldsPlan(cache, dp, parent, k, maxIdx);
      if dp[k][maxIdx].Fin? {
        var scheme := ReconstructScheme(parent, k, maxIdx);
        if scheme != [] {
          plans := plans[k := scheme];
        }
      }
    }
  }

  /** A filled table has a finite last entry exactly when there is a plan, and its parents spell it out. */
  lemma {:induction false} TableHoldsPlan(cache: seq<Cell>, dp: seq<seq<Cost>>, parent: ParentMap, k: nat,
                                          maxIdx: nat)
    requires WellFormed(cache, maxIdx) && 1 <= k < |dp|
    requires forall a :: 0 <= a < |dp| ==> |dp[a]| == maxIdx + 1 && RowExact(cache, dp[a], parent, a)
    ensures dp[k][maxIdx].Fin? <==> Plan(cache, maxIdx, k) != []
    ensures dp[k][maxIdx].Fin? ==> WalkBack(parent, k, maxIdx) == Some(Plan(cache, maxIdx, k))
  {
    forall a, b | 0 <= a <= k && 0 <= b <= maxIdx
      ensures Records(Best(cache, a, b), parent, a, b)
    {
      assert RowExact(cache, dp[a], parent, a);
      assert Agrees(Best(cache, a, b), dp[a][b], parent, a, b);
    }
    assert Agrees(Best(cache, k, maxIdx), dp[k][maxIdx], parent, k, maxIdx) by {
      assert RowExact(cache, dp[k], parent, k);
    }
    WalkBackIsTrace(cache, parent, k, maxIdx, maxIdx);
    if !Best(cache, k, maxIdx).Unreached? {
      TraceAttainsBest(cache, k, maxIdx);
    }
  }

  /** What a plan is: a least-cost contiguous partition into `k` usable cells,
      present exactly when any such partition exists. */
  lemma PlanIsOptimalPartition(cache: seq<Cell>, maxIdx: int, k: int)
    requires k >= 1
    ensures var plan := Plan(cache, maxIdx, k);
            && (plan != [] <==> exists cells :: IsChain(cache, cells, maxIdx) && |cells| == k)
            && (plan != [] ==> |plan| == k && IsChain(cache, plan, maxIdx))
    ensures forall cells :: IsChain(cache, cells, maxIdx) && |cells| == k ==>
              Plan(cache, maxIdx, k) != [] && ChainCost(Plan(cache, maxIdx, k)) <= ChainCost(cells)
  {
    TableEntryIsExact(cache, k, maxIdx);
    if !Best(cache, k, maxIdx).Unreached? {
      TraceAttainsBest(cache, k, maxIdx);
    }
  }
}
