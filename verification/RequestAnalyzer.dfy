/**
  `RequestAnalyzer`: statistics of an agent's requests whose context length falls
  in a range, over recorded workflow traces.

  Node ids are parsed into invocation and repeat.  Python dictionaries that are
  iterated are association lists in insertion order.
 */
module RequestAnalyzer {
  import opened Collections
  import opened StableSort

  /** A token field is a number or a list whose sum counts. */
  datatype Tokens = Number(n: int) | Listed(xs: seq<int>)

  datatype Record = Record(agent: string, invocation: string, repeat: int,
                           input: Tokens, output: Tokens, cached: Tokens)

  datatype Trace = Trace(key: string, records: seq<Record>)

  datatype Call = Call(input: int, output: int, cached: int) {
    function Context(): int { input + cached }
  }

  /** All calls of one invocation, in the order of their repeats. */
  datatype Invocation = Invocation(uid: string, calls: seq<Call>)

  datatype Group = Group(invocation: string, repeats: seq<(int, Record)>)

  function Amount(t: Tokens): int {
    match t
    case Number(n) => n
    case Listed(xs) => Sum(xs)
  }

  function CallOf(r: Record): Call {
    Call(Amount(r.input), Amount(r.output), Amount(r.cached))
  }

  // ---------------------------------------------------------------- grouping

  /** `dict[key] = value`: replace in place or append. */
  function PutRepeat(repeats: seq<(int, Record)>, r: Record): seq<(int, Record)> {
    if repeats == [] then [(r.repeat, r)]
    else if repeats[0].0 == r.repeat then [(r.repeat, r)] + repeats[1..]
    else [repeats[0]] + PutRepeat(repeats[1..], r)
  }

  function PutGroup(groups: seq<Group>, r: Record): seq<Group> {
    if groups == [] then [Group(r.invocation, [(r.repeat, r)])]
    else if groups[0].invocation == r.invocation then
      [Group(r.invocation, PutRepeat(groups[0].repeats, r))] + groups[1..]
    else [groups[0]] + PutGroup(groups[1..], r)
  }

  /** `agent_nodes` after the first records of one trace. */
  function Grouped(records: seq<Record>, agent: string): seq<Group> {
    if records == [] then []
    else
      var front := Grouped(records[..|records| - 1], agent);
      var r := records[|records| - 1];
      if r.agent != agent then front else PutGroup(front, r)
  }

  function RepeatKey(e: (int, Record)): Key { (e.0, 0) }

  function InvocationOf(trace: string, g: Group): Invocation {
    var ordered := Sort(RepeatKey, g.repeats);
    Invocation(trace + "_" + g.invocation, seq(|ordered|, i requires 0 <= i < |ordered| => CallOf(ordered[i].1)))
  }

  function InvocationsOf(trace: string, groups: seq<Group>): (r: seq<Invocation>)
    ensures |r| == |groups|
  {
    seq(|groups|, i requires 0 <= i < |groups| => InvocationOf(trace, groups[i]))
  }

  /** Every invocation of the agent, over all traces. */
  function AllInvocations(nodeList: seq<Trace>, agent: string): seq<Invocation> {
    if nodeList == [] then []
    else
      var t := nodeList[|nodeList| - 1];
      AllInvocations(nodeList[..|nodeList| - 1], agent) + InvocationsOf(t.key, Grouped(t.records, agent))
  }

  // ---------------------------------------------------------------- what grouping keeps

  function FindRepeat(repeats: seq<(int, Record)>, repeat: int): Option<Record> {
    if repeats == [] then None
    else if repeats[0].0 == repeat then Some(repeats[0].1)
    else FindRepeat(repeats[1..], repeat)
  }

  function Find(groups: seq<Group>, invocation: string, repeat: int): Option<Record> {
    if groups == [] then None
    else if groups[0].invocation == invocation then FindRepeat(groups[0].repeats, repeat)
    else Find(groups[1..], invocation, repeat)
  }

  /** The last record of the agent with this invocation and repeat. */
  function Latest(records: seq<Record>, agent: string, invocation: string, repeat: int): Option<Record> {
    if records == [] then None
    else
      var r := records[|records| - 1];
      if r.agent == agent && r.invocation == invocation && r.repeat == repeat then Some(r)
      else Latest(records[..|records| - 1], agent, invocation, repeat)
  }

  lemma {:induction false} FindAfterPutRepeat(repeats: seq<(int, Record)>, r: Record, repeat: int)
    ensures FindRepeat(PutRepeat(repeats, r), repeat) ==
            if repeat == r.repeat then Some(r) else FindRepeat(repeats, repeat)
  {
    if repeats != [] && repeats[0].0 != r.repeat {
      FindAfterPutRepeat(repeats[1..], r, repeat);
      assert PutRepeat(repeats, r)[1..] == PutRepeat(repeats[1..], r);
    }
  }

  lemma {:induction false} FindAfterPut(groups: seq<Group>, r: Record, invocation: string, repeat: int)
    ensures Find(PutGroup(groups, r), invocation, repeat) ==
            if invocation == r.invocation && repeat == r.repeat then Some(r) else Find(groups, invocation, repeat)
  {
    if groups != [] {
      if groups[0].invocation == r.invocation {
        FindAfterPutRepeat(groups[0].repeats, r, repeat);
      } else {
        FindAfterPut(groups[1..], r, invocation, repeat);
        assert PutGroup(groups, r)[1..] == PutGroup(groups[1..], r);
      }
    } else {
      FindAfterPutRepeat([], r, repeat);
      assert PutGroup(groups, r)[1..] == [];
    }
  }

  /** Grouping keeps, for every invocation and repeat, exactly the latest record of the agent. */
  lemma {:induction false} GroupingKeepsLatest(records: seq<Record>, agent: string, invocation: string, repeat: int)
    ensures Find(Grouped(records, agent), invocation, repeat) == Latest(records, agent, invocation, repeat)
  {
    if records != [] {
      GroupingKeepsLatest(records[..|records| - 1], agent, invocation, repeat);
      FindAfterPut(Grouped(records[..|records| - 1], agent), records[|records| - 1], invocation, repeat);
    }
  }

  ghost predicate DistinctRepeats(repeats: seq<(int, Record)>) {
    forall i, j :: 0 <= i < j < |repeats| ==> repeats[i].0 != repeats[j].0
  }

  /** Nothing is counted twice: one group per invocation, one entry per repeat. */
  ghost predicate DistinctGroups(groups: seq<Group>) {
    && (forall i, j :: 0 <= i < j < |groups| ==> groups[i].invocation != groups[j].invocation)
    && (forall i :: 0 <= i < |groups| ==> DistinctRepeats(groups[i].repeats))
  }

  lemma {:induction false} PutRepeatDistinct(repeats: seq<(int, Record)>, r: Record)
    requires DistinctRepeats(repeats)
    ensures DistinctRepeats(PutRepeat(repeats, r))
    ensures forall e :: e in PutRepeat(repeats, r) ==> e.0 == r.repeat || e in repeats
  {
    if repeats != [] && repeats[0].0 != r.repeat {
      PutRepeatDistinct(repeats[1..], r);
      var rest := PutRepeat(repeats[1..], r);
      forall e | e in rest
        ensures e.0 != repeats[0].0
      {
        if e.0 != r.repeat {
          var j :| 0 <= j < |repeats[1..]| && repeats[1..][j] == e;
          assert repeats[j + 1] == e;
        }
      }
    }
  }

  lemma {:induction false} PutGroupDistinct(groups: seq<Group>, r: Record)
    requires DistinctGroups(groups)
    ensures DistinctGroups(PutGroup(groups, r))
    ensures forall g :: g in PutGroup(groups, r) ==>
              g.invocation == r.invocation || exists i :: 0 <= i < |groups| && groups[i].invocation == g.invocation
  {
    if groups != [] {
      if groups[0].invocation == r.invocation {
        PutRepeatDistinct(groups[0].repeats, r);
      } else {
        PutGroupDistinct(groups[1..], r);
        var rest := PutGroup(groups[1..], r);
        forall g | g in rest
          ensures g.invocation != groups[0].invocation
          ensures g.invocation == r.invocation || exists i :: 0 <= i < |groups| && groups[i].invocation == g.invocation
        {
          if g.invocation != r.invocation {
            var i :| 0 <= i < |groups[1..]| && groups[1..][i].invocation == g.invocation;
            assert groups[i + 1].invocation == g.invocation;
          }
        }
      }
    }
  }

  lemma {:induction false} GroupingIsDistinct(records: seq<Record>, agent: string)
    ensures DistinctGroups(Grouped(records, agent))
  {
    if records != [] {
      GroupingIsDistinct(records[..|records| - 1], agent);
      PutGroupDistinct(Grouped(records[..|records| - 1], agent), records[|records| - 1]);
    }
  }

  /** The calls of an invocation come in strictly increasing order of repeat. */
  lemma RepeatsInOrder(g: Group, i: nat, j: nat)
    requires DistinctRepeats(g.repeats) && i < j < |g.repeats|
    ensures var ordered := Sort(RepeatKey, g.repeats);
            multiset(ordered) == multiset(g.repeats) && ordered[i].0 < ordered[j].0
  {
    var ordered := Sort(RepeatKey, g.repeats);
    SortSorts(RepeatKey, g.repeats);
    PermutationFacts(g.repeats, ordered);
    assert Leq(RepeatKey(ordered[i]), RepeatKey(ordered[j]));
    assert ordered[i] != ordered[j] && ordered[i] in g.repeats && ordered[j] in g.repeats;
  }

  // ---------------------------------------------------------------- the accumulators

  datatype Totals = Totals(calls: nat, out: nat, decode: int, prefill: int, cached: int, maxLength: int,
                           inRange: set<string>, all: set<string>)

  const ZERO := Totals(0, 0, 0, 0, 0, 0, {}, {})

  predicate InRange(c: Call, lo: int, hi: int) {
    lo <= c.Context() <= hi
  }

  /** Call `i` is in range and the next one, if any, is not. */
  predicate EndsRun(calls: seq<Call>, lo: int, hi: int, i: int) {
    0 <= i < |calls| && InRange(calls[i], lo, hi) && (i == |calls| - 1 || !InRange(calls[i + 1], lo, hi))
  }

  function AddCall(t: Totals, inv: Invocation, lo: int, hi: int, i: nat): Totals
    requires i < |inv.calls|
  {
    var c := inv.calls[i];
    if !InRange(c, lo, hi) then t
    else
      var length := c.Context() + c.output;
      Totals(t.calls + 1, t.out + (if EndsRun(inv.calls, lo, hi, i) then 1 else 0),
             t.decode + c.output, t.prefill + c.input, t.cached + c.cached,
             if length > t.maxLength then length else t.maxLength, t.inRange + {inv.uid}, t.all)
  }

  function AddCalls(t: Totals, inv: Invocation, lo: int, hi: int, n: nat): Totals
    requires n <= |inv.calls|
  {
    if n == 0 then t else AddCall(AddCalls(t, inv, lo, hi, n - 1), inv, lo, hi, n - 1)
  }

  function AddInvocation(t: Totals, inv: Invocation, lo: int, hi: int): Totals {
    AddCalls(t.(all := t.all + {inv.uid}), inv, lo, hi, |inv.calls|)
  }

  function TotalsOf(invs: seq<Invocation>, lo: int, hi: int): Totals {
    if invs == [] then ZERO
    else AddInvocation(TotalsOf(invs[..|invs| - 1], lo, hi), invs[|invs| - 1], lo, hi)
  }

  datatype Stats = Stats(avgDecode: int, avgPrefill: int, avgCached: int, maxLength: int,
                         outProportion: real, queryProportion: real)

  function StatsOf(t: Totals, reuse: bool): Stats {
    if t.calls == 0 then Stats(0, 0, 0, 0, 0.0, 0.0)
    else
      Stats(t.decode / t.calls,
            if reuse then t.prefill / t.calls else t.prefill / t.calls + t.cached / t.calls,
            if reuse then t.cached / t.calls else 0,
            t.maxLength,
            t.out as real / t.calls as real,
            |t.inRange| as real / (if |t.all| > 1 then |t.all| else 1) as real)
  }

  function RangeStats(nodeList: seq<Trace>, lo: int, hi: int, agent: string, reuse: bool): Stats {
    StatsOf(TotalsOf(AllInvocations(nodeList, agent), lo, hi), reuse)
  }

  // ---------------------------------------------------------------- the code

  method GroupRecords(records: seq<Record>, agent: string) returns (groups: seq<Group>)
    ensures groups == Grouped(records, agent)
  {
    groups := [];
    for i := 0 to |records|
      invariant groups == Grouped(records[..i], agent)
    {
      assert records[..i + 1][..i] == records[..i];
      if records[i].agent == agent {
        groups := PutGroup(groups, records[i]);
      }
    }
    assert records[..|records|] == records;
  }

  /** The loop over one invocation's ordered repeats. */
  method CountInvocation(t0: Totals, inv: Invocation, lo: int, hi: int) returns (t: Totals)
    ensures t == AddInvocation(t0, inv, lo, hi)
  {
    t := t0.(all := t0.all + {inv.uid});
    for i := 0 to |inv.calls|
      invariant t == AddCalls(t0.(all := t0.all + {inv.uid}), inv, lo, hi, i)
    {
      var c := inv.calls[i];
      if lo <= c.Context() <= hi {
        var out := 0;
        if i == |inv.calls| - 1 {
          out := 1;
        } else if !(lo <= inv.calls[i + 1].Context() <= hi) {
          out := 1;
        }
        var length := c.Context() + c.output;
        t := Totals(t.calls + 1, t.out + out, t.decode + c.output, t.prefill + c.input, t.cached + c.cached,
                    if length > t.maxLength then length else t.maxLength, t.inRange + {inv.uid}, t.all);
      }
    }
  }

  lemma {:induction false} TotalsSnoc(invs: seq<Invocation>, inv: Invocation, lo: int, hi: int)
    ensures TotalsOf(invs + [inv], lo, hi) == AddInvocation(TotalsOf(invs, lo, hi), inv, lo, hi)
  {
    assert (invs + [inv])[..|invs|] == invs;
  }

  lemma {:induction false} TotalsOneMore(before: seq<Invocation>, here: seq<Invocation>, n: nat, lo: int, hi: int)
    requires n < |here|
    ensures TotalsOf(before + here[..n + 1], lo, hi) ==
            AddInvocation(TotalsOf(before + here[..n], lo, hi), here[n], lo, hi)
  {
    assert before + here[..n + 1] == before + here[..n] + [here[n]];
    TotalsSnoc(before + here[..n], here[n], lo, hi);
  }

  /** The loop over one trace's invocations. */
  method CountTrace(t0: Totals, key: string, groups: seq<Group>, lo: int, hi: int, ghost before: seq<Invocation>)
    returns (t: Totals)
    requires t0 == TotalsOf(before, lo, hi)
    ensures t == TotalsOf(before + InvocationsOf(key, groups), lo, hi)
  {
    t := t0;
    ghost var here := InvocationsOf(key, groups);
    NothingMore(before, here);
    for n := 0 to |groups|
      invariant t == TotalsOf(before + here[..n], lo, hi)
    {
      TotalsOneMore(before, here, n, lo, hi);
      var inv := InvocationOf(key, groups[n]);
      assert here[n] == inv;
      t := CountInvocation(t, inv, lo, hi);
    }
  }

  lemma NothingMore(before: seq<Invocation>, here: seq<Invocation>)
    ensures before + here[..0] == before && here[..|here|] == here
  {}

  /** `_compute_range_stats`. */
  method ComputeRangeStats(nodeList: seq<Trace>, lo: int, hi: int, agent: string, reuse: bool) returns (r: Stats)
    ensures r == RangeStats(nodeList, lo, hi, agent, reuse)
    ensures DescribesRange(AllInvocations(nodeList, agent), lo, hi, reuse, r)
  {
    var t := ZERO;
    for k := 0 to |nodeList|
      invariant t == TotalsOf(AllInvocations(nodeList[..k], agent), lo, hi)
    {
      assert nodeList[..k + 1][..k] == nodeList[..k];
      var groups := GroupRecords(nodeList[k].records, agent);
      t := CountTrace(t, nodeList[k].key, groups, lo, hi, AllInvocations(nodeList[..k], agent));
    }
    assert nodeList[..|nodeList|] == nodeList;
    StatsDescribeRange(AllInvocations(nodeList, agent), lo, hi, reuse);
    r := StatsOf(t, reuse);
  }

  /** The analyzer with its memo of earlier answers. */
  class Analyzer {
    const nodeList: seq<Trace>
    var rangeCache: map<(int, int, string, bool), Stats>

    /** Every remembered answer is what recomputation would give. */
    ghost predicate Valid()
      reads this
    {
      forall lo, hi, agent, reuse :: (lo, hi, agent, reuse) in rangeCache ==>
        rangeCache[(lo, hi, agent, reuse)] == RangeStats(nodeList, lo, hi, agent, reuse)
    }

    constructor (nodeList: seq<Trace>)
      ensures Valid() && this.nodeList == nodeList
    {
      this.nodeList := nodeList;
      rangeCache := map[];
    }

    method GetRequestsInRange(lo: int, hi: int, agent: string, reuse: bool, useCache: bool) returns (r: Stats)
      requires Valid()
      modifies this`rangeCache
      ensures Valid() && r == RangeStats(nodeList, lo, hi, agent, reuse)
      ensures DescribesRange(AllInvocations(nodeList, agent), lo, hi, reuse, r)
      ensures rangeCache.Keys == old(rangeCache.Keys) + (if useCache then {(lo, hi, agent, reuse)} else {})
    {
      var key := (lo, hi, agent, reuse);
      StatsDescribeRange(AllInvocations(nodeList, agent), lo, hi, reuse);
      if useCache && key in rangeCache {
        return rangeCache[key];
      }
      r := ComputeRangeStats(nodeList, lo, hi, agent, reuse);
      if useCache {
        rangeCache := rangeCache[key := r];
      }
    }

    method ClearCache()
      modifies this`rangeCache
      ensures Valid() && rangeCache == map[]
    {
      rangeCache := map[];
    }
  }

  // ---------------------------------------------------------------- what the numbers mean

  /** calls[i..j] inclusive is a maximal stretch of in-range calls. */
  ghost predicate IsRun(calls: seq<Call>, lo: int, hi: int, i: int, j: int) {
    && 0 <= i <= j < |calls|
    && (forall k :: i <= k <= j ==> InRange(calls[k], lo, hi))
    && (i == 0 || !InRange(calls[i - 1], lo, hi))
    && (j == |calls| - 1 || !InRange(calls[j + 1], lo, hi))
  }

  ghost function Runs(calls: seq<Call>, lo: int, hi: int): set<(int, int)> {
    set i, j | 0 <= i < |calls| && 0 <= j < |calls| && IsRun(calls, lo, hi, i, j) :: (i, j)
  }

  ghost function RunTotal(invs: seq<Invocation>, lo: int, hi: int): nat {
    if invs == [] then 0
    else RunTotal(invs[..|invs| - 1], lo, hi) + |Runs(invs[|invs| - 1].calls, lo, hi)|
  }

  /** Start of the stretch of in-range calls that reaches `j`. */
  ghost function RunStart(calls: seq<Call>, lo: int, hi: int, j: nat): (i: nat)
    requires j < |calls| && InRange(calls[j], lo, hi)
    ensures i <= j && (forall k :: i <= k <= j ==> InRange(calls[k], lo, hi))
    ensures i == 0 || !InRange(calls[i - 1], lo, hi)
  {
    if j == 0 || !InRange(calls[j - 1], lo, hi) then j else RunStart(calls, lo, hi, j - 1)
  }

  lemma {:induction false} RunStartUnique(calls: seq<Call>, lo: int, hi: int, i: nat, j: nat)
    requires i <= j < |calls| && forall k :: i <= k <= j ==> InRange(calls[k], lo, hi)
    requires i == 0 || !InRange(calls[i - 1], lo, hi)
    ensures RunStart(calls, lo, hi, j) == i
  {
    if i < j {
      RunStartUnique(calls, lo, hi, i, j - 1);
    }
  }

  function EndCount(calls: seq<Call>, lo: int, hi: int, n: nat): nat
    requires n <= |calls|
  {
    if n == 0 then 0
    else EndCount(calls, lo, hi, n - 1) + (if EndsRun(calls, lo, hi, n - 1) then 1 else 0)
  }

  ghost function RunsBefore(calls: seq<Call>, lo: int, hi: int, n: nat): set<(int, int)> {
    set r | r in Runs(calls, lo, hi) && r.1 < n
  }

  /** At most one run ends at a given position, and it does exactly when the position ends a run. */
  lemma RunsOneMore(calls: seq<Call>, lo: int, hi: int, n: nat)
    requires n < |calls|
    ensures RunsBefore(calls, lo, hi, n + 1) == RunsBefore(calls, lo, hi, n) +
              (if EndsRun(calls, lo, hi, n) then {(RunStart(calls, lo, hi, n) as int, n as int)} else {})
  {
    forall r | r in RunsBefore(calls, lo, hi, n + 1) && r.1 == n
      ensures EndsRun(calls, lo, hi, n) && r == (RunStart(calls, lo, hi, n), n)
    {
      assert IsRun(calls, lo, hi, r.0, r.1);
      RunStartUnique(calls, lo, hi, r.0, n);
    }
    if EndsRun(calls, lo, hi, n) {
      assert IsRun(calls, lo, hi, RunStart(calls, lo, hi, n), n);
      assert (RunStart(calls, lo, hi, n), n) in Runs(calls, lo, hi);
    }
  }

  /** Runs that end before position `n` are counted by their ends. */
  lemma {:induction false} RunsByEnds(calls: seq<Call>, lo: int, hi: int, n: nat)
    requires n <= |calls|
    ensures EndCount(calls, lo, hi, n) == |RunsBefore(calls, lo, hi, n)|
  {
    if n == 0 {
      assert RunsBefore(calls, lo, hi, 0) == {};
    } else {
      RunsByEnds(calls, lo, hi, n - 1);
      RunsOneMore(calls, lo, hi, n - 1);
    }
  }

  lemma RunsAllBefore(calls: seq<Call>, lo: int, hi: int)
    ensures RunsBefore(calls, lo, hi, |calls|) == Runs(calls, lo, hi)
  {}

  lemma {:induction false} AddCallsCounts(t: Totals, inv: Invocation, lo: int, hi: int, n: nat)
    requires n <= |inv.calls|
    ensures var u := AddCalls(t, inv, lo, hi, n);
            && u.out == t.out + EndCount(inv.calls, lo, hi, n)
            && u.out - t.out <= u.calls - t.calls && t.calls <= u.calls && t.out <= u.out
            && u.all == t.all
            && u.inRange == t.inRange + (if u.calls > t.calls then {inv.uid} else {})
  {
    if n > 0 {
      AddCallsCounts(t, inv, lo, hi, n - 1);
    }
  }

  /** An invocation with an in-range call has at least one run. */
  lemma {:induction false} InRangeCallHasRun(t: Totals, inv: Invocation, lo: int, hi: int)
    requires AddCalls(t, inv, lo, hi, |inv.calls|).calls > t.calls
    ensures EndCount(inv.calls, lo, hi, |inv.calls|) >= 1
  {
    var i := FindInRange(t, inv, lo, hi, |inv.calls|);
    var j := i;
    while j < |inv.calls| - 1 && InRange(inv.calls[j + 1], lo, hi)
      invariant i <= j < |inv.calls| && InRange(inv.calls[j], lo, hi)
    {
      j := j + 1;
    }
    assert EndsRun(inv.calls, lo, hi, j);
    EndIsCounted(inv.calls, lo, hi, j, |inv.calls|);
  }

  lemma {:induction false} FindInRange(t: Totals, inv: Invocation, lo: int, hi: int, n: nat) returns (i: nat)
    requires n <= |inv.calls| && AddCalls(t, inv, lo, hi, n).calls > t.calls
    ensures i < n && InRange(inv.calls[i], lo, hi)
  {
    if InRange(inv.calls[n - 1], lo, hi) {
      i := n - 1;
    } else {
      i := FindInRange(t, inv, lo, hi, n - 1);
    }
  }

  lemma {:induction false} EndIsCounted(calls: seq<Call>, lo: int, hi: int, j: nat, n: nat)
    requires j < n <= |calls| && EndsRun(calls, lo, hi, j)
    ensures EndCount(calls, lo, hi, n) >= 1
  {
    if j < n - 1 {
      EndIsCounted(calls, lo, hi, j, n - 1);
    }
  }

  /** Range statistics count runs: the out counter is the number of maximal in-range runs over
      all invocations, so invocations in range <= out <= calls, and at most all invocations are in range. */
  lemma {:induction false} OutCountsRuns(invs: seq<Invocation>, lo: int, hi: int)
    ensures var t := TotalsOf(invs, lo, hi);
            && t.out == RunTotal(invs, lo, hi)
            && |t.inRange| <= t.out <= t.calls
            && t.inRange <= t.all && t.all == set inv | inv in invs :: inv.uid
  {
    if invs != [] {
      var front, inv := invs[..|invs| - 1], invs[|invs| - 1];
      OutCountsRuns(front, lo, hi);
      assert invs == front + [inv];
      var t := TotalsOf(front, lo, hi);
      var t' := t.(all := t.all + {inv.uid});
      AddCallsCounts(t', inv, lo, hi, |inv.calls|);
      RunsByEnds(inv.calls, lo, hi, |inv.calls|);
      RunsAllBefore(inv.calls, lo, hi);
      var u := TotalsOf(invs, lo, hi);
      if u.calls > t.calls {
        InRangeCallHasRun(t', inv, lo, hi);
        assert |t.inRange + {inv.uid}| <= |t.inRange| + 1;
      }
    }
  }

  /** No call is longer than the recorded maximum, so totals are below calls * maximum. */
  ghost predicate WithinMaximum(t: Totals) {
    t.maxLength >= 0 && t.decode + t.prefill + t.cached <= t.calls * t.maxLength
  }

  lemma AddCallWithinMaximum(t: Totals, inv: Invocation, lo: int, hi: int, i: nat)
    requires WithinMaximum(t) && i < |inv.calls|
    ensures WithinMaximum(AddCall(t, inv, lo, hi, i))
  {
    var u, c := AddCall(t, inv, lo, hi, i), inv.calls[i];
    if InRange(c, lo, hi) {
      GrowMaximum(t.calls, t.maxLength, u.maxLength);
    }
  }

  lemma GrowMaximum(calls: nat, m: int, m': int)
    requires m <= m'
    ensures calls * m + m' <= (calls + 1) * m'
  {
    assert calls * (m' - m) >= 0;
  }

  lemma {:induction false} AddCallsWithinMaximum(t: Totals, inv: Invocation, lo: int, hi: int, n: nat)
    requires WithinMaximum(t) && n <= |inv.calls|
    ensures WithinMaximum(AddCalls(t, inv, lo, hi, n))
  {
    if n > 0 {
      AddCallsWithinMaximum(t, inv, lo, hi, n - 1);
      AddCallWithinMaximum(AddCalls(t, inv, lo, hi, n - 1), inv, lo, hi, n - 1);
    }
  }

  lemma {:induction false} TotalsWithinMaximum(invs: seq<Invocation>, lo: int, hi: int)
    ensures WithinMaximum(TotalsOf(invs, lo, hi))
  {
    if invs != [] {
      TotalsWithinMaximum(invs[..|invs| - 1], lo, hi);
      var t := TotalsOf(invs[..|invs| - 1], lo, hi);
      AddCallsWithinMaximum(t.(all := t.all + {invs[|invs| - 1].uid}), invs[|invs| - 1], lo, hi,
                            |invs[|invs| - 1].calls|);
    }
  }

  /** The three averages together never exceed the longest request, with or without reuse,
      and both proportions are between 0 and 1. */
  lemma AveragesBelowMaximum(nodeList: seq<Trace>, lo: int, hi: int, agent: string, reuse: bool)
    ensures var s := RangeStats(nodeList, lo, hi, agent, reuse);
            && s.avgDecode + s.avgPrefill + s.avgCached <= s.maxLength
            && 0.0 <= s.outProportion <= 1.0 && 0.0 <= s.queryProportion <= 1.0
  {
    var invs := AllInvocations(nodeList, agent);
    var t := TotalsOf(invs, lo, hi);
    TotalsWithinMaximum(invs, lo, hi);
    OutCountsRuns(invs, lo, hi);
    if t.calls > 0 {
      FloorsBelow(t.decode, t.prefill, t.cached, t.calls, t.maxLength);
      Fraction(t.out, t.calls);
      SubsetSize(t.inRange, t.all);
      Fraction(|t.inRange|, if |t.all| > 1 then |t.all| else 1);
    }
  }

  lemma Fraction(a: nat, b: nat)
    requires a <= b && b > 0
    ensures 0.0 <= a as real / b as real <= 1.0
  {}

  lemma FloorsBelow(a: int, b: int, c: int, n: nat, m: int)
    requires n > 0 && a + b + c <= n * m
    ensures a / n + b / n + c / n <= m
  {
    assert n * (a / n) <= a && n * (b / n) <= b && n * (c / n) <= c;
    var q := a / n + b / n + c / n;
    assert n * q == n * (a / n) + n * (b / n) + n * (c / n);
    CancelFactor(n, q, m);
  }

  lemma CancelFactor(n: nat, q: int, m: int)
    requires n > 0 && n * q <= n * m
    ensures q <= m
  {
    assert n * (q - m) <= 0;
    NotPositive(n, q - m);
  }

  lemma NotPositive(n: nat, e: int)
    requires n > 0 && n * e <= 0
    ensures e <= 0
  {}

  // ---------------------------------------------------------------- the statistics, from the calls alone

  /** The in-range calls among these, in order. */
  function CallsIn(calls: seq<Call>, lo: int, hi: int): seq<Call> {
    if calls == [] then []
    else
      var front, c := CallsIn(calls[..|calls| - 1], lo, hi), calls[|calls| - 1];
      if lo <= c.input + c.cached <= hi then front + [c] else front
  }

  /** The in-range calls of all invocations. */
  function AllCallsIn(invs: seq<Invocation>, lo: int, hi: int): seq<Call> {
    if invs == [] then []
    else AllCallsIn(invs[..|invs| - 1], lo, hi) + CallsIn(invs[|invs| - 1].calls, lo, hi)
  }

  function OutputSum(cs: seq<Call>): int {
    if cs == [] then 0 else OutputSum(cs[..|cs| - 1]) + cs[|cs| - 1].output
  }

  function InputSum(cs: seq<Call>): int {
    if cs == [] then 0 else InputSum(cs[..|cs| - 1]) + cs[|cs| - 1].input
  }

  function CachedSum(cs: seq<Call>): int {
    if cs == [] then 0 else CachedSum(cs[..|cs| - 1]) + cs[|cs| - 1].cached
  }

  /** `a` is the average of `n` numbers with this sum, rounded down. */
  ghost predicate IsAverage(a: int, total: int, n: nat) {
    n * a <= total < n * (a + 1)
  }

  /** `m` is the greatest context plus output of the calls, and at least 0. */
  ghost predicate IsLongest(cs: seq<Call>, m: int) {
    && m >= 0 && (forall c :: c in cs ==> c.input + c.cached + c.output <= m)
    && (m == 0 || exists c :: c in cs && c.input + c.cached + c.output == m)
  }

  ghost predicate HasCallIn(inv: Invocation, lo: int, hi: int) {
    exists i :: 0 <= i < |inv.calls| && lo <= inv.calls[i].input + inv.calls[i].cached <= hi
  }

  ghost function Uids(invs: seq<Invocation>): set<string> {
    set inv | inv in invs :: inv.uid
  }

  ghost function UidsIn(invs: seq<Invocation>, lo: int, hi: int): set<string> {
    set inv | inv in invs && HasCallIn(inv, lo, hi) :: inv.uid
  }

  /** `share` is the fraction a / b. */
  ghost predicate IsShare(share: real, a: nat, b: nat) {
    share * b as real == a as real
  }

  /** The statistics of the agent's in-range calls. */
  ghost predicate DescribesRange(invs: seq<Invocation>, lo: int, hi: int, reuse: bool, s: Stats) {
    var cs := AllCallsIn(invs, lo, hi);
    if cs == [] then s == Stats(0, 0, 0, 0, 0.0, 0.0)
    else
      && IsAverage(s.avgDecode, OutputSum(cs), |cs|)
      && AveragesInput(cs, reuse, s)
      && IsLongest(cs, s.maxLength)
      && IsShare(s.outProportion, RunTotal(invs, lo, hi), |cs|)
      && IsShare(s.queryProportion, |UidsIn(invs, lo, hi)|, |Uids(invs)|)
  }

  /** Inputs and cached tokens are averaged apart; without reuse the cached part counts as input. */
  ghost predicate AveragesInput(cs: seq<Call>, reuse: bool, s: Stats) {
    if reuse then IsAverage(s.avgPrefill, InputSum(cs), |cs|) && IsAverage(s.avgCached, CachedSum(cs), |cs|)
    else
      && s.avgCached == 0
      && exists part :: IsAverage(part, CachedSum(cs), |cs|) && IsAverage(s.avgPrefill - part, InputSum(cs), |cs|)
  }

  /** The accumulators are those of the calls `cs`. */
  ghost predicate Accumulates(t: Totals, cs: seq<Call>) {
    && t.calls == |cs| && IsLongest(cs, t.maxLength)
    && t.decode == OutputSum(cs) && t.prefill == InputSum(cs) && t.cached == CachedSum(cs)
  }

  lemma AccumulateOne(t: Totals, cs: seq<Call>, inv: Invocation, lo: int, hi: int, i: nat)
    requires Accumulates(t, cs) && i < |inv.calls| && InRange(inv.calls[i], lo, hi)
    ensures Accumulates(AddCall(t, inv, lo, hi, i), cs + [inv.calls[i]])
  {
    var c := inv.calls[i];
    assert (cs + [c])[..|cs|] == cs;
    LongestOfOneMore(cs, c, t.maxLength);
  }

  lemma LongestOfOneMore(cs: seq<Call>, c: Call, m: int)
    requires IsLongest(cs, m)
    ensures var length := c.input + c.cached + c.output; IsLongest(cs + [c], if length > m then length else m)
  {
    assert forall d :: d in cs + [c] <==> d in cs || d == c;
  }

  lemma {:induction false} AccumulateCalls(t: Totals, cs: seq<Call>, inv: Invocation, lo: int, hi: int, n: nat)
    requires Accumulates(t, cs) && n <= |inv.calls|
    ensures Accumulates(AddCalls(t, inv, lo, hi, n), cs + CallsIn(inv.calls[..n], lo, hi))
  {
    if n == 0 {
      assert cs + CallsIn(inv.calls[..0], lo, hi) == cs;
    } else {
      AccumulateCalls(t, cs, inv, lo, hi, n - 1);
      OneMoreCallIn(cs, inv.calls, lo, hi, n - 1);
      if InRange(inv.calls[n - 1], lo, hi) {
        AccumulateOne(AddCalls(t, inv, lo, hi, n - 1), cs + CallsIn(inv.calls[..n - 1], lo, hi), inv, lo, hi, n - 1);
      }
    }
  }

  lemma {:induction false} OneMoreCallIn(cs: seq<Call>, calls: seq<Call>, lo: int, hi: int, n: nat)
    requires n < |calls|
    ensures cs + CallsIn(calls[..n + 1], lo, hi) ==
            if InRange(calls[n], lo, hi) then cs + CallsIn(calls[..n], lo, hi) + [calls[n]]
            else cs + CallsIn(calls[..n], lo, hi)
  {
    assert calls[..n + 1][..n] == calls[..n];
  }

  lemma {:induction false} TotalsAccumulate(invs: seq<Invocation>, lo: int, hi: int)
    ensures Accumulates(TotalsOf(invs, lo, hi), AllCallsIn(invs, lo, hi))
  {
    if invs != [] {
      var k := |invs| - 1;
      TotalsAccumulate(invs[..k], lo, hi);
      var t := TotalsOf(invs[..k], lo, hi);
      AccumulateCalls(t.(all := t.all + {invs[k].uid}), AllCallsIn(invs[..k], lo, hi), invs[k], lo, hi,
                      |invs[k].calls|);
      assert invs[k].calls[..|invs[k].calls|] == invs[k].calls;
    }
  }

  /** An invocation is counted as in range exactly when one of its calls is. */
  lemma {:induction false} AddCallsMarks(t: Totals, inv: Invocation, lo: int, hi: int, n: nat)
    requires n <= |inv.calls|
    ensures var u := AddCalls(t, inv, lo, hi, n);
            u.inRange == t.inRange + if exists i :: 0 <= i < n && InRange(inv.calls[i], lo, hi) then {inv.uid} else {}
  {
    if n > 0 {
      AddCallsMarks(t, inv, lo, hi, n - 1);
    }
  }

  lemma {:induction false} TotalsMark(invs: seq<Invocation>, lo: int, hi: int)
    ensures TotalsOf(invs, lo, hi).inRange == UidsIn(invs, lo, hi)
  {
    if invs != [] {
      var k := |invs| - 1;
      TotalsMark(invs[..k], lo, hi);
      var t := TotalsOf(invs[..k], lo, hi);
      AddCallsMarks(t.(all := t.all + {invs[k].uid}), invs[k], lo, hi, |invs[k].calls|);
      OneMoreUid(invs, lo, hi);
    }
  }

  lemma OneMoreUid(invs: seq<Invocation>, lo: int, hi: int)
    requires invs != []
    ensures var front, last := invs[..|invs| - 1], invs[|invs| - 1];
            UidsIn(invs, lo, hi) == UidsIn(front, lo, hi) +
              if exists i :: 0 <= i < |last.calls| && InRange(last.calls[i], lo, hi) then {last.uid} else {}
  {
    var front, last := invs[..|invs| - 1], invs[|invs| - 1];
    assert invs == front + [last];
    assert HasCallIn(last, lo, hi) <==> exists i :: 0 <= i < |last.calls| && InRange(last.calls[i], lo, hi);
  }

  /** The statistics say what they are called, of the in-range calls of all the agent's invocations. */
  lemma {:induction false} StatsDescribeRange(invs: seq<Invocation>, lo: int, hi: int, reuse: bool)
    ensures DescribesRange(invs, lo, hi, reuse, StatsOf(TotalsOf(invs, lo, hi), reuse))
  {
    var t := TotalsOf(invs, lo, hi);
    var cs := AllCallsIn(invs, lo, hi);
    TotalsAccumulate(invs, lo, hi);
    TotalsMark(invs, lo, hi);
    OutCountsRuns(invs, lo, hi);
    if cs != [] {
      FloorIsAverage(t.decode, t.calls);
      FloorIsAverage(t.prefill, t.calls);
      FloorIsAverage(t.cached, t.calls);
      assert !reuse ==> IsAverage(StatsOf(t, reuse).avgPrefill - t.cached / t.calls, InputSum(cs), |cs|);
      assert invs != [] && invs[0].uid in t.all;
      FractionIsShare(t.out, t.calls);
      FractionIsShare(|t.inRange|, |t.all|);
    }
  }

  lemma FloorIsAverage(total: int, n: nat)
    requires n > 0
    ensures IsAverage(total / n, total, n)
  {}

  lemma FractionIsShare(a: nat, b: nat)
    requires b > 0
    ensures IsShare(a as real / b as real, a, b)
  {}

  /** The field counts as `n`: a number as it is, a list by its sum. */
  ghost predicate CountsAs(t: Tokens, n: int) {
    match t
    case Number(m) => n == m
    case Listed(xs) => n == Sum(xs)
  }

  /** Call `i` of an invocation carries the amounts of its record at place `i` of the repeats. */
  lemma CallsCarryTheirRecords(trace: string, g: Group, i: nat)
    requires i < |g.repeats|
    ensures var inv, r := InvocationOf(trace, g), Sort(RepeatKey, g.repeats)[i].1;
            && |inv.calls| == |g.repeats| && inv.uid == trace + "_" + g.invocation
            && CountsAs(r.input, inv.calls[i].input) && CountsAs(r.output, inv.calls[i].output)
            && CountsAs(r.cached, inv.calls[i].cached)
  {}
}
