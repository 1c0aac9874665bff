/**
  `DAG`: the dependency graph of one query and the completion protocol over it.

  A node is its pair (invocation, repeat).  The workflow dictionary is a
  sequence of keys in insertion order plus a map; of a `Node` object only the
  status matters here.
 */
module WorkflowDag {
  import opened Collections

  type NodeId = (int, int)

  datatype NodeStatus = Waiting | Executing | Finished

  /** `workflow` (keys in order, parents per key) and the keys of `node_mapping`. */
  datatype Payload = Payload(order: seq<NodeId>, parents: map<NodeId, seq<NodeId>>, ids: set<NodeId>) {
    /** What `init_from_payload` always produces. */
    ghost predicate WellFormed() {
      && Distinct(order)
      && (forall k :: k in order <==> k in parents)
    }

    /** A workflow key that is not a listed node also waits for one that is not; otherwise the dispatch
        loop raises KeyError once everything that key waits for has been executed. */
    ghost predicate NeverRaises() {
      WellFormed() && forall k :: k in parents && k !in ids ==> !Ready(ids, k)
    }

    /** Dependencies are given for exactly the listed nodes and name only listed nodes. */
    ghost predicate Complete() {
      && WellFormed() && parents.Keys == ids
      && forall k, d :: k in parents && d in parents[k] ==> d in ids
    }

    predicate Ready(executed: set<NodeId>, k: NodeId)
      requires k in parents
    {
      forall d :: d in parents[k] ==> d in executed
    }

    /** The graph has a topological ranking. */
    ghost predicate Acyclic() {
      exists rank: map<NodeId, nat> :: Ranks(rank)
    }

    ghost predicate Ranks(rank: map<NodeId, nat>) {
      && ids <= rank.Keys
      && forall k, d :: k in ids && k in parents && d in parents[k] ==> d in rank && rank[d] < rank[k]
    }
  }

  /** How `update_result` ends. */
  datatype Outcome = Dispatched(nodes: seq<NodeId>) | UnknownNode | Interrupted

  datatype DagState = DagState(executed: set<NodeId>, status: map<NodeId, NodeStatus>)

  // ---------------------------------------------------------------- building the payload

  ghost predicate IsLast(dependencies: seq<(NodeId, seq<NodeId>)>, i: int, n: int)
    requires 0 <= i < |dependencies| && n <= |dependencies|
  {
    forall j :: i < j < n ==> dependencies[j].0 != dependencies[i].0
  }

  /** `a` occurs as a key before the first occurrence of `b`. */
  ghost predicate SeenBefore(dependencies: seq<(NodeId, seq<NodeId>)>, a: NodeId, b: NodeId) {
    exists i :: 0 <= i < |dependencies| && dependencies[i].0 == a && FirstAfter(dependencies, b, i)
  }

  ghost predicate FirstAfter(dependencies: seq<(NodeId, seq<NodeId>)>, b: NodeId, i: int)
    requires i < |dependencies|
  {
    forall j :: 0 <= j <= i ==> dependencies[j].0 != b
  }

  lemma NewKeyIsLater(parents: map<NodeId, seq<NodeId>>, dependencies: seq<(NodeId, seq<NodeId>)>, n: nat, a: NodeId)
    requires n < |dependencies| && LatestParents(parents, dependencies, n)
    requires a in parents && dependencies[n].0 !in parents
    ensures SeenBefore(dependencies, a, dependencies[n].0)
  {
    var e :| e in dependencies[..n] && e.0 == a;
    var i :| 0 <= i < n && dependencies[i] == e;
    forall j | 0 <= j <= i
      ensures dependencies[j].0 != dependencies[n].0
    {
      assert dependencies[j] in dependencies[..n];
    }
    assert FirstAfter(dependencies, dependencies[n].0, i);
  }

  /** `init_from_payload`, on parsed ids: a repeated key keeps its place and takes the last list. */
  method BuildPayload(dependencies: seq<(NodeId, seq<NodeId>)>, nodeList: seq<NodeId>) returns (p: Payload)
    ensures p.WellFormed()
    ensures p.ids == set k | k in nodeList
    ensures p.parents.Keys == set e | e in dependencies :: e.0
    ensures forall i, j :: 0 <= i < j < |p.order| ==> SeenBefore(dependencies, p.order[i], p.order[j])
    ensures forall i :: 0 <= i < |dependencies| && IsLast(dependencies, i, |dependencies|) ==>
              HasParents(p.parents, dependencies[i].0, dependencies[i].1)
  {
    var order: seq<NodeId>, parents: map<NodeId, seq<NodeId>> := [], map[];
    for n := 0 to |dependencies|
      invariant Payload(order, parents, {}).WellFormed()
      invariant LatestParents(parents, dependencies, n)
      invariant forall i, j :: 0 <= i < j < |order| ==> SeenBefore(dependencies, order[i], order[j])
    {
      var (child, list) := dependencies[n];
      LatestStep(parents, dependencies, n);
      if child !in parents {
        assert child !in order;
        forall i | 0 <= i < |order|
          ensures SeenBefore(dependencies, order[i], child)
        {
          NewKeyIsLater(parents, dependencies, n, order[i]);
        }
        order := order + [child];
      }
      parents := parents[child := list];
    }
    assert dependencies[..|dependencies|] == dependencies;
    var ids := CollectIds(nodeList);
    p := Payload(order, parents, ids);
  }

  /** `parents` is what the first `n` dependencies leave in the dictionary. */
  ghost predicate LatestParents(parents: map<NodeId, seq<NodeId>>, dependencies: seq<(NodeId, seq<NodeId>)>, n: nat)
    requires n <= |dependencies|
  {
    && parents.Keys == (set e | e in dependencies[..n] :: e.0)
    && forall i :: 0 <= i < n && IsLast(dependencies, i, n) ==>
         HasParents(parents, dependencies[i].0, dependencies[i].1)
  }

  predicate HasParents(parents: map<NodeId, seq<NodeId>>, child: NodeId, list: seq<NodeId>) {
    child in parents && parents[child] == list
  }

  lemma LatestStep(parents: map<NodeId, seq<NodeId>>, dependencies: seq<(NodeId, seq<NodeId>)>, n: nat)
    requires n < |dependencies| && LatestParents(parents, dependencies, n)
    ensures LatestParents(parents[dependencies[n].0 := dependencies[n].1], dependencies, n + 1)
  {
    assert dependencies[..n + 1] == dependencies[..n] + [dependencies[n]];
    forall i | 0 <= i < n && IsLast(dependencies, i, n + 1)
      ensures HasParents(parents[dependencies[n].0 := dependencies[n].1], dependencies[i].0, dependencies[i].1)
    {
      assert IsLast(dependencies, i, n);
    }
  }

  method CollectIds(nodeList: seq<NodeId>) returns (ids: set<NodeId>)
    ensures ids == set k | k in nodeList
  {
    ids := {};
    for n := 0 to |nodeList|
      invariant ids == set i | 0 <= i < n :: nodeList[i]
    {
      ids := ids + {nodeList[n]};
    }
  }

  // ---------------------------------------------------------------- one step, as a function

  /** The dependency test of the loop: no parents at all for entry nodes, none unexecuted otherwise. */
  predicate Eligible(p: Payload, s: DagState, entryOnly: bool, k: NodeId)
    requires k in p.parents
  {
    if entryOnly then p.parents[k] == [] else p.Ready(s.executed, k)
  }

  predicate Picks(p: Payload, s: DagState, entryOnly: bool, k: NodeId) {
    k in p.parents && k in s.status && s.status[k] == Waiting && Eligible(p, s, entryOnly, k)
  }

  /** An eligible key that is not a listed node: looking up its status raises KeyError. */
  predicate Offends(p: Payload, s: DagState, entryOnly: bool, k: NodeId) {
    k in p.parents && k !in s.status && Eligible(p, s, entryOnly, k)
  }

  /** Keys dispatched among `order`, in that order. */
  function Picked(p: Payload, s: DagState, entryOnly: bool, order: seq<NodeId>): (r: seq<NodeId>)
    ensures forall k :: k in r <==> k in order && Picks(p, s, entryOnly, k)
  {
    if order == [] then []
    else
      var front := Picked(p, s, entryOnly, order[..|order| - 1]);
      var k := order[|order| - 1];
      assert order == order[..|order| - 1] + [k];
      if Picks(p, s, entryOnly, k) then front + [k] else front
  }

  function MarkExecuting(status: map<NodeId, NodeStatus>, picked: seq<NodeId>): (r: map<NodeId, NodeStatus>)
    ensures r.Keys == status.Keys
  {
    map k | k in status :: if k in picked then Executing else status[k]
  }

  lemma {:induction false} PickedOneMore(p: Payload, s: DagState, entryOnly: bool, n: nat)
    requires p.WellFormed() && n < |p.order|
    ensures p.order[n] !in Picked(p, s, entryOnly, p.order[..n])
    ensures Picked(p, s, entryOnly, p.order[..n + 1]) ==
            Picked(p, s, entryOnly, p.order[..n]) + if Picks(p, s, entryOnly, p.order[n]) then [p.order[n]] else []
  {
    assert p.order[..n + 1][..n] == p.order[..n];
    assert p.order[n] !in p.order[..n];
  }

  lemma MarkOneMore(status: map<NodeId, NodeStatus>, picked: seq<NodeId>, k: NodeId)
    requires k !in picked
    ensures k in status ==> MarkExecuting(status, picked)[k] == status[k]
    ensures k in status ==> MarkExecuting(status, picked + [k]) == MarkExecuting(status, picked)[k := Executing]
  {}

  /** Dispatch everything eligible; returns the new state and the dispatched keys. */
  function Dispatch(p: Payload, s: DagState, entryOnly: bool): (DagState, seq<NodeId>) {
    var picked := Picked(p, s, entryOnly, p.order);
    (s.(status := MarkExecuting(s.status, picked)), picked)
  }

  /** How many of the first `n` keys are handled before one raises. */
  function Handled(p: Payload, s: DagState, entryOnly: bool, n: nat): (c: nat)
    requires n <= |p.order|
    ensures c <= n && forall j :: 0 <= j < c ==> !Offends(p, s, entryOnly, p.order[j])
    ensures c < n ==> Offends(p, s, entryOnly, p.order[c])
  {
    if n == 0 then 0
    else
      var c := Handled(p, s, entryOnly, n - 1);
      if c == n - 1 && !Offends(p, s, entryOnly, p.order[c]) then n else c
  }

  /** The dispatch loop with its KeyError: the new state, and the dispatched keys unless it raises. */
  function Attempt(p: Payload, s: DagState, entryOnly: bool): (DagState, Option<seq<NodeId>>) {
    var c := Handled(p, s, entryOnly, |p.order|);
    var picked := Picked(p, s, entryOnly, p.order[..c]);
    (s.(status := MarkExecuting(s.status, picked)), if c == |p.order| then Some(picked) else None)
  }

  /** What the loop has done after `n` keys. */
  ghost predicate SoFar(p: Payload, s: DagState, entryOnly: bool, n: nat, status: map<NodeId, NodeStatus>,
                        nodes: seq<NodeId>)
    requires n <= |p.order|
  {
    && nodes == Picked(p, s, entryOnly, p.order[..n]) && status == MarkExecuting(s.status, nodes)
    && forall j :: 0 <= j < n ==> !Offends(p, s, entryOnly, p.order[j])
  }

  lemma SoFarOneMore(p: Payload, s: DagState, entryOnly: bool, n: nat, status: map<NodeId, NodeStatus>,
                     nodes: seq<NodeId>)
    requires p.WellFormed() && n < |p.order| && SoFar(p, s, entryOnly, n, status, nodes)
    ensures var k := p.order[n];
            && k in p.parents
            && (Eligible(p, s, entryOnly, k) && k !in status <==> Offends(p, s, entryOnly, k))
            && (!Offends(p, s, entryOnly, k) ==>
                  if Eligible(p, s, entryOnly, k) && status[k] == Waiting
                  then SoFar(p, s, entryOnly, n + 1, status[k := Executing], nodes + [k])
                  else SoFar(p, s, entryOnly, n + 1, status, nodes))
  {
    assert p.order[n] in p.order;
    PickedOneMore(p, s, entryOnly, n);
    MarkOneMore(s.status, nodes, p.order[n]);
  }

  lemma AttemptEndsAt(p: Payload, s: DagState, entryOnly: bool, c: nat, status: map<NodeId, NodeStatus>,
                      nodes: seq<NodeId>)
    requires c <= |p.order| && SoFar(p, s, entryOnly, c, status, nodes)
    requires c < |p.order| ==> Offends(p, s, entryOnly, p.order[c])
    ensures Attempt(p, s, entryOnly) == (DagState(s.executed, status), if c == |p.order| then Some(nodes) else None)
  {
    assert Handled(p, s, entryOnly, |p.order|) == c;
  }

  /** The loop raises exactly when some eligible key is not a listed node. */
  lemma AttemptRaisesIff(p: Payload, s: DagState, entryOnly: bool)
    ensures Attempt(p, s, entryOnly).1 == None <==> exists k :: k in p.order && Offends(p, s, entryOnly, k)
  {
    var c := Handled(p, s, entryOnly, |p.order|);
    if c < |p.order| {
      assert p.order[c] in p.order;
    }
  }

  /** Under that condition the loop never raises and dispatches everything eligible. */
  lemma AttemptDispatches(p: Payload, s: DagState, entryOnly: bool)
    requires p.NeverRaises() && s.status.Keys == p.ids && s.executed <= p.ids
    ensures var (s', nodes) := Dispatch(p, s, entryOnly);
            Attempt(p, s, entryOnly) == (s', Some(nodes))
  {
    forall j | 0 <= j < |p.order|
      ensures !Offends(p, s, entryOnly, p.order[j])
    {
      assert p.order[j] in p.order;
    }
    assert p.order[..|p.order|] == p.order;
  }

  function MarkFinished(s: DagState, k: NodeId): DagState {
    DagState(s.executed + {k}, s.status[k := Finished])
  }

  /** `update_result` on a listed node. */
  function Completion(p: Payload, s: DagState, k: NodeId): (DagState, seq<NodeId>) {
    Dispatch(p, MarkFinished(s, k), false)
  }

  // ---------------------------------------------------------------- the object

  class Dag {
    const payload: Payload
    var executed: set<NodeId>
    var status: map<NodeId, NodeStatus>

    ghost predicate Valid()
      reads this
    {
      payload.WellFormed() && status.Keys == payload.ids
    }

    function State(): DagState
      reads this
    {
      DagState(executed, status)
    }

    constructor (p: Payload)
      requires p.WellFormed()
      ensures Valid() && payload == p && State() == Initial(p)
    {
      payload := p;
      executed := {};
      status := map k | k in p.ids :: Waiting;
    }

    /** The loop over `workflow` shared by `update_result` and `get_entry_nodes`; None is a KeyError. */
    method DispatchLoop(entryOnly: bool) returns (r: Option<seq<NodeId>>)
      requires Valid()
      modifies this`status
      ensures Valid()
      ensures (State(), r) == Attempt(payload, old(State()), entryOnly)
    {
      var nodes: seq<NodeId> := [];
      ghost var s := State();
      assert MarkExecuting(s.status, []) == s.status;
      for n := 0 to |payload.order|
        invariant executed == s.executed && SoFar(payload, s, entryOnly, n, status, nodes)
      {
        var record := payload.order[n];
        SoFarOneMore(payload, s, entryOnly, n, status, nodes);
        var flag := if entryOnly then payload.parents[record] == []
                    else forall d :: d in payload.parents[record] ==> d in executed;
        if flag && record !in status {
          AttemptEndsAt(payload, s, entryOnly, n, status, nodes);
          return None;
        }
        if flag && status[record] == Waiting {
          status := status[record := Executing];
          nodes := nodes + [record];
        }
      }
      AttemptEndsAt(payload, s, entryOnly, |payload.order|, status, nodes);
      r := Some(nodes);
    }

    method GetEntryNodes() returns (r: Option<seq<NodeId>>)
      requires Valid()
      modifies this`status
      ensures Valid()
      ensures (State(), r) == Attempt(payload, old(State()), true)
    {
      r := DispatchLoop(true);
    }

    /** An unknown node raises before anything is changed; an eligible key that is not a listed node
        raises from the middle of the dispatch loop, with the completion already recorded. */
    method UpdateResult(key: NodeId) returns (r: Outcome)
      requires Valid()
      modifies this
      ensures Valid()
      ensures r.UnknownNode? <==> key !in payload.ids
      ensures r.UnknownNode? ==> State() == old(State())
      ensures !r.UnknownNode? ==>
                (State(), if r.Dispatched? then Some(r.nodes) else None)
                == Attempt(payload, MarkFinished(old(State()), key), false)
    {
      if key !in status {
        return UnknownNode;
      }
      executed := executed + {key};
      status := status[key := Finished];
      var nodes := DispatchLoop(false);
      r := if nodes.Some? then Dispatched(nodes.value) else Interrupted;
    }

    method IsCompleted() returns (b: bool)
      requires Valid()
      ensures b == (|executed| == |payload.ids|)
    {
      b := |executed| == |payload.ids|;
    }
  }

  function Initial(p: Payload): DagState {
    DagState({}, map k | k in p.ids :: Waiting)
  }

  // ---------------------------------------------------------------- runs

  /** State and everything returned so far after the entry dispatch and `events`. */
  function Run(p: Payload, events: seq<NodeId>): (DagState, seq<NodeId>) {
    if events == [] then Dispatch(p, Initial(p), true)
    else Extend(p, Run(p, events[..|events| - 1]), events[|events| - 1])
  }

  /** One more completion: the new state, and what it returned added to the rest. */
  function Extend(p: Payload, run: (DagState, seq<NodeId>), e: NodeId): (DagState, seq<NodeId>) {
    var (s, nodes) := Completion(p, run.0, e);
    (s, run.1 + nodes)
  }

  /** Completions name only nodes already returned; duplicates are allowed. */
  ghost predicate Legal(p: Payload, events: seq<NodeId>) {
    events == [] ||
    (Legal(p, events[..|events| - 1]) &&
     events[|events| - 1] in Run(p, events[..|events| - 1]).1)
  }

  /** What the status of a node must be, given only the executed set. */
  function Expected(p: Payload, executed: set<NodeId>, k: NodeId): NodeStatus
    requires k in p.parents
  {
    if k in executed then Finished else if p.Ready(executed, k) then Executing else Waiting
  }

  /** The closed form of a state: everything is determined by the executed set. */
  ghost predicate ClosedForm(p: Payload, s: DagState)
    requires p.Complete()
  {
    && s.executed <= p.ids && s.status.Keys == p.ids
    && (forall k :: k in p.ids ==> s.status[k] == Expected(p, s.executed, k))
    && (forall k :: k in s.executed ==> p.Ready(s.executed, k))
  }

  /** Exactly the nodes with all parents executed have been returned, each once. */
  ghost predicate ReturnedOnce(p: Payload, executed: set<NodeId>, returned: seq<NodeId>)
    requires p.Complete()
  {
    && (forall k :: k in returned <==> k in p.ids && p.Ready(executed, k))
    && Distinct(returned)
  }

  /** State and returned nodes are what the executed set alone determines. */
  ghost predicate Settled(p: Payload, run: (DagState, seq<NodeId>))
    requires p.Complete()
  {
    ClosedForm(p, run.0) && ReturnedOnce(p, run.0.executed, run.1)
  }

  lemma {:induction false} PickedNoRepeats(p: Payload, s: DagState, entryOnly: bool, order: seq<NodeId>)
    requires Distinct(order)
    ensures Distinct(Picked(p, s, entryOnly, order))
  {
    if order != [] {
      PickedNoRepeats(p, s, entryOnly, order[..|order| - 1]);
      assert order[|order| - 1] !in order[..|order| - 1];
    }
  }

  /** Dispatch closed form: after any legal run, duplicates included, the executed nodes are
      exactly those that completed, they are closed under parents, and the nodes ever
      returned are exactly those whose parents have all executed, each returned once. */
  lemma {:induction false} DispatchClosedForm(p: Payload, events: seq<NodeId>)
    requires p.Complete() && Legal(p, events)
    ensures Settled(p, Run(p, events)) && Run(p, events).0.executed == IdsOf(events)
  {
    RunSettles(p, events);
  }

  ghost predicate SettledAfter(p: Payload, run: (DagState, seq<NodeId>), events: seq<NodeId>) {
    p.Complete() && Settled(p, run) && run.0.executed == IdsOf(events)
  }

  lemma {:induction false} RunSettles(p: Payload, events: seq<NodeId>)
    requires p.Complete() && Legal(p, events)
    ensures SettledAfter(p, Run(p, events), events)
  {
    if events == [] {
      EntryClosedForm(p);
    } else {
      var front, e := events[..|events| - 1], events[|events| - 1];
      RunSettles(p, front);
      FrontThenLast(events);
      OneMoreCompletion(p, Run(p, front), front, e, events);
    }
  }

  lemma FrontThenLast(events: seq<NodeId>)
    requires events != []
    ensures events == events[..|events| - 1] + [events[|events| - 1]]
  {}

  lemma OneMoreCompletion(p: Payload, run: (DagState, seq<NodeId>), front: seq<NodeId>, e: NodeId,
                          events: seq<NodeId>)
    requires SettledAfter(p, run, front) && e in run.1 && events == front + [e]
    ensures SettledAfter(p, Extend(p, run, e), events)
  {
    StepClosedForm(p, run, e);
    AddToSet(front, e);
  }

  /** The distinct nodes named by a list of completions. */
  function IdsOf(events: seq<NodeId>): (r: set<NodeId>)
    ensures forall k :: k in r <==> k in events
  {
    set k | k in events
  }

  lemma AddToSet(front: seq<NodeId>, e: NodeId)
    ensures IdsOf(front + [e]) == IdsOf(front) + {e}
  {}

  lemma EntryClosedForm(p: Payload)
    requires p.Complete()
    ensures SettledAfter(p, Dispatch(p, Initial(p), true), [])
  {
    PickedNoRepeats(p, Initial(p), true, p.order);
    forall k | k in p.ids
      ensures p.parents[k] == [] <==> p.Ready({}, k)
    {
      if p.parents[k] != [] {
        assert p.parents[k][0] in p.parents[k];
      }
    }
  }

  lemma StepClosedForm(p: Payload, run: (DagState, seq<NodeId>), e: NodeId)
    requires p.Complete() && Settled(p, run) && e in run.1
    ensures Settled(p, Extend(p, run, e)) && Extend(p, run, e).0.executed == run.0.executed + {e}
  {
    var s, returned := run.0, run.1;
    var (s', nodes) := Completion(p, s, e);
    forall k | k in p.ids
      ensures k in nodes <==> p.Ready(s'.executed, k) && !p.Ready(s.executed, k)
      ensures s'.status[k] == Expected(p, s'.executed, k)
      ensures p.Ready(s.executed, k) ==> p.Ready(s'.executed, k)
    {
      StepOneNode(p, s, e, k);
    }
    PickedNoRepeats(p, MarkFinished(s, e), false, p.order);
    AppendNoRepeats(returned, nodes);
  }

  lemma AppendNoRepeats(a: seq<NodeId>, b: seq<NodeId>)
    requires Distinct(a) && Distinct(b) && forall k :: k in a ==> k !in b
    ensures Distinct(a + b)
  {
    forall i, j | 0 <= i < j < |a + b|
      ensures (a + b)[i] != (a + b)[j]
    {
      if i < |a| <= j {
        assert a[i] in a && b[j - |a|] in b;
      }
    }
  }

  /** The effect of one completion on one node. */
  lemma StepOneNode(p: Payload, s: DagState, e: NodeId, k: NodeId)
    requires p.Complete() && ClosedForm(p, s) && k in p.ids && e in p.ids && p.Ready(s.executed, e)
    ensures var (s', nodes) := Completion(p, s, e);
            && (k in nodes <==> p.Ready(s'.executed, k) && !p.Ready(s.executed, k))
            && s'.status.Keys == p.ids && s'.status[k] == Expected(p, s'.executed, k)
            && (p.Ready(s.executed, k) ==> p.Ready(s'.executed, k))
  {
    var m := MarkFinished(s, e);
    assert s.status[k] == Expected(p, s.executed, k);
    assert m.status[k] == Waiting <==> !p.Ready(s.executed, k);
    assert k in p.order;
  }

  /** The outcome does not depend on the order of completions, nor on duplicates. */
  lemma {:induction false} OrderIndependence(p: Payload, events: seq<NodeId>, events': seq<NodeId>)
    requires p.Complete() && Legal(p, events) && Legal(p, events')
    requires IdsOf(events) == IdsOf(events')
    ensures Run(p, events).0 == Run(p, events').0
    ensures forall k :: k in Run(p, events).1 <==> k in Run(p, events').1
  {
    DispatchClosedForm(p, events);
    DispatchClosedForm(p, events');
    SameExecutedSameState(p, Run(p, events).0, Run(p, events').0);
  }

  lemma SameExecutedSameState(p: Payload, s: DagState, s': DagState)
    requires p.Complete() && ClosedForm(p, s) && ClosedForm(p, s') && s.executed == s'.executed
    ensures s == s'
  {
    assert s.status == s'.status;
  }

  // ---------------------------------------------------------------- progress and termination

  predicate IsCompleted(p: Payload, s: DagState) {
    |s.executed| == |p.ids|
  }

  lemma CompletedMeansAll(p: Payload, s: DagState)
    requires s.executed <= p.ids
    ensures IsCompleted(p, s) <==> s.executed == p.ids
  {
    if s.executed != p.ids {
      assert |p.ids| == |s.executed| + |p.ids - s.executed|;
    }
  }

  /** Among unexecuted nodes one of least rank has all its parents executed. */
  lemma {:induction false} LeastRanked(p: Payload, rank: map<NodeId, nat>, rest: set<NodeId>) returns (k: NodeId)
    requires p.Ranks(rank) && rest <= p.ids && rest != {}
    ensures k in rest && forall j :: j in rest ==> rank[k] <= rank[j]
    decreases |rest|
  {
    k :| k in rest;
    if rest != {k} {
      var j := LeastRanked(p, rank, rest - {k});
      if rank[j] < rank[k] {
        k := j;
      }
      forall i | i in rest
        ensures rank[k] <= rank[i]
      {
        assert i == k || i in rest - {k} || rank[k] <= rank[i];
      }
    }
  }

  predicate IsExecuting(s: DagState, k: NodeId) {
    k in s.status && s.status[k] == Executing
  }

  lemma FindExecuting(p: Payload, s: DagState) returns (k: NodeId)
    requires p.Complete() && p.Acyclic() && ClosedForm(p, s) && s.executed != p.ids
    ensures k in p.ids && IsExecuting(s, k)
  {
    var rank: map<NodeId, nat> :| p.Ranks(rank);
    var x :| x in p.ids && x !in s.executed;
    assert x in p.ids - s.executed;
    k := LeastRanked(p, rank, p.ids - s.executed);
    forall d | d in p.parents[k]
      ensures d in s.executed
    {
      assert rank[d] < rank[k];
    }
    assert s.status[k] == Expected(p, s.executed, k);
  }

  /** Progress: an acyclic query that is not complete always has a node executing,
      and its completion is a legal next event. */
  lemma SomeNodeIsExecuting(p: Payload, events: seq<NodeId>) returns (k: NodeId)
    requires p.Complete() && p.Acyclic() && Legal(p, events)
    requires !IsCompleted(p, Run(p, events).0)
    ensures k in p.ids && IsExecuting(Run(p, events).0, k) && Legal(p, events + [k])
  {
    DispatchClosedForm(p, events);
    CompletedMeansAll(p, Run(p, events).0);
    k := FindExecuting(p, Run(p, events).0);
    ExecutingWasReturned(p, Run(p, events), k);
    LegalSnoc(p, events, k);
  }

  lemma ExecutingWasReturned(p: Payload, run: (DagState, seq<NodeId>), k: NodeId)
    requires p.Complete() && Settled(p, run) && IsExecuting(run.0, k)
    ensures k in run.1
  {
    assert run.0.status[k] == Expected(p, run.0.executed, k);
  }

  lemma {:induction false} LegalSnoc(p: Payload, events: seq<NodeId>, k: NodeId)
    ensures Legal(p, events + [k]) <==> Legal(p, events) && k in Run(p, events).1
  {
    assert (events + [k])[..|events|] == events;
  }

  lemma ExecutingMeansIncomplete(p: Payload, s: DagState, k: NodeId)
    requires p.Complete() && ClosedForm(p, s) && IsExecuting(s, k)
    ensures s.executed != p.ids
  {
    assert s.status[k] == Expected(p, s.executed, k);
  }

  /** Termination: a run with nothing executing has completed, after exactly as many
      distinct completions as there are nodes, and no run can have more. */
  lemma {:induction false} MaximalRunCompletes(p: Payload, events: seq<NodeId>)
    requires p.Complete() && p.Acyclic() && Legal(p, events)
    ensures |IdsOf(events)| <= |p.ids|
    ensures IsCompleted(p, Run(p, events).0) <==> |IdsOf(events)| == |p.ids|
    ensures IsCompleted(p, Run(p, events).0) <==> !exists k :: IsExecuting(Run(p, events).0, k)
  {
    DispatchClosedForm(p, events);
    var s := Run(p, events).0;
    CompletedMeansAll(p, s);
    SubsetSize(s.executed, p.ids);
    if !IsCompleted(p, s) {
      var k := SomeNodeIsExecuting(p, events);
    }
    forall k | IsExecuting(s, k)
      ensures !IsCompleted(p, s)
    {
      ExecutingMeansIncomplete(p, s, k);
    }
  }

  /** Every legal run of an acyclic query can be driven to completion. */
  lemma {:induction false} CompleteTheRun(p: Payload, events: seq<NodeId>, left: nat) returns (all: seq<NodeId>)
    requires p.Complete() && p.Acyclic() && Legal(p, events)
    requires |IdsOf(events)| + left == |p.ids|
    ensures CompletesWith(p, all) && events <= all
    decreases left
  {
    MaximalRunCompletes(p, events);
    if left == 0 {
      all := events;
    } else {
      var k := SomeNodeIsExecuting(p, events);
      CompletionIsNew(p, events, k);
      AddToSet(events, k);
      all := CompleteTheRun(p, events + [k], left - 1);
    }
  }

  lemma {:induction false} CompletionIsNew(p: Payload, events: seq<NodeId>, k: NodeId)
    requires p.Complete() && Legal(p, events) && IsExecuting(Run(p, events).0, k)
    ensures k !in events
  {
    DispatchClosedForm(p, events);
    var s := Run(p, events).0;
    assert s.status[k] == Expected(p, s.executed, k);
  }

  /** The completion order of a run ranks the nodes it executed. */
  lemma {:induction false} RunRanksNodes(p: Payload, events: seq<NodeId>) returns (rank: map<NodeId, nat>)
    requires p.Complete() && Legal(p, events)
    ensures rank.Keys == IdsOf(events)
    ensures forall k :: k in rank ==> k in p.ids && rank[k] < |events|
    ensures forall k, d :: k in rank && d in p.parents[k] ==> d in rank && rank[d] < rank[k]
  {
    if events == [] {
      rank := map[];
    } else {
      var front, e := events[..|events| - 1], events[|events| - 1];
      rank := RunRanksNodes(p, front);
      LegalEventIsReady(p, front, e);
      AddToSet(front, e);
      FrontThenLast(events);
      if e !in rank {
        rank := rank[e := |front|];
      }
    }
  }

  lemma {:induction false} LegalEventIsReady(p: Payload, front: seq<NodeId>, e: NodeId)
    requires p.Complete() && Legal(p, front) && e in Run(p, front).1
    ensures e in p.ids && p.Ready(IdsOf(front), e)
  {
    DispatchClosedForm(p, front);
  }

  ghost predicate CompletesWith(p: Payload, events: seq<NodeId>) {
    Legal(p, events) && IsCompleted(p, Run(p, events).0)
  }

  /** A query can complete exactly when its dependency graph is acyclic. */
  lemma CompletesIffAcyclic(p: Payload)
    requires p.Complete()
    ensures p.Acyclic() <==> exists events :: CompletesWith(p, events)
  {
    if p.Acyclic() {
      var all := DriveFromStart(p);
    }
    if events :| CompletesWith(p, events) {
      CompletedRunRanks(p, events);
    }
  }

  lemma DriveFromStart(p: Payload) returns (all: seq<NodeId>)
    requires p.Complete() && p.Acyclic()
    ensures CompletesWith(p, all)
  {
    assert IdsOf([]) == {};
    all := CompleteTheRun(p, [], |p.ids|);
  }

  lemma CompletedRunRanks(p: Payload, events: seq<NodeId>)
    requires p.Complete() && CompletesWith(p, events)
    ensures p.Acyclic()
  {
    DispatchClosedForm(p, events);
    CompletedMeansAll(p, Run(p, events).0);
    var rank := RunRanksNodes(p, events);
    assert p.Ranks(rank);
  }
}
