/**
  The controller's completion handlers as interleaved atomic segments.

  `handle_node_complete` runs without interruption except at its awaits: the
  cache migration before `update_result` and the scheduling of new nodes after
  it.  A handler that is suspended there is an entry of `handlers`; any number of
  them may be suspended at once, and they resume in any order.
 */
module QueryController {
  import opened Collections
  import opened WorkflowDag

  /** Where a suspended handler will continue. */
  datatype Phase = Migrating(key: NodeId) | Scheduling

  datatype Query = Query(dag: DagState, started: bool, completed: bool, failed: bool, handlers: map<int, Phase>)

  datatype Step =
    | Execute                                                          // execute_query_async
    | Report(handler: int, key: NodeId, success: bool, freeCache: bool)  // POST /node_complete
    | Resume(handler: int)
    | DispatchFails                                                    // routing or instance error

  function NewQuery(p: Payload): Query {
    Query(Initial(p), false, false, false, map[])
  }

  predicate Enabled(q: Query, step: Step) {
    match step
    case Execute => !q.started
    case Report(h, _, _, _) => h !in q.handlers
    case Resume(h) => h in q.handlers
    case DispatchFails => true
  }

  /** From the return of the scheduling await to the end of the handler. */
  function Finish(p: Payload, q: Query, h: int): Query {
    q.(handlers := q.handlers - {h}, completed := q.completed || IsCompleted(p, q.dag))
  }

  /** From the return of the migration await to the scheduling await, or to the
      end when nothing became ready.  A KeyError ends the handler: for an unknown node at
      once, for an unlisted workflow key after the completion has been recorded. */
  function Update(p: Payload, q: Query, h: int, key: NodeId): Query {
    if key !in p.ids then q.(handlers := q.handlers - {h})
    else
      var (dag, nodes) := Attempt(p, MarkFinished(q.dag, key), false);
      if nodes.None? then q.(dag := dag, handlers := q.handlers - {h})
      else if nodes.value != [] then q.(dag := dag, handlers := q.handlers[h := Scheduling])
      else Finish(p, q.(dag := dag), h)
  }

  function Apply(p: Payload, q: Query, step: Step): Query {
    match step
    case Execute =>
      var (dag, nodes) := Attempt(p, q.dag, true);
      q.(dag := dag, started := true, failed := q.failed || nodes.None?)
    case Report(h, key, success, freeCache) =>
      if !success then q.(failed := true)
      else if freeCache then Update(p, q, h, key)
      else q.(handlers := q.handlers[h := Migrating(key)])
    case Resume(h) =>
      if h !in q.handlers then q
      else if q.handlers[h].Migrating? then Update(p, q, h, q.handlers[h].key)
      else Finish(p, q, h)
    case DispatchFails => q.(failed := true)
  }

  // ---------------------------------------------------------------- the code

  class QueryState {
    const dag: Dag
    var started: bool
    var completed: bool
    var failed: bool
    var handlers: map<int, Phase>

    function View(): Query
      reads this, dag
    {
      Query(dag.State(), started, completed, failed, handlers)
    }

    ghost predicate Valid()
      reads this, dag
    {
      dag.Valid()
    }

    constructor (p: Payload)
      requires p.WellFormed()
      ensures Valid() && fresh(dag) && dag.payload == p && View() == NewQuery(p)
    {
      dag := new Dag(p);
      started, completed, failed := false, false, false;
      handlers := map[];
    }

    method Execute()
      requires Valid() && Enabled(View(), Step.Execute)
      modifies this, dag
      ensures Valid() && View() == Apply(dag.payload, old(View()), Step.Execute)
    {
      var nodes := dag.GetEntryNodes();
      started := true;
      if nodes.None? {
        failed := true;
      }
    }

    method FinishHandler(h: int)
      requires Valid()
      modifies this
      ensures Valid() && View() == Finish(dag.payload, old(View()), h)
    {
      handlers := handlers - {h};
      var done := dag.IsCompleted();
      if done {
        completed := true;
      }
    }

    method UpdateAndContinue(h: int, key: NodeId)
      requires Valid()
      modifies this, dag
      ensures Valid() && View() == Update(dag.payload, old(View()), h, key)
    {
      var r := dag.UpdateResult(key);
      match r
      case UnknownNode =>
        handlers := handlers - {h};
      case Interrupted =>
        handlers := handlers - {h};
      case Dispatched(nodes) =>
        if nodes != [] {
          handlers := handlers[h := Scheduling];
        } else {
          FinishHandler(h);
        }
    }

    method HandleNodeComplete(h: int, key: NodeId, success: bool, freeCache: bool)
      requires Valid() && Enabled(View(), Report(h, key, success, freeCache))
      modifies this, dag
      ensures Valid() && View() == Apply(dag.payload, old(View()), Report(h, key, success, freeCache))
    {
      if !success {
        failed := true;
        return;
      }
      if freeCache {
        UpdateAndContinue(h, key);
      } else {
        handlers := handlers[h := Migrating(key)];
      }
    }

    method ResumeHandler(h: int)
      requires Valid() && Enabled(View(), Resume(h))
      modifies this, dag
      ensures Valid() && View() == Apply(dag.payload, old(View()), Resume(h))
    {
      match handlers[h]
      case Migrating(key) => UpdateAndContinue(h, key);
      case Scheduling => FinishHandler(h);
    }
  }

  // ---------------------------------------------------------------- every interleaving

  function After(p: Payload, steps: seq<Step>): Query {
    if steps == [] then NewQuery(p)
    else Apply(p, After(p, steps[..|steps| - 1]), steps[|steps| - 1])
  }

  ghost predicate Possible(p: Payload, steps: seq<Step>) {
    steps == [] ||
    (Possible(p, steps[..|steps| - 1]) && Enabled(After(p, steps[..|steps| - 1]), steps[|steps| - 1]))
  }

  /** Nodes with at least one successful report. */
  function Succeeded(steps: seq<Step>): (r: set<NodeId>)
    ensures forall k :: k in r <==> exists s :: s in steps && s.Report? && s.success && s.key == k
  {
    if steps == [] then {}
    else
      var front, s := Succeeded(steps[..|steps| - 1]), steps[|steps| - 1];
      assert steps == steps[..|steps| - 1] + [s];
      if s.Report? && s.success then front + {s.key} else front
  }

  ghost predicate IsMigrating(q: Query, k: NodeId) {
    exists h :: h in q.handlers && q.handlers[h] == Migrating(k)
  }

  ghost predicate SomeoneScheduling(q: Query) {
    exists h :: h in q.handlers && q.handlers[h] == Scheduling
  }

  /** What every step keeps, whatever the order. */
  ghost predicate Inv(p: Payload, q: Query, succeeded: set<NodeId>) {
    && q.dag.executed <= p.ids && q.dag.executed <= succeeded && q.dag.status.Keys == p.ids
    && (forall h :: h in q.handlers && q.handlers[h].Migrating? ==> q.handlers[h].key in succeeded)
    && (forall k :: k in p.ids && k in succeeded && k !in q.dag.executed ==> IsMigrating(q, k))
    && (q.completed ==> p.ids != {} && q.dag.executed == p.ids)
    && (p.NeverRaises() && p.ids != {} && q.dag.executed == p.ids && !q.completed ==> SomeoneScheduling(q))
    && (SomeoneScheduling(q) ==> p.ids != {})
  }

  lemma AttemptKeepsExecuted(p: Payload, s: DagState, entryOnly: bool)
    ensures Attempt(p, s, entryOnly).0.executed == s.executed
    ensures Attempt(p, s, entryOnly).0.status.Keys == s.status.Keys
  {}

  lemma FinishKeepsInv(p: Payload, q: Query, h: int, succeeded: set<NodeId>)
    requires q.dag.executed <= p.ids && q.dag.executed <= succeeded && p.ids != {} && q.dag.status.Keys == p.ids
    requires forall g :: g in q.handlers && q.handlers[g].Migrating? ==> q.handlers[g].key in succeeded
    requires forall k :: k in p.ids && k in succeeded && k !in q.dag.executed ==> IsMigrating(q, k)
    requires q.completed ==> q.dag.executed == p.ids
    requires h in q.handlers && q.handlers[h].Migrating? ==>
               q.handlers[h].key in q.dag.executed || q.handlers[h].key !in p.ids
    ensures Inv(p, Finish(p, q, h), succeeded)
  {
    var q' := Finish(p, q, h);
    CompletedMeansAll(p, q.dag);
    forall k | k in p.ids && k in succeeded && k !in q'.dag.executed
      ensures IsMigrating(q', k)
    {
      var g :| g in q.handlers && q.handlers[g] == Migrating(k);
      assert g in q'.handlers && q'.handlers[g] == Migrating(k);
    }
  }

  /** `update_result` and what follows, from a handler for `key`. */
  lemma UpdateKeepsInv(p: Payload, q: Query, h: int, key: NodeId, before: set<NodeId>, succeeded: set<NodeId>)
    requires Inv(p, q, before) && before + {key} == succeeded
    requires h in q.handlers ==> q.handlers[h] == Migrating(key)
    ensures Inv(p, Update(p, q, h, key), succeeded)
  {
    if key !in p.ids {
      UnknownKeepsInv(p, q, h, key, before, succeeded);
    } else {
      var (dag, nodes) := Attempt(p, MarkFinished(q.dag, key), false);
      AttemptKeepsExecuted(p, MarkFinished(q.dag, key), false);
      if nodes.None? {
        InterruptedKeepsInv(p, q, dag, h, key, before, succeeded);
      } else if nodes.value != [] {
        ScheduleKeepsInv(p, q, dag, h, key, before, succeeded);
      } else {
        var mid := q.(dag := dag);
        forall k | k in p.ids && k in succeeded && k !in mid.dag.executed
          ensures IsMigrating(mid, k)
        {
          var g :| g in q.handlers && q.handlers[g] == Migrating(k);
        }
        FinishKeepsInv(p, mid, h, succeeded);
      }
    }
  }

  /** A handler for an unknown node just ends. */
  lemma UnknownKeepsInv(p: Payload, q: Query, h: int, key: NodeId, before: set<NodeId>, succeeded: set<NodeId>)
    requires Inv(p, q, before) && before + {key} == succeeded && key !in p.ids
    requires h in q.handlers ==> q.handlers[h] == Migrating(key)
    ensures Inv(p, q.(handlers := q.handlers - {h}), succeeded)
  {
    var q' := q.(handlers := q.handlers - {h});
    forall k | k in p.ids && k in succeeded && k !in q'.dag.executed
      ensures IsMigrating(q', k)
    {
      var g :| g in q.handlers && q.handlers[g] == Migrating(k);
      assert g in q'.handlers && q'.handlers[g] == Migrating(k);
    }
    if SomeoneScheduling(q) {
      var g :| g in q.handlers && q.handlers[g] == Scheduling;
      assert g in q'.handlers && q'.handlers[g] == Scheduling;
    }
  }

  /** A handler that has recorded its completion and now schedules what became ready. */
  lemma ScheduleKeepsInv(p: Payload, q: Query, dag: DagState, h: int, key: NodeId, before: set<NodeId>,
                         succeeded: set<NodeId>)
    requires Inv(p, q, before) && before + {key} == succeeded && key in p.ids
    requires h in q.handlers ==> q.handlers[h] == Migrating(key)
    requires dag.executed == q.dag.executed + {key} && dag.status.Keys == p.ids
    ensures Inv(p, q.(dag := dag, handlers := q.handlers[h := Scheduling]), succeeded)
  {
    var q' := q.(dag := dag, handlers := q.handlers[h := Scheduling]);
    assert h in q'.handlers && q'.handlers[h] == Scheduling;
    forall k | k in p.ids && k in succeeded && k !in q'.dag.executed
      ensures IsMigrating(q', k)
    {
      var g :| g in q.handlers && q.handlers[g] == Migrating(k);
      assert g in q'.handlers && q'.handlers[g] == Migrating(k);
    }
  }

  /** A handler that raises after recording its completion. */
  lemma InterruptedKeepsInv(p: Payload, q: Query, dag: DagState, h: int, key: NodeId, before: set<NodeId>,
                            succeeded: set<NodeId>)
    requires Inv(p, q, before) && before + {key} == succeeded && key in p.ids
    requires h in q.handlers ==> q.handlers[h] == Migrating(key)
    requires Attempt(p, MarkFinished(q.dag, key), false) == (dag, None)
    ensures Inv(p, q.(dag := dag, handlers := q.handlers - {h}), succeeded)
  {
    var q' := q.(dag := dag, handlers := q.handlers - {h});
    AttemptKeepsExecuted(p, MarkFinished(q.dag, key), false);
    if p.NeverRaises() {
      AttemptDispatches(p, MarkFinished(q.dag, key), false);
    }
    forall k | k in p.ids && k in succeeded && k !in q'.dag.executed
      ensures IsMigrating(q', k)
    {
      var g :| g in q.handlers && q.handlers[g] == Migrating(k);
      assert g in q'.handlers && q'.handlers[g] == Migrating(k);
    }
  }

  lemma SameHandlersKeepInv(p: Payload, q: Query, q': Query, succeeded: set<NodeId>)
    requires Inv(p, q, succeeded)
    requires q'.handlers == q.handlers && q'.dag.executed == q.dag.executed && q'.completed == q.completed
    requires q'.dag.status.Keys == q.dag.status.Keys
    ensures Inv(p, q', succeeded)
  {
    forall k | IsMigrating(q, k)
      ensures IsMigrating(q', k)
    {
      var g :| g in q.handlers && q.handlers[g] == Migrating(k);
      assert g in q'.handlers && q'.handlers[g] == Migrating(k);
    }
    if SomeoneScheduling(q) {
      var g :| g in q.handlers && q.handlers[g] == Scheduling;
      assert g in q'.handlers && q'.handlers[g] == Scheduling;
    }
  }

  lemma SuspendKeepsInv(p: Payload, q: Query, h: int, key: NodeId, succeeded: set<NodeId>)
    requires Inv(p, q, succeeded) && h !in q.handlers
    ensures Inv(p, q.(handlers := q.handlers[h := Migrating(key)]), succeeded + {key})
  {
    var q' := q.(handlers := q.handlers[h := Migrating(key)]);
    forall k | k in p.ids && k in succeeded + {key} && k !in q'.dag.executed
      ensures IsMigrating(q', k)
    {
      if k == key {
        assert h in q'.handlers && q'.handlers[h] == Migrating(k);
      } else {
        var g :| g in q.handlers && q.handlers[g] == Migrating(k);
        assert g in q'.handlers && q'.handlers[g] == Migrating(k);
      }
    }
    if SomeoneScheduling(q) {
      var g :| g in q.handlers && q.handlers[g] == Scheduling;
      assert g in q'.handlers && q'.handlers[g] == Scheduling;
    }
  }

  lemma StepKeepsInv(p: Payload, q: Query, step: Step, succeeded: set<NodeId>)
    requires Inv(p, q, succeeded) && Enabled(q, step)
    ensures Inv(p, Apply(p, q, step),
                if step.Report? && step.success then succeeded + {step.key} else succeeded)
  {
    match step
    case Execute => SameHandlersKeepInv(p, q, Apply(p, q, step), succeeded);
    case DispatchFails => SameHandlersKeepInv(p, q, Apply(p, q, step), succeeded);
    case Resume(h) =>
      if q.handlers[h].Migrating? {
        UpdateKeepsInv(p, q, h, q.handlers[h].key, succeeded, succeeded);
      } else {
        assert SomeoneScheduling(q);
        FinishKeepsInv(p, q, h, succeeded);
      }
    case Report(h, key, success, freeCache) =>
      if !success {
        SameHandlersKeepInv(p, q, Apply(p, q, step), succeeded);
      } else if freeCache {
        UpdateKeepsInv(p, q, h, key, succeeded, succeeded + {key});
      } else {
        SuspendKeepsInv(p, q, h, key, succeeded);
      }
  }

  lemma {:induction false} EveryRunKeepsInv(p: Payload, steps: seq<Step>)
    requires Possible(p, steps)
    ensures Inv(p, After(p, steps), Succeeded(steps))
  {
    if steps != [] {
      EveryRunKeepsInv(p, steps[..|steps| - 1]);
      StepKeepsInv(p, After(p, steps[..|steps| - 1]), steps[|steps| - 1], Succeeded(steps[..|steps| - 1]));
    }
  }

  /** Under every interleaving a completed query has had a successful report from every node,
      so a node that only ever reports failure keeps the query incomplete. */
  lemma {:induction false} CompletedNeedsEverySuccess(p: Payload, steps: seq<Step>)
    requires Possible(p, steps) && After(p, steps).completed
    ensures forall k :: k in p.ids ==> exists s :: s in steps && s.Report? && s.success && s.key == k
    ensures p.ids != {}
  {
    EveryRunKeepsInv(p, steps);
  }

  /** Completion is never undone by later steps. */
  lemma {:induction false} CompletedIsFinal(p: Payload, steps: seq<Step>, n: nat)
    requires n <= |steps| && After(p, steps[..n]).completed
    ensures After(p, steps).completed
    decreases |steps|
  {
    if n == |steps| {
      assert steps[..n] == steps;
    } else {
      assert steps[..|steps| - 1][..n] == steps[..n];
      CompletedIsFinal(p, steps[..|steps| - 1], n);
      StepKeepsCompleted(p, After(p, steps[..|steps| - 1]), steps[|steps| - 1]);
    }
  }

  lemma StepKeepsCompleted(p: Payload, q: Query, step: Step)
    requires q.completed
    ensures Apply(p, q, step).completed
  {}

  /** Once no handler is suspended, a completed query has nodes and every one of them has reported
      success; and the other way round unless an unlisted workflow key can become ready. */
  lemma {:induction false} QuiescentCompletesIffAllSucceeded(p: Payload, steps: seq<Step>)
    requires Possible(p, steps) && After(p, steps).handlers == map[]
    ensures After(p, steps).completed ==> p.ids != {} && p.ids <= Succeeded(steps)
    ensures p.NeverRaises() ==> (After(p, steps).completed <==> p.ids != {} && p.ids <= Succeeded(steps))
  {
    EveryRunKeepsInv(p, steps);
    var q := After(p, steps);
    assert forall k :: !IsMigrating(q, k);
    assert !SomeoneScheduling(q);
  }

  /** Step `k` of a run is an error: a failure report, a failed dispatch, or an entry dispatch that raises. */
  ghost predicate FailsAt(p: Payload, steps: seq<Step>, k: nat)
    requires k < |steps|
  {
    match steps[k]
    case Report(_, _, success, _) => !success
    case DispatchFails => true
    case Execute => exists key :: key in p.order && Offends(p, After(p, steps[..k]).dag, true, key)
    case Resume(_) => false
  }

  /** The error of a query is set exactly after such a step. */
  lemma {:induction false} FailedIff(p: Payload, steps: seq<Step>)
    ensures After(p, steps).failed <==> exists k: nat :: k < |steps| && FailsAt(p, steps, k)
  {
    if steps != [] {
      var front, last := steps[..|steps| - 1], |steps| - 1;
      FailedIff(p, front);
      AttemptRaisesIff(p, After(p, front).dag, true);
      forall k: nat | k < last
        ensures FailsAt(p, steps, k) <==> FailsAt(p, front, k)
      {
        assert front[..k] == steps[..k] && front[k] == steps[k];
      }
      StepFails(p, After(p, front), steps[last]);
      assert FailsAt(p, steps, last) <==> steps[last].DispatchFails? || (steps[last].Report? && !steps[last].success) ||
                                          (steps[last].Execute? && Attempt(p, After(p, front).dag, true).1 == None);
    }
  }

  lemma StepFails(p: Payload, q: Query, step: Step)
    ensures Apply(p, q, step).failed <==>
            || q.failed || step.DispatchFails? || (step.Report? && !step.success)
            || (step.Execute? && Attempt(p, q.dag, true).1 == None)
  {}
}
