/**
  When is a query sure to complete?  A workflow key that is not a listed node makes
  the dispatch loop raise once everything it waits for has been executed.  Over the
  runs the system produces - nodes report only after they have been sent out - this
  file says exactly which payloads can end with every node successful and the query
  still incomplete.
 */
module QueryCompletion {
  import opened Collections
  import opened WorkflowDag
  import opened QueryController

  // ---------------------------------------------------------------- runs the system produces

  function IdSet(nodes: Option<seq<NodeId>>): set<NodeId> {
    if nodes.Some? then set k | k in nodes.value else {}
  }

  /** Nodes sent out by a completion: what the dispatch loop returned, nothing if it raised. */
  function SentByUpdate(p: Payload, q: Query, key: NodeId): set<NodeId> {
    if key in p.ids then IdSet(Attempt(p, MarkFinished(q.dag, key), false).1) else {}
  }

  function SentBy(p: Payload, q: Query, step: Step): set<NodeId> {
    match step
    case Execute => IdSet(Attempt(p, q.dag, true).1)
    case Report(_, key, success, freeCache) => if success && freeCache then SentByUpdate(p, q, key) else {}
    case Resume(h) =>
      if h in q.handlers && q.handlers[h].Migrating? then SentByUpdate(p, q, q.handlers[h].key) else {}
    case DispatchFails => {}
  }

  /** All nodes sent out in a run. */
  function Sent(p: Payload, steps: seq<Step>): set<NodeId> {
    if steps == [] then {}
    else
      var front, step := steps[..|steps| - 1], steps[|steps| - 1];
      Sent(p, front) + SentBy(p, After(p, front), step)
  }

  /** Only nodes that have been sent out report. */
  ghost predicate Realistic(p: Payload, steps: seq<Step>) {
    steps == [] ||
    (var front, step := steps[..|steps| - 1], steps[|steps| - 1];
     Realistic(p, front) && Enabled(After(p, front), step) && (step.Report? ==> step.key in Sent(p, front)))
  }

  /** A run that is over: no handler is suspended and every node has reported success. */
  ghost predicate AllReported(p: Payload, steps: seq<Step>) {
    Realistic(p, steps) && After(p, steps).handlers == map[] && p.ids <= Succeeded(steps)
  }

  // ---------------------------------------------------------------- the condition

  ghost predicate Unlisted(p: Payload, k: NodeId) {
    k in p.parents && k !in p.ids
  }

  /** What some listed node waits for. */
  function Awaited(p: Payload): set<NodeId> {
    set v, d | v in p.ids && v in p.parents && d in p.parents[v] :: d
  }

  /** Every listed node has its dependencies given, among listed nodes and without a cycle. */
  ghost predicate Runnable(p: Payload) {
    && p.ids <= p.parents.Keys && Awaited(p) <= p.ids && p.Acyclic()
  }

  /** All nodes can be sent out before the loop first raises, and it raises when the last one completes. */
  ghost predicate CanStall(p: Payload) {
    && Runnable(p)
    && (exists k :: Unlisted(p, k) && p.Ready(p.ids, k))
    && (forall k :: Unlisted(p, k) ==> !p.Ready(Awaited(p), k))
  }

  lemma ReadyGrows(p: Payload, a: set<NodeId>, b: set<NodeId>, k: NodeId)
    requires k in p.parents && a <= b && p.Ready(a, k)
    ensures p.Ready(b, k)
  {}

  lemma {:induction false} StepUnfolds(p: Payload, front: seq<Step>, step: Step)
    ensures After(p, front + [step]) == Apply(p, After(p, front), step)
    ensures Realistic(p, front + [step]) <==>
            Realistic(p, front) && Enabled(After(p, front), step) && (step.Report? ==> step.key in Sent(p, front))
    ensures Sent(p, front + [step]) == Sent(p, front) + SentBy(p, After(p, front), step)
    ensures Succeeded(front + [step]) ==
            if step.Report? && step.success then Succeeded(front) + {step.key} else Succeeded(front)
  {
    assert (front + [step])[..|front|] == front;
  }

  lemma {:induction false} RealisticIsPossible(p: Payload, steps: seq<Step>)
    requires Realistic(p, steps)
    ensures Possible(p, steps) && Succeeded(steps) <= Sent(p, steps)
  {
    if steps != [] {
      RealisticIsPossible(p, steps[..|steps| - 1]);
    }
  }

  // ---------------------------------------------------------------- what has been sent out

  /** A loop that does not raise returns listed nodes that are ready, and finds no unlisted key ready. */
  lemma LoopReturnsReady(p: Payload, s: DagState, entryOnly: bool, nodes: seq<NodeId>)
    requires p.WellFormed() && s.status.Keys == p.ids && Attempt(p, s, entryOnly).1 == Some(nodes)
    ensures forall k :: k in nodes ==> k in p.ids && k in p.parents && Eligible(p, s, entryOnly, k)
    ensures forall k :: Unlisted(p, k) ==> !Eligible(p, s, entryOnly, k)
  {
    forall k | Unlisted(p, k)
      ensures !Eligible(p, s, entryOnly, k)
    {
      assert k in p.order;
    }
  }

  /** The nodes sent out, with a ranking of them. */
  ghost predicate SentSoundly(p: Payload, executed: set<NodeId>, sent: set<NodeId>, rank: map<NodeId, nat>, n: nat) {
    && sent <= p.ids && executed <= sent && rank.Keys == sent
    && (forall k :: k in sent ==> k in p.parents && p.Ready(executed, k) && rank[k] < n)
    && (forall k, d :: k in sent && k in p.parents && d in p.parents[k] ==> d in rank && rank[d] < rank[k])
    && (sent != {} ==> forall k :: Unlisted(p, k) ==> MissesParent(p, sent, k))
  }

  /** The key waits for something that no node in `sent` waits for. */
  ghost predicate MissesParent(p: Payload, sent: set<NodeId>, k: NodeId) {
    k in p.parents && exists d :: d in p.parents[k] && NobodyAwaits(p, sent, d)
  }

  ghost predicate NobodyAwaits(p: Payload, sent: set<NodeId>, d: NodeId) {
    forall v :: v in sent && v in p.parents ==> d !in p.parents[v]
  }

  /** Sending more nodes, ready on what is executed by then, keeps this. */
  lemma SendMore(p: Payload, executed: set<NodeId>, executed': set<NodeId>, sent: set<NodeId>, more: set<NodeId>,
                 rank: map<NodeId, nat>, n: nat)
    returns (rank': map<NodeId, nat>)
    requires SentSoundly(p, executed, sent, rank, n) && executed <= executed' <= sent && more <= p.ids
    requires forall k :: k in more ==> k in p.parents && p.Ready(executed', k)
    requires more != {} ==> forall k :: Unlisted(p, k) ==> !p.Ready(executed', k)
    ensures SentSoundly(p, executed', sent + more, rank', n + 1)
  {
    rank' := map k | k in sent + more :: if k in sent then rank[k] else n;
    forall k | k in sent
      ensures p.Ready(executed', k)
    {
      ReadyGrows(p, executed, executed', k);
    }
    if more == {} {
      assert sent + more == sent;
    } else {
      forall k | Unlisted(p, k)
        ensures MissesParent(p, sent + more, k)
      {
        var d :| d in p.parents[k] && d !in executed';
        assert NobodyAwaits(p, sent + more, d);
      }
    }
  }

  /** One completion. */
  lemma UpdateSends(p: Payload, q: Query, key: NodeId, sent: set<NodeId>, rank: map<NodeId, nat>, n: nat)
    returns (rank': map<NodeId, nat>)
    requires p.WellFormed() && q.dag.status.Keys == p.ids && key in sent
    requires SentSoundly(p, q.dag.executed, sent, rank, n)
    ensures SentSoundly(p, q.dag.executed + {key}, sent + SentByUpdate(p, q, key), rank', n + 1)
  {
    var s := MarkFinished(q.dag, key);
    var nodes := Attempt(p, s, false).1;
    if nodes.Some? {
      LoopReturnsReady(p, s, false, nodes.value);
    }
    rank' := SendMore(p, q.dag.executed, s.executed, sent, SentByUpdate(p, q, key), rank, n);
  }

  lemma ExecuteSends(p: Payload, q: Query, sent: set<NodeId>, rank: map<NodeId, nat>, n: nat)
    returns (rank': map<NodeId, nat>)
    requires p.WellFormed() && q.dag.status.Keys == p.ids && sent == {}
    requires SentSoundly(p, q.dag.executed, sent, rank, n)
    ensures SentSoundly(p, q.dag.executed, sent + SentBy(p, q, Execute), rank', n + 1)
  {
    var nodes := Attempt(p, q.dag, true).1;
    if nodes.Some? {
      LoopReturnsReady(p, q.dag, true, nodes.value);
      forall k | Unlisted(p, k)
        ensures !p.Ready({}, k)
      {
        assert p.parents[k][0] in p.parents[k];
      }
    }
    rank' := SendMore(p, q.dag.executed, q.dag.executed, sent, SentBy(p, q, Execute), rank, n);
  }

  /** Before the query is started nothing has been sent out. */
  lemma {:induction false} NothingSentUnstarted(p: Payload, steps: seq<Step>)
    requires Realistic(p, steps) && !After(p, steps).started
    ensures Sent(p, steps) == {} && After(p, steps).handlers == map[]
  {
    if steps != [] {
      var front, step := steps[..|steps| - 1], steps[|steps| - 1];
      StartedStays(p, After(p, front), step);
      NothingSentUnstarted(p, front);
      UnstartedStep(p, After(p, front), step);
    }
  }

  lemma StartedStays(p: Payload, q: Query, step: Step)
    ensures q.started || step.Execute? ==> Apply(p, q, step).started
  {}

  lemma UnstartedStep(p: Payload, q: Query, step: Step)
    requires Enabled(q, step) && q.handlers == map[] && !step.Execute? && !step.Report?
    ensures SentBy(p, q, step) == {} && Apply(p, q, step).handlers == map[]
  {}

  /** Every realistic run sends out nodes soundly. */
  lemma {:induction false} EveryRunSendsSoundly(p: Payload, steps: seq<Step>) returns (rank: map<NodeId, nat>)
    requires p.WellFormed() && Realistic(p, steps)
    ensures SentSoundly(p, After(p, steps).dag.executed, Sent(p, steps), rank, |steps|)
  {
    if steps == [] {
      rank := map[];
    } else {
      var front, step := steps[..|steps| - 1], steps[|steps| - 1];
      rank := EveryRunSendsSoundly(p, front);
      RealisticIsPossible(p, front);
      EveryRunKeepsInv(p, front);
      if step.Execute? {
        NothingSentUnstarted(p, front);
      }
      rank := StepSendsSoundly(p, After(p, front), step, Sent(p, front), Succeeded(front), rank, |front|);
    }
  }

  lemma StepSendsSoundly(p: Payload, q: Query, step: Step, sent: set<NodeId>, succeeded: set<NodeId>,
                         rank: map<NodeId, nat>, n: nat)
    returns (rank': map<NodeId, nat>)
    requires p.WellFormed() && Inv(p, q, succeeded) && Enabled(q, step) && succeeded <= sent
    requires step.Report? ==> step.key in sent
    requires step.Execute? ==> sent == {}
    requires SentSoundly(p, q.dag.executed, sent, rank, n)
    ensures SentSoundly(p, Apply(p, q, step).dag.executed, sent + SentBy(p, q, step), rank', n + 1)
  {
    if step.Execute? {
      rank' := ExecuteSends(p, q, sent, rank, n);
    } else if step.Report? && step.success && step.freeCache {
      rank' := UpdateSends(p, q, step.key, sent, rank, n);
      UpdateExecutes(p, q, step.handler, step.key);
    } else if step.Resume? && q.handlers[step.handler].Migrating? {
      rank' := UpdateSends(p, q, q.handlers[step.handler].key, sent, rank, n);
      UpdateExecutes(p, q, step.handler, q.handlers[step.handler].key);
    } else {
      rank' := SendMore(p, q.dag.executed, q.dag.executed, sent, {}, rank, n);
    }
  }

  lemma UpdateExecutes(p: Payload, q: Query, h: int, key: NodeId)
    requires key in p.ids
    ensures Update(p, q, h, key).dag.executed == q.dag.executed + {key}
  {
    AttemptKeepsExecuted(p, MarkFinished(q.dag, key), false);
  }

  /** A realistic run in which every node reports success shows that the listed graph is runnable and
      that no unlisted key waits only for what listed nodes wait for. */
  lemma AllReportedIsRunnable(p: Payload, steps: seq<Step>)
    requires p.WellFormed() && p.ids != {} && AllReported(p, steps)
    ensures Runnable(p) && forall k :: Unlisted(p, k) ==> !p.Ready(Awaited(p), k)
  {
    RealisticIsPossible(p, steps);
    var rank := EveryRunSendsSoundly(p, steps);
    assert Sent(p, steps) == p.ids;
    assert p.Ranks(rank);
    forall k | Unlisted(p, k)
      ensures !p.Ready(Awaited(p), k)
    {
      assert MissesParent(p, p.ids, k);
      var d :| d in p.parents[k] && NobodyAwaits(p, p.ids, d);
    }
  }

  // ---------------------------------------------------------------- a run that stalls

  /** Nodes have reported one after the other, nothing is suspended, the query is not complete. */
  ghost predicate InTurn(p: Payload, steps: seq<Step>, done: set<NodeId>) {
    var q := After(p, steps);
    && Realistic(p, steps) && q.started && q.handlers == map[] && q.dag.executed == done
    && q.dag.status.Keys == p.ids && !q.completed && Succeeded(steps) == done
  }

  /** Every ready node has been sent out, the others wait. */
  ghost predicate ReadyAreSent(p: Payload, s: DagState, sent: set<NodeId>) {
    forall k :: k in p.ids && k in p.parents ==>
      if p.Ready(s.executed, k) then k in sent else k in s.status && (k in s.executed || s.status[k] == Waiting)
  }

  /** One more report, with its handler run to its end. */
  lemma {:induction false} ReportOne(p: Payload, front: seq<Step>, key: NodeId, done: set<NodeId>)
    returns (steps: seq<Step>)
    requires p.WellFormed() && InTurn(p, front, done) && key in p.ids && key !in done && key in Sent(p, front)
    requires done <= p.ids
    requires done + {key} == p.ids ==> Attempt(p, MarkFinished(After(p, front).dag, key), false).1 == None
    ensures InTurn(p, steps, done + {key})
    ensures Sent(p, steps) == Sent(p, front) + SentByUpdate(p, After(p, front), key)
    ensures After(p, steps).dag == Attempt(p, MarkFinished(After(p, front).dag, key), false).0
  {
    var report := Report(0, key, true, true);
    UpdateLeavesOne(p, After(p, front), key, done);
    StepUnfolds(p, front, report);
    steps := front + [report];
    if 0 in After(p, steps).handlers {
      StepUnfolds(p, steps, Resume(0));
      steps := steps + [Resume(0)];
    }
  }

  /** After one more report at most that handler is suspended, and resuming it does not complete the query. */
  lemma UpdateLeavesOne(p: Payload, q: Query, key: NodeId, done: set<NodeId>)
    requires key in p.ids && key !in done && done <= p.ids
    requires q.handlers == map[] && q.dag.executed == done && q.dag.status.Keys == p.ids && !q.completed
    requires done + {key} == p.ids ==> Attempt(p, MarkFinished(q.dag, key), false).1 == None
    ensures var q' := Update(p, q, 0, key);
            && q'.dag == Attempt(p, MarkFinished(q.dag, key), false).0
            && q'.dag.executed == done + {key} && q'.dag.status.Keys == p.ids && !q'.completed
            && q'.started == q.started
            && (q'.handlers == map[] || (q'.handlers == map[0 := Scheduling] && !Finish(p, q', 0).completed))
            && Finish(p, q', 0).handlers == map[]
  {
    var s := MarkFinished(q.dag, key);
    AttemptKeepsExecuted(p, s, false);
    CompletedMeansAll(p, s);
  }

  /** No unlisted key is ready on `executed`: the loop does not raise. */
  lemma {:induction false} LoopDoesNotRaise(p: Payload, s: DagState, entryOnly: bool)
    requires p.WellFormed() && s.status.Keys == p.ids
    requires forall k :: Unlisted(p, k) ==> !Eligible(p, s, entryOnly, k)
    ensures Attempt(p, s, entryOnly).1 == Some(Picked(p, s, entryOnly, p.order))
    ensures Attempt(p, s, entryOnly).0 == Dispatch(p, s, entryOnly).0
  {
    forall j | 0 <= j < |p.order|
      ensures !Offends(p, s, entryOnly, p.order[j])
    {
      assert p.order[j] in p.order;
    }
    assert p.order[..|p.order|] == p.order;
  }

  /** Starting a query that can stall sends out its entry nodes. */
  lemma StartSends(p: Payload) returns (steps: seq<Step>)
    requires p.WellFormed() && p.ids != {} && CanStall(p)
    ensures InTurn(p, steps, {}) && ReadyAreSent(p, After(p, steps).dag, Sent(p, steps))
  {
    var s := Initial(p);
    forall k | Unlisted(p, k)
      ensures !Eligible(p, s, true, k)
    {
      assert !p.Ready(Awaited(p), k);
    }
    LoopDoesNotRaise(p, s, true);
    steps := [] + [Execute];
    StepUnfolds(p, [], Execute);
    EntryReadyAreSent(p);
  }

  lemma EntryReadyAreSent(p: Payload)
    requires p.WellFormed()
    ensures var (s, nodes) := Dispatch(p, Initial(p), true);
            ReadyAreSent(p, s, set k | k in nodes)
  {
    var (s, nodes) := Dispatch(p, Initial(p), true);
    forall k | k in p.ids && k in p.parents
      ensures if p.Ready(s.executed, k) then k in nodes else k in s.status && s.status[k] == Waiting
    {
      if p.parents[k] != [] {
        assert p.parents[k][0] in p.parents[k];
      }
      assert k in p.order;
    }
  }

  /** A report that does not make the loop raise sends out whatever became ready. */
  lemma CompletionSendsReady(p: Payload, s: DagState, key: NodeId, sent: set<NodeId>)
    requires p.WellFormed() && s.status.Keys == p.ids && key in p.ids && ReadyAreSent(p, s, sent) && key in sent
    requires s.executed <= sent
    ensures var (s', nodes) := Dispatch(p, MarkFinished(s, key), false);
            ReadyAreSent(p, s', sent + set k | k in nodes)
  {
    var m := MarkFinished(s, key);
    var (s', nodes) := Dispatch(p, m, false);
    forall k | k in p.ids && k in p.parents
      ensures if p.Ready(s'.executed, k) then k in sent || k in nodes
              else k in s'.status && (k in s'.executed || s'.status[k] == Waiting)
    {
      assert k in p.order;
      if p.Ready(s.executed, k) {
        ReadyGrows(p, s.executed, m.executed, k);
      }
    }
  }

  /** First what listed nodes wait for is executed, in order of rank: everything has then been sent out. */
  lemma {:induction false} ExecuteAwaited(p: Payload, rank: map<NodeId, nat>, front: seq<Step>, done: set<NodeId>)
    returns (steps: seq<Step>)
    requires p.WellFormed() && p.ids != {} && CanStall(p) && p.Ranks(rank)
    requires done <= Awaited(p) && InTurn(p, front, done) && ReadyAreSent(p, After(p, front).dag, Sent(p, front))
    requires done <= Sent(p, front)
    ensures InTurn(p, steps, Awaited(p)) && p.ids <= Sent(p, steps)
    decreases |Awaited(p) - done|
  {
    if done == Awaited(p) {
      steps := front;
      AllReadyOnAwaited(p);
    } else {
      var key := NextAwaited(p, rank, done);
      steps := ReportAwaited(p, front, key, done);
      assert Awaited(p) - (done + {key}) < Awaited(p) - done;
      SmallerSet(Awaited(p) - (done + {key}), Awaited(p) - done);
      steps := ExecuteAwaited(p, rank, steps, done + {key});
    }
  }

  lemma SmallerSet(a: set<NodeId>, b: set<NodeId>)
    requires a < b
    ensures |a| < |b|
  {
    SubsetSize(a, b);
    assert b == a + (b - a);
  }

  lemma AllReadyOnAwaited(p: Payload)
    ensures forall k :: k in p.ids && k in p.parents ==> p.Ready(Awaited(p), k)
  {}

  lemma NextAwaited(p: Payload, rank: map<NodeId, nat>, done: set<NodeId>) returns (key: NodeId)
    requires Runnable(p) && p.Ranks(rank) && done <= Awaited(p) && done != Awaited(p)
    ensures key in Awaited(p) && key !in done && p.Ready(done, key)
  {
    var x :| x in Awaited(p) && x !in done;
    assert x in Awaited(p) - done;
    key := LeastRanked(p, rank, Awaited(p) - done);
    forall d | d in p.parents[key]
      ensures d in done
    {
      assert d in Awaited(p) && rank[d] < rank[key];
    }
  }

  lemma {:induction false} ReportAwaited(p: Payload, front: seq<Step>, key: NodeId, done: set<NodeId>)
    returns (steps: seq<Step>)
    requires p.WellFormed() && CanStall(p) && InTurn(p, front, done)
    requires ReadyAreSent(p, After(p, front).dag, Sent(p, front)) && done <= Sent(p, front)
    requires done <= Awaited(p) && key in Awaited(p) && key !in done && p.Ready(done, key)
    ensures InTurn(p, steps, done + {key}) && ReadyAreSent(p, After(p, steps).dag, Sent(p, steps))
    ensures done + {key} <= Sent(p, steps)
  {
    NotAllAwaited(p, done + {key});
    AwaitedCompletion(p, After(p, front), key, Sent(p, front));
    steps := ReportOne(p, front, key, done);
  }

  lemma AwaitedCompletion(p: Payload, q: Query, key: NodeId, sent: set<NodeId>)
    requires p.WellFormed() && CanStall(p) && q.dag.status.Keys == p.ids
    requires ReadyAreSent(p, q.dag, sent) && q.dag.executed <= sent && q.dag.executed <= Awaited(p)
    requires key in Awaited(p) && p.Ready(q.dag.executed, key)
    ensures key in sent
    ensures ReadyAreSent(p, Attempt(p, MarkFinished(q.dag, key), false).0, sent + SentByUpdate(p, q, key))
  {
    var s := MarkFinished(q.dag, key);
    forall k | Unlisted(p, k)
      ensures !Eligible(p, s, false, k)
    {
      if p.Ready(s.executed, k) {
        ReadyGrows(p, s.executed, Awaited(p), k);
      }
    }
    LoopDoesNotRaise(p, s, false);
    CompletionSendsReady(p, q.dag, key, sent);
  }

  /** A payload that can stall has listed nodes that nobody waits for. */
  lemma NotAllAwaited(p: Payload, done: set<NodeId>)
    requires CanStall(p) && done <= Awaited(p)
    ensures done != p.ids
  {
    if done == p.ids {
      var k :| Unlisted(p, k) && p.Ready(p.ids, k);
      ReadyGrows(p, p.ids, Awaited(p), k);
    }
  }

  /** Then the rest, in any order: the last report raises. */
  lemma {:induction false} ExecuteRest(p: Payload, front: seq<Step>, done: set<NodeId>) returns (steps: seq<Step>)
    requires p.WellFormed() && CanStall(p) && done <= p.ids && InTurn(p, front, done) && p.ids <= Sent(p, front)
    ensures InTurn(p, steps, p.ids)
    decreases |p.ids - done|
  {
    if done == p.ids {
      steps := front;
    } else {
      var key :| key in p.ids && key !in done;
      if done + {key} == p.ids {
        LastReportRaises(p, After(p, front).dag, key, done);
      }
      steps := ReportOne(p, front, key, done);
      SmallerSet(p.ids - (done + {key}), p.ids - done);
      steps := ExecuteRest(p, steps, done + {key});
    }
  }

  lemma LastReportRaises(p: Payload, s: DagState, key: NodeId, done: set<NodeId>)
    requires p.WellFormed() && CanStall(p) && s.executed == done && s.status.Keys == p.ids && done + {key} == p.ids
    requires key in p.ids
    ensures Attempt(p, MarkFinished(s, key), false).1 == None
  {
    var k :| Unlisted(p, k) && p.Ready(p.ids, k);
    assert k in p.order && Offends(p, MarkFinished(s, key), false, k);
    AttemptRaisesIff(p, MarkFinished(s, key), false);
  }

  /** A payload that meets the condition has a run that stalls. */
  lemma StallingRun(p: Payload) returns (steps: seq<Step>)
    requires p.WellFormed() && p.ids != {} && CanStall(p)
    ensures AllReported(p, steps) && !After(p, steps).completed
  {
    var rank: map<NodeId, nat> :| p.Ranks(rank);
    steps := StartSends(p);
    steps := ExecuteAwaited(p, rank, steps, {});
    steps := ExecuteRest(p, steps, Awaited(p));
  }

  // ---------------------------------------------------------------- the theorem

  /** Success of every node is sure to complete the query, over all runs the system produces, exactly
      when the payload cannot stall. */
  lemma {:induction false} CompletionIsCertainIff(p: Payload)
    requires p.WellFormed() && p.ids != {}
    ensures (forall steps :: AllReported(p, steps) ==> After(p, steps).completed) <==> !CanStall(p)
  {
    forall steps | AllReported(p, steps) && !CanStall(p)
      ensures After(p, steps).completed
    {
      RealisticIsPossible(p, steps);
      AllReportedIsRunnable(p, steps);
      assert p.NeverRaises();
      QuiescentCompletesIffAllSucceeded(p, steps);
    }
    if CanStall(p) {
      var steps := StallingRun(p);
    }
  }

  /** The smallest such payload: `a` alone is listed, an unlisted key waits for it. */
  lemma UnlistedSuccessorStalls(a: NodeId, k: NodeId)
    requires a != k
    ensures var p := Payload([a, k], map[a := [], k := [a]], {a});
            var steps := [Execute, Report(0, a, true, true)];
            p.WellFormed() && CanStall(p) && AllReported(p, steps) && !After(p, steps).completed
  {
    var p := Payload([a, k], map[a := [], k := [a]], {a});
    var rank: map<NodeId, nat> := map[a := 0];
    assert p.Ranks(rank);
    assert a in p.parents[k];
    assert Unlisted(p, k) && p.Ready(p.ids, k);
    StallsInTwoSteps(p, a, k);
  }

  lemma {:induction false} StallsInTwoSteps(p: Payload, a: NodeId, k: NodeId)
    requires a != k && p == Payload([a, k], map[a := [], k := [a]], {a}) && p.WellFormed()
    ensures var steps := [Execute, Report(0, a, true, true)];
            AllReported(p, steps) && !After(p, steps).completed
  {
    var report := Report(0, a, true, true);
    assert a in p.parents[k];
    LoopDoesNotRaise(p, Initial(p), true);
    StepUnfolds(p, [], Execute);
    assert [] + [Execute] == [Execute] && [Execute] + [report] == [Execute, report];
    assert a in p.order && a in Sent(p, [Execute]);
    StepUnfolds(p, [Execute], report);
    var s := MarkFinished(After(p, [Execute]).dag, a);
    assert k in p.order && Offends(p, s, false, k);
    AttemptRaisesIff(p, s, false);
  }
}
