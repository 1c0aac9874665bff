/**
  `AsyncAgentScheduler`: choosing an instance for a node, and moving a finished
  request's cache to the range it has grown into.

  Answers of `/cache_state` and `/migrate_cache` are parameters.  Each method is one
  atomic segment between awaits; what the code keeps across an await is passed on,
  and what it reads again is read from the object, which others may have changed.
 */
module Scheduler {
  import opened Collections
  import opened InstanceRegistry
  import opened InstanceManager
  import opened PrefixCache

  datatype CacheState = CacheState(
    gpuEntries: seq<(int, int)>,
    activeRequests: int,
    blockSize: Option<int>,
    noneHash: Option<int>,
    gpu: seq<int>,
    cpu: seq<int>)

  datatype Candidate = Candidate(info: InstanceInfo, state: CacheState)

  /** `_instance_score`. */
  function Score(state: CacheState): int {
    state.activeRequests + |state.gpuEntries|
  }

  /** `a` has no more active requests and resident entries, taken together, than `b`. */
  ghost predicate NoMoreLoaded(a: CacheState, b: CacheState) {
    a.activeRequests + |a.gpuEntries| <= b.activeRequests + |b.gpuEntries|
  }

  /** Missing and zero block sizes both mean 16. */
  function EffectiveBlockSize(state: CacheState): int {
    if state.blockSize == None || state.blockSize == Some(0) then 16 else state.blockSize.value
  }

  function Hits(h: HashFn, tokens: seq<int>, state: CacheState): nat
    requires state.noneHash.Some?
  {
    HitCount(HashChain(h, state.noneHash.value, Blocks(tokens, EffectiveBlockSize(state))),
             (set x | x in state.gpu) + (set x | x in state.cpu))
  }

  /** Hash the request for one answer's block size and base, and count: both devices' blocks. */
  method CountHits(h: HashFn, tokens: seq<int>, state: CacheState) returns (hits: nat)
    requires state.noneHash.Some?
    ensures hits == Hits(h, tokens, state)
  {
    var hashes := ComputeRequestBlockHashes(h, tokens, EffectiveBlockSize(state), state.noneHash.value);
    hits := CountHashHits(hashes, state.gpu, state.cpu);
  }

  /** The answer's block size; a missing one and zero mean 16. */
  ghost predicate UsesBlockSize(state: CacheState, size: int) {
    match state.blockSize
    case None => size == 16
    case Some(n) => if n == 0 then size == 16 else size == n
  }

  /** The blocks on both devices together are those of the cached token sequences, and their hashes
      do not collide with the request's. */
  ghost predicate Holds(h: HashFn, tokens: seq<int>, state: CacheState, size: int, sequences: set<seq<int>>) {
    && state.noneHash.Some? && UsesBlockSize(state, size) && size > 0
    && (forall x :: x in state.gpu || x in state.cpu <==>
          exists c :: c in sequences && x in HashChain(h, state.noneHash.value, Blocks(c, size)))
    && NoCollisions(h, state.noneHash.value, size, tokens, sequences)
  }

  /** `n` is the largest number of whole blocks the tokens share, as a prefix, with one of the sequences. */
  ghost predicate IsLongestShared(tokens: seq<int>, sequences: set<seq<int>>, size: nat, n: nat) {
    && (n > 0 ==> exists c :: c in sequences && SharesBlocks(tokens, c, size, n))
    && (forall c, m: nat :: c in sequences && SharesBlocks(tokens, c, size, m) ==> m <= n)
  }

  /** The hits of an answer are the longest prefix the instance really holds, on either device. */
  lemma HitsAreLongestShared(h: HashFn, tokens: seq<int>, state: CacheState, size: int, sequences: set<seq<int>>)
    requires Holds(h, tokens, state, size, sequences)
    ensures IsLongestShared(tokens, sequences, size, Hits(h, tokens, state))
  {
    var cache := (set x | x in state.gpu) + (set x | x in state.cpu);
    assert EffectiveBlockSize(state) == size;
    assert CacheOf(h, state.noneHash.value, size, sequences, cache);
    HitsAreSharedBlocks(h, state.noneHash.value, size, tokens, sequences, cache);
  }

  // ---------------------------------------------------------------- route

  function Exact(cs: seq<Candidate>, request: (int, int)): (r: seq<Candidate>)
    ensures forall c :: c in r <==> c in cs && request in c.state.gpuEntries
  {
    if cs == [] then []
    else
      var rest := Exact(cs[1..], request);
      assert cs == [cs[0]] + cs[1..];
      if request in cs[0].state.gpuEntries then [cs[0]] + rest else rest
  }

  function Scorable(cs: seq<Candidate>): (r: seq<Candidate>)
    ensures forall c :: c in r <==> c in cs && c.state.noneHash.Some?
  {
    if cs == [] then []
    else
      var rest := Scorable(cs[1..]);
      assert cs == [cs[0]] + cs[1..];
      if cs[0].state.noneHash.Some? then [cs[0]] + rest else rest
  }

  function MaxHits(h: HashFn, tokens: seq<int>, cs: seq<Candidate>): (m: nat)
    requires cs != [] && forall c :: c in cs ==> c.state.noneHash.Some?
    ensures forall c :: c in cs ==> Hits(h, tokens, c.state) <= m
    ensures exists c :: c in cs && Hits(h, tokens, c.state) == m
  {
    assert cs == [cs[0]] + cs[1..];
    if |cs| == 1 then Hits(h, tokens, cs[0].state)
    else
      var m := MaxHits(h, tokens, cs[1..]);
      if Hits(h, tokens, cs[0].state) > m then Hits(h, tokens, cs[0].state) else m
  }

  function Tied(h: HashFn, tokens: seq<int>, cs: seq<Candidate>, m: nat): (r: seq<Candidate>)
    requires forall c :: c in cs ==> c.state.noneHash.Some?
    ensures forall c :: c in r <==> c in cs && Hits(h, tokens, c.state) == m
  {
    if cs == [] then []
    else
      var rest := Tied(h, tokens, cs[1..], m);
      assert cs == [cs[0]] + cs[1..];
      if Hits(h, tokens, cs[0].state) == m then [cs[0]] + rest else rest
  }

  function InContext(cs: seq<Candidate>, ids: set<string>): (r: seq<Candidate>)
    ensures forall c :: c in r <==> c in cs && c.info.id in ids
  {
    if cs == [] then []
    else
      var rest := InContext(cs[1..], ids);
      assert cs == [cs[0]] + cs[1..];
      if cs[0].info.id in ids then [cs[0]] + rest else rest
  }

  /** First candidate of least score. */
  function LeastLoaded(cs: seq<Candidate>): (c: Candidate)
    requires cs != []
    ensures c in cs && forall d :: d in cs ==> Score(c.state) <= Score(d.state)
  {
    assert cs == [cs[0]] + cs[1..];
    if |cs| == 1 then cs[0]
    else
      var best := LeastLoaded(cs[1..]);
      if Score(cs[0].state) <= Score(best.state) then cs[0] else best
  }

  /** The decision of `route` once the answers are in; `contextIds` are the ready
      instances of the slot found for the input length, if any. */
  function Decide(h: HashFn, cs: seq<Candidate>, request: (int, int), tokens: seq<int>,
                  contextIds: Option<set<string>>): Option<Candidate>
  {
    if Exact(cs, request) != [] then Some(LeastLoaded(Exact(cs, request)))
    else if Scorable(cs) == [] then None
    else
      var tied := Tied(h, tokens, Scorable(cs), MaxHits(h, tokens, Scorable(cs)));
      if |tied| == 1 then Some(tied[0])
      else if contextIds.Some? && InContext(cs, contextIds.value) != [] then
        Some(LeastLoaded(InContext(cs, contextIds.value)))
      else Some(LeastLoaded(tied))
  }

  /** What the decision means: an exact entry wins at least load; otherwise a sole leader in
      hash hits wins; otherwise range membership, then the tied leaders, at least load. */
  lemma DecisionOrder(h: HashFn, cs: seq<Candidate>, request: (int, int), tokens: seq<int>,
                      contextIds: Option<set<string>>)
    ensures var r := Decide(h, cs, request, tokens, contextIds);
            && (r == None <==> forall c :: c in cs ==> request !in c.state.gpuEntries && c.state.noneHash == None)
            && (r.Some? ==> r.value in cs)
            && ((exists c :: c in cs && request in c.state.gpuEntries) ==>
                  request in r.value.state.gpuEntries &&
                  forall c :: c in cs && request in c.state.gpuEntries ==> NoMoreLoaded(r.value.state, c.state))
    ensures forall leader :: SoleLeader(h, cs, request, tokens, leader) ==>
              Decide(h, cs, request, tokens, contextIds) == Some(leader)
  {
    if Scorable(cs) != [] {
      assert Scorable(cs)[0] in cs;
    }
    if Exact(cs, request) != [] {
      assert Exact(cs, request)[0] in cs;
    }
    forall leader | SoleLeader(h, cs, request, tokens, leader)
      ensures Decide(h, cs, request, tokens, contextIds) == Some(leader)
    {
      SoleLeaderWins(h, cs, request, tokens, contextIds, leader);
    }
  }

  /** Nobody holds the exact entry, and `leader` alone, at one position, has the most hits. */
  ghost predicate SoleLeader(h: HashFn, cs: seq<Candidate>, request: (int, int), tokens: seq<int>, leader: Candidate) {
    && (forall c :: c in cs ==> request !in c.state.gpuEntries)
    && (forall c :: c in cs && c.state.noneHash.None? ==> c != leader)
    && exists i :: 0 <= i < |cs| && cs[i] == leader && leader.state.noneHash.Some? &&
         forall j :: 0 <= j < |cs| && j != i && cs[j].state.noneHash.Some? ==>
           Hits(h, tokens, cs[j].state) < Hits(h, tokens, leader.state)
  }

  lemma SoleLeaderWins(h: HashFn, cs: seq<Candidate>, request: (int, int), tokens: seq<int>,
                       contextIds: Option<set<string>>, leader: Candidate)
    requires SoleLeader(h, cs, request, tokens, leader)
    ensures Decide(h, cs, request, tokens, contextIds) == Some(leader)
  {
    assert forall c :: c !in Exact(cs, request);
    var i :| 0 <= i < |cs| && cs[i] == leader && leader.state.noneHash.Some? &&
             forall j :: 0 <= j < |cs| && j != i && cs[j].state.noneHash.Some? ==>
               Hits(h, tokens, cs[j].state) < Hits(h, tokens, leader.state);
    assert leader in Scorable(cs);
    var m := MaxHits(h, tokens, Scorable(cs));
    assert m == Hits(h, tokens, leader.state);
    TiedLeaderAlone(h, tokens, cs, i, m);
  }

  lemma {:induction false} TiedLeaderAlone(h: HashFn, tokens: seq<int>, cs: seq<Candidate>, i: nat, m: nat)
    requires i < |cs| && cs[i].state.noneHash.Some? && Hits(h, tokens, cs[i].state) == m
    requires forall j :: 0 <= j < |cs| && j != i && cs[j].state.noneHash.Some? ==> Hits(h, tokens, cs[j].state) < m
    ensures Tied(h, tokens, Scorable(cs), m) == [cs[i]]
  {
    var rest := Scorable(cs[1..]);
    if cs[0].state.noneHash.Some? {
      assert Scorable(cs)[1..] == rest;
    }
    if i == 0 {
      NoneTied(h, tokens, cs[1..], m);
    } else {
      TiedLeaderAlone(h, tokens, cs[1..], i - 1, m);
    }
  }

  lemma {:induction false} NoneTied(h: HashFn, tokens: seq<int>, cs: seq<Candidate>, m: nat)
    requires forall j :: 0 <= j < |cs| && cs[j].state.noneHash.Some? ==> Hits(h, tokens, cs[j].state) < m
    ensures Tied(h, tokens, Scorable(cs), m) == []
  {
    if cs != [] {
      NoneTied(h, tokens, cs[1..], m);
      if cs[0].state.noneHash.Some? {
        assert Scorable(cs)[1..] == Scorable(cs[1..]);
      }
    }
  }

  /** A sole instance sharing the longest prefix with the request, wherever it is cached, is the one
      routed to: it holds a sequence sharing `m` blocks, all other scorable ones share fewer. */
  lemma LongestPrefixIsRouted(h: HashFn, cs: seq<Candidate>, request: (int, int), tokens: seq<int>,
                              contextIds: Option<set<string>>, sizes: seq<nat>, held: seq<set<seq<int>>>, i: nat,
                              m: nat)
    requires i < |cs| == |sizes| == |held| && cs[i].state.noneHash.Some?
    requires forall c :: c in cs ==> request !in c.state.gpuEntries
    requires forall j :: 0 <= j < |cs| && cs[j].state.noneHash.Some? ==>
               Holds(h, tokens, cs[j].state, sizes[j], held[j])
    requires m > 0 && exists c :: c in held[i] && SharesBlocks(tokens, c, sizes[i], m)
    requires forall j :: 0 <= j < |cs| && j != i && cs[j].state.noneHash.Some? ==>
               forall c, n: nat :: c in held[j] && SharesBlocks(tokens, c, sizes[j], n) ==> n < m
    ensures Decide(h, cs, request, tokens, contextIds) == Some(cs[i])
  {
    HitsAreLongestShared(h, tokens, cs[i].state, sizes[i], held[i]);
    forall j | 0 <= j < |cs| && j != i && cs[j].state.noneHash.Some?
      ensures Hits(h, tokens, cs[j].state) < Hits(h, tokens, cs[i].state)
    {
      HitsAreLongestShared(h, tokens, cs[j].state, sizes[j], held[j]);
    }
    assert SoleLeader(h, cs, request, tokens, cs[i]);
    SoleLeaderWins(h, cs, request, tokens, contextIds, cs[i]);
  }

  /** No scorable instance has more hits than `c`. */
  ghost predicate Leads(h: HashFn, tokens: seq<int>, cs: seq<Candidate>, c: Candidate) {
    && c.state.noneHash.Some?
    && forall j :: 0 <= j < |cs| && cs[j].state.noneHash.Some? ==>
         Hits(h, tokens, cs[j].state) <= Hits(h, tokens, c.state)
  }

  /** Position `i` is the first of least score among the instances in `ids`. */
  ghost predicate FirstLeastInRange(cs: seq<Candidate>, ids: set<string>, i: int) {
    && 0 <= i < |cs| && cs[i].info.id in ids
    && (forall j :: 0 <= j < i && cs[j].info.id in ids ==> !NoMoreLoaded(cs[j].state, cs[i].state))
    && (forall j :: i < j < |cs| && cs[j].info.id in ids ==> NoMoreLoaded(cs[i].state, cs[j].state))
  }

  ghost predicate NoneInRange(cs: seq<Candidate>, contextIds: Option<set<string>>) {
    contextIds.Some? ==> forall j :: 0 <= j < |cs| ==> cs[j].info.id !in contextIds.value
  }

  ghost predicate InRangeLeader(h: HashFn, tokens: seq<int>, cs: seq<Candidate>, contextIds: Option<set<string>>) {
    contextIds.Some? && exists i :: FirstLeastInRange(cs, contextIds.value, i) && Leads(h, tokens, cs, cs[i])
  }

  /** Without an exact entry the choice has the most hits exactly when one instance leads alone, or
      no answering instance is in range, or the first least-loaded one in range leads as well. */
  lemma ChoiceLeadsIff(h: HashFn, cs: seq<Candidate>, request: (int, int), tokens: seq<int>,
                       contextIds: Option<set<string>>)
    requires forall c :: c in cs ==> request !in c.state.gpuEntries
    requires exists c :: c in cs && c.state.noneHash.Some?
    ensures var choice := Decide(h, cs, request, tokens, contextIds);
            choice.Some? &&
            (Leads(h, tokens, cs, choice.value) <==>
             || (exists leader :: SoleLeader(h, cs, request, tokens, leader))
             || NoneInRange(cs, contextIds)
             || InRangeLeader(h, tokens, cs, contextIds))
  {
    assert forall c :: c !in Exact(cs, request);
    var c :| c in cs && c.state.noneHash.Some?;
    assert c in Scorable(cs);
    var tied := Tied(h, tokens, Scorable(cs), MaxHits(h, tokens, Scorable(cs)));
    TiedLead(h, tokens, cs);
    if |tied| == 1 {
      assert tied[0] in tied;
      SoleTiedLeads(h, cs, request, tokens);
    } else {
      if leader :| SoleLeader(h, cs, request, tokens, leader) {
        SoleLeaderIsTied(h, cs, request, tokens, leader);
      }
      TieBrokenInRange(h, cs, tokens, contextIds);
    }
  }

  /** How a tie is broken. */
  lemma {:induction false} TieBrokenInRange(h: HashFn, cs: seq<Candidate>, tokens: seq<int>,
                                            contextIds: Option<set<string>>)
    requires Scorable(cs) != []
    ensures var tied := Tied(h, tokens, Scorable(cs), MaxHits(h, tokens, Scorable(cs)));
            && tied != []
            && (NoneInRange(cs, contextIds) <==> !(contextIds.Some? && InContext(cs, contextIds.value) != []))
            && (NoneInRange(cs, contextIds) ==> Leads(h, tokens, cs, LeastLoaded(tied)))
            && (!NoneInRange(cs, contextIds) ==>
                  (Leads(h, tokens, cs, LeastLoaded(InContext(cs, contextIds.value))) <==>
                   InRangeLeader(h, tokens, cs, contextIds)))
  {
    TiedLead(h, tokens, cs);
    if !NoneInRange(cs, contextIds) {
      var i := FirstLeastLoaded(cs, contextIds.value);
      FirstLeastUnique(cs, contextIds.value, i);
    } else if contextIds.Some? {
      EmptyContext(cs, contextIds.value);
    }
  }

  lemma {:induction false} EmptyContext(cs: seq<Candidate>, ids: set<string>)
    requires forall j :: 0 <= j < |cs| ==> cs[j].info.id !in ids
    ensures InContext(cs, ids) == []
  {
    if InContext(cs, ids) != [] {
      assert InContext(cs, ids)[0] in InContext(cs, ids);
    }
  }

  /** The tied instances are the leaders. */
  lemma {:induction false} TiedLead(h: HashFn, tokens: seq<int>, cs: seq<Candidate>)
    requires Scorable(cs) != []
    ensures var tied := Tied(h, tokens, Scorable(cs), MaxHits(h, tokens, Scorable(cs)));
            tied != [] && forall c :: c in cs ==> (c in tied <==> Leads(h, tokens, cs, c))
  {
    var m := MaxHits(h, tokens, Scorable(cs));
    var best :| best in Scorable(cs) && Hits(h, tokens, best.state) == m;
    assert best in Tied(h, tokens, Scorable(cs), m);
    forall c | c in cs
      ensures c in Tied(h, tokens, Scorable(cs), m) <==> Leads(h, tokens, cs, c)
    {
      var i :| 0 <= i < |cs| && cs[i] == best;
      forall j | 0 <= j < |cs| && cs[j].state.noneHash.Some?
        ensures Hits(h, tokens, cs[j].state) <= m
      {
        assert cs[j] in Scorable(cs);
      }
    }
  }

  lemma {:induction false} SoleLeaderIsTied(h: HashFn, cs: seq<Candidate>, request: (int, int), tokens: seq<int>,
                                            leader: Candidate)
    requires SoleLeader(h, cs, request, tokens, leader) && Scorable(cs) != []
    ensures |Tied(h, tokens, Scorable(cs), MaxHits(h, tokens, Scorable(cs)))| == 1
  {
    var i :| 0 <= i < |cs| && cs[i] == leader && leader.state.noneHash.Some? &&
             forall j :: 0 <= j < |cs| && j != i && cs[j].state.noneHash.Some? ==>
               Hits(h, tokens, cs[j].state) < Hits(h, tokens, leader.state);
    assert leader in Scorable(cs);
    var m := MaxHits(h, tokens, Scorable(cs));
    assert m == Hits(h, tokens, leader.state);
    TiedLeaderAlone(h, tokens, cs, i, m);
  }

  lemma {:induction false} SoleTiedLeads(h: HashFn, cs: seq<Candidate>, request: (int, int), tokens: seq<int>)
    requires forall c :: c in cs ==> request !in c.state.gpuEntries
    requires Scorable(cs) != [] && |Tied(h, tokens, Scorable(cs), MaxHits(h, tokens, Scorable(cs)))| == 1
    ensures exists leader :: SoleLeader(h, cs, request, tokens, leader)
  {
    var m := MaxHits(h, tokens, Scorable(cs));
    var i := OnlyTied(h, tokens, cs, m);
    forall j | 0 <= j < |cs| && j != i && cs[j].state.noneHash.Some?
      ensures Hits(h, tokens, cs[j].state) < Hits(h, tokens, cs[i].state)
    {
      assert cs[j] in Scorable(cs);
    }
    assert SoleLeader(h, cs, request, tokens, cs[i]);
  }

  /** A single tied instance stands at a single position. */
  lemma {:induction false} OnlyTied(h: HashFn, tokens: seq<int>, cs: seq<Candidate>, m: nat) returns (i: nat)
    requires |Tied(h, tokens, Scorable(cs), m)| == 1
    ensures i < |cs| && cs[i].state.noneHash.Some? && Hits(h, tokens, cs[i].state) == m
    ensures forall j :: 0 <= j < |cs| && j != i && cs[j].state.noneHash.Some? ==> Hits(h, tokens, cs[j].state) != m
  {
    var rest := Scorable(cs[1..]);
    if cs[0].state.noneHash.Some? {
      assert Scorable(cs)[1..] == rest;
    }
    if cs[0].state.noneHash.Some? && Hits(h, tokens, cs[0].state) == m {
      i := 0;
      assert Tied(h, tokens, rest, m) == [];
      forall j | 1 <= j < |cs| && cs[j].state.noneHash.Some?
        ensures Hits(h, tokens, cs[j].state) != m
      {
        assert cs[1..][j - 1] == cs[j] && cs[j] in rest;
        assert cs[j] !in Tied(h, tokens, rest, m);
      }
    } else {
      var k := OnlyTied(h, tokens, cs[1..], m);
      i := k + 1;
      forall j | 0 <= j < |cs| && j != i && cs[j].state.noneHash.Some?
        ensures Hits(h, tokens, cs[j].state) != m
      {
        assert j > 0 ==> cs[1..][j - 1] == cs[j];
      }
    }
  }

  /** Where the least-loaded instance in range stands. */
  lemma {:induction false} FirstLeastLoaded(cs: seq<Candidate>, ids: set<string>) returns (i: nat)
    requires exists j :: 0 <= j < |cs| && cs[j].info.id in ids
    ensures FirstLeastInRange(cs, ids, i)
    ensures InContext(cs, ids) != [] && LeastLoaded(InContext(cs, ids)) == cs[i]
  {
    var j :| 0 <= j < |cs| && cs[j].info.id in ids;
    assert cs[j] in InContext(cs, ids);
    var rest := InContext(cs[1..], ids);
    if rest == [] {
      forall k | 1 <= k < |cs|
        ensures cs[k].info.id !in ids
      {
        assert cs[1..][k - 1] == cs[k] && cs[k] !in rest;
      }
      i := 0;
    } else {
      assert rest[0] in cs[1..];
      var k := FirstLeastLoaded(cs[1..], ids);
      assert cs[0].info.id in ids ==> InContext(cs, ids)[1..] == rest;
      i := if cs[0].info.id in ids && Score(cs[0].state) <= Score(cs[k + 1].state) then 0 else k + 1;
      FirstLeastPrepend(cs, ids, k, i);
    }
  }

  lemma FirstLeastPrepend(cs: seq<Candidate>, ids: set<string>, k: nat, i: nat)
    requires cs != [] && FirstLeastInRange(cs[1..], ids, k)
    requires i == if cs[0].info.id in ids && Score(cs[0].state) <= Score(cs[k + 1].state) then 0 else k + 1
    ensures FirstLeastInRange(cs, ids, i)
  {
    forall j | 1 <= j < |cs|
      ensures cs[j] == cs[1..][j - 1]
    {
    }
  }

  lemma FirstLeastUnique(cs: seq<Candidate>, ids: set<string>, i: int)
    requires FirstLeastInRange(cs, ids, i)
    ensures forall j :: FirstLeastInRange(cs, ids, j) ==> j == i
  {}

  // ---------------------------------------------------------------- a tie that loses hits

  /** `ids` are those of the ready instances serving the slot, or None without a slot. */
  ghost predicate IsContextIds(g: Registry, agent: string, slot: Option<int>, ids: Option<set<string>>) {
    match slot
    case None => ids == None
    case Some(s) =>
      ids.Some? && forall id :: id in ids.value <==> id in g.instances && ReadyIn(g, agent, s, g.instances[id])
  }

  /** The ready instances of the agent, each once: what `route` asks. */
  ghost predicate AreAsked(g: Registry, agent: string, infos: seq<InstanceInfo>) {
    && DistinctIds(infos)
    && forall info :: info in infos <==>
         info.id in g.instances && g.instances[info.id] == info && info.agent == agent && info.status == Ready
  }

  function Stub(id: string, port: int, range: Range): InstanceInfo {
    InstanceInfo(id, "agent", "host", port, Some(range), 1, Ready)
  }

  /** Two instances for lengths from 2 to 4, one for lengths below 2. */
  const TWO_RANGES := Registry(
    map["a" := Stub("a", 1, (2, 4)), "b" := Stub("b", 2, (2, 4)), "c" := Stub("c", 3, (0, 2))],
    map["agent" := {"a", "b", "c"}],
    map[("agent", 0) := ["a", "b"], ("agent", 1) := ["c"]],
    map[("agent", (2, 4)) := 0, ("agent", (0, 2)) := 1],
    map[("agent", 0) := (2, 4), ("agent", 1) := (0, 2)],
    8000)

  lemma TwoRangesValid()
    ensures Valid(TWO_RANGES)
  {
    TwoRangesSlots();
    TwoRangesAgents();
    TwoRangesContexts();
  }

  lemma TwoRangesSlots()
    ensures SlotsConsistent(TWO_RANGES)
  {}

  lemma TwoRangesAgents()
    ensures AgentsConsistent(TWO_RANGES)
  {}

  lemma TwoRangesContexts()
    ensures ContextsConsistent(TWO_RANGES)
  {
    var g := TWO_RANGES;
    forall k | k in g.contextInstances
      ensures ContextKeyConsistent(g, k)
    {
      assert k == ("agent", 0) || k == ("agent", 1);
    }
    forall id | id in g.instances
      ensures Listed(g, id)
    {
      assert id == "a" || id == "b" || id == "c";
    }
  }

  /** Two leaders tie, and the only answering instance in range is a third one: it is chosen. */
  lemma OutsiderWinsTie(h: HashFn, tokens: seq<int>, request: (int, int), a: Candidate, b: Candidate, c: Candidate,
                        ids: set<string>)
    requires a.state.noneHash.Some? && b.state.noneHash.Some? && c.state.noneHash.Some? && a != b
    requires a.state.gpuEntries == b.state.gpuEntries == c.state.gpuEntries == []
    requires Hits(h, tokens, a.state) == Hits(h, tokens, b.state) > Hits(h, tokens, c.state)
    requires a.info.id !in ids && b.info.id !in ids && c.info.id in ids
    ensures Decide(h, [a, b, c], request, tokens, Some(ids)) == Some(c)
  {
    var cs := [a, b, c];
    assert forall d :: d in cs <==> d == a || d == b || d == c;
    assert forall d :: d !in Exact(cs, request);
    assert a in Scorable(cs);
    var tied := Tied(h, tokens, Scorable(cs), MaxHits(h, tokens, Scorable(cs)));
    assert a in tied && b in tied;
    assert c in InContext(cs, ids);
    assert LeastLoaded(InContext(cs, ids)) in InContext(cs, ids);
  }

  /** A tie can lose hits on a registry and answers that `route` can meet: "a" and "b" hold the block
      of the one-token request, "c" alone serves its length and is chosen without a hit. */
  lemma TieCanLoseHits(h: HashFn)
    returns (infos: seq<InstanceInfo>, answers: map<string, CacheState>, slot: Option<int>, ids: Option<set<string>>)
    ensures Valid(TWO_RANGES) && AreAsked(TWO_RANGES, "agent", infos)
    ensures IsContextSlot(TWO_RANGES, "agent", 1, slot) && IsContextIds(TWO_RANGES, "agent", slot, ids)
    ensures var cs := Answered(infos, answers);
            var choice := Decide(h, cs, (0, 0), [7], ids);
            choice.Some? && choice.value.info.id == "c" && !Leads(h, [7], cs, choice.value)
  {
    TwoRangesValid();
    var warm := CacheState([], 1, Some(1), Some(0), [h(true, 0, [7])], []);
    var cold := CacheState([], 0, Some(1), Some(0), [], []);
    var a, b, c := Stub("a", 1, (2, 4)), Stub("b", 2, (2, 4)), Stub("c", 3, (0, 2));
    infos, answers := [a, b, c], map["a" := warm, "b" := warm, "c" := cold];
    slot, ids := Some(1), Some({"c"});
    ServedByC();
    AskedAll();
    AllAnswered(a, b, c, answers);
    ColdChosen(h, a, b, c, warm, cold);
  }

  lemma ColdChosen(h: HashFn, a: InstanceInfo, b: InstanceInfo, c: InstanceInfo, warm: CacheState, cold: CacheState)
    requires a.id == "a" && b.id == "b" && c.id == "c"
    requires warm == CacheState([], 1, Some(1), Some(0), [h(true, 0, [7])], [])
    requires cold == CacheState([], 0, Some(1), Some(0), [], [])
    ensures var cs := [Candidate(a, warm), Candidate(b, warm), Candidate(c, cold)];
            && Decide(h, cs, (0, 0), [7], Some({"c"})) == Some(Candidate(c, cold))
            && !Leads(h, [7], cs, Candidate(c, cold))
  {
    OneBlock(h);
    var cs := [Candidate(a, warm), Candidate(b, warm), Candidate(c, cold)];
    assert Hits(h, [7], warm) == 1 && Hits(h, [7], cold) == 0;
    OutsiderWinsTie(h, [7], (0, 0), cs[0], cs[1], cs[2], {"c"});
    assert cs[0].state == warm;
  }

  /** Length 1 belongs to slot 1, which "c" alone serves. */
  lemma ServedByC()
    ensures IsContextSlot(TWO_RANGES, "agent", 1, Some(1))
    ensures IsContextIds(TWO_RANGES, "agent", Some(1), Some({"c"}))
  {
    forall s | s < 1
      ensures !Serves(TWO_RANGES, "agent", 1, s)
    {
      assert ("agent", s) in TWO_RANGES.slotRanges ==> s == 0;
    }
  }

  lemma AskedAll()
    ensures AreAsked(TWO_RANGES, "agent", [Stub("a", 1, (2, 4)), Stub("b", 2, (2, 4)), Stub("c", 3, (0, 2))])
  {}

  lemma {:induction false} AllAnswered(a: InstanceInfo, b: InstanceInfo, c: InstanceInfo,
                                       answers: map<string, CacheState>)
    requires a.id in answers && b.id in answers && c.id in answers
    ensures Answered([a, b, c], answers) ==
            [Candidate(a, answers[a.id]), Candidate(b, answers[b.id]), Candidate(c, answers[c.id])]
  {
    assert Answered([c], answers) == [Candidate(c, answers[c.id])];
    assert [b, c][1..] == [c];
    assert Answered([b, c], answers) == [Candidate(b, answers[b.id])] + [Candidate(c, answers[c.id])];
    assert [a, b, c][1..] == [b, c];
  }

  lemma OneBlock(h: HashFn)
    ensures HashChain(h, 0, Blocks([7], 1)) == [h(true, 0, [7])]
  {
    assert [7][..1] == [7] && [7][1..] == [];
    assert Blocks([7], 1) == [[7]];
    assert [[7]][..0] == [];
  }

  // ---------------------------------------------------------------- the object

  /** Instances that answered, with their answers. */
  function Answered(infos: seq<InstanceInfo>, answers: map<string, CacheState>): (cs: seq<Candidate>)
    ensures forall c :: c in cs <==> c.info in infos && c.info.id in answers && answers[c.info.id] == c.state
  {
    if infos == [] then []
    else
      var rest := Answered(infos[1..], answers);
      assert infos == [infos[0]] + infos[1..];
      if infos[0].id in answers then [Candidate(infos[0], answers[infos[0].id])] + rest else rest
  }

  /** `dict.update` with the answers of the asked instances. */
  function Remember(states: map<string, CacheState>, infos: seq<InstanceInfo>, answers: map<string, CacheState>)
    : (r: map<string, CacheState>)
    ensures forall id :: id in r <==>
              id in states || (id in answers && exists i :: 0 <= i < |infos| && infos[i].id == id)
    ensures forall id :: id in r ==>
              r[id] == if id in answers && (exists i :: 0 <= i < |infos| && infos[i].id == id)
                       then answers[id] else states[id]
  {
    var fresh_ := map id | id in answers && (exists i :: 0 <= i < |infos| && infos[i].id == id) :: answers[id];
    states + fresh_
  }

  /** What makes a request due for migration: its source has a range it has reached the end of. */
  ghost predicate Outgrown(g: Registry, source: string, total: int) {
    source != "" && source in g.instances && g.instances[source].range.Some? &&
    total >= g.instances[source].range.value.1
  }

  class AgentScheduler {
    const agent: string
    const im: Manager
    var cacheStates: map<string, CacheState>

    constructor (agent: string, im: Manager)
      ensures this.agent == agent && this.im == im && cacheStates == map[]
    {
      this.agent := agent;
      this.im := im;
      cacheStates := map[];
    }

    method ContextIds(length: int) returns (ids: Option<set<string>>, slot: Option<int>)
      requires Valid(im.Value())
      ensures IsContextSlot(im.Value(), agent, length, slot) && IsContextIds(im.Value(), agent, slot, ids)
    {
      slot := im.FindContextSlot(agent, length);
      ids := None;
      if slot.Some? {
        var infos := im.GetInstancesForContext(agent, slot.value);
        ids := Some(set info | info in infos :: info.id);
        forall id
          ensures id in ids.value <==> id in im.instances && ReadyIn(im.Value(), agent, slot.value, im.instances[id])
        {
          assert id in im.instances && ReadyIn(im.Value(), agent, slot.value, im.instances[id]) ==>
                   im.instances[id] in infos;
        }
      }
    }

    /** `route` after the answers have arrived. */
    method Route(h: HashFn, infos: seq<InstanceInfo>, answers: map<string, CacheState>,
                 request: (int, int), tokens: seq<int>, numInputTokens: int)
      returns (r: Option<string>, ghost slot: Option<int>, ghost contextIds: Option<set<string>>)
      requires Valid(im.Value())
      modifies this`cacheStates
      ensures cacheStates == Remember(old(cacheStates), infos, answers)
      ensures IsContextSlot(im.Value(), agent, numInputTokens, slot)
      ensures IsContextIds(im.Value(), agent, slot, contextIds)
      ensures var choice := Decide(h, Answered(infos, answers), request, tokens, contextIds);
              r == if choice.Some? then Some(choice.value.info.id) else None
    {
      cacheStates := Remember(cacheStates, infos, answers);
      var ids, found := ContextIds(numInputTokens);
      slot, contextIds := found, ids;
      var choice := Decide(h, Answered(infos, answers), request, tokens, ids);
      r := if choice.Some? then Some(choice.value.info.id) else None;
    }

    /** `maybe_migrate_request` up to its first await: the candidates, none when there is nothing to
        migrate or nowhere to go, and those whose cache state is not known yet. */
    method BeginMigration(source: string, total: int)
      returns (candidates: seq<InstanceInfo>, missing: seq<InstanceInfo>)
      requires Valid(im.Value())
      ensures DistinctIds(candidates)
      ensures forall info :: info in candidates <==> IsTarget(im.Value(), agent, source, total, info)
      ensures forall slot :: IsContextSlot(im.Value(), agent, total, Some(slot)) && candidates != [] ==>
                candidates == Others(ReadyOf(im.instances, ContextList(im.Value(), (agent, slot))), source)
      ensures missing == Missing(candidates, cacheStates)
    {
      candidates, missing := [], [];
      if source == "" || source !in im.instances || im.instances[source].range.None? {
        return;
      }
      var upper := im.instances[source].range.value.1;
      if total < upper {
        return;
      }
      var slot := im.FindContextSlot(agent, total);
      if slot.None? {
        return;
      }
      var infos := im.GetInstancesForContext(agent, slot.value);
      for n := 0 to |infos|
        invariant candidates == Others(infos[..n], source)
      {
        assert infos[..n + 1][..n] == infos[..n];
        if infos[n].id != source {
          candidates := candidates + [infos[n]];
        }
      }
      assert infos[..|infos|] == infos;
      OthersDistinct(infos, source);
      OthersAreTargets(im.Value(), agent, source, total, slot.value, infos);
      missing := Missing(candidates, cacheStates);
    }

    /** After the first await: remember the answers and choose the target from what is known now,
        the first candidate of least score. */
    method ChooseTarget(candidates: seq<InstanceInfo>, missing: seq<InstanceInfo>, answers: map<string, CacheState>)
      returns (target: Option<InstanceInfo>)
      modifies this`cacheStates
      ensures cacheStates == Remember(old(cacheStates), missing, answers)
      ensures target.None? <==> forall c :: c in candidates ==> c.id !in cacheStates
      ensures target.Some? ==> exists i :: FirstLeastKnown(candidates, cacheStates, i) && candidates[i] == target.value
    {
      cacheStates := Remember(cacheStates, missing, answers);
      target := None;
      var best := 0;
      for i := 0 to |candidates|
        invariant target.None? ==> forall j :: 0 <= j < i ==> candidates[j].id !in cacheStates
        invariant target.Some? ==> best < i && FirstLeastKnown(candidates[..i], cacheStates, best) &&
                                   candidates[best] == target.value
      {
        var c := candidates[i];
        if c.id in cacheStates &&
           (target.None? || Score(cacheStates[c.id]) < Score(cacheStates[target.value.id])) {
          target, best := Some(c), i;
        }
      }
      assert candidates[..|candidates|] == candidates;
    }

    /** After the second await: a successful migration drops what is remembered of the target. */
    method ConcludeMigration(target: InstanceInfo, accepted: bool) returns (r: Option<InstanceInfo>)
      modifies this`cacheStates
      ensures r == if accepted then Some(target) else None
      ensures cacheStates == if accepted then old(cacheStates) - {target.id} else old(cacheStates)
    {
      r := None;
      if accepted {
        cacheStates := cacheStates - {target.id};
        r := Some(target);
      }
    }
  }

  /** Position `i` is the first of least score among the candidates with a known state. */
  ghost predicate FirstLeastKnown(candidates: seq<InstanceInfo>, states: map<string, CacheState>, i: int) {
    && 0 <= i < |candidates| && candidates[i].id in states
    && (forall j :: 0 <= j < i && candidates[j].id in states ==>
          !NoMoreLoaded(states[candidates[j].id], states[candidates[i].id]))
    && (forall j :: i < j < |candidates| && candidates[j].id in states ==>
          NoMoreLoaded(states[candidates[i].id], states[candidates[j].id]))
  }

  /** Everybody but the source, in order. */
  function Others(infos: seq<InstanceInfo>, source: string): (r: seq<InstanceInfo>)
    ensures forall c :: c in r <==> c in infos && c.id != source
  {
    if infos == [] then []
    else
      var k := |infos| - 1;
      assert infos == infos[..k] + [infos[k]];
      var front := Others(infos[..k], source);
      if infos[k].id != source then front + [infos[k]] else front
  }

  lemma {:induction false} OthersAreTargets(g: Registry, agent: string, source: string, total: int, slot: int,
                                            infos: seq<InstanceInfo>)
    requires Outgrown(g, source, total) && IsContextSlot(g, agent, total, Some(slot))
    requires forall info :: info in infos <==> ReadyIn(g, agent, slot, info)
    ensures forall info :: info in Others(infos, source) <==> IsTarget(g, agent, source, total, info)
    ensures forall other :: IsContextSlot(g, agent, total, Some(other)) ==> other == slot
  {
    TargetSlotUnique(g, agent, total, slot);
  }

  lemma {:induction false} OthersDistinct(infos: seq<InstanceInfo>, source: string)
    requires DistinctIds(infos)
    ensures DistinctIds(Others(infos, source))
  {
    if infos != [] {
      var k := |infos| - 1;
      var front := Others(infos[..k], source);
      OthersDistinct(infos[..k], source);
      forall i | 0 <= i < |front|
        ensures front[i].id != infos[k].id
      {
        assert front[i] in front;
      }
    }
  }

  function Missing(candidates: seq<InstanceInfo>, states: map<string, CacheState>): (r: seq<InstanceInfo>)
    ensures forall c :: c in r <==> c in candidates && c.id !in states
  {
    if candidates == [] then []
    else
      var rest := Missing(candidates[1..], states);
      assert candidates == [candidates[0]] + candidates[1..];
      if candidates[0].id !in states then [candidates[0]] + rest else rest
  }

  /** A legitimate target: another ready instance of the agent, in the slot of the total length. */
  ghost predicate IsTarget(g: Registry, agent: string, source: string, total: int, info: InstanceInfo) {
    && Outgrown(g, source, total)
    && info.id != source && info.id in g.instances && g.instances[info.id] == info && info.status == Ready
    && info.agent == agent
    && exists slot :: IsContextSlot(g, agent, total, Some(slot)) && info.range == Some(g.slotRanges[(agent, slot)])
  }

  lemma TargetSlotUnique(g: Registry, agent: string, total: int, slot: int)
    requires IsContextSlot(g, agent, total, Some(slot))
    ensures forall other :: IsContextSlot(g, agent, total, Some(other)) ==> other == slot
  {
    forall other | IsContextSlot(g, agent, total, Some(other))
      ensures other == slot
    {
      assert !(other < slot) && !(slot < other);
    }
  }

  // ---------------------------------------------------------------- migration climbs

  /** One successful migration: where it was decided, from which instance, to which. */
  datatype Hop = Hop(registry: Registry, source: InstanceInfo, target: InstanceInfo, total: int)

  ghost predicate IsHop(agent: string, hop: Hop) {
    && Valid(hop.registry) && hop.source.id in hop.registry.instances
    && hop.registry.instances[hop.source.id] == hop.source
    && IsTarget(hop.registry, agent, hop.source.id, hop.total, hop.target)
  }

  /** Each migration lands on a range that holds the total length and ends strictly higher. */
  lemma HopClimbs(agent: string, hop: Hop)
    requires IsHop(agent, hop)
    ensures hop.source.range.Some? && hop.target.range.Some? && hop.target.id != hop.source.id
    ensures Within(hop.total, hop.target.range.value)
    ensures hop.source.range.value.1 < hop.target.range.value.1
    ensures (agent, hop.target.range.value) in hop.registry.rangeSlots
    ensures hop.source.agent == agent ==> (agent, hop.source.range.value) in hop.registry.rangeSlots
  {
    var slot :| IsContextSlot(hop.registry, agent, hop.total, Some(slot)) &&
                hop.target.range == Some(hop.registry.slotRanges[(agent, slot)]);
    assert Serves(hop.registry, agent, hop.total, slot);
    assert Listed(hop.registry, hop.source.id);
  }

  /** Successive migrations of one request: each starts in the range the last one ended in,
      while the registry may have grown in between. */
  ghost predicate IsMigrationChain(agent: string, hops: seq<Hop>) {
    && (forall i :: 0 <= i < |hops| ==> IsHop(agent, hops[i]))
    && (forall i :: 0 <= i < |hops| - 1 ==> hops[i + 1].source.range == hops[i].target.range)
    && (forall i, j :: 0 <= i < j < |hops| ==> SlotsExtend(hops[i].registry, hops[j].registry))
  }

  /** The range before the first hop, then the range after each hop. */
  ghost function Visited(agent: string, hops: seq<Hop>): (r: seq<Range>)
    requires IsMigrationChain(agent, hops) && hops != []
    ensures |r| == |hops| + 1
  {
    HopClimbs(agent, hops[0]);
    assert forall i :: 0 <= i < |hops| ==> IsHop(agent, hops[i]);
    [hops[0].source.range.value] +
    seq(|hops|, i requires 0 <= i < |hops| => TargetRange(agent, hops[i]))
  }

  ghost function TargetRange(agent: string, hop: Hop): Range
    requires IsHop(agent, hop)
  {
    HopClimbs(agent, hop);
    hop.target.range.value
  }

  lemma VisitedStep(agent: string, hops: seq<Hop>, i: nat)
    requires IsMigrationChain(agent, hops) && i < |hops|
    ensures Visited(agent, hops)[i].1 < Visited(agent, hops)[i + 1].1
  {
    HopClimbs(agent, hops[i]);
    if i > 0 {
      assert hops[i].source.range == hops[i - 1].target.range;
    }
  }

  lemma {:induction false} VisitedAscends(agent: string, hops: seq<Hop>, i: nat, j: nat)
    requires IsMigrationChain(agent, hops) && hops != [] && i < j <= |hops|
    ensures Visited(agent, hops)[i].1 < Visited(agent, hops)[j].1
    decreases j
  {
    VisitedStep(agent, hops, j - 1);
    if i < j - 1 {
      VisitedAscends(agent, hops, i, j - 1);
    }
  }

  /** Pigeonhole: distinct ranges drawn from a list are no more than the list is long. */
  lemma {:induction false} DistinctFit(xs: seq<Range>, ranges: seq<Range>)
    requires Distinct(xs)
    requires forall i :: 0 <= i < |xs| ==> xs[i] in ranges
    ensures |xs| <= |ranges|
  {
    if xs != [] {
      var p :| 0 <= p < |ranges| && ranges[p] == xs[0];
      var rest := ranges[..p] + ranges[p + 1..];
      forall i | 0 <= i < |xs[1..]|
        ensures xs[1..][i] in rest
      {
        var q :| 0 <= q < |ranges| && ranges[q] == xs[i + 1];
        assert q != p;
        assert q < p ==> rest[q] == xs[i + 1];
        assert q > p ==> rest[q - 1] == xs[i + 1];
      }
      DistinctFit(xs[1..], rest);
    }
  }

  /** A chain of migrations never returns to a range, and has fewer hops than the agent has
      ranges (when it starts on one of the agent's own instances). */
  lemma MigrationChainIsShort(agent: string, hops: seq<Hop>, ranges: seq<Range>)
    requires IsMigrationChain(agent, hops) && hops != [] && hops[0].source.agent == agent
    requires SlotsAre(hops[|hops| - 1].registry, agent, ranges)
    ensures forall i, j :: 0 <= i < j <= |hops| ==> Visited(agent, hops)[i] != Visited(agent, hops)[j]
    ensures |hops| < |ranges|
  {
    var visited := Visited(agent, hops);
    forall i, j | 0 <= i < j < |visited|
      ensures visited[i] != visited[j]
    {
      VisitedAscends(agent, hops, i, j);
    }
    forall i | 0 <= i < |visited|
      ensures visited[i] in ranges
    {
      VisitedIsListed(agent, hops, ranges, i);
    }
    DistinctFit(visited, ranges);
  }

  lemma VisitedIsListed(agent: string, hops: seq<Hop>, ranges: seq<Range>, i: nat)
    requires IsMigrationChain(agent, hops) && hops != [] && hops[0].source.agent == agent && i <= |hops|
    requires SlotsAre(hops[|hops| - 1].registry, agent, ranges)
    ensures Visited(agent, hops)[i] in ranges
  {
    var range, last := Visited(agent, hops)[i], hops[|hops| - 1].registry;
    var k := if i == 0 then 0 else i - 1;
    HopClimbs(agent, hops[k]);
    assert (agent, range) in hops[k].registry.rangeSlots;
    assert k < |hops| - 1 ==> SlotsExtend(hops[k].registry, last);
    assert IsHop(agent, hops[|hops| - 1]);
    assert ranges[last.rangeSlots[(agent, range)]] == range;
  }
}
