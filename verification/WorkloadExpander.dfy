/**
  `_build_workload` of scripts/generate.py: turn node records into concrete token
  lists and cache flags.

  Node ids are parsed pairs.  The seeded generator is a stream of tokens read
  from left to right.
 */
module WorkloadExpander {
  import opened StableSort

  type NodeKey = (int, int)

  /** A token field: a number, a list, or something else. */
  datatype Tokens = Number(n: int) | Listed(xs: seq<int>) | Other

  /** `_count_tokens`. */
  function CountTokens(t: Tokens): int {
    match t
    case Number(n) => n
    case Listed(xs) => if |xs| == 1 then xs[0] else |xs|
    case Other => 0
  }

  datatype Record = Record(key: NodeKey, agent: string, input: Tokens, output: Tokens, cached: Tokens) {
    function NumInput(): int { CountTokens(input) }
    function NumOutput(): int { CountTokens(output) }
    function NumCached(): int { CountTokens(cached) }
    predicate NonNegative() { NumInput() >= 0 && NumOutput() >= 0 && NumCached() >= 0 }
  }

  datatype Node = Node(key: NodeKey, agent: string, inputIds: seq<int>, outputIds: seq<int>,
                       numInput: int, numOutput: int, cached: int, keepCacheInGpu: bool, freeCache: bool)

  /** Ids are unique and counts nonnegative. */
  ghost predicate WellFormed(records: seq<Record>) {
    && (forall i, j :: 0 <= i < j < |records| ==> records[i].key != records[j].key)
    && (forall i :: 0 <= i < |records| ==> records[i].NonNegative())
  }

  function RecordKey(r: Record): Key { r.key }

  /** The first `n` tokens of a token list, or all of it. */
  function Prefix(xs: seq<int>, n: nat): seq<int> {
    if n <= |xs| then xs[..n] else xs
  }

  /** Tokens drawn from the stream at a position; a negative length draws none. */
  function Draw(rng: int -> int, at: int, length: int): (r: seq<int>)
    ensures |r| == if length > 0 then length else 0
  {
    seq(if length > 0 then length else 0, i => rng(at + i))
  }

  /** The record with a given key, if there is one. */
  function Lookup(records: seq<Record>, key: NodeKey): (r: seq<Record>)
    ensures r == [] <==> forall i :: 0 <= i < |records| ==> records[i].key != key
    ensures r != [] ==> |r| == 1 && r[0] in records && r[0].key == key
  {
    if records == [] then []
    else if records[|records| - 1].key == key then [records[|records| - 1]]
    else Lookup(records[..|records| - 1], key)
  }

  /** Whether the next repeat reuses this node's cache: it depends on this node alone and
      its cached part is covered by this node's own tokens. */
  predicate KeepsCache(records: seq<Record>, dependencies: map<NodeKey, seq<NodeKey>>, r: Record) {
    var next := (r.key.0, r.key.1 + 1);
    var found := Lookup(records, next);
    && found != [] && next in dependencies && dependencies[next] == [r.key]
    && found[0].NumCached() <= r.NumInput() + r.NumOutput()
  }

  /** What a node takes over from the tokens its invocation left behind; repeat 0 and below take nothing. */
  function Reused(key: NodeKey, length: int, previous: seq<int>): (r: seq<int>)
    ensures |r| <= |previous| && (length >= 0 ==> |r| <= length)
  {
    if key.1 > 0 && length >= 0 then Prefix(previous, length) else []
  }

  /** What one expanded node must look like, given the tokens its invocation left behind and
      the position of the token stream. */
  ghost predicate Expands(records: seq<Record>, dependencies: map<NodeKey, seq<NodeKey>>, r: Record, n: Node,
                          previous: seq<int>, rng: int -> int, at: int)
  {
    && n.key == r.key && n.agent == r.agent
    && n.numInput == r.NumInput() && n.numOutput == r.NumOutput() && n.cached == r.NumCached()
    && |n.inputIds| == n.numInput + n.cached && |n.outputIds| == n.numOutput
    && (var reused := Reused(r.key, n.numInput + n.cached, previous);
        var drawn := |n.inputIds| - |reused|;
        && n.inputIds == reused + Draw(rng, at, drawn)
        && n.outputIds == Draw(rng, at + drawn, n.numOutput))
    && n.keepCacheInGpu == KeepsCache(records, dependencies, r) && n.freeCache == !n.keepCacheInGpu
  }

  /** Tokens drawn for a node. */
  function DrawnFor(n: Node, previous: seq<int>): int {
    |n.inputIds| - |Reused(n.key, |n.inputIds|, previous)| + |n.outputIds|
  }

  method ExpandRecord(records: seq<Record>, dependencies: map<NodeKey, seq<NodeKey>>, r: Record,
                      previous: seq<int>, rng: int -> int, at: int)
    returns (n: Node, at': int)
    requires r.NonNegative()
    ensures Expands(records, dependencies, r, n, previous, rng, at)
    ensures at' == at + DrawnFor(n, previous)
  {
    var inputLength := r.NumInput() + r.NumCached();
    var inputIds: seq<int> := [];
    at' := at;
    if r.key.1 > 0 {
      inputIds := Prefix(previous, inputLength);
    }
    assert inputIds == Reused(r.key, inputLength, previous);
    var remaining := inputLength - |inputIds|;
    if remaining > 0 {
      inputIds := inputIds + Draw(rng, at', remaining);
      at' := at' + remaining;
    }
    var outputIds := Draw(rng, at', r.NumOutput());
    at' := at' + |outputIds|;
    var next := (r.key.0, r.key.1 + 1);
    var found := Lookup(records, next);
    var keep, free := false, true;
    if found != [] && next in dependencies && dependencies[next] == [r.key] {
      if found[0].NumCached() <= r.NumInput() + r.NumOutput() {
        keep, free := true, false;
      }
    }
    n := Node(r.key, r.agent, inputIds, outputIds, r.NumInput(), r.NumOutput(), r.NumCached(), keep, free);
  }

  /** Tokens left behind by an invocation after the first `n` nodes. */
  function LeftBehind(nodes: seq<Node>, invocation: int): seq<int> {
    if nodes == [] then []
    else
      var last := nodes[|nodes| - 1];
      if last.key.0 == invocation then last.inputIds + last.outputIds
      else LeftBehind(nodes[..|nodes| - 1], invocation)
  }

  /** Position of the token stream behind these nodes. */
  function Position(nodes: seq<Node>): int {
    if nodes == [] then 0
    else
      var front, last := nodes[..|nodes| - 1], nodes[|nodes| - 1];
      Position(front) + DrawnFor(last, LeftBehind(front, last.key.0))
  }

  ghost predicate ExpandsAt(records: seq<Record>, dependencies: map<NodeKey, seq<NodeKey>>,
                            ordered: seq<Record>, nodes: seq<Node>, rng: int -> int, i: nat)
    requires i < |nodes| == |ordered|
  {
    Expands(records, dependencies, ordered[i], nodes[i], LeftBehind(nodes[..i], ordered[i].key.0), rng,
            Position(nodes[..i]))
  }

  /** The expanded list: records in key order, each expanded after its predecessors. */
  ghost predicate IsExpansion(records: seq<Record>, dependencies: map<NodeKey, seq<NodeKey>>,
                              ordered: seq<Record>, nodes: seq<Node>, rng: int -> int)
  {
    && |nodes| == |ordered|
    && forall i :: 0 <= i < |nodes| ==> ExpandsAt(records, dependencies, ordered, nodes, rng, i)
  }

  /** `_build_workload`. */
  method BuildWorkload(records: seq<Record>, dependencies: map<NodeKey, seq<NodeKey>>, rng: int -> int)
    returns (nodes: seq<Node>)
    requires WellFormed(records)
    ensures IsExpansion(records, dependencies, Sort(RecordKey, records), nodes, rng)
    ensures forall i :: 0 <= i < |nodes| ==>
              nodes[i].freeCache == !nodes[i].keepCacheInGpu &&
              (nodes[i].keepCacheInGpu <==> exists r :: r in records && IsKeptFor(dependencies, nodes[i], r))
    ensures forall i :: 0 <= i < |nodes| ==> IsNodeOfSome(records, nodes[i])
    ensures forall i :: 0 <= i < |nodes| && nodes[i].keepCacheInGpu && ReuseIsSafe(records, nodes[i].key) ==>
              ReusedNext(nodes, i)
  {
    var sorted := Sort(RecordKey, records);
    SortKeepsWellFormed(records);
    nodes := [];
    var tokenStates: map<int, seq<int>> := map[];
    var at := 0;
    for i := 0 to |sorted|
      invariant IsExpansion(records, dependencies, sorted[..i], nodes, rng)
      invariant forall inv :: (if inv in tokenStates then tokenStates[inv] else []) == LeftBehind(nodes, inv)
      invariant at == Position(nodes)
    {
      var r := sorted[i];
      var previous := if r.key.0 in tokenStates then tokenStates[r.key.0] else [];
      var n;
      n, at := ExpandRecord(records, dependencies, r, previous, rng, at);
      AppendExpansion(records, dependencies, sorted, nodes, n, rng, i);
      BehindAppended(nodes, n);
      nodes := nodes + [n];
      tokenStates := tokenStates[r.key.0 := n.inputIds + n.outputIds];
    }
    assert sorted[..|sorted|] == sorted;
    KeptCachesAreReused(records, dependencies, sorted, nodes, rng);
    KeptExactly(records, dependencies, sorted, nodes, rng);
    NodesOfRecords(records, dependencies, sorted, nodes, rng);
  }

  /** The field counts as `n` tokens: a number as it is, a list of one number as that number, any
      other list by its length. */
  ghost predicate CountsAs(t: Tokens, n: int) {
    match t
    case Number(m) => n == m
    case Listed(xs) => if exists x :: xs == [x] then xs == [n] else n == |xs|
    case Other => n == 0
  }

  /** The node has the record's name, agent and token counts, and as many tokens. */
  ghost predicate IsNodeOf(r: Record, n: Node) {
    && n.key == r.key && n.agent == r.agent
    && CountsAs(r.input, n.numInput) && CountsAs(r.output, n.numOutput) && CountsAs(r.cached, n.cached)
    && |n.inputIds| == n.numInput + n.cached && |n.outputIds| == n.numOutput
  }

  ghost predicate IsNodeOfSome(records: seq<Record>, n: Node) {
    exists r :: r in records && IsNodeOf(r, n)
  }

  lemma NodesOfRecords(records: seq<Record>, dependencies: map<NodeKey, seq<NodeKey>>,
                       ordered: seq<Record>, nodes: seq<Node>, rng: int -> int)
    requires Ordering(records, ordered) && IsExpansion(records, dependencies, ordered, nodes, rng)
    ensures forall i :: 0 <= i < |nodes| ==> IsNodeOfSome(records, nodes[i])
  {
    PermutationFacts(records, ordered);
    forall i | 0 <= i < |nodes|
      ensures IsNodeOfSome(records, nodes[i])
    {
      assert ExpandsAt(records, dependencies, ordered, nodes, rng, i);
      CountedTokens(ordered[i].input);
      CountedTokens(ordered[i].output);
      CountedTokens(ordered[i].cached);
      assert ordered[i] in records && IsNodeOf(ordered[i], nodes[i]);
    }
  }

  lemma CountedTokens(t: Tokens)
    ensures CountsAs(t, CountTokens(t))
  {
    if t.Listed? && |t.xs| == 1 {
      assert t.xs == [t.xs[0]];
    }
  }

  /** The record is the node's next repeat, waits for the node alone, and has no more cached than the
      node's own input and output tokens. */
  ghost predicate IsKeptFor(dependencies: map<NodeKey, seq<NodeKey>>, n: Node, r: Record) {
    && r.key == (n.key.0, n.key.1 + 1)
    && r.key in dependencies && dependencies[r.key] == [n.key]
    && r.NumCached() <= n.numInput + n.numOutput
  }

  /** A cache is kept exactly when there is such a record. */
  lemma KeptExactly(records: seq<Record>, dependencies: map<NodeKey, seq<NodeKey>>,
                    ordered: seq<Record>, nodes: seq<Node>, rng: int -> int)
    requires WellFormed(records) && IsExpansion(records, dependencies, ordered, nodes, rng)
    ensures forall i :: 0 <= i < |nodes| ==>
              nodes[i].freeCache == !nodes[i].keepCacheInGpu &&
              (nodes[i].keepCacheInGpu <==> exists r :: r in records && IsKeptFor(dependencies, nodes[i], r))
  {
    forall i | 0 <= i < |nodes|
      ensures nodes[i].freeCache == !nodes[i].keepCacheInGpu
      ensures nodes[i].keepCacheInGpu <==> exists r :: r in records && IsKeptFor(dependencies, nodes[i], r)
    {
      assert ExpandsAt(records, dependencies, ordered, nodes, rng, i);
      KeepsCacheIff(records, dependencies, ordered[i], nodes[i]);
    }
  }

  lemma KeepsCacheIff(records: seq<Record>, dependencies: map<NodeKey, seq<NodeKey>>, r: Record, n: Node)
    requires WellFormed(records) && n.key == r.key && n.numInput == r.NumInput() && n.numOutput == r.NumOutput()
    ensures KeepsCache(records, dependencies, r) <==> exists next :: next in records && IsKeptFor(dependencies, n, next)
  {
    var found := Lookup(records, (r.key.0, r.key.1 + 1));
    if KeepsCache(records, dependencies, r) {
      assert IsKeptFor(dependencies, n, found[0]);
    }
    if next :| next in records && IsKeptFor(dependencies, n, next) {
      assert found[0] in records && found[0].key == next.key;
    }
  }

  lemma {:induction false} BehindAppended(nodes: seq<Node>, n: Node)
    ensures Position(nodes + [n]) == Position(nodes) + DrawnFor(n, LeftBehind(nodes, n.key.0))
    ensures forall inv :: LeftBehind(nodes + [n], inv) ==
              if n.key.0 == inv then n.inputIds + n.outputIds else LeftBehind(nodes, inv)
  {
    assert (nodes + [n])[..|nodes|] == nodes;
  }

  lemma KeptCachesAreReused(records: seq<Record>, dependencies: map<NodeKey, seq<NodeKey>>,
                            ordered: seq<Record>, nodes: seq<Node>, rng: int -> int)
    requires Ordering(records, ordered) && IsExpansion(records, dependencies, ordered, nodes, rng)
    ensures forall i :: 0 <= i < |nodes| && nodes[i].keepCacheInGpu && ReuseIsSafe(records, nodes[i].key) ==>
              ReusedNext(nodes, i)
  {
    forall i | 0 <= i < |nodes| && nodes[i].keepCacheInGpu && ReuseIsSafe(records, nodes[i].key)
      ensures ReusedNext(nodes, i)
    {
      KeptCacheIsReused(records, dependencies, ordered, nodes, rng, i);
    }
  }

  lemma {:induction false} AppendExpansion(records: seq<Record>, dependencies: map<NodeKey, seq<NodeKey>>,
                                           sorted: seq<Record>, nodes: seq<Node>, n: Node, rng: int -> int, i: nat)
    requires i < |sorted| && IsExpansion(records, dependencies, sorted[..i], nodes, rng)
    requires Expands(records, dependencies, sorted[i], n, LeftBehind(nodes, sorted[i].key.0), rng, Position(nodes))
    ensures IsExpansion(records, dependencies, sorted[..i + 1], nodes + [n], rng)
  {
    var all, upTo := nodes + [n], sorted[..i + 1];
    forall k | 0 <= k < |all|
      ensures ExpandsAt(records, dependencies, upTo, all, rng, k)
    {
      if k < i {
        assert ExpandsAt(records, dependencies, sorted[..i], nodes, rng, k);
        assert all[..k] == nodes[..k] && sorted[..i][k] == sorted[k];
      } else {
        assert all[..k] == nodes;
      }
    }
  }

  lemma {:induction false} SortKeepsWellFormed(records: seq<Record>)
    requires WellFormed(records)
    ensures var sorted := Sort(RecordKey, records);
            WellFormed(sorted) && Sorted(RecordKey, sorted) && multiset(sorted) == multiset(records)
  {
    var sorted := Sort(RecordKey, records);
    SortSorts(RecordKey, records);
    PermutationFacts(records, sorted);
    forall i | 0 <= i < |sorted|
      ensures sorted[i].NonNegative()
    {
      assert sorted[i] in records;
    }
    forall i, j | 0 <= i < j < |sorted|
      ensures sorted[i].key != sorted[j].key
    {
      assert sorted[i] in records && sorted[j] in records && sorted[i] != sorted[j];
    }
  }

  /** Between a node and its next repeat nothing else of the invocation is expanded. */
  lemma NextRepeatFollows(ordered: seq<Record>, i: nat, j: nat)
    requires WellFormed(ordered) && Sorted(RecordKey, ordered) && i < |ordered| && j < |ordered|
    requires ordered[j].key == (ordered[i].key.0, ordered[i].key.1 + 1)
    ensures j == i + 1
  {
    if j < i {
      KeysInOrder(ordered, j, i);
    } else if i + 1 < j {
      KeysInOrder(ordered, i, i + 1);
      KeysInOrder(ordered, i + 1, j);
    }
  }

  lemma KeysInOrder(ordered: seq<Record>, a: nat, b: nat)
    requires Sorted(RecordKey, ordered) && WellFormed(ordered) && a < b < |ordered|
    ensures Leq(ordered[a].key, ordered[b].key) && ordered[a].key != ordered[b].key
  {
    assert Leq(RecordKey(ordered[a]), RecordKey(ordered[b]));
  }

  /** The next node is the next repeat, and its cached part is the same-length prefix of this
      node's input followed by its output. */
  ghost predicate ReusedNext(nodes: seq<Node>, i: nat) {
    && i + 1 < |nodes| && nodes[i + 1].key == (nodes[i].key.0, nodes[i].key.1 + 1)
    && var reused := nodes[i + 1].cached;
       && 0 <= reused <= |nodes[i + 1].inputIds| && reused <= |nodes[i].inputIds + nodes[i].outputIds|
       && nodes[i + 1].inputIds[..reused] == (nodes[i].inputIds + nodes[i].outputIds)[..reused]
  }

  /** The condition under which a kept cache is reused whatever the tokens: the node's repeat is
      not negative, or the next repeat has nothing cached. */
  predicate ReuseIsSafe(records: seq<Record>, key: NodeKey) {
    var found := Lookup(records, (key.0, key.1 + 1));
    key.1 >= 0 || (found != [] && found[0].NumCached() == 0)
  }

  /** `ordered` are the records in key order. */
  ghost predicate Ordering(records: seq<Record>, ordered: seq<Record>) {
    WellFormed(records) && WellFormed(ordered) && Sorted(RecordKey, ordered) && multiset(ordered) == multiset(records)
  }

  /** A kept node is directly followed by its next repeat, expanded from what the node left behind. */
  lemma {:induction false} KeptNodeIsFollowed(records: seq<Record>, dependencies: map<NodeKey, seq<NodeKey>>,
                                              ordered: seq<Record>, nodes: seq<Node>, rng: int -> int, i: nat)
    requires Ordering(records, ordered) && IsExpansion(records, dependencies, ordered, nodes, rng)
    requires i < |nodes| && nodes[i].keepCacheInGpu
    ensures i + 1 < |nodes|
    ensures Lookup(records, (nodes[i].key.0, nodes[i].key.1 + 1)) == [ordered[i + 1]]
    ensures ordered[i + 1].NumCached() <= ordered[i].NumInput() + ordered[i].NumOutput()
    ensures Expands(records, dependencies, ordered[i + 1], nodes[i + 1], nodes[i].inputIds + nodes[i].outputIds, rng,
                    Position(nodes[..i]) + DrawnFor(nodes[i], LeftBehind(nodes[..i], nodes[i].key.0)))
  {
    assert ExpandsAt(records, dependencies, ordered, nodes, rng, i);
    KeptRecordIsFollowed(records, dependencies, ordered, i);
    ExpandsAfter(records, dependencies, ordered, nodes, rng, i);
  }

  lemma ExpandsAfter(records: seq<Record>, dependencies: map<NodeKey, seq<NodeKey>>,
                     ordered: seq<Record>, nodes: seq<Node>, rng: int -> int, i: nat)
    requires i + 1 < |nodes| == |ordered| && ExpandsAt(records, dependencies, ordered, nodes, rng, i + 1)
    requires ordered[i + 1].key.0 == nodes[i].key.0
    ensures Expands(records, dependencies, ordered[i + 1], nodes[i + 1], nodes[i].inputIds + nodes[i].outputIds, rng,
                    Position(nodes[..i]) + DrawnFor(nodes[i], LeftBehind(nodes[..i], nodes[i].key.0)))
  {
    BehindOneNode(nodes, i);
  }

  lemma {:induction false} KeptRecordIsFollowed(records: seq<Record>, dependencies: map<NodeKey, seq<NodeKey>>,
                                                ordered: seq<Record>, i: nat)
    requires Ordering(records, ordered) && i < |ordered| && KeepsCache(records, dependencies, ordered[i])
    ensures i + 1 < |ordered| && ordered[i + 1].key == (ordered[i].key.0, ordered[i].key.1 + 1)
    ensures Lookup(records, ordered[i + 1].key) == [ordered[i + 1]]
    ensures ordered[i + 1].NumCached() <= ordered[i].NumInput() + ordered[i].NumOutput()
  {
    var found := Lookup(records, (ordered[i].key.0, ordered[i].key.1 + 1));
    PermutationFacts(records, ordered);
    var j :| 0 <= j < |ordered| && ordered[j] == found[0];
    NextRepeatFollows(ordered, i, j);
  }

  lemma {:induction false} BehindOneNode(nodes: seq<Node>, i: nat)
    requires i < |nodes|
    ensures LeftBehind(nodes[..i + 1], nodes[i].key.0) == nodes[i].inputIds + nodes[i].outputIds
    ensures Position(nodes[..i + 1]) ==
            Position(nodes[..i]) + DrawnFor(nodes[i], LeftBehind(nodes[..i], nodes[i].key.0))
  {
    var upTo := nodes[..i + 1];
    assert upTo[|upTo| - 1] == nodes[i] && upTo[..|upTo| - 1] == nodes[..i];
  }

  /** Prefix soundness: when the condition holds, a node flagged to keep its cache is followed by
      its next repeat, which begins with that many tokens of this node's input and output. */
  lemma {:induction false} KeptCacheIsReused(records: seq<Record>, dependencies: map<NodeKey, seq<NodeKey>>,
                                             ordered: seq<Record>, nodes: seq<Node>, rng: int -> int, i: nat)
    requires Ordering(records, ordered) && IsExpansion(records, dependencies, ordered, nodes, rng)
    requires i < |nodes| && nodes[i].keepCacheInGpu && ReuseIsSafe(records, nodes[i].key)
    ensures ReusedNext(nodes, i)
  {
    KeptNodeIsFollowed(records, dependencies, ordered, nodes, rng, i);
    assert ExpandsAt(records, dependencies, ordered, nodes, rng, i);
    var n, n' := nodes[i], nodes[i + 1];
    if n.key.1 >= 0 {
      PrefixOfPrefix(n.inputIds + n.outputIds, n'.inputIds, n'.numInput + n'.cached, n'.cached);
    } else {
      assert n'.inputIds[..0] == (n.inputIds + n.outputIds)[..0];
    }
  }

  lemma PrefixOfPrefix(tokens: seq<int>, input: seq<int>, n: nat, m: nat)
    requires Prefix(tokens, n) <= input && m <= n && m <= |tokens| && |input| == n
    ensures input[..m] == tokens[..m]
  {
    var p := Prefix(tokens, n);
    assert p[..m] == tokens[..m] && input[..m] == p[..m];
  }

  /** Where the condition fails, the next repeat draws its first cached token anew; so it is exact on
      every stream on which that token differs from the kept one. */
  lemma {:induction false} ReusedIffSafe(records: seq<Record>, dependencies: map<NodeKey, seq<NodeKey>>,
                                         ordered: seq<Record>, nodes: seq<Node>, rng: int -> int, i: nat)
    requires Ordering(records, ordered) && IsExpansion(records, dependencies, ordered, nodes, rng)
    requires i < |nodes| && nodes[i].keepCacheInGpu
    requires rng(Position(nodes[..i])) != rng(Position(nodes[..i + 1]))
    ensures ReusedNext(nodes, i) <==> ReuseIsSafe(records, nodes[i].key)
  {
    if ReuseIsSafe(records, nodes[i].key) {
      KeptCacheIsReused(records, dependencies, ordered, nodes, rng, i);
    } else {
      KeptNodeIsFollowed(records, dependencies, ordered, nodes, rng, i);
      NotReusedNext(records, dependencies, ordered, nodes, rng, i);
    }
  }

  lemma NotReusedNext(records: seq<Record>, dependencies: map<NodeKey, seq<NodeKey>>,
                      ordered: seq<Record>, nodes: seq<Node>, rng: int -> int, i: nat)
    requires i + 1 < |nodes| == |ordered| && ExpandsAt(records, dependencies, ordered, nodes, rng, i)
    requires Expands(records, dependencies, ordered[i + 1], nodes[i + 1], nodes[i].inputIds + nodes[i].outputIds, rng,
                     Position(nodes[..i]) + DrawnFor(nodes[i], LeftBehind(nodes[..i], nodes[i].key.0)))
    requires ordered[i].NonNegative() && ordered[i + 1].NonNegative()
    requires ordered[i].key.1 < 0 && ordered[i + 1].key.1 == ordered[i].key.1 + 1
    requires 0 < ordered[i + 1].NumCached() <= ordered[i].NumInput() + ordered[i].NumOutput()
    requires rng(Position(nodes[..i])) != rng(Position(nodes[..i + 1]))
    ensures !ReusedNext(nodes, i)
  {
    BehindOneNode(nodes, i);
    DrawnAnew(records, dependencies, ordered[i], ordered[i + 1], nodes[i], nodes[i + 1],
              LeftBehind(nodes[..i], nodes[i].key.0), rng, Position(nodes[..i]));
  }

  /** Repeats up to 0 are drawn from the stream altogether. */
  lemma DrawnAnew(records: seq<Record>, dependencies: map<NodeKey, seq<NodeKey>>, r: Record, r': Record,
                  n: Node, n': Node, previous: seq<int>, rng: int -> int, at: int)
    requires rng(at) != rng(at + DrawnFor(n, previous)) && Expands(records, dependencies, r, n, previous, rng, at)
    requires Expands(records, dependencies, r', n', n.inputIds + n.outputIds, rng, at + DrawnFor(n, previous))
    requires r.NonNegative() && r'.NonNegative() && r.key.1 < 0 && r'.key.1 == r.key.1 + 1
    requires 0 < r'.NumCached() <= r.NumInput() + r.NumOutput()
    ensures n'.inputIds[..n'.cached] != (n.inputIds + n.outputIds)[..n'.cached]
  {
    assert Reused(n.key, |n.inputIds|, previous) == [];
    FirstTokensDiffer(n, n', rng, at);
  }

  lemma FirstTokensDiffer(n: Node, n': Node, rng: int -> int, at: int)
    requires rng(at) != rng(at + |n.inputIds| + |n.outputIds|)
    requires n.inputIds == Draw(rng, at, |n.inputIds|) && n.outputIds == Draw(rng, at + |n.inputIds|, |n.outputIds|)
    requires n'.inputIds == Draw(rng, at + |n.inputIds| + |n.outputIds|, |n'.inputIds|)
    requires 0 < n'.cached <= |n'.inputIds| && n'.cached <= |n.inputIds| + |n.outputIds|
    ensures n'.inputIds[..n'.cached] != (n.inputIds + n.outputIds)[..n'.cached]
  {
    var kept := n.inputIds + n.outputIds;
    assert kept[0] == rng(at);
    assert n'.inputIds[..n'.cached][0] == rng(at + |n.inputIds| + |n.outputIds|) && kept[..n'.cached][0] == rng(at);
  }

  /** Every list of records has an expansion for every token stream. */
  lemma {:induction false} ExpansionExists(records: seq<Record>, dependencies: map<NodeKey, seq<NodeKey>>,
                                           ordered: seq<Record>, rng: int -> int, i: nat)
    returns (nodes: seq<Node>)
    requires i <= |ordered| && forall k :: 0 <= k < |ordered| ==> ordered[k].NonNegative()
    ensures IsExpansion(records, dependencies, ordered[..i], nodes, rng)
  {
    if i == 0 {
      nodes := [];
    } else {
      nodes := ExpansionExists(records, dependencies, ordered, rng, i - 1);
      var r, at := ordered[i - 1], Position(nodes);
      var length := r.NumInput() + r.NumCached();
      var reused := Reused(r.key, length, LeftBehind(nodes, r.key.0));
      var keep := KeepsCache(records, dependencies, r);
      var n := Node(r.key, r.agent, reused + Draw(rng, at, length - |reused|),
                    Draw(rng, at + length - |reused|, r.NumOutput()),
                    r.NumInput(), r.NumOutput(), r.NumCached(), keep, !keep);
      AppendExpansion(records, dependencies, ordered, nodes, n, rng, i - 1);
      nodes := nodes + [n];
    }
  }

  /** A stream of tokens the script can draw. */
  ghost predicate IsTokenStream(rng: int -> int) {
    forall k :: 0 <= rng(k) <= 1023
  }

  /** Positions in the stream depend on the lengths of the nodes, not on their tokens. */
  ghost predicate SameShape(a: seq<Node>, b: seq<Node>) {
    && |a| == |b|
    && forall k :: 0 <= k < |a| ==>
         a[k].key == b[k].key && |a[k].inputIds| == |b[k].inputIds| && |a[k].outputIds| == |b[k].outputIds|
  }

  lemma {:induction false} ShapeDecidesPosition(a: seq<Node>, b: seq<Node>)
    requires SameShape(a, b)
    ensures Position(a) == Position(b)
    ensures forall inv :: |LeftBehind(a, inv)| == |LeftBehind(b, inv)|
  {
    if a != [] {
      ShapeDecidesPosition(a[..|a| - 1], b[..|b| - 1]);
    }
  }

  lemma ExpansionsHaveSameShape(records: seq<Record>, dependencies: map<NodeKey, seq<NodeKey>>, ordered: seq<Record>,
                                a: seq<Node>, rng: int -> int, b: seq<Node>, rng': int -> int)
    requires IsExpansion(records, dependencies, ordered, a, rng)
    requires IsExpansion(records, dependencies, ordered, b, rng')
    ensures SameShape(a, b)
  {
    forall k | 0 <= k < |a|
      ensures a[k].key == b[k].key && |a[k].inputIds| == |b[k].inputIds| && |a[k].outputIds| == |b[k].outputIds|
    {
      assert ExpandsAt(records, dependencies, ordered, a, rng, k);
      assert ExpandsAt(records, dependencies, ordered, b, rng', k);
    }
  }

  /** Zeros up to a position, ones after it. */
  function Switching(at: int): int -> int {
    (k: int) => if k <= at then 0 else 1
  }

  /** Where the condition fails, the script can draw tokens on which the kept cache is not reused. */
  lemma {:induction false} UnsafeIsNotReused(records: seq<Record>, dependencies: map<NodeKey, seq<NodeKey>>,
                                             ordered: seq<Record>, i: nat)
    returns (nodes: seq<Node>, rng: int -> int)
    requires Ordering(records, ordered) && i < |ordered| && KeepsCache(records, dependencies, ordered[i])
    requires !ReuseIsSafe(records, ordered[i].key)
    ensures IsTokenStream(rng) && IsExpansion(records, dependencies, ordered, nodes, rng) && !ReusedNext(nodes, i)
  {
    var at;
    nodes, at := SwitchAtNode(records, dependencies, ordered, i);
    rng := Switching(at);
    UnsafeDraws(records, dependencies, ordered, nodes, rng, i);
    ReusedIffSafe(records, dependencies, ordered, nodes, rng, i);
  }

  /** An expansion on a stream that switches exactly where node `i` starts drawing. */
  lemma {:induction false} SwitchAtNode(records: seq<Record>, dependencies: map<NodeKey, seq<NodeKey>>,
                                        ordered: seq<Record>, i: nat)
    returns (nodes: seq<Node>, at: int)
    requires i < |ordered| && forall k :: 0 <= k < |ordered| ==> ordered[k].NonNegative()
    ensures IsExpansion(records, dependencies, ordered, nodes, Switching(at)) && Position(nodes[..i]) == at
  {
    var some := ExpansionExists(records, dependencies, ordered, Switching(0), |ordered|);
    at := Position(some[..i]);
    nodes := ExpansionExists(records, dependencies, ordered, Switching(at), |ordered|);
    assert ordered[..|ordered|] == ordered;
    ExpansionsHaveSameShape(records, dependencies, ordered, some, Switching(0), nodes, Switching(at));
    ShapeDecidesPosition(some[..i], nodes[..i]);
  }

  /** A kept node for which the condition fails draws at least one token. */
  lemma {:induction false} UnsafeDraws(records: seq<Record>, dependencies: map<NodeKey, seq<NodeKey>>,
                                       ordered: seq<Record>, nodes: seq<Node>, rng: int -> int, i: nat)
    requires Ordering(records, ordered) && IsExpansion(records, dependencies, ordered, nodes, rng) && i < |nodes|
    requires KeepsCache(records, dependencies, ordered[i]) && !ReuseIsSafe(records, ordered[i].key)
    ensures nodes[i].keepCacheInGpu && nodes[i].key == ordered[i].key
    ensures Position(nodes[..i]) < Position(nodes[..i + 1])
  {
    assert ExpandsAt(records, dependencies, ordered, nodes, rng, i);
    BehindOneNode(nodes, i);
    KeptRecordIsFollowed(records, dependencies, ordered, i);
  }

  /** Whatever tokens the script draws, the cache kept for record `i` is reused: exactly when the
      condition holds. */
  lemma AlwaysReusedIffSafe(records: seq<Record>, dependencies: map<NodeKey, seq<NodeKey>>,
                            ordered: seq<Record>, i: nat)
    requires Ordering(records, ordered) && i < |ordered| && KeepsCache(records, dependencies, ordered[i])
    ensures (forall nodes, rng ::
               IsTokenStream(rng) && IsExpansion(records, dependencies, ordered, nodes, rng) ==> ReusedNext(nodes, i))
            <==> ReuseIsSafe(records, ordered[i].key)
  {
    if ReuseIsSafe(records, ordered[i].key) {
      forall nodes: seq<Node>, rng | IsTokenStream(rng) && IsExpansion(records, dependencies, ordered, nodes, rng)
        ensures ReusedNext(nodes, i)
      {
        assert ExpandsAt(records, dependencies, ordered, nodes, rng, i);
        KeptCacheIsReused(records, dependencies, ordered, nodes, rng, i);
      }
    } else {
      var nodes, rng := UnsafeIsNotReused(records, dependencies, ordered, i);
    }
  }
}
