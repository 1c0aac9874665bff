/**
  The chained block hash of `AsyncAgentScheduler` and what counting hash hits means.

  The hash is any function of (is_first_block, previous hash, block tokens); the
  only assumption, made where it is needed, is that it does not collide on the
  chain inputs of the sequences being compared and never yields `none_hash` on them.
 */
module PrefixCache {

  type HashFn = (bool, int, seq<int>) -> int

  /** The whole blocks of a token list; an incomplete last block is dropped.  A
      negative size makes Python's `range` empty. */
  function Blocks(tokens: seq<int>, size: int): seq<seq<int>>
    decreases |tokens|
  {
    if size <= 0 || |tokens| < size then [] else [tokens[..size]] + Blocks(tokens[size..], size)
  }

  /** Hash of every block, each chained to its predecessor. */
  function HashChain(h: HashFn, none: int, blocks: seq<seq<int>>): (r: seq<int>)
    ensures |r| == |blocks|
  {
    if blocks == [] then []
    else
      var k := |blocks| - 1;
      var front := HashChain(h, none, blocks[..k]);
      var prev := Last(front, none);
      front + [h(prev == none, prev, blocks[k])]
  }

  function Last(hashes: seq<int>, none: int): int {
    if hashes == [] then none else hashes[|hashes| - 1]
  }

  /** `_compute_request_block_hashes`. */
  method ComputeRequestBlockHashes(h: HashFn, tokens: seq<int>, size: int, none: int) returns (hashes: seq<int>)
    requires size != 0
    ensures hashes == HashChain(h, none, Blocks(tokens, size))
  {
    hashes := [];
    if size < 0 {
      return;
    }
    var prev := none;
    var start := 0;
    ghost var done: seq<seq<int>> := [];
    while start < |tokens|
      invariant 0 <= start
      invariant start <= |tokens| && Blocks(tokens, size) == done + Blocks(tokens[start..], size)
      invariant hashes == HashChain(h, none, done) && prev == Last(hashes, none)
    {
      if |tokens| - start < size {
        break;
      }
      var block := tokens[start..start + size];
      assert tokens[start..][..size] == block && tokens[start..][size..] == tokens[start + size..];
      assert (done + [block])[..|done|] == done;
      var blockHash := h(prev == none, prev, block);
      hashes := hashes + [blockHash];
      done := done + [block];
      prev := blockHash;
      start := start + size;
    }
    assert Blocks(tokens[start..], size) == [] && done + [] == done;
  }

  /** Leading hashes found in the cache. */
  function HitCount(hashes: seq<int>, cached: set<int>): (n: nat)
    ensures n <= |hashes|
    ensures forall i :: 0 <= i < n ==> hashes[i] in cached
    ensures n < |hashes| ==> hashes[n] !in cached
  {
    if hashes == [] || hashes[0] !in cached then 0 else 1 + HitCount(hashes[1..], cached)
  }

  /** `_count_hash_hits`: GPU and CPU blocks count alike. */
  method CountHashHits(hashes: seq<int>, gpu: seq<int>, cpu: seq<int>) returns (hits: nat)
    ensures hits == HitCount(hashes, (set x | x in gpu) + (set x | x in cpu))
  {
    var cached := (set x | x in gpu) + (set x | x in cpu);
    hits := 0;
    while hits < |hashes|
      invariant hits <= |hashes|
      invariant HitCount(hashes, cached) == hits + HitCount(hashes[hits..], cached)
    {
      if hashes[hits] !in cached {
        return;
      }
      hits := hits + 1;
    }
  }

  /** Hashing a prefix gives a prefix of the hashes. */
  lemma {:induction false} ChainOfPrefix(h: HashFn, none: int, blocks: seq<seq<int>>, m: nat)
    requires m <= |blocks|
    ensures HashChain(h, none, blocks[..m]) == HashChain(h, none, blocks)[..m]
    decreases |blocks|
  {
    if m == |blocks| {
      assert blocks[..m] == blocks;
    } else {
      var k := |blocks| - 1;
      ChainOfPrefix(h, none, blocks[..k], m);
      assert blocks[..k][..m] == blocks[..m];
    }
  }

  // ---------------------------------------------------------------- no collisions

  /** The hash before block `i`. */
  function Previous(h: HashFn, none: int, blocks: seq<seq<int>>, i: nat): int
    requires i <= |blocks|
  {
    if i == 0 then none else HashChain(h, none, blocks)[i - 1]
  }

  /** What the hash function is applied to at block `i`. */
  function ChainInput(h: HashFn, none: int, blocks: seq<seq<int>>, i: nat): (bool, int, seq<int>)
    requires i < |blocks|
  {
    var prev := Previous(h, none, blocks, i);
    (prev == none, prev, blocks[i])
  }

  function Apply(h: HashFn, x: (bool, int, seq<int>)): int {
    h(x.0, x.1, x.2)
  }

  lemma {:induction false} HashAt(h: HashFn, none: int, blocks: seq<seq<int>>, i: nat)
    requires i < |blocks|
    ensures HashChain(h, none, blocks)[i] == Apply(h, ChainInput(h, none, blocks, i))
  {
    ChainOfPrefix(h, none, blocks, i + 1);
    ChainOfPrefix(h, none, blocks, i);
    assert blocks[..i + 1][..i] == blocks[..i];
  }

  /** On the chain inputs of two block lists the hash is injective and never `none`. */
  ghost predicate CollisionFree(h: HashFn, none: int, a: seq<seq<int>>, b: seq<seq<int>>) {
    && (forall i :: 0 <= i < |a| ==> Apply(h, ChainInput(h, none, a, i)) != none)
    && (forall j :: 0 <= j < |b| ==> Apply(h, ChainInput(h, none, b, j)) != none)
    && (forall i, j :: 0 <= i < |a| && 0 <= j < |b| ==>
          NoClash(h, ChainInput(h, none, a, i), ChainInput(h, none, b, j)))
  }

  ghost predicate NoClash(h: HashFn, x: (bool, int, seq<int>), y: (bool, int, seq<int>)) {
    Apply(h, x) == Apply(h, y) ==> x == y
  }

  /** Equal chain hashes mean equal positions and equal prefixes. */
  lemma {:induction false} EqualHashesEqualPrefixes(h: HashFn, none: int, a: seq<seq<int>>, b: seq<seq<int>>,
                                                    i: nat, j: nat)
    requires CollisionFree(h, none, a, b) && i < |a| && j < |b|
    requires HashChain(h, none, a)[i] == HashChain(h, none, b)[j]
    ensures i == j && a[..i + 1] == b[..i + 1]
  {
    HashAt(h, none, a, i);
    HashAt(h, none, b, j);
    assert NoClash(h, ChainInput(h, none, a, i), ChainInput(h, none, b, j));
    if i > 0 {
      HashAt(h, none, a, i - 1);
    }
    if j > 0 {
      HashAt(h, none, b, j - 1);
    }
    if i > 0 && j > 0 {
      EqualHashesEqualPrefixes(h, none, a, b, i - 1, j - 1);
      assert a[..i + 1] == a[..i] + [a[i]] && b[..i + 1] == b[..i] + [b[i]];
    }
  }

  /** `cache` holds exactly the chain hashes of the cached token sequences. */
  ghost predicate CacheOf(h: HashFn, none: int, size: int, sequences: set<seq<int>>, cache: set<int>) {
    forall x :: x in cache <==> exists c :: c in sequences && x in HashChain(h, none, Blocks(c, size))
  }

  ghost predicate NoCollisions(h: HashFn, none: int, size: int, request: seq<int>, sequences: set<seq<int>>) {
    forall c :: c in sequences ==> CollisionFree(h, none, Blocks(request, size), Blocks(c, size))
  }

  /** The first `m` whole blocks agree, token by token. */
  ghost predicate SharesBlocks(a: seq<int>, b: seq<int>, size: nat, m: nat) {
    m * size <= |a| && m * size <= |b| && a[..m * size] == b[..m * size]
  }

  ghost predicate SamePrefix<T>(x: seq<T>, y: seq<T>, m: nat) {
    m <= |x| && m <= |y| && x[..m] == y[..m]
  }

  lemma SamePrefixCons<T>(p: T, x: seq<T>, q: T, y: seq<T>, n: nat)
    ensures SamePrefix([p] + x, [q] + y, n + 1) <==> p == q && SamePrefix(x, y, n)
  {
    if n <= |x| && n <= |y| {
      assert ([p] + x)[..n + 1] == [p] + x[..n] && ([q] + y)[..n + 1] == [q] + y[..n];
      assert ([p] + x[..n])[1..] == x[..n] && ([q] + y[..n])[1..] == y[..n];
    }
  }

  /** Agreeing block lists are agreeing token lists. */
  lemma {:induction false} BlockPrefixes(a: seq<int>, b: seq<int>, size: nat, m: nat)
    requires size > 0
    ensures SharesBlocks(a, b, size, m) <==> SamePrefix(Blocks(a, size), Blocks(b, size), m)
    decreases m
  {
    if m > 0 {
      var n := m - 1;
      assert m * size == size + n * size && n * size >= 0;
      if |a| >= size && |b| >= size {
        BlockPrefixes(a[size..], b[size..], size, n);
        FirstBlockThenRest(a, b, size, n * size);
        SamePrefixCons(a[..size], Blocks(a[size..], size), b[..size], Blocks(b[size..], size), n);
      }
    }
  }

  lemma FirstBlockThenRest(a: seq<int>, b: seq<int>, size: nat, rest: nat)
    requires size <= |a| && size <= |b|
    ensures (size + rest <= |a| && size + rest <= |b| && a[..size + rest] == b[..size + rest]) <==>
            (a[..size] == b[..size] && rest <= |a[size..]| && rest <= |b[size..]| &&
             a[size..][..rest] == b[size..][..rest])
  {
    if size + rest <= |a| && size + rest <= |b| {
      assert a[..size + rest] == a[..size] + a[size..][..rest];
      assert b[..size + rest] == b[..size] + b[size..][..rest];
      assert a[..size + rest][..size] == a[..size] && a[..size + rest][size..] == a[size..][..rest];
      assert b[..size + rest][..size] == b[..size] && b[..size + rest][size..] == b[size..][..rest];
    }
  }

  /** Hash hits mean real prefix sharing: the hit count is the largest number of whole blocks
      the request shares, as a prefix, with some cached sequence. */
  lemma {:induction false} HitsAreSharedBlocks(h: HashFn, none: int, size: int, request: seq<int>,
                                               sequences: set<seq<int>>, cache: set<int>)
    requires size > 0 && CacheOf(h, none, size, sequences, cache)
    requires NoCollisions(h, none, size, request, sequences)
    ensures var hits := HitCount(HashChain(h, none, Blocks(request, size)), cache);
            && (hits > 0 ==> exists c :: c in sequences && SharesBlocks(request, c, size, hits))
            && (forall c, m: nat :: c in sequences && SharesBlocks(request, c, size, m) ==> m <= hits)
  {
    var blocks := Blocks(request, size);
    var hashes := HashChain(h, none, blocks);
    var hits := HitCount(hashes, cache);
    if hits > 0 {
      HitIsShared(h, none, size, request, sequences, cache, hits - 1);
    }
    forall c, m: nat | c in sequences && SharesBlocks(request, c, size, m)
      ensures m <= hits
    {
      BlockPrefixes(request, c, size, m);
      forall i | 0 <= i < m
        ensures hashes[i] in cache
      {
        SharedIsHit(h, none, size, blocks, Blocks(c, size), m, i);
        assert c in sequences && hashes[i] in HashChain(h, none, Blocks(c, size));
      }
    }
  }

  lemma {:induction false} SharedIsHit(h: HashFn, none: int, size: int, a: seq<seq<int>>, b: seq<seq<int>>, m: nat,
                                       i: nat)
    requires SamePrefix(a, b, m) && i < m
    ensures HashChain(h, none, a)[i] == HashChain(h, none, b)[i]
  {
    ChainOfPrefix(h, none, a, m);
    ChainOfPrefix(h, none, b, m);
    assert HashChain(h, none, a)[i] == HashChain(h, none, a)[..m][i];
    assert HashChain(h, none, b)[i] == HashChain(h, none, b)[..m][i];
  }

  lemma {:induction false} HitIsShared(h: HashFn, none: int, size: int, request: seq<int>, sequences: set<seq<int>>,
                                       cache: set<int>, i: nat)
    requires size > 0 && CacheOf(h, none, size, sequences, cache)
    requires NoCollisions(h, none, size, request, sequences)
    requires i < |Blocks(request, size)| && HashChain(h, none, Blocks(request, size))[i] in cache
    ensures exists c :: c in sequences && SharesBlocks(request, c, size, i + 1)
  {
    var x := HashChain(h, none, Blocks(request, size))[i];
    var c :| c in sequences && x in HashChain(h, none, Blocks(c, size));
    var j :| 0 <= j < |Blocks(c, size)| && HashChain(h, none, Blocks(c, size))[j] == x;
    EqualHashesEqualPrefixes(h, none, Blocks(request, size), Blocks(c, size), i, j);
    BlockPrefixes(request, c, size, i + 1);
  }
}
