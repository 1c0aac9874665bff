/**
  `ThroughputEstimator`: bisection for the largest sustainable request rate, and
  the throughput cache handed to the orchestrator.

  The latency predictor is any function; float arithmetic is exact.
 */
module ThroughputEstimator {
  import opened Collections
  import opened RequestAnalyzer
  import opened PartitionPlanner

  /** Batch size, average decode length, longest length, prefill query length, prefill sequence length. */
  type Predictor = (int, int, int, int, int) -> real

  datatype Workload = Workload(decode: int, prompt: int, cached: int, longest: int)

  datatype Instance = Instance(memTokens: int, chunkSize: int, swapLatency: real, predict: Predictor)

  // Python's integer division, float floor division and int().
  function FloorDiv(a: int, b: int): int
    requires b != 0
  {
    if b > 0 then a / b else (-a) / (-b)
  }

  function FloorQuotient(a: real, b: real): int
    requires b != 0.0
  {
    (a / b).Floor
  }

  function Ceil(x: real): int { -((-x).Floor) }

  function Trunc(x: real): int { if x >= 0.0 then x.Floor else Ceil(x) }

  function Max(a: real, b: real): real { if a >= b then a else b }

  function Min(a: real, b: real): real { if a <= b then a else b }

  const EPS := 0.000000001

  /** `E_C + E_P + E_D // 2`: the divisor of the memory limit. */
  function AverageLength(w: Workload): int {
    w.cached + w.prompt + FloorDiv(w.decode, 2)
  }

  function MaxBatch(x: Instance, w: Workload): int
    requires AverageLength(w) != 0
  {
    var b := FloorDiv(x.memTokens, AverageLength(w));
    if b > 1 then b else 1
  }

  /** The quantities of one probe of the search. */
  function SwapCost(x: Instance, rate: real): real { rate * x.swapLatency }

  function Swap(x: Instance, rate: real): real { Min(SwapCost(x, rate), 1.0) }

  function Chunks(x: Instance, w: Workload, rate: real): real
    requires x.chunkSize != 0
  {
    w.prompt as real * rate / x.chunkSize as real
  }

  /** Tokens wanted per chunk. */
  function WantedRatio(w: Workload, rate: real, chunks: real): real {
    w.decode as real * rate / Max(chunks, EPS)
  }

  function Batch(x: Instance, w: Workload, rate: real): int
    requires x.chunkSize != 0 && AverageLength(w) != 0
  {
    var wanted := Ceil(WantedRatio(w, rate, Chunks(x, w, rate)));
    if wanted < MaxBatch(x, w) then wanted else MaxBatch(x, w)
  }

  function PrefillLatency(x: Instance, w: Workload, batch: int): real {
    var room := x.chunkSize - batch;
    x.predict(batch, AverageLength(w), w.longest, if w.prompt < room then w.prompt else room,
              w.cached + FloorDiv(w.prompt, 2))
  }

  function DecodeLatency(x: Instance, w: Workload, batch: int): real {
    x.predict(batch, AverageLength(w), w.longest, 0, 0)
  }

  function DecodeIterations(left: real, latency: real): int {
    var n := FloorQuotient(left, Max(latency, EPS));
    if n > 0 then n else 0
  }

  function PrefillCost(chunks: real, latency: real): real { chunks * latency }

  function PrefillTime(chunks: real, latency: real, swap: real): real { Min(PrefillCost(chunks, latency), 1.0 - swap) }

  /** Tokens decoded in one second: while swapping, while prefilling, and in the time left. */
  function TokensPerSecond(batch: int, rate: real, swap: real, prefill: real,
                           prefillLatency: real, decodeLatency: real): int
  {
    var spare := Trunc(batch as real - rate);
    spare * FloorQuotient(swap, Max(decodeLatency, EPS)) +
    spare * FloorQuotient(prefill, Max(prefillLatency, EPS)) +
    DecodeIterations(1.0 - prefill - swap, decodeLatency) * batch
  }

  /** Tokens the rate asks for in one second. */
  function Demand(w: Workload, rate: real): real { w.decode as real * rate }

  /** The memory limit divides by the average length; every probe that gets past the swap test
      divides by the chunk size. */
  predicate Divisible(x: Instance, w: Workload) {
    x.chunkSize != 0 && AverageLength(w) != 0
  }

  /** Whether a probe of the search accepts `rate`. */
  predicate Accepts(x: Instance, w: Workload, rate: real) {
    Divisible(x, w) && PassesTests(x, w, rate)
  }

  predicate PassesTests(x: Instance, w: Workload, rate: real)
    requires Divisible(x, w)
  {
    var swap, batch := Swap(x, rate), Batch(x, w, rate);
    var prefillLatency, decodeLatency := PrefillLatency(x, w, batch), DecodeLatency(x, w, batch);
    var prefill := PrefillTime(Chunks(x, w, rate), prefillLatency, swap);
    && swap < 1.0 && batch >= 1 && prefill < 1.0 - swap
    && TokensPerSecond(batch, rate, swap, prefill, prefillLatency, decodeLatency) as real > Demand(w, rate)
  }

  // ---------------------------------------------------------------- the search

  datatype Verdict = Accepted | Rejected | ZeroChunk

  /** One iteration of the search loop. */
  method Probe(x: Instance, w: Workload, mid: real) returns (v: Verdict)
    requires AverageLength(w) != 0
    ensures v.ZeroChunk? <==> x.chunkSize == 0 && SwapCost(x, mid) < 1.0
    ensures v.Accepted? <==> Accepts(x, w, mid)
  {
    var swap := Swap(x, mid);
    if swap >= 1.0 {
      return Rejected;
    }
    if x.chunkSize == 0 {
      return ZeroChunk;
    }
    var batch := Batch(x, w, mid);
    if batch < 1 {
      return Rejected;
    }
    var prefillLatency := PrefillLatency(x, w, batch);
    var prefill := PrefillTime(Chunks(x, w, mid), prefillLatency, swap);
    if prefill >= 1.0 - swap {
      return Rejected;
    }
    var decodeLatency := DecodeLatency(x, w, batch);
    var tokens := TokensPerSecond(batch, mid, swap, prefill, prefillLatency, decodeLatency);
    v := if tokens as real > Demand(w, mid) then Accepted else Rejected;
  }

  /** Width of the search interval after `n` halvings. */
  function Width(n: nat): real {
    if n == 0 then 20.0 else Width(n - 1) / 2.0
  }

  function Pow2(n: nat): nat {
    if n == 0 then 1 else 2 * Pow2(n - 1)
  }

  /** After n halvings the interval is exactly 20 / 2^n wide. */
  lemma {:induction false} WidthIsPower(n: nat)
    ensures Width(n) * Pow2(n) as real == 20.0
  {
    if n > 0 {
      WidthIsPower(n - 1);
      assert Pow2(n) as real == 2.0 * Pow2(n - 1) as real;
      Halve(Width(n - 1), Pow2(n - 1) as real);
    }
  }

  lemma Halve(w: real, p: real)
    ensures w / 2.0 * (2.0 * p) == w * p
  {}

  /** The interval after `n` probes. */
  function Bisect(x: Instance, w: Workload, n: nat): (real, real) {
    if n == 0 then (0.0, 20.0)
    else
      var (left, right) := Bisect(x, w, n - 1);
      var mid := (right + left) / 2.0;
      if Accepts(x, w, mid) then (mid, right) else (left, mid)
  }

  /** The rate probed after `n` probes. */
  function Middle(x: Instance, w: Workload, n: nat): real {
    (Bisect(x, w, n).1 + Bisect(x, w, n).0) / 2.0
  }

  /** The searched rate. */
  function SearchedRate(x: Instance, w: Workload): real {
    Bisect(x, w, 20).0
  }

  /** What the search guarantees of its answer, whatever the predictor does. */
  ghost predicate Brackets(x: Instance, w: Workload, left: real, right: real, n: nat) {
    && 0.0 <= left < right <= 20.0
    && (left == 0.0 || Accepts(x, w, left))
    && (right == 20.0 || !Accepts(x, w, right))
    && right - left == Width(n)
  }

  lemma {:induction false} BisectBrackets(x: Instance, w: Workload, n: nat)
    ensures Brackets(x, w, Bisect(x, w, n).0, Bisect(x, w, n).1, n)
  {
    if n > 0 {
      BisectBrackets(x, w, n - 1);
    }
  }

  datatype Rate = Found(rate: real) | DivisionByZero

  /** Exactly when the search raises: there is no average length, or the chunk size is zero and
      the last rate it can come down to still leaves room for the swaps. */
  predicate DividesByZero(x: Instance, w: Workload, probes: nat) {
    AverageLength(w) == 0 || (x.chunkSize == 0 && SwapCost(x, Width(probes)) < 1.0)
  }

  /** While the swap test alone turns rates down, the interval halves from the right. */
  ghost predicate SwapBound(x: Instance, left: real, right: real, n: nat) {
    left == 0.0 && right == Width(n) && (n == 0 || SwapCost(x, right) >= 1.0)
  }

  lemma {:induction false} SwapBoundHalves(x: Instance, left: real, right: real, n: nat)
    ensures var mid := (right + left) / 2.0;
            SwapBound(x, left, right, n) ==>
              mid == Width(n + 1) && (SwapCost(x, mid) >= 1.0 ==> SwapBound(x, left, mid, n + 1))
  {}

  /** The loop of `analyze_throughput`, for any iteration limit. */
  method Search(x: Instance, w: Workload, probes: nat) returns (r: Rate)
    requires probes > 0
    ensures r == if DividesByZero(x, w, probes) then DivisionByZero else Found(Bisect(x, w, probes).0)
  {
    if AverageLength(w) == 0 {
      return DivisionByZero;
    }
    var left, right := 0.0, 20.0;
    for n := 0 to probes
      invariant (left, right) == Bisect(x, w, n)
      invariant x.chunkSize == 0 ==> SwapBound(x, left, right, n)
    {
      var mid := (right + left) / 2.0;
      SwapBoundHalves(x, left, right, n);
      var v := Probe(x, w, mid);
      match v
      case ZeroChunk =>
        SwapFitsLower(x, n + 1, probes);
        return DivisionByZero;
      case Accepted => left := mid;
      case Rejected => right := mid;
    }
    r := Found(left);
  }

  /** `analyze_throughput`: the answer is 0 or a rate that passed, and exactly 20 / 2^20 above
      it lies a rejected rate or the cap. */
  method AnalyzeThroughput(x: Instance, w: Workload) returns (r: Rate)
    ensures r == if DividesByZero(x, w, 20) then DivisionByZero else Found(SearchedRate(x, w))
    ensures r.Found? ==> Brackets(x, w, r.rate, r.rate + Width(20), 20)
  {
    BisectBrackets(x, w, 20);
    r := Search(x, w, 20);
  }

  lemma {:induction false} WidthShrinks(m: nat, n: nat)
    requires m <= n
    ensures 0.0 < Width(n) <= Width(m)
    decreases n
  {
    if m < n {
      WidthShrinks(m, n - 1);
    } else if n > 0 {
      WidthShrinks(n - 1, n - 1);
    }
  }

  lemma {:induction false} SwapFitsLower(x: Instance, m: nat, n: nat)
    requires m <= n && SwapCost(x, Width(m)) < 1.0
    ensures SwapCost(x, Width(n)) < 1.0
  {
    WidthShrinks(m, n);
    LowerCost(x, Width(n), Width(m));
  }

  lemma LowerCost(x: Instance, a: real, b: real)
    requires 0.0 < a <= b && SwapCost(x, b) < 1.0
    ensures SwapCost(x, a) < 1.0
  {
    if x.swapLatency > 0.0 {
      assert (b - a) * x.swapLatency >= 0.0;
    } else {
      assert a * (-x.swapLatency) >= 0.0;
    }
  }

  // ---------------------------------------------------------------- what an accepted rate means

  lemma FloorTimes(a: real, b: real)
    requires b > 0.0
    ensures FloorQuotient(a, b) as real * b <= a
  {
    assert FloorQuotient(a, b) as real <= a / b;
    assert (a / b - FloorQuotient(a, b) as real) * b >= 0.0;
  }

  function DecodeCost(left: real, latency: real): real { DecodeIterations(left, latency) as real * latency }

  /** The one-second test: prefill chunks, cache swaps and decode iterations fit in a second. */
  lemma AcceptedFitsInASecond(x: Instance, w: Workload, rate: real)
    requires Accepts(x, w, rate)
    ensures var batch := Batch(x, w, rate);
            var prefill, swap := PrefillCost(Chunks(x, w, rate), PrefillLatency(x, w, batch)), SwapCost(x, rate);
            && swap < 1.0
            && prefill + swap + DecodeCost(1.0 - prefill - swap, DecodeLatency(x, w, batch)) <= 1.0
  {
    var batch := Batch(x, w, rate);
    FitsOnceUnclamped(PrefillCost(Chunks(x, w, rate), PrefillLatency(x, w, batch)), SwapCost(x, rate),
                      DecodeLatency(x, w, batch));
  }

  /** Swapping and prefilling leave part of the second, and the tokens decoded in it exceed the demand. */
  ghost predicate Sustains(swap: real, prefill: real, batch: int, tokens: int, demand: real) {
    swap < 1.0 && prefill + swap < 1.0 && batch >= 1 && tokens as real > demand
  }

  /** What acceptance amounts to without the clamps: swapping and prefilling at this rate leave
      part of the second, and the tokens decoded in the second exceed the demand. */
  lemma AcceptsIffServed(x: Instance, w: Workload, rate: real)
    requires Divisible(x, w)
    ensures var batch := Batch(x, w, rate);
            var a, b := PrefillLatency(x, w, batch), DecodeLatency(x, w, batch);
            var prefill, swap := PrefillCost(Chunks(x, w, rate), a), SwapCost(x, rate);
            Accepts(x, w, rate) <==>
              Sustains(swap, prefill, batch, TokensPerSecond(batch, rate, swap, prefill, a, b), Demand(w, rate))
  {
    var batch := Batch(x, w, rate);
    UnclampedWhenBelow(PrefillCost(Chunks(x, w, rate), PrefillLatency(x, w, batch)), SwapCost(x, rate));
  }

  /** `n` is the quotient of `time` and `latency`, floored, a latency below 1e-9 counting as that. */
  ghost predicate FitsTimes(n: int, time: real, latency: real) {
    var step := if latency >= 0.000000001 then latency else 0.000000001;
    n as real * step <= time < (n + 1) as real * step
  }

  /** `q` is `a` divided by `b`. */
  ghost predicate IsQuotient(q: real, a: real, b: real) {
    q * b == a
  }

  lemma QuotientIsThat(q: real, a: real, b: real)
    requires b != 0.0 && IsQuotient(q, a, b)
    ensures q == a / b
  {}

  /** `n` is `q` rounded up. */
  ghost predicate IsRoundedUp(n: int, q: real) {
    (n - 1) as real < q <= n as real
  }

  /** `n` is `q` rounded towards zero. */
  ghost predicate IsTruncated(n: int, q: real) {
    if q >= 0.0 then n as real <= q < (n + 1) as real else (n - 1) as real < q <= n as real
  }

  /** The numbers of one probe, from the fields alone. */
  datatype ProbeNumbers = ProbeNumbers(
    average: int, chunks: real, ratio: real, wanted: int, batch: int, prefillLatency: real, decodeLatency: real,
    spare: int, whileSwapping: int, whilePrefilling: int, afterwards: int)

  ghost predicate AreProbeNumbers(x: Instance, w: Workload, rate: real, v: ProbeNumbers)
    requires Divisible(x, w)
  {
    AreBatchAndLatencies(x, w, rate, v) &&
    AreCounts(v, rate, SwapCost(x, rate), PrefillCost(v.chunks, v.prefillLatency))
  }

  ghost predicate AreBatchAndLatencies(x: Instance, w: Workload, rate: real, v: ProbeNumbers)
    requires Divisible(x, w)
  {
    && v.average == w.cached + w.prompt + w.decode / 2
    && IsQuotient(v.chunks, w.prompt as real * rate, x.chunkSize as real)
    && IsQuotient(v.ratio, w.decode as real * rate, if v.chunks >= 0.000000001 then v.chunks else 0.000000001)
    && IsRoundedUp(v.wanted, v.ratio)
    && v.batch == Lesser(v.wanted, Greater(FloorDiv(x.memTokens, AverageLength(w)), 1))
    && v.prefillLatency == x.predict(v.batch, v.average, w.longest, Lesser(w.prompt, x.chunkSize - v.batch),
                                     w.cached + w.prompt / 2)
    && v.decodeLatency == x.predict(v.batch, v.average, w.longest, 0, 0)
  }

  ghost predicate AreCounts(v: ProbeNumbers, rate: real, swap: real, prefill: real) {
    && IsTruncated(v.spare, v.batch as real - rate)
    && FitsTimes(v.whileSwapping, swap, v.decodeLatency)
    && FitsTimes(v.whilePrefilling, prefill, v.prefillLatency)
    && FitsTimes(v.afterwards, 1.0 - prefill - swap, v.decodeLatency)
  }

  function Lesser(a: int, b: int): int { if a < b then a else b }

  function Greater(a: int, b: int): int { if a > b then a else b }

  /** Tokens decoded in a second, from those numbers. */
  function TokensOf(v: ProbeNumbers): int {
    v.spare * v.whileSwapping + v.spare * v.whilePrefilling + Greater(v.afterwards, 0) * v.batch
  }

  /** The acceptance test over the workload's and the instance's own fields. */
  lemma AcceptsByNumbers(x: Instance, w: Workload, rate: real, v: ProbeNumbers, swap: real, prefill: real,
                         demand: real)
    requires Divisible(x, w) && AreProbeNumbers(x, w, rate, v)
    requires swap == rate * x.swapLatency && prefill == v.chunks * v.prefillLatency && demand == w.decode as real * rate
    ensures Accepts(x, w, rate) <==> Sustains(swap, prefill, v.batch, TokensOf(v), demand)
  {
    assert MeantNumbers(x, w, rate, v) by {
      NumbersAreThose(x, w, rate, v);
      NumbersGiveTokens(x, rate, v, SwapCost(x, rate), PrefillCost(v.chunks, v.prefillLatency));
    }
    AcceptsMeant(x, w, rate, v, swap, prefill, demand);
  }

  ghost predicate MeantNumbers(x: Instance, w: Workload, rate: real, v: ProbeNumbers)
    requires Divisible(x, w)
  {
    && v.chunks == Chunks(x, w, rate) && v.batch == Batch(x, w, rate)
    && v.prefillLatency == PrefillLatency(x, w, v.batch) && v.decodeLatency == DecodeLatency(x, w, v.batch)
    && TokensOf(v) == TokensPerSecond(v.batch, rate, SwapCost(x, rate), PrefillCost(v.chunks, v.prefillLatency),
                                      v.prefillLatency, v.decodeLatency)
  }

  lemma AcceptsMeant(x: Instance, w: Workload, rate: real, v: ProbeNumbers, swap: real, prefill: real, demand: real)
    requires Divisible(x, w) && MeantNumbers(x, w, rate, v)
    requires swap == rate * x.swapLatency && prefill == v.chunks * v.prefillLatency && demand == w.decode as real * rate
    ensures Accepts(x, w, rate) <==> Sustains(swap, prefill, v.batch, TokensOf(v), demand)
  {
    AcceptsRaw(x, w, rate, v.batch, v.chunks, v.prefillLatency, v.decodeLatency, TokensOf(v), swap, prefill, demand);
  }

  lemma AcceptsRaw(x: Instance, w: Workload, rate: real, batch: int, chunks: real, a: real, b: real, tokens: int,
                   swap: real, prefill: real, demand: real)
    requires Divisible(x, w) && chunks == Chunks(x, w, rate) && batch == Batch(x, w, rate)
    requires a == PrefillLatency(x, w, batch) && b == DecodeLatency(x, w, batch)
    requires tokens == TokensPerSecond(batch, rate, SwapCost(x, rate), PrefillCost(chunks, a), a, b)
    requires swap == rate * x.swapLatency && prefill == chunks * a && demand == w.decode as real * rate
    ensures Accepts(x, w, rate) <==> Sustains(swap, prefill, batch, tokens, demand)
  {
    AcceptsGiven(x, w, rate, batch, chunks, a, b, tokens);
    Products(x, w, rate, chunks, a);
  }

  lemma Products(x: Instance, w: Workload, rate: real, chunks: real, latency: real)
    ensures SwapCost(x, rate) == rate * x.swapLatency && PrefillCost(chunks, latency) == chunks * latency
    ensures Demand(w, rate) == w.decode as real * rate
  {}

  lemma AcceptsGiven(x: Instance, w: Workload, rate: real, batch: int, chunks: real, a: real, b: real, tokens: int)
    requires Divisible(x, w) && chunks == Chunks(x, w, rate) && batch == Batch(x, w, rate)
    requires a == PrefillLatency(x, w, batch) && b == DecodeLatency(x, w, batch)
    requires tokens == TokensPerSecond(batch, rate, SwapCost(x, rate), PrefillCost(chunks, a), a, b)
    ensures Accepts(x, w, rate) <==>
            Sustains(SwapCost(x, rate), PrefillCost(chunks, a), batch, tokens, Demand(w, rate))
  {
    AcceptsIffServed(x, w, rate);
  }

  lemma NumbersAreThose(x: Instance, w: Workload, rate: real, v: ProbeNumbers)
    requires Divisible(x, w) && AreBatchAndLatencies(x, w, rate, v)
    ensures v.chunks == Chunks(x, w, rate) && v.batch == Batch(x, w, rate)
    ensures v.prefillLatency == PrefillLatency(x, w, v.batch) && v.decodeLatency == DecodeLatency(x, w, v.batch)
  {
    ChunksAreThose(x, w, rate, v.chunks);
    RatioIsThat(w, rate, v.chunks, v.ratio);
    BatchIsThat(x, w, rate, v.ratio, v.wanted, v.batch);
    LatenciesAreThose(x, w, v);
  }

  lemma ChunksAreThose(x: Instance, w: Workload, rate: real, chunks: real)
    requires x.chunkSize != 0 && IsQuotient(chunks, w.prompt as real * rate, x.chunkSize as real)
    ensures chunks == Chunks(x, w, rate)
  {
    QuotientIsThat(chunks, w.prompt as real * rate, x.chunkSize as real);
  }

  lemma RatioIsThat(w: Workload, rate: real, chunks: real, ratio: real)
    requires IsQuotient(ratio, w.decode as real * rate, if chunks >= 0.000000001 then chunks else 0.000000001)
    ensures ratio == WantedRatio(w, rate, chunks)
  {
    QuotientIsThat(ratio, w.decode as real * rate, Max(chunks, EPS));
  }

  lemma LatenciesAreThose(x: Instance, w: Workload, v: ProbeNumbers)
    requires v.average == w.cached + w.prompt + w.decode / 2
    requires v.prefillLatency == x.predict(v.batch, v.average, w.longest, Lesser(w.prompt, x.chunkSize - v.batch),
                                           w.cached + w.prompt / 2)
    requires v.decodeLatency == x.predict(v.batch, v.average, w.longest, 0, 0)
    ensures v.prefillLatency == PrefillLatency(x, w, v.batch) && v.decodeLatency == DecodeLatency(x, w, v.batch)
  {}

  lemma BatchIsThat(x: Instance, w: Workload, rate: real, ratio: real, wanted: int, batch: int)
    requires Divisible(x, w) && ratio == WantedRatio(w, rate, Chunks(x, w, rate)) && IsRoundedUp(wanted, ratio)
    requires batch == Lesser(wanted, Greater(FloorDiv(x.memTokens, AverageLength(w)), 1))
    ensures batch == Batch(x, w, rate)
  {
    RoundedUp(wanted, ratio);
  }

  lemma NumbersGiveTokens(x: Instance, rate: real, v: ProbeNumbers, swap: real, prefill: real)
    requires AreCounts(v, rate, swap, prefill)
    ensures TokensOf(v) == TokensPerSecond(v.batch, rate, swap, prefill, v.prefillLatency, v.decodeLatency)
  {
    Truncated(v.spare, v.batch as real - rate);
    FloorUnique(v.whileSwapping, swap, v.decodeLatency);
    FloorUnique(v.whilePrefilling, prefill, v.prefillLatency);
    FloorUnique(v.afterwards, 1.0 - prefill - swap, v.decodeLatency);
  }

  lemma RoundedUp(n: int, q: real)
    requires IsRoundedUp(n, q)
    ensures Ceil(q) == n
  {}

  lemma Truncated(n: int, q: real)
    requires IsTruncated(n, q)
    ensures Trunc(q) == n
  {}

  lemma FloorUnique(n: int, time: real, latency: real)
    requires FitsTimes(n, time, latency)
    ensures FloorQuotient(time, Max(latency, EPS)) == n
  {
    var step := Max(latency, EPS);
    QuotientBetween(n as real, time, step);
  }

  lemma QuotientBetween(n: real, time: real, step: real)
    requires step > 0.0 && n * step <= time < (n + 1.0) * step
    ensures n <= time / step < n + 1.0
  {
    QuotientTimes(time, step);
    FactorOrder(n, time / step, step);
    FactorOrder(n + 1.0, time / step, step);
  }

  lemma FactorOrder(a: real, b: real, step: real)
    requires step > 0.0
    ensures a * step <= b * step <==> a <= b
  {
    var d := b - a;
    assert d * step == b * step - a * step;
    SignOfProduct(d, step);
  }

  lemma UnclampedWhenBelow(prefill: real, swap: real)
    ensures Min(swap, 1.0) < 1.0 <==> swap < 1.0
    ensures swap < 1.0 ==> Min(swap, 1.0) == swap
    ensures swap < 1.0 ==> (Min(prefill, 1.0 - swap) < 1.0 - swap <==> prefill + swap < 1.0)
    ensures swap < 1.0 && prefill + swap < 1.0 ==> Min(prefill, 1.0 - swap) == prefill
  {}

  /** The clamps are not active for an accepted rate, and the decode loop only uses what is left. */
  lemma FitsOnceUnclamped(prefill: real, swap: real, latency: real)
    requires Min(swap, 1.0) < 1.0 && Min(prefill, 1.0 - Min(swap, 1.0)) < 1.0 - Min(swap, 1.0)
    ensures swap < 1.0 && prefill + swap + DecodeCost(1.0 - prefill - swap, latency) <= 1.0
  {
    IterationsFit(1.0 - prefill - swap, latency);
  }

  lemma IterationsFit(left: real, latency: real)
    requires left > 0.0
    ensures DecodeCost(left, latency) <= left
  {
    var n, d := DecodeIterations(left, latency), Max(latency, EPS);
    FloorTimes(left, d);
    NoLonger(n as real, latency, d);
  }

  lemma NoLonger(n: real, a: real, b: real)
    requires n >= 0.0 && a <= b
    ensures n * a <= n * b
  {
    assert n * (b - a) >= 0.0;
  }

  /** The result always leaves room for the cache swaps. */
  lemma ResultLeavesSwapRoom(x: Instance, w: Workload)
    ensures SwapCost(x, SearchedRate(x, w)) < 1.0
  {
    BisectBrackets(x, w, 20);
    if SearchedRate(x, w) == 0.0 {
      assert SwapCost(x, 0.0) == 0.0;
    } else {
      AcceptedFitsInASecond(x, w, SearchedRate(x, w));
    }
  }

  // ---------------------------------------------------------------- is it the maximum?

  /** No sustainable rate up to the cap is more than the final width above the answer. */
  ghost predicate NearlyMaximal(x: Instance, w: Workload, probes: nat) {
    forall rate :: rate <= 20.0 && Accepts(x, w, rate) ==> rate <= Bisect(x, w, probes).1
  }

  /** Probe `n` turns down a rate although a higher one could be sustained. */
  ghost predicate Misjudges(x: Instance, w: Workload, n: nat) {
    !Accepts(x, w, Middle(x, w, n)) && exists rate :: Middle(x, w, n) < rate <= 20.0 && Accepts(x, w, rate)
  }

  /** In terms of the search's own probes: none of them turns down a rate below a sustainable one. */
  lemma {:induction false} NearlyMaximalByProbes(x: Instance, w: Workload, probes: nat)
    ensures Bisect(x, w, probes).1 == Bisect(x, w, probes).0 + Width(probes)
    ensures NearlyMaximal(x, w, probes) <==> forall n :: 0 <= n < probes ==> !Misjudges(x, w, n)
  {
    BisectBrackets(x, w, probes);
    forall n | 0 <= n < probes && Misjudges(x, w, n)
      ensures !NearlyMaximal(x, w, probes)
    {
      RightBelowRejected(x, w, n, probes);
    }
    if Bisect(x, w, probes).1 != 20.0 {
      var m := RightWasProbed(x, w, probes);
      if !NearlyMaximal(x, w, probes) {
        assert Misjudges(x, w, m);
      }
    }
  }

  /** The right end stays at or below every rate that was turned down. */
  lemma {:induction false} RightBelowRejected(x: Instance, w: Workload, m: nat, n: nat)
    requires m < n && !Accepts(x, w, Middle(x, w, m))
    ensures Bisect(x, w, n).1 <= Middle(x, w, m)
    decreases n
  {
    if m < n - 1 {
      RightBelowRejected(x, w, m, n - 1);
      BisectBrackets(x, w, n - 1);
    }
  }

  /** A right end below the cap is a rate that was turned down. */
  lemma {:induction false} RightWasProbed(x: Instance, w: Workload, n: nat) returns (m: nat)
    requires Bisect(x, w, n).1 != 20.0
    ensures m < n && Bisect(x, w, n).1 == Middle(x, w, m) && !Accepts(x, w, Middle(x, w, m))
  {
    if Accepts(x, w, Middle(x, w, n - 1)) {
      m := RightWasProbed(x, w, n - 1);
    } else {
      m := n - 1;
    }
  }

  // In terms of the acceptance test alone.

  /** Left end of cell `j` when [0, 20) is divided into cells of width Width(n). */
  function Edge(j: nat, n: nat): real {
    j as real * Width(n)
  }

  /** The highest sustainable rates lie in the upper half of the cell from `lo` to `hi`, and its
      midpoint is not sustainable. */
  ghost predicate HidesTop(x: Instance, w: Workload, lo: real, hi: real) {
    && hi <= 20.0 && !Accepts(x, w, (lo + hi) / 2.0)
    && (exists rate :: (lo + hi) / 2.0 < rate <= 20.0 && (rate < hi || hi == 20.0) && Accepts(x, w, rate))
    && (hi < 20.0 ==> forall rate :: hi <= rate <= 20.0 ==> !Accepts(x, w, rate))
  }

  ghost predicate CellHidesTop(x: Instance, w: Workload, n: nat, j: nat) {
    HidesTop(x, w, Edge(j, n), Edge(j + 1, n))
  }

  /** The documented maximum is found, up to the final width, exactly when no cell of the dyadic grid
      of up to `probes` halvings has the highest sustainable rates in its upper half while its
      midpoint is turned down. */
  lemma {:induction false} ResultIsNearlyMaximalIff(x: Instance, w: Workload, probes: nat)
    ensures Bisect(x, w, probes).1 == Bisect(x, w, probes).0 + Width(probes)
    ensures NearlyMaximal(x, w, probes) <==> forall n: nat, j: nat :: n < probes ==> !CellHidesTop(x, w, n, j)
  {
    BisectBrackets(x, w, probes);
    forall n: nat, j: nat | n < probes && CellHidesTop(x, w, n, j)
      ensures !NearlyMaximal(x, w, probes)
    {
      HiddenTopIsMissed(x, w, n, j, probes);
    }
    if !NearlyMaximal(x, w, probes) {
      var n := FirstLoss(x, w, probes);
      var j := LossHidesTop(x, w, n);
    }
  }

  lemma EdgesHalve(j: nat, n: nat)
    ensures Edge(2 * j, n + 1) == Edge(j, n) && Edge(2 * j + 1, n + 1) == (Edge(j, n) + Edge(j + 1, n)) / 2.0
  {
    var v := Width(n);
    assert (2 * j) as real * (v / 2.0) == j as real * v;
  }

  lemma EdgesAscend(i: nat, j: nat, n: nat)
    requires i <= j
    ensures Edge(i, n) <= Edge(j, n) && Edge(j, n) < Edge(j + 1, n)
  {
    WidthShrinks(n, n);
    assert (j - i) as real * Width(n) >= 0.0;
  }

  /** The interval after `n` probes is a cell of the grid. */
  lemma {:induction false} IntervalIsCell(x: Instance, w: Workload, n: nat) returns (j: nat)
    ensures Bisect(x, w, n) == (Edge(j, n), Edge(j + 1, n))
  {
    if n == 0 {
      j := 0;
    } else {
      var i := IntervalIsCell(x, w, n - 1);
      j := HalvesAreCells(Bisect(x, w, n - 1), Bisect(x, w, n), n, i);
    }
  }

  lemma HalvesAreCells(whole: (real, real), half: (real, real), n: nat, i: nat) returns (j: nat)
    requires n > 0 && whole == (Edge(i, n - 1), Edge(i + 1, n - 1))
    requires var mid := (whole.1 + whole.0) / 2.0; half == (mid, whole.1) || half == (whole.0, mid)
    ensures half == (Edge(j, n), Edge(j + 1, n))
  {
    EdgesHalve(i, n - 1);
    EdgesHalve(i + 1, n - 1);
    j := if half.1 == whole.1 then 2 * i + 1 else 2 * i;
  }

  lemma {:induction false} RightOnlyDrops(x: Instance, w: Workload, m: nat, n: nat)
    requires m <= n
    ensures Bisect(x, w, n).1 <= Bisect(x, w, m).1
    decreases n
  {
    if m < n {
      RightOnlyDrops(x, w, m, n - 1);
      BisectBrackets(x, w, n - 1);
    }
  }

  lemma HiddenTopIsMissed(x: Instance, w: Workload, n: nat, j: nat, probes: nat)
    requires n < probes && CellHidesTop(x, w, n, j)
    ensures !NearlyMaximal(x, w, probes)
  {
    var i := IntervalIsCell(x, w, n);
    var mid := (Edge(j, n) + Edge(j + 1, n)) / 2.0;
    var rate :| mid < rate <= 20.0 && (rate < Edge(j + 1, n) || Edge(j + 1, n) == 20.0) && Accepts(x, w, rate);
    EdgesAscend(j, j, n);
    if i == j {
      RightBelowRejected(x, w, n, probes);
    } else if i < j {
      EdgesAscend(i + 1, j, n);
      RightOnlyDrops(x, w, n, probes);
    } else {
      AboveHiddenTop(x, w, n, i, j);
    }
  }

  /** The search cannot be above such a cell: its left end would be sustainable. */
  lemma {:induction false} AboveHiddenTop(x: Instance, w: Workload, n: nat, i: nat, j: nat)
    requires Bisect(x, w, n) == (Edge(i, n), Edge(i + 1, n)) && CellHidesTop(x, w, n, j)
    ensures i <= j
  {
    BisectBrackets(x, w, n);
    EdgesAscend(0, j, n);
    if j < i {
      EdgesAscend(j + 1, i, n);
    }
  }

  /** The first probe after which a sustainable rate is out of reach. */
  lemma {:induction false} FirstLoss(x: Instance, w: Workload, probes: nat) returns (n: nat)
    requires !NearlyMaximal(x, w, probes)
    ensures n < probes && NearlyMaximal(x, w, n) && !NearlyMaximal(x, w, n + 1)
  {
    if NearlyMaximal(x, w, probes - 1) {
      n := probes - 1;
    } else {
      n := FirstLoss(x, w, probes - 1);
    }
  }

  lemma LossHidesTop(x: Instance, w: Workload, n: nat) returns (j: nat)
    requires NearlyMaximal(x, w, n) && !NearlyMaximal(x, w, n + 1)
    ensures CellHidesTop(x, w, n, j)
  {
    j := IntervalIsCell(x, w, n);
    BisectBrackets(x, w, n);
    var rate :| rate <= 20.0 && Accepts(x, w, rate) && rate > Bisect(x, w, n + 1).1;
    assert rate <= Edge(j + 1, n) && rate > Middle(x, w, n);
  }

  /** In particular when acceptance is monotone below the cap. */
  lemma MonotoneAcceptanceSuffices(x: Instance, w: Workload, probes: nat)
    requires forall a, b :: 0.0 < a <= b <= 20.0 && Accepts(x, w, b) ==> Accepts(x, w, a)
    ensures NearlyMaximal(x, w, probes)
  {
    NearlyMaximalByProbes(x, w, probes);
    forall n | 0 <= n < probes
      ensures !Misjudges(x, w, n)
    {
      BisectBrackets(x, w, n);
    }
  }

  /** A constant predictor, no prompts, and memory for a thousand short requests. */
  ghost predicate Misleading(x: Instance, w: Workload) {
    && x.memTokens == 1000 && x.chunkSize == 512 && x.swapLatency == 0.05
    && (forall a, b, c, d, e :: x.predict(a, b, c, d, e) == 0.6)
    && w.decode == 2 && w.prompt == w.cached == 0
  }

  /** Even a constant predictor can mislead the search: 10 is turned down, 15 is sustainable. */
  lemma SearchCanMissTheMaximum(x: Instance, w: Workload, probes: nat)
    requires Misleading(x, w) && probes > 0
    ensures Accepts(x, w, 15.0) && !Accepts(x, w, 10.0) && !NearlyMaximal(x, w, probes)
  {
    NearlyMaximalByProbes(x, w, probes);
    assert Middle(x, w, 0) == 10.0;
    AtTen();
    AtFifteen();
    AcceptsHere(x, w, 10.0);
    AcceptsHere(x, w, 15.0);
    assert Misjudges(x, w, 0);
  }

  function TokensHere(rate: real): int {
    TokensPerSecond(1000, rate, rate * 0.05, 0.0, 0.6, 0.6)
  }

  lemma AcceptsHere(x: Instance, w: Workload, rate: real)
    requires Misleading(x, w) && 1.0 <= rate < 20.0
    ensures Accepts(x, w, rate) <==> TokensHere(rate) as real > 2.0 * rate
  {
    BatchIsFull(x, w, rate);
    AcceptsIffServed(x, w, rate);
    assert PrefillCost(0.0, 0.6) == 0.0;
  }

  lemma BatchIsFull(x: Instance, w: Workload, rate: real)
    requires Misleading(x, w) && rate >= 1.0
    ensures Chunks(x, w, rate) == 0.0 && Batch(x, w, rate) == 1000
  {
    assert 2.0 * rate / EPS >= 2000000000.0;
  }

  lemma AtTen()
    ensures TokensHere(10.0) == 0
  {
    assert FloorQuotient(0.5, 0.6) == 0 && FloorQuotient(0.0, 0.6) == 0;
  }

  lemma AtFifteen()
    ensures TokensHere(15.0) == 985
  {
    assert FloorQuotient(0.75, 0.6) == 1 && FloorQuotient(0.0, 0.6) == 0 && FloorQuotient(0.25, 0.6) == 0;
  }

  // ---------------------------------------------------------------- the cache

  /** One entry: the searched rate scaled by the share of finished runs per invocation. */
  function Scaled(rate: real, stats: Stats): real {
    rate * stats.outProportion / Max(stats.queryProportion, EPS)
  }

  function WorkloadOf(stats: Stats): Workload {
    Workload(stats.avgDecode, stats.avgPrefill, stats.avgCached, stats.maxLength)
  }

  datatype Estimate = Cache(cells: seq<Cell>) | Failed

  /** The search raises for the statistics of this pair. */
  ghost predicate Breaks(source: Source, lo: int, hi: int) {
    Decodes(source, lo, hi) && DividesByZero(source.x, WorkloadOf(source.stats(lo, hi)), 20)
  }

  /** The value of the pair's entry: the searched rate, scaled. */
  ghost function EntryValue(source: Source, lo: int, hi: int): real {
    var stats := source.stats(lo, hi);
    Scaled(SearchedRate(source.x, WorkloadOf(stats)), stats)
  }

  /** What the entries are computed from: the instance, and the statistics of every pair of indices. */
  datatype Source = Source(x: Instance, stats: (int, int) -> Stats)

  ghost function SourceOf(nodeList: seq<Trace>, x: Instance, agent: string, reuse: bool, step: nat): Source {
    Source(x, (lo: int, hi: int) => RangeStats(nodeList, lo * step, hi * step, agent, reuse))
  }

  /** The body of the inner loop: the cell of one pair of indices, if it has one. */
  method EstimateCell(analyzer: Analyzer, x: Instance, agent: string, reuse: bool, step: nat, prev: nat, curr: nat)
    returns (r: Estimate)
    requires analyzer.Valid()
    modifies analyzer`rangeCache
    ensures analyzer.Valid()
    ensures var source := SourceOf(analyzer.nodeList, x, agent, reuse, step);
            && (r.Failed? <==> Breaks(source, prev, curr))
            && (r.Cache? ==> r.cells == CellsOf(source, prev, curr))
  {
    var stats := analyzer.GetRequestsInRange(prev * step, curr * step, agent, reuse, true);
    if stats.avgDecode == 0 {
      return Cache([]);
    }
    var rate := AnalyzeThroughput(x, WorkloadOf(stats));
    if rate.DivisionByZero? {
      return Failed;
    }
    r := Cache([Cell(prev, curr, Scaled(rate.rate, stats))]);
  }

  ghost function CellsOf(source: Source, lo: int, hi: int): seq<Cell> {
    if Decodes(source, lo, hi) then [Cell(lo, hi, EntryValue(source, lo, hi))] else []
  }

  /** `attain_instance_throughput`: it fails exactly when the search raises for some range that
      decodes; otherwise there is an entry for exactly the ranges in which something is decoded,
      holding the scaled searched rate, in loop order, as the partition planner relies on. */
  method AttainInstanceThroughput(analyzer: Analyzer, x: Instance, agent: string, reuse: bool,
                                  step: nat, maxIdx: nat)
    returns (r: Estimate)
    requires analyzer.Valid()
    modifies analyzer`rangeCache
    ensures analyzer.Valid()
    ensures var source := SourceOf(analyzer.nodeList, x, agent, reuse, step);
            && (r.Failed? <==> exists lo, hi :: 0 <= lo < hi <= maxIdx && Breaks(source, lo, hi))
            && (r.Cache? ==> Filled(source, maxIdx, r.cells, maxIdx, maxIdx + 1))
  {
    var cells: seq<Cell> := [];
    ghost var source := SourceOf(analyzer.nodeList, x, agent, reuse, step);
    for prev := 0 to maxIdx
      invariant analyzer.Valid()
      invariant Filled(source, maxIdx, cells, prev, prev + 1)
    {
      for curr := prev + 1 to maxIdx + 1
        invariant analyzer.Valid()
        invariant Filled(source, maxIdx, cells, prev, curr)
      {
        var e := EstimateCell(analyzer, x, agent, reuse, step, prev, curr);
        if e.Failed? {
          return Failed;
        }
        FillOneMore(source, maxIdx, cells, prev, curr);
        cells := cells + e.cells;
      }
    }
    r := Cache(cells);
  }

  /** The entries are keyed and valued as the partition planner assumes. */
  lemma FilledIsPlannable(nodeList: seq<Trace>, x: Instance, agent: string, reuse: bool, step: nat, maxIdx: nat,
                          cells: seq<Cell>)
    requires Filled(SourceOf(nodeList, x, agent, reuse, step), maxIdx, cells, maxIdx, maxIdx + 1)
    ensures WellFormed(cells, maxIdx)
    ensures forall i, j :: 0 <= i < j < |cells| ==> (cells[i].lo, cells[i].hi) != (cells[j].lo, cells[j].hi)
    ensures forall i :: 0 <= i < |cells| ==> cells[i].tp >= 0.0
  {
    var source := SourceOf(nodeList, x, agent, reuse, step);
    forall i | 0 <= i < |cells|
      ensures cells[i].tp >= 0.0
    {
      assert IsEntry(source, cells[i]);
      AveragesBelowMaximum(nodeList, cells[i].lo * step, cells[i].hi * step, agent, reuse);
      EntryNonNegative(source, cells[i].lo, cells[i].hi);
    }
  }

  /** An entry from the statistics' own fields: times the share of invocations in range it is the searched
      rate times the share of finished runs. */
  lemma EntryIsScaledRate(source: Source, lo: int, hi: int, w: Workload)
    requires var s := source.stats(lo, hi);
             w.decode == s.avgDecode && w.prompt == s.avgPrefill && w.cached == s.avgCached && w.longest == s.maxLength
    ensures var s := source.stats(lo, hi);
            EntryValue(source, lo, hi) * (if s.queryProportion >= 0.000000001 then s.queryProportion else 0.000000001)
            == SearchedRate(source.x, w) * s.outProportion
  {
    var s := source.stats(lo, hi);
    ScaledBack(SearchedRate(source.x, w), s.outProportion, Max(s.queryProportion, EPS));
  }

  lemma ScaledBack(rate: real, out: real, query: real)
    requires query > 0.0
    ensures rate * out / query * query == rate * out
  {
    QuotientTimes(rate * out, query);
  }

  lemma EntryNonNegative(source: Source, lo: int, hi: int)
    requires source.stats(lo, hi).outProportion >= 0.0
    ensures EntryValue(source, lo, hi) >= 0.0
  {
    var stats := source.stats(lo, hi);
    BisectBrackets(source.x, WorkloadOf(stats), 20);
    ScaledNonNegative(SearchedRate(source.x, WorkloadOf(stats)), stats);
  }

  lemma ScaledNonNegative(rate: real, stats: Stats)
    requires rate >= 0.0 && stats.outProportion >= 0.0
    ensures Scaled(rate, stats) >= 0.0
  {
    var num, den := rate * stats.outProportion, Max(stats.queryProportion, EPS);
    assert num >= 0.0 && den > 0.0;
    QuotientNonNegative(num, den);
  }

  /** Pairs before (prev, curr) in loop order have been handled. */
  predicate Before(lo: int, hi: int, prev: int, curr: int) {
    lo < prev || (lo == prev && hi < curr)
  }

  /** Something is decoded in the range of this pair. */
  ghost predicate Decodes(source: Source, lo: int, hi: int) {
    source.stats(lo, hi).avgDecode != 0
  }

  ghost predicate IsEntry(source: Source, cell: Cell) {
    cell.tp == EntryValue(source, cell.lo, cell.hi)
  }

  /** No handled pair raised, the entries come in loop order with their values, and there is one
      for exactly the handled pairs that decode. */
  ghost predicate Filled(source: Source, maxIdx: nat, cells: seq<Cell>, prev: int, curr: int) {
    && WellFormed(cells, maxIdx)
    && (forall i :: 0 <= i < |cells| ==> IsEntry(source, cells[i]) && Before(cells[i].lo, cells[i].hi, prev, curr))
    && (forall i, j :: 0 <= i < j < |cells| ==> Before(cells[i].lo, cells[i].hi, cells[j].lo, cells[j].hi))
    && (forall lo, hi :: 0 <= lo < hi <= maxIdx && Before(lo, hi, prev, curr) ==>
          !Breaks(source, lo, hi) && (HasKey(cells, lo, hi) <==> Decodes(source, lo, hi)))
  }

  ghost predicate HasKey(cells: seq<Cell>, lo: int, hi: int) {
    exists i :: 0 <= i < |cells| && cells[i].lo == lo && cells[i].hi == hi
  }

  lemma FillOneMore(source: Source, maxIdx: nat, cells: seq<Cell>, prev: nat, curr: nat)
    requires Filled(source, maxIdx, cells, prev, curr) && prev < curr <= maxIdx && !Breaks(source, prev, curr)
    ensures Filled(source, maxIdx, cells + CellsOf(source, prev, curr), prev, curr + 1)
  {
    var more := CellsOf(source, prev, curr);
    forall lo, hi | 0 <= lo < hi <= maxIdx && Before(lo, hi, prev, curr + 1)
      ensures !Breaks(source, lo, hi) && (HasKey(cells + more, lo, hi) <==> Decodes(source, lo, hi))
    {
      KeysOfBoth(cells, more, lo, hi);
      if (lo, hi) == (prev, curr) {
        NewKey(cells, more, prev, curr);
      } else {
        assert Before(lo, hi, prev, curr);
      }
    }
  }

  lemma NewKey(cells: seq<Cell>, more: seq<Cell>, prev: int, curr: int)
    requires forall i :: 0 <= i < |cells| ==> Before(cells[i].lo, cells[i].hi, prev, curr)
    requires |more| == 1 ==> more[0].lo == prev && more[0].hi == curr
    ensures !HasKey(cells, prev, curr) && (|more| == 1 ==> HasKey(more, prev, curr))
  {}

  lemma KeysOfBoth(a: seq<Cell>, b: seq<Cell>, lo: int, hi: int)
    ensures HasKey(a + b, lo, hi) <==> HasKey(a, lo, hi) || HasKey(b, lo, hi)
  {
    if HasKey(a, lo, hi) {
      var i :| 0 <= i < |a| && a[i].lo == lo && a[i].hi == hi;
      assert (a + b)[i] == a[i];
    }
    if HasKey(b, lo, hi) {
      var i :| 0 <= i < |b| && b[i].lo == lo && b[i].hi == hi;
      assert (a + b)[|a| + i] == b[i];
    }
  }
}
