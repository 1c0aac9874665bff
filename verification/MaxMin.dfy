/**
  The exchange argument shared by the two greedy allocators.

  A recipient `i` holding `c` units has value `f(i, c)`.  Both allocators hand
  out units one at a time, each to a recipient of least value.  When every
  curve is nondecreasing, the counts they end with maximise the least value
  among all ways of handing out the same number of units.
 */
module MaxMin {
  import opened Collections

  type Curves = (int, int) -> real

  /** More units are no worse for recipient `i`. */
  ghost predicate Ordered(f: Curves, i: int, a: int, b: int) {
    f(i, a) <= f(i, b)
  }

  ghost predicate Nondecreasing(f: Curves, recipients: nat) {
    forall i, a, b :: 0 <= i < recipients && 1 <= a <= b ==> Ordered(f, i, a, b)
  }

  ghost predicate Positive(counts: seq<int>) {
    forall i :: 0 <= i < |counts| ==> counts[i] >= 1
  }

  /** Holding `c` units, recipient `i` is no better off than `j` is under `counts`. */
  ghost predicate NoBetter(f: Curves, counts: seq<int>, i: int, c: int, j: int)
    requires 0 <= j < |counts|
  {
    f(i, c) <= f(j, counts[j])
  }

  /** `m` has the least value under `counts`. */
  ghost predicate IsBottleneck(f: Curves, counts: seq<int>, m: int) {
    && 0 <= m < |counts|
    && forall j :: 0 <= j < |counts| ==> NoBetter(f, counts, m, counts[m], j)
  }

  /** With one unit taken away, `i` would be no better off than `j`. */
  ghost predicate Tight(f: Curves, counts: seq<int>, i: int, j: int)
    requires 0 <= i < |counts| && 0 <= j < |counts|
  {
    f(i, counts[i] - 1) <= f(j, counts[j])
  }

  /** Nobody could give a unit back and still be above anybody else. */
  ghost predicate Balanced(f: Curves, counts: seq<int>) {
    && Positive(counts)
    && forall i, j :: 0 <= i < |counts| && 0 <= j < |counts| && counts[i] > 1 ==> Tight(f, counts, i, j)
  }

  lemma {:induction false} SumUpdate(xs: seq<int>, i: nat, v: int)
    requires i < |xs|
    ensures Sum(xs[i := v]) == Sum(xs) - xs[i] + v
  {
    if i == 0 {
      assert xs[i := v][1..] == xs[1..];
    } else {
      assert xs[i := v][1..] == xs[1..][i - 1 := v];
      SumUpdate(xs[1..], i - 1, v);
    }
  }

  lemma {:induction false} SumOfOnes(n: nat)
    ensures Sum(seq(n, _ => 1)) == n
  {
    if n > 0 {
      assert seq(n, _ => 1)[1..] == seq(n - 1, _ => 1);
      SumOfOnes(n - 1);
    }
  }

  /** Two different vectors of equal length and sum cross somewhere. */
  lemma {:induction false} EqualSumsCross(a: seq<int>, b: seq<int>)
    requires |a| == |b| && Sum(a) <= Sum(b) && a != b
    ensures exists i :: 0 <= i < |a| && a[i] < b[i]
  {
    if a[0] < b[0] {
    } else {
      assert a == [a[0]] + a[1..] && b == [b[0]] + b[1..];
      EqualSumsCross(a[1..], b[1..]);
      var i :| 0 <= i < |a[1..]| && a[1..][i] < b[1..][i];
      assert a[i + 1] < b[i + 1];
    }
  }

  /** Giving one unit to a bottleneck keeps the balance and cannot lower any value. */
  lemma GrowKeepsBalance(f: Curves, counts: seq<int>, m: int)
    requires Nondecreasing(f, |counts|) && Balanced(f, counts) && IsBottleneck(f, counts, m)
    ensures Balanced(f, counts[m := counts[m] + 1])
    ensures Sum(counts[m := counts[m] + 1]) == Sum(counts) + 1
  {
    SumUpdate(counts, m, counts[m] + 1);
    var grown := counts[m := counts[m] + 1];
    forall i, j | 0 <= i < |grown| && 0 <= j < |grown| && grown[i] > 1
      ensures Tight(f, grown, i, j)
    {
      assert Ordered(f, j, counts[j], grown[j]);
      if i == m {
        assert NoBetter(f, counts, m, counts[m], j);
      } else {
        assert Tight(f, counts, i, j);
      }
    }
  }

  /** Balanced counts are max-min optimal: any rival split of the same total has
      a member that is no better off than everybody in the balanced one. */
  lemma BalancedIsMaxMin(f: Curves, counts: seq<int>, rival: seq<int>) returns (i: int)
    requires |counts| == |rival| > 0
    requires Nondecreasing(f, |counts|) && Balanced(f, counts)
    requires Positive(rival) && Sum(rival) == Sum(counts)
    ensures 0 <= i < |rival| && forall j :: 0 <= j < |counts| ==> NoBetter(f, counts, i, rival[i], j)
  {
    if rival == counts {
      i := ArgMin(Values(f, counts));
      ArgMinIsBottleneck(f, counts);
    } else {
      EqualSumsCross(rival, counts);
      i :| 0 <= i < |rival| && rival[i] < counts[i];
      forall j | 0 <= j < |counts|
        ensures NoBetter(f, counts, i, rival[i], j)
      {
        assert Ordered(f, i, rival[i], counts[i] - 1);
        assert Tight(f, counts, i, j);
      }
    }
  }

  // ---------------------------------------------------------------- the greedy itself

  /** Index of the least value, the first one on a tie. */
  function ArgMin(values: seq<real>): (m: nat)
    requires values != []
    ensures m < |values|
  {
    if |values| == 1 then 0
    else
      var m := ArgMin(values[..|values| - 1]);
      if values[|values| - 1] < values[m] then |values| - 1 else m
  }

  lemma {:induction false} ArgMinIsLeast(values: seq<real>, j: nat)
    requires j < |values|
    ensures values[ArgMin(values)] <= values[j]
    ensures j < ArgMin(values) ==> values[ArgMin(values)] < values[j]
  {
    if |values| > 1 {
      var front := values[..|values| - 1];
      ArgMinIsLeast(front, if j < |front| then j else ArgMin(front));
    }
  }

  function Least(values: seq<real>): real
    requires values != []
  {
    values[ArgMin(values)]
  }

  function Values(f: Curves, counts: seq<int>): (values: seq<real>)
    ensures |values| == |counts|
    ensures forall i :: 0 <= i < |counts| ==> values[i] == f(i, counts[i])
  {
    seq(|counts|, i requires 0 <= i < |counts| => f(i, counts[i]))
  }

  /** Counts after `n` units have been handed to `k` recipients, one each to begin with. */
  function GreedyCounts(f: Curves, k: nat, n: nat): (counts: seq<int>)
    requires 0 < k <= n
    ensures |counts| == k
    decreases n
  {
    if n == k then seq(k, _ => 1)
    else
      var counts := GreedyCounts(f, k, n - 1);
      var m := ArgMin(Values(f, counts));
      counts[m := counts[m] + 1]
  }

  /** The least value the greedy ends with. */
  function GreedyValue(f: Curves, k: nat, n: nat): real
    requires 0 < k <= n
  {
    Least(Values(f, GreedyCounts(f, k, n)))
  }

  lemma ArgMinIsBottleneck(f: Curves, counts: seq<int>)
    requires counts != []
    ensures IsBottleneck(f, counts, ArgMin(Values(f, counts)))
  {
    var values := Values(f, counts);
    var m := ArgMin(values);
    forall j | 0 <= j < |counts|
      ensures NoBetter(f, counts, m, counts[m], j)
    {
      ArgMinIsLeast(values, j);
    }
  }

  lemma {:induction false} GreedyIsBalanced(f: Curves, k: nat, n: nat)
    requires 0 < k <= n && Nondecreasing(f, k)
    ensures Balanced(f, GreedyCounts(f, k, n))
    decreases n
  {
    if n > k {
      GreedyIsBalanced(f, k, n - 1);
      var counts := GreedyCounts(f, k, n - 1);
      ArgMinIsBottleneck(f, counts);
      GrowKeepsBalance(f, counts, ArgMin(Values(f, counts)));
    }
  }

  /** All units are handed out. */
  lemma {:induction false} GreedyHandsOutAll(f: Curves, k: nat, n: nat)
    requires 0 < k <= n
    ensures Sum(GreedyCounts(f, k, n)) == n
    decreases n
  {
    if n == k {
      SumOfOnes(k);
    } else {
      var counts := GreedyCounts(f, k, n - 1);
      GreedyHandsOutAll(f, k, n - 1);
      SumUpdate(counts, ArgMin(Values(f, counts)), counts[ArgMin(Values(f, counts))] + 1);
    }
  }

  lemma {:induction false} BalancedBeatsRival(f: Curves, counts: seq<int>, rival: seq<int>)
    requires |counts| == |rival| > 0 && Nondecreasing(f, |counts|) && Balanced(f, counts)
    requires Positive(rival) && Sum(rival) == Sum(counts)
    ensures Least(Values(f, rival)) <= Least(Values(f, counts))
  {
    var i := BalancedIsMaxMin(f, counts, rival);
    assert NoBetter(f, counts, i, rival[i], ArgMin(Values(f, counts)));
    ArgMinIsLeast(Values(f, rival), i);
  }

  /** The greedy's least value is at least that of every other split of the same total. */
  lemma {:induction false} GreedyIsMaxMin(f: Curves, k: nat, n: nat, rival: seq<int>)
    requires 0 < k <= n && Nondecreasing(f, k)
    requires |rival| == k && Positive(rival) && Sum(rival) == n
    ensures Least(Values(f, rival)) <= GreedyValue(f, k, n)
  {
    GreedyIsBalanced(f, k, n);
    GreedyHandsOutAll(f, k, n);
    BalancedBeatsRival(f, GreedyCounts(f, k, n), rival);
  }

  /** Raising one count cannot lower the least value. */
  lemma RaiseKeepsLeast(f: Curves, counts: seq<int>, m: nat)
    requires Positive(counts) && m < |counts| && Nondecreasing(f, |counts|)
    ensures Least(Values(f, counts)) <= Least(Values(f, counts[m := counts[m] + 1]))
  {
    var raised := counts[m := counts[m] + 1];
    var w := ArgMin(Values(f, raised));
    assert Ordered(f, w, counts[w], raised[w]);
    ArgMinIsLeast(Values(f, counts), w);
  }

  /** One more unit changes exactly one count, by one, and never lowers the least value. */
  lemma GreedyGrowsByOne(f: Curves, k: nat, n: nat) returns (m: nat)
    requires 0 < k <= n && Nondecreasing(f, k)
    ensures m < k && GreedyCounts(f, k, n + 1) == GreedyCounts(f, k, n)[m := GreedyCounts(f, k, n)[m] + 1]
    ensures GreedyValue(f, k, n) <= GreedyValue(f, k, n + 1)
  {
    var counts := GreedyCounts(f, k, n);
    m := ArgMin(Values(f, counts));
    GreedyUnfolds(f, k, n);
    assert Positive(counts) by {
      GreedyIsBalanced(f, k, n);
    }
    RaiseKeepsLeast(f, counts, m);
  }

  lemma GreedyUnfolds(f: Curves, k: nat, n: nat)
    requires 0 < k <= n
    ensures var counts := GreedyCounts(f, k, n);
            var m := ArgMin(Values(f, counts));
            GreedyCounts(f, k, n + 1) == counts[m := counts[m] + 1]
  {}

  lemma {:induction false} GreedyMonotone(f: Curves, k: nat, n: nat, n': nat)
    requires 0 < k <= n <= n' && Nondecreasing(f, k)
    ensures GreedyValue(f, k, n) <= GreedyValue(f, k, n')
    decreases n'
  {
    if n < n' {
      GreedyMonotone(f, k, n, n' - 1);
      OneMoreIsNoWorse(f, k, n' - 1);
    }
  }

  lemma OneMoreIsNoWorse(f: Curves, k: nat, n: nat)
    requires 0 < k <= n && Nondecreasing(f, k)
    ensures GreedyValue(f, k, n) <= GreedyValue(f, k, n + 1)
  {
    var m := GreedyGrowsByOne(f, k, n);
  }
}
