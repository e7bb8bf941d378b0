/** The limiter against every other way of choosing which calls to let through. */
module RateLimiterOptimal {
  import opened RateLimiting

  /** Which calls of a run are let through, one flag per call. */
  type Selection = seq<bool>

  /** The limiter's own selection. */
  function Greedy(config: Config, checks: seq<Check>): (selection: Selection)
    ensures |selection| == |checks|
  {
    seq(|checks|, i requires 0 <= i < |checks| => Allowed(config, checks, i))
  }

  /** Selected calls of the key among the first n, with a time in (lo, hi]. */
  function InWindow(selection: Selection, checks: seq<Check>, key: string, lo: real, hi: real, n: nat): nat
    requires n <= |checks| == |selection|
  {
    if n == 0 then 0
    else
      InWindow(selection, checks, key, lo, hi, n - 1)
      + if selection[n - 1] && checks[n - 1].key == key && lo < checks[n - 1].time <= hi then 1 else 0
  }

  /** Selected calls of the key among the first n. */
  function Total(selection: Selection, checks: seq<Check>, key: string, n: nat): nat
    requires n <= |checks| == |selection|
  {
    if n == 0 then 0
    else Total(selection, checks, key, n - 1) + if selection[n - 1] && checks[n - 1].key == key then 1 else 0
  }

  function WindowCount(config: Config, selection: Selection, checks: seq<Check>, key: string, x: real): nat
    requires |checks| == |selection|
  {
    InWindow(selection, checks, key, x, x + config.window, |checks|)
  }

  /** No window (x, x + W] holds more than maxRequests selected calls of the key. */
  ghost predicate Respects(config: Config, selection: Selection, checks: seq<Check>, key: string)
    requires |checks| == |selection|
  {
    forall x: real :: WindowCount(config, selection, checks, key, x) <= config.maxRequests
  }

  /** The history newer than a cutoff is counted by the window from the cutoff to now. */
  lemma {:induction false} HistoryCount(config: Config, checks: seq<Check>, key: string, selection: Selection, cutoff: real, hi: real, n: nat)
    requires n <= |checks| == |selection| && forall i :: 0 <= i < n ==> checks[i].time <= hi
    requires forall i :: 0 <= i < n ==> selection[i] == Allowed(config, checks, i)
    ensures |Newer(History(config, checks, key, n), cutoff)| == InWindow(selection, checks, key, cutoff, hi, n)
  {
    if n > 0 {
      HistoryCount(config, checks, key, selection, cutoff, hi, n - 1);
      var c := checks[n - 1];
      var before, admitted := History(config, checks, key, n - 1), c.key == key && selection[n - 1];
      assert History(config, checks, key, n) == Extended(before, admitted, c.time);
      ExtendedCount(before, admitted, c.time, cutoff);
    }
  }

  lemma ExtendedCount(stamps: seq<real>, admitted: bool, time: real, cutoff: real)
    ensures |Newer(Extended(stamps, admitted, time), cutoff)| ==
            |Newer(stamps, cutoff)| + if admitted && cutoff < time then 1 else 0
  {
    NewerAppend(stamps, time, cutoff);
  }

  /** The i-th call is selected exactly when the selection itself leaves it room in its window. */
  predicate SelectsByRoom(config: Config, checks: seq<Check>, key: string, selection: Selection, i: nat)
    requires i < |checks| == |selection| && checks[i].key == key
  {
    selection[i] <==> InWindow(selection, checks, key, checks[i].time - config.window, checks[i].time, i) < config.maxRequests
  }

  /** A selection that never turns a call of the key away while there is room for it. */
  ghost predicate IsGreedy(config: Config, checks: seq<Check>, key: string, selection: Selection) {
    && |selection| == |checks|
    && forall i: nat :: i < |checks| && checks[i].key == key ==> SelectsByRoom(config, checks, key, selection, i)
  }

  /** The limiter is greedy, although it looks at a pruned table and not at all its answers. */
  lemma LimiterIsGreedy(config: Config, checks: seq<Check>, key: string)
    requires Monotonic(checks)
    ensures IsGreedy(config, checks, key, Greedy(config, checks))
  {
    var greedy := Greedy(config, checks);
    forall i: nat | i < |checks| && checks[i].key == key
      ensures SelectsByRoom(config, checks, key, greedy, i)
    {
      NoneLater(checks, i);
      DecisionIgnoresPruning(config, checks, i);
      HistoryCount(config, checks, key, greedy, checks[i].time - config.window, checks[i].time, i);
    }
  }

  lemma {:induction false} WindowNarrows(selection: Selection, checks: seq<Check>, key: string, lo: real, lo': real, hi: real, hi': real, n: nat)
    requires n <= |checks| == |selection| && lo <= lo'
    requires forall i :: 0 <= i < n && checks[i].time <= hi' ==> checks[i].time <= hi
    ensures InWindow(selection, checks, key, lo', hi', n) <= InWindow(selection, checks, key, lo, hi, n)
  {
    if n > 0 {
      WindowNarrows(selection, checks, key, lo, lo', hi, hi', n - 1);
    }
  }

  /** A greedy selection keeps the limit in every window, not only in those that end at a call. */
  lemma {:induction false} WindowBound(config: Config, checks: seq<Check>, key: string, selection: Selection, x: real, n: nat)
    requires Monotonic(checks) && IsGreedy(config, checks, key, selection) && n <= |checks|
    ensures InWindow(selection, checks, key, x, x + config.window, n) <=
            if config.maxRequests < 0 then 0 else config.maxRequests
  {
    if n > 0 {
      WindowBound(config, checks, key, selection, x, n - 1);
      var c := checks[n - 1];
      if c.key == key && selection[n - 1] && x < c.time <= x + config.window {
        assert SelectsByRoom(config, checks, key, selection, n - 1);
        NoneLater(checks, n - 1);
        WindowNarrows(selection, checks, key, c.time - config.window, x, c.time, x + config.window, n - 1);
      }
    }
  }

  lemma GreedyRespects(config: Config, checks: seq<Check>, key: string, selection: Selection)
    requires Monotonic(checks) && IsGreedy(config, checks, key, selection) && config.maxRequests >= 0
    ensures Respects(config, selection, checks, key)
  {
    forall x: real
      ensures WindowCount(config, selection, checks, key, x) <= config.maxRequests
    {
      WindowBound(config, checks, key, selection, x, |checks|);
    }
  }

  /** The calls let through are always a selection that respects the limit. */
  lemma LimiterRespectsLimit(config: Config, checks: seq<Check>, key: string)
    requires Monotonic(checks) && config.maxRequests >= 0
    ensures Respects(config, Greedy(config, checks), checks, key)
  {
    LimiterIsGreedy(config, checks, key);
    GreedyRespects(config, checks, key, Greedy(config, checks));
  }

  /** How many of the first n calls are not newer than the cutoff: a prefix, as the clock is monotonic. */
  function Expired(checks: seq<Check>, cutoff: real, n: nat): (k: nat)
    requires n <= |checks|
    ensures k <= n
  {
    if n == 0 || checks[n - 1].time <= cutoff then n else Expired(checks, cutoff, n - 1)
  }

  lemma {:induction false} TotalSplits(selection: Selection, checks: seq<Check>, key: string, cutoff: real, hi: real, n: nat)
    requires Monotonic(checks) && n <= |checks| == |selection|
    requires forall i :: 0 <= i < n ==> checks[i].time <= hi
    ensures Total(selection, checks, key, n) ==
            Total(selection, checks, key, Expired(checks, cutoff, n)) + InWindow(selection, checks, key, cutoff, hi, n)
  {
    if n > 0 {
      NoneLater(checks, n - 1);
      if checks[n - 1].time <= cutoff {
        NothingInWindow(selection, checks, key, cutoff, hi, n);
      } else {
        TotalSplits(selection, checks, key, cutoff, hi, n - 1);
      }
    }
  }

  lemma {:induction false} NothingInWindow(selection: Selection, checks: seq<Check>, key: string, lo: real, hi: real, n: nat)
    requires n <= |checks| == |selection| && forall i :: 0 <= i < n ==> checks[i].time <= lo
    ensures InWindow(selection, checks, key, lo, hi, n) == 0
  {
    if n > 0 {
      NothingInWindow(selection, checks, key, lo, hi, n - 1);
    }
  }

  lemma {:induction false} WindowGrows(selection: Selection, checks: seq<Check>, key: string, lo: real, hi: real, m: nat, n: nat)
    requires m <= n <= |checks| == |selection|
    ensures InWindow(selection, checks, key, lo, hi, m) <= InWindow(selection, checks, key, lo, hi, n)
  {
    if m < n {
      WindowGrows(selection, checks, key, lo, hi, m, n - 1);
    }
  }

  /** A call that a greedy selection turns away while another respecting one lets it through finds
      the greedy one strictly ahead, if it was not behind when the window began. */
  lemma RejectionMeansAhead(config: Config, checks: seq<Check>, key: string, greedy: Selection, other: Selection, i: nat)
    requires Monotonic(checks) && IsGreedy(config, checks, key, greedy)
    requires config.window > 0.0
    requires i < |checks| == |other| && Respects(config, other, checks, key)
    requires checks[i].key == key && other[i] && !greedy[i]
    requires
      var k := Expired(checks, checks[i].time - config.window, i);
      Total(greedy, checks, key, k) >= Total(other, checks, key, k)
    ensures Total(greedy, checks, key, i) >= Total(other, checks, key, i) + 1
  {
    var now := checks[i].time;
    var cutoff := now - config.window;
    NoneLater(checks, i);
    assert SelectsByRoom(config, checks, key, greedy, i);
    RespectedBefore(config, checks, key, other, cutoff, i);
    TotalSplits(greedy, checks, key, cutoff, now, i);
    TotalSplits(other, checks, key, cutoff, now, i);
  }

  /** A respecting selection has room left before each call that it selects. */
  lemma RespectedBefore(config: Config, checks: seq<Check>, key: string, other: Selection, cutoff: real, i: nat)
    requires i < |checks| == |other| && Respects(config, other, checks, key)
    requires checks[i].key == key && other[i] && cutoff < checks[i].time == cutoff + config.window
    ensures InWindow(other, checks, key, cutoff, checks[i].time, i) + 1 <= config.maxRequests
  {
    assert WindowCount(config, other, checks, key, cutoff) <= config.maxRequests;
    WindowGrows(other, checks, key, cutoff, checks[i].time, i + 1, |checks|);
  }

  /** A greedy selection is never behind one that respects the limit. */
  lemma {:induction false} GreedyIsOptimal(config: Config, checks: seq<Check>, key: string, greedy: Selection, other: Selection, n: nat)
    requires Monotonic(checks) && IsGreedy(config, checks, key, greedy)
    requires config.window > 0.0
    requires n <= |checks| == |other| && Respects(config, other, checks, key)
    ensures Total(greedy, checks, key, n) >= Total(other, checks, key, n)
  {
    if n > 0 {
      GreedyIsOptimal(config, checks, key, greedy, other, n - 1);
      if checks[n - 1].key == key && other[n - 1] && !greedy[n - 1] {
        GreedyIsOptimal(config, checks, key, greedy, other, Expired(checks, checks[n - 1].time - config.window, n - 1));
        RejectionMeansAhead(config, checks, key, greedy, other, n - 1);
      }
      StaysAhead(greedy, other, checks, key, n);
    }
  }

  /** At every point of the run the limiter has let through at least as many calls of the key as
      any selection that respects the same limit: turning a call away is never premature. */
  lemma LimiterIsOptimal(config: Config, checks: seq<Check>, key: string, other: Selection, n: nat)
    requires Monotonic(checks) && config.window > 0.0
    requires n <= |checks| == |other| && Respects(config, other, checks, key)
    ensures Total(Greedy(config, checks), checks, key, n) >= Total(other, checks, key, n)
  {
    LimiterIsGreedy(config, checks, key);
    GreedyIsOptimal(config, checks, key, Greedy(config, checks), other, n);
  }

  /** One more call keeps the order of two totals, unless only the smaller one grows. */
  lemma StaysAhead(a: Selection, b: Selection, checks: seq<Check>, key: string, n: nat)
    requires 0 < n <= |checks| == |a| == |b|
    requires Total(a, checks, key, n - 1) >= Total(b, checks, key, n - 1)
    requires checks[n - 1].key == key && b[n - 1] && !a[n - 1] ==>
               Total(a, checks, key, n - 1) > Total(b, checks, key, n - 1)
    ensures Total(a, checks, key, n) >= Total(b, checks, key, n)
  {
  }

  /** For each call that another respecting selection lets through as its j-th for the key, the
      limiter lets through its own j-th for the key at that call or before it. */
  lemma LimiterIsNeverLater(config: Config, checks: seq<Check>, key: string, other: Selection, i: nat) returns (i': nat)
    requires Monotonic(checks) && config.window > 0.0
    requires i < |checks| == |other| && Respects(config, other, checks, key)
    requires other[i] && checks[i].key == key
    ensures i' <= i && Greedy(config, checks)[i'] && checks[i'].key == key && checks[i'].time <= checks[i].time
    ensures Total(Greedy(config, checks), checks, key, i' + 1) == Total(other, checks, key, i + 1)
  {
    LimiterIsOptimal(config, checks, key, other, i + 1);
    i' := NthSelected(Greedy(config, checks), checks, key, Total(other, checks, key, i + 1), i + 1);
    assert InOrder(checks, i', i);
  }

  lemma {:induction false} NthSelected(selection: Selection, checks: seq<Check>, key: string, j: nat, n: nat) returns (i: nat)
    requires n <= |checks| == |selection| && 1 <= j <= Total(selection, checks, key, n)
    ensures i < n && selection[i] && checks[i].key == key && Total(selection, checks, key, i + 1) == j
  {
    if Total(selection, checks, key, n - 1) >= j {
      i := NthSelected(selection, checks, key, j, n - 1);
    } else {
      i := n - 1;
    }
  }
}
