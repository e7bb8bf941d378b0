/** The sliding-window rate limiter and its behaviour over whole runs. */
module RateLimiting {

  datatype Config = Config(maxRequests: int, window: real)

  /** One call of is_allowed: the key and the time the clock showed. */
  datatype Check = Check(key: string, time: real)

  type Table = map<string, seq<real>>

  /** self._requests[key] of a defaultdict(list). */
  function Stamps(table: Table, key: string): seq<real> {
    if key in table then table[key] else []
  }

  /** [t for t in stamps if t > cutoff] */
  function Newer(stamps: seq<real>, cutoff: real): seq<real> {
    if stamps == [] then []
    else
      var rest := Newer(stamps[..|stamps| - 1], cutoff);
      if stamps[|stamps| - 1] > cutoff then rest + [stamps[|stamps| - 1]] else rest
  }

  /** Whether the key has room left in the window that ends now. */
  predicate HasRoom(config: Config, table: Table, check: Check) {
    |Newer(Stamps(table, check.key), check.time - config.window)| < config.maxRequests
  }

  /** The table after one call: the key's list pruned, and extended when the call is let through. */
  function Recorded(config: Config, table: Table, check: Check): Table {
    var kept := Newer(Stamps(table, check.key), check.time - config.window);
    table[check.key := if HasRoom(config, table, check) then kept + [check.time] else kept]
  }

  class RateLimiter {
    const config: Config
    var requests: Table

    constructor (maxRequests: int, window: real)
      ensures config == Config(maxRequests, window) && requests == map[]
    {
      config := Config(maxRequests, window);
      requests := map[];
    }

    method IsAllowed(key: string, now: real) returns (allowed: bool)
      modifies this
      ensures allowed == HasRoom(config, old(requests), Check(key, now))
      ensures requests == Recorded(config, old(requests), Check(key, now))
      ensures forall other :: other != key ==> Stamps(requests, other) == old(Stamps(requests, other))
    {
      var cutoff := now - config.window;
      var timestamps := Stamps(requests, key);
      requests := requests[key := Newer(timestamps, cutoff)];
      if |requests[key]| >= config.maxRequests {
        return false;
      }
      requests := requests[key := requests[key] + [now]];
      return true;
    }
  }

  // --- Whole runs ---

  predicate InOrder(checks: seq<Check>, i: nat, j: nat) {
    i <= j < |checks| ==> checks[i].time <= checks[j].time
  }

  /** The clock is monotonic. */
  ghost predicate Monotonic(checks: seq<Check>) {
    forall i: nat, j: nat :: InOrder(checks, i, j)
  }

  lemma NoneLater(checks: seq<Check>, n: nat)
    requires Monotonic(checks) && n < |checks|
    ensures forall i :: 0 <= i <= n ==> checks[i].time <= checks[n].time
  {
    forall i | 0 <= i <= n
      ensures checks[i].time <= checks[n].time
    {
      assert InOrder(checks, i, n);
    }
  }

  /** The limiter's table after the first n calls of a run that starts with an empty one. */
  function TableAfter(config: Config, checks: seq<Check>, n: nat): Table
    requires n <= |checks|
  {
    if n == 0 then map[] else Recorded(config, TableAfter(config, checks, n - 1), checks[n - 1])
  }

  /** The limiter's answer to the i-th call of the run. */
  predicate Allowed(config: Config, checks: seq<Check>, i: nat)
    requires i < |checks|
  {
    HasRoom(config, TableAfter(config, checks, i), checks[i])
  }

  /** The unpruned record: the times of all calls of the key let through among the first n. */
  function History(config: Config, checks: seq<Check>, key: string, n: nat): seq<real>
    requires n <= |checks|
  {
    if n == 0 then []
    else
      var before := History(config, checks, key, n - 1);
      if checks[n - 1].key == key && Allowed(config, checks, n - 1) then before + [checks[n - 1].time] else before
  }

  /** The last call for the key among the first n. */
  function LastCheck(checks: seq<Check>, key: string, n: nat): (last: int)
    requires n <= |checks|
    ensures -1 <= last < n
    ensures last >= 0 ==> checks[last].key == key
    ensures forall i :: last < i < n ==> checks[i].key != key
  {
    if n == 0 then -1
    else if checks[n - 1].key == key then n - 1
    else LastCheck(checks, key, n - 1)
  }

  lemma {:induction false} NewerTwice(stamps: seq<real>, a: real, b: real)
    requires a <= b
    ensures Newer(Newer(stamps, a), b) == Newer(stamps, b)
  {
    if stamps != [] {
      var front, last := stamps[..|stamps| - 1], stamps[|stamps| - 1];
      NewerTwice(front, a, b);
      if last > a {
        NewerAppend(Newer(front, a), last, b);
      }
    }
  }

  lemma NewerAppend(stamps: seq<real>, t: real, cutoff: real)
    ensures Newer(stamps + [t], cutoff) == if t > cutoff then Newer(stamps, cutoff) + [t] else Newer(stamps, cutoff)
  {
    assert (stamps + [t])[..|stamps|] == stamps;
  }

  /** A list, extended by the time of a call that is let through. */
  function Extended(stamps: seq<real>, allowed: bool, time: real): seq<real> {
    if allowed then stamps + [time] else stamps
  }

  /** What a call leaves in its key's list: the history before it, cut off at its window, and the
      call itself if it was let through. */
  function Remembered(config: Config, checks: seq<Check>, last: nat): seq<real>
    requires last < |checks|
  {
    var c := checks[last];
    Extended(Newer(History(config, checks, c.key, last), c.time - config.window), Allowed(config, checks, last), c.time)
  }

  ghost predicate SameWindow(config: Config, checks: seq<Check>, i: nat)
    requires i < |checks|
  {
    var c := checks[i];
    Newer(Stamps(TableAfter(config, checks, i), c.key), c.time - config.window) ==
    Newer(History(config, checks, c.key, i), c.time - config.window)
  }

  lemma CallRemembers(config: Config, checks: seq<Check>, i: nat)
    requires i < |checks| && SameWindow(config, checks, i)
    ensures Stamps(TableAfter(config, checks, i + 1), checks[i].key) == Remembered(config, checks, i)
  {
    var table := TableAfter(config, checks, i);
    assert TableAfter(config, checks, i + 1) == Recorded(config, table, checks[i]);
  }

  lemma OtherKeysUntouched(config: Config, table: Table, check: Check, key: string)
    requires check.key != key
    ensures Stamps(Recorded(config, table, check), key) == Stamps(table, key)
  {
  }

  /** Pruning loses nothing that is still needed: the stored list of a key is its whole history
      before its last call, cut off at that call's window, plus that call if it was let through. */
  lemma {:induction false} PruningIsExact(config: Config, checks: seq<Check>, key: string, n: nat)
    requires Monotonic(checks) && n <= |checks|
    ensures
      var last := LastCheck(checks, key, n);
      Stamps(TableAfter(config, checks, n), key) == if last < 0 then [] else Remembered(config, checks, last)
    decreases n, 0
  {
    if n > 0 {
      if checks[n - 1].key == key {
        PruningKeepsWindow(config, checks, n - 1);
        CallRemembers(config, checks, n - 1);
      } else {
        PruningIsExact(config, checks, key, n - 1);
        OtherKeysUntouched(config, TableAfter(config, checks, n - 1), checks[n - 1], key);
      }
    }
  }

  /** Calls between the key's last call and now add nothing to its history. */
  lemma {:induction false} HistorySince(config: Config, checks: seq<Check>, key: string, last: int, n: nat)
    requires 0 <= last < n <= |checks| && checks[last].key == key
    requires forall i :: last < i < n ==> checks[i].key != key
    ensures History(config, checks, key, n) ==
            Extended(History(config, checks, key, last), Allowed(config, checks, last), checks[last].time)
  {
    if last + 1 < n {
      HistorySince(config, checks, key, last, n - 1);
    }
  }

  lemma {:induction false} NoHistory(config: Config, checks: seq<Check>, key: string, n: nat)
    requires n <= |checks| && forall i :: 0 <= i < n ==> checks[i].key != key
    ensures History(config, checks, key, n) == []
  {
    if n > 0 {
      NoHistory(config, checks, key, n - 1);
    }
  }

  /** Pruned or not, the i-th call sees the same timestamps in its window. */
  lemma {:induction false} PruningKeepsWindow(config: Config, checks: seq<Check>, i: nat)
    requires Monotonic(checks) && i < |checks|
    ensures SameWindow(config, checks, i)
    decreases i, 1
  {
    var key, cutoff := checks[i].key, checks[i].time - config.window;
    var last := LastCheck(checks, key, i);
    PruningIsExact(config, checks, key, i);
    if last < 0 {
      NoHistory(config, checks, key, i);
    } else {
      HistorySince(config, checks, key, last, i);
      assert InOrder(checks, last, i);
      PrunedAgain(History(config, checks, key, last), checks[last].time - config.window, cutoff,
                  Allowed(config, checks, last), checks[last].time);
    }
  }

  /** A call is turned away exactly when the calls of its key already let through fill its window. */
  lemma DecisionIgnoresPruning(config: Config, checks: seq<Check>, i: nat)
    requires Monotonic(checks) && i < |checks|
    ensures
      var c := checks[i];
      Allowed(config, checks, i) <==>
      |Newer(History(config, checks, c.key, i), c.time - config.window)| < config.maxRequests
  {
    PruningKeepsWindow(config, checks, i);
    RoomInWindow(config, TableAfter(config, checks, i), checks[i], History(config, checks, checks[i].key, i));
  }

  lemma RoomInWindow(config: Config, table: Table, check: Check, history: seq<real>)
    requires
      var cutoff := check.time - config.window;
      Newer(Stamps(table, check.key), cutoff) == Newer(history, cutoff)
    ensures HasRoom(config, table, check) <==>
            |Newer(history, check.time - config.window)| < config.maxRequests
  {
  }

  /** Pruning at an earlier cutoff does not show after pruning at a later one. */
  lemma PrunedAgain(stamps: seq<real>, a: real, b: real, allowed: bool, time: real)
    requires a <= b
    ensures Newer(Extended(Newer(stamps, a), allowed, time), b) == Newer(Extended(stamps, allowed, time), b)
  {
    NewerTwice(stamps, a, b);
    if allowed {
      NewerAppend(stamps, time, b);
      NewerAppend(Newer(stamps, a), time, b);
    }
  }

  /** With a positive window the stored list is the key's history newer than its last cutoff. */
  lemma StoredIsRecentHistory(config: Config, checks: seq<Check>, key: string)
    requires Monotonic(checks) && config.window > 0.0
    ensures
      var last := LastCheck(checks, key, |checks|);
      Stamps(TableAfter(config, checks, |checks|), key) ==
      if last < 0 then [] else Newer(History(config, checks, key, |checks|), checks[last].time - config.window)
  {
    var last := LastCheck(checks, key, |checks|);
    PruningIsExact(config, checks, key, |checks|);
    if last >= 0 {
      HistorySince(config, checks, key, last, |checks|);
      RecentExtended(History(config, checks, key, last), Allowed(config, checks, last), checks[last].time,
                     checks[last].time - config.window);
    }
  }

  lemma RecentExtended(stamps: seq<real>, allowed: bool, time: real, cutoff: real)
    requires time > cutoff
    ensures Newer(Extended(stamps, allowed, time), cutoff) == Extended(Newer(stamps, cutoff), allowed, time)
  {
    NewerAppend(stamps, time, cutoff);
  }
}
