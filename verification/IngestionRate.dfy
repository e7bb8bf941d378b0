/** The gate in front of the ingestion: the whitelist and the rate limit bound what is stored. */
module IngestionRate {
  import opened RateLimiting
  import opened RateLimiterOptimal
  import opened Ingestion

  /** A handler that went past the gate. */
  predicate Passed(pc: Pc) {
    !pc.Arrived? && !pc.Forbidden? && !pc.RateLimited? && !(pc.Stopped? && !pc.afterCommit)
  }

  /** The limiter's answer to arrival i let handler k in. */
  ghost predicate Admits(limit: Config, checks: seq<Check>, arrivals: seq<nat>, i: nat, k: nat) {
    i < |checks| == |arrivals| && arrivals[i] == k && Allowed(limit, checks, i)
  }

  ghost predicate ListsOnce(arrivals: seq<nat>) {
    forall i, j :: 0 <= i < j < |arrivals| ==> arrivals[i] != arrivals[j]
  }

  ghost predicate ArrivalsOk(s: State) {
    && |s.arrivals| == |s.checks| && ListsOnce(s.arrivals)
    && forall i :: 0 <= i < |s.arrivals| ==>
         && s.arrivals[i] < |s.handlers|
         && !s.handlers[s.arrivals[i]].pc.Arrived?
         && s.checks[i].key == s.handlers[s.arrivals[i]].inbound.sender.user
  }

  ghost predicate ClockOk(s: State) {
    Monotonic(s.checks) && forall i :: 0 <= i < |s.checks| ==> s.checks[i].time <= s.clock
  }

  /** Every handler past the gate is on the whitelist and was let in by an answer of the limiter. */
  ghost predicate AdmissionsOk(s: State) {
    forall k: nat :: k < |s.handlers| && Passed(s.handlers[k].pc) ==> Admitted(s, k)
  }

  ghost predicate Admitted(s: State, k: nat)
    requires k < |s.handlers|
  {
    && (s.gate.allowedNumbers == {} || s.handlers[k].inbound.sender.user in s.gate.allowedNumbers)
    && exists i: nat :: Admits(s.gate.limit, s.checks, s.arrivals, i, k)
  }

  /** The state's limiter is the limiter of the run of all arrivals so far. */
  ghost predicate GateOk(s: State) {
    && ArrivalsOk(s) && ClockOk(s) && AdmissionsOk(s)
    && s.limiter == TableAfter(s.gate.limit, s.checks, |s.checks|)
  }

  lemma {:induction false} TableOfPrefix(limit: Config, checks: seq<Check>, c: Check, n: nat)
    requires n <= |checks|
    ensures TableAfter(limit, checks + [c], n) == TableAfter(limit, checks, n)
  {
    if n > 0 {
      TableOfPrefix(limit, checks, c, n - 1);
    }
  }

  lemma AdmitsMore(limit: Config, checks: seq<Check>, arrivals: seq<nat>, c: Check, h: nat, i: nat, k: nat)
    requires Admits(limit, checks, arrivals, i, k)
    ensures Admits(limit, checks + [c], arrivals + [h], i, k)
  {
    TableOfPrefix(limit, checks, c, i);
  }

  lemma ClockAdvances(s: State, c: Check)
    requires ClockOk(s) && s.clock <= c.time
    ensures Monotonic(s.checks + [c])
    ensures forall i :: 0 <= i <= |s.checks| ==> (s.checks + [c])[i].time <= c.time
  {
    var checks := s.checks + [c];
    forall i: nat, j: nat
      ensures InOrder(checks, i, j)
    {
      assert InOrder(s.checks, i, j);
    }
  }

  /** The arrival h goes through the whitelist and is shown to the limiter. */
  lemma AdmissionEffect(s: State, h: nat, now: real)
    requires Enabled(s, Arrive(h, now))
    ensures
      var s' := ArriveStep(s, h, now);
      var user := s.handlers[h].inbound.sender.user;
      var c := Check(user, now);
      && s'.gate == s.gate && |s'.handlers| == |s.handlers| && s'.handlers == s.handlers[h := s'.handlers[h]]
      && s'.handlers[h].inbound == s.handlers[h].inbound && !s'.handlers[h].pc.Arrived?
      && if Whitelisted(s.gate, user)
         then && s'.checks == s.checks + [c] && s'.arrivals == s.arrivals + [h] && s'.clock == now
              && s'.limiter == Recorded(s.gate.limit, s.limiter, c)
              && (Passed(s'.handlers[h].pc) ==> HasRoom(s.gate.limit, s.limiter, c))
         else && s'.checks == s.checks && s'.arrivals == s.arrivals && s'.clock == s.clock && s'.limiter == s.limiter
              && !Passed(s'.handlers[h].pc)
  {
  }

  lemma AdmissionKeepsAdmissions(s: State, h: nat, now: real)
    requires GateOk(s) && Enabled(s, Arrive(h, now))
    requires Whitelisted(s.gate, s.handlers[h].inbound.sender.user)
    ensures AdmissionsOk(ArriveStep(s, h, now))
  {
    var s' := ArriveStep(s, h, now);
    var c := Check(s.handlers[h].inbound.sender.user, now);
    AdmissionEffect(s, h, now);
    TableOfPrefix(s.gate.limit, s.checks, c, |s.checks|);
    forall k: nat | k < |s'.handlers| && Passed(s'.handlers[k].pc)
      ensures Admitted(s', k)
    {
      if k == h {
        assert Admits(s'.gate.limit, s'.checks, s'.arrivals, |s.checks|, h);
      } else {
        assert Admitted(s, k);
        var i: nat :| Admits(s.gate.limit, s.checks, s.arrivals, i, k);
        AdmitsMore(s.gate.limit, s.checks, s.arrivals, c, h, i, k);
      }
    }
  }

  lemma AdmissionKeepsArrivals(s: State, h: nat, now: real)
    requires ArrivalsOk(s) && Enabled(s, Arrive(h, now))
    ensures ArrivalsOk(ArriveStep(s, h, now))
  {
    AdmissionEffect(s, h, now);
  }

  lemma AdmissionKeepsGate(s: State, h: nat, now: real)
    requires GateOk(s) && Enabled(s, Arrive(h, now))
    ensures GateOk(ArriveStep(s, h, now))
  {
    var user := s.handlers[h].inbound.sender.user;
    AdmissionEffect(s, h, now);
    AdmissionKeepsArrivals(s, h, now);
    if Whitelisted(s.gate, user) {
      AdmissionKeepsAdmissions(s, h, now);
      ClockAdvances(s, Check(user, now));
      TableOfPrefix(s.gate.limit, s.checks, Check(user, now), |s.checks|);
    } else {
      KeepsAdmissions(s, ArriveStep(s, h, now), h);
    }
  }

  /** A step of handler h that the limiter does not see. */
  lemma KeepsAdmissions(s: State, s': State, h: nat)
    requires AdmissionsOk(s) && h < |s.handlers| == |s'.handlers| && s'.handlers == s.handlers[h := s'.handlers[h]]
    requires s'.gate == s.gate && s'.checks == s.checks && s'.arrivals == s.arrivals
    requires s'.handlers[h].inbound == s.handlers[h].inbound
    requires Passed(s'.handlers[h].pc) ==> Passed(s.handlers[h].pc)
    ensures AdmissionsOk(s')
  {
    forall k: nat | k < |s'.handlers| && Passed(s'.handlers[k].pc)
      ensures Admitted(s', k)
    {
      assert Admitted(s, k);
    }
  }

  lemma SteppedPassed(h: Handler, conversations: seq<Conversation>, messages: seq<MessageRow>)
    requires !Finished(h.pc) && !h.pc.Arrived?
    ensures Passed(h.pc) && Passed(Stepped(h, conversations, messages).pc)
    ensures Stepped(h, conversations, messages).inbound == h.inbound
  {
  }

  lemma StepKeepsGate(s: State, a: Action)
    requires GateOk(s) && Enabled(s, a)
    ensures GateOk(Next(s, a))
  {
    var h, s' := a.handler, Next(s, a);
    if a.Arrive? {
      AdmissionKeepsGate(s, h, a.now);
    } else {
      if a.Run? {
        SteppedPassed(s.handlers[h], VisibleConversations(s, h), VisibleMessages(s, h));
      }
      assert s'.handlers == s.handlers[h := s'.handlers[h]];
      assert s'.checks == s.checks && s'.arrivals == s.arrivals && s'.limiter == s.limiter;
      KeepsAdmissions(s, s', h);
    }
  }

  lemma {:induction false} RunKeepsGate(s: State, actions: seq<Action>)
    requires GateOk(s) && Runs(s, actions)
    ensures GateOk(Exec(s, actions))
    ensures Exec(s, actions).gate == s.gate
    decreases |actions|
  {
    if actions != [] {
      StepKeepsGate(s, actions[0]);
      RunKeepsGate(Next(s, actions[0]), actions[1..]);
    }
  }

  /** Arrivals of the user, with a time in (lo, hi], whose message is stored, among the first n. */
  function StoredInWindow(s: State, user: string, lo: real, hi: real, n: nat): nat
    requires n <= |s.checks| == |s.arrivals|
  {
    if n == 0 then 0
    else
      var c, k := s.checks[n - 1], s.arrivals[n - 1];
      StoredInWindow(s, user, lo, hi, n - 1)
      + if c.key == user && lo < c.time <= hi && k < |s.handlers| && Committed(s.handlers[k].pc) then 1 else 0
  }

  /** The arrival of a stored message was let in. */
  lemma StoredWasAdmitted(s: State, n: nat)
    requires GateOk(s) && n < |s.checks| && Committed(s.handlers[s.arrivals[n]].pc)
    ensures Allowed(s.gate.limit, s.checks, n)
  {
    var k := s.arrivals[n];
    assert Admitted(s, k);
    var i: nat :| Admits(s.gate.limit, s.checks, s.arrivals, i, k);
    assert i == n;
  }

  /** The selection consists of the limiter's answers. */
  ghost predicate AreAnswers(limit: Config, checks: seq<Check>, selection: Selection) {
    |selection| == |checks| && forall i: nat :: i < |checks| ==> selection[i] == Allowed(limit, checks, i)
  }

  /** Every arrival whose message is stored is selected. */
  ghost predicate StoredSelected(s: State, selection: Selection) {
    && |s.arrivals| == |s.checks| == |selection|
    && forall i: nat :: i < |s.checks| && s.arrivals[i] < |s.handlers| && Committed(s.handlers[s.arrivals[i]].pc) ==> selection[i]
  }

  lemma AnswersSelectStored(s: State, selection: Selection)
    requires GateOk(s) && AreAnswers(s.gate.limit, s.checks, selection)
    ensures StoredSelected(s, selection)
  {
    forall i: nat | i < |s.checks| && s.arrivals[i] < |s.handlers| && Committed(s.handlers[s.arrivals[i]].pc)
      ensures selection[i]
    {
      StoredWasAdmitted(s, i);
    }
  }

  lemma {:induction false} StoredWereAdmitted(s: State, selection: Selection, user: string, lo: real, hi: real, n: nat)
    requires StoredSelected(s, selection) && n <= |s.checks|
    ensures StoredInWindow(s, user, lo, hi, n) <= InWindow(selection, s.checks, user, lo, hi, n)
  {
    if n > 0 {
      StoredWereAdmitted(s, selection, user, lo, hi, n - 1);
    }
  }

  lemma LimiterAnswers(limit: Config, checks: seq<Check>, key: string) returns (answers: Selection)
    requires Monotonic(checks)
    ensures AreAnswers(limit, checks, answers) && IsGreedy(limit, checks, key, answers)
  {
    answers := Greedy(limit, checks);
    LimiterIsGreedy(limit, checks, key);
  }

  lemma GateBoundsStorage(s: State, user: string, x: real)
    requires GateOk(s)
    ensures StoredInWindow(s, user, x, x + s.gate.limit.window, |s.checks|) <=
            if s.gate.limit.maxRequests < 0 then 0 else s.gate.limit.maxRequests
  {
    var answers := LimiterAnswers(s.gate.limit, s.checks, user);
    AnswersSelectStored(s, answers);
    SelectedBoundStorage(s, answers, user, x);
  }

  lemma SelectedBoundStorage(s: State, answers: Selection, user: string, x: real)
    requires StoredSelected(s, answers) && Monotonic(s.checks) && IsGreedy(s.gate.limit, s.checks, user, answers)
    ensures StoredInWindow(s, user, x, x + s.gate.limit.window, |s.checks|) <=
            if s.gate.limit.maxRequests < 0 then 0 else s.gate.limit.maxRequests
  {
    StoredWereAdmitted(s, answers, user, x, x + s.gate.limit.window, |s.checks|);
    WindowBound(s.gate.limit, s.checks, user, answers, x, |s.checks|);
  }

  lemma StoredAreAdmitted(s: State)
    requires GateOk(s)
    ensures forall k: nat :: k < |s.handlers| && Committed(s.handlers[k].pc) ==> Admitted(s, k)
  {
  }

  /** In every reachable state of any interleaving: of the requests of one number that arrived within
      one window, at most maxRequests have a stored message (and so at most that many tasks). Each
      stored message has exactly one arrival, let in by the limiter and the whitelist. */
  lemma RateLimitBoundsStorage(s0: State, actions: seq<Action>, user: string, x: real)
    requires Initial(s0) && Runs(s0, actions)
    ensures
      var s := Exec(s0, actions);
      && |s.checks| == |s.arrivals|
      && StoredInWindow(s, user, x, x + s0.gate.limit.window, |s.checks|) <=
           (if s0.gate.limit.maxRequests < 0 then 0 else s0.gate.limit.maxRequests)
      && ListsOnce(s.arrivals)
      && forall k: nat :: k < |s.handlers| && Committed(s.handlers[k].pc) ==> Admitted(s, k)
  {
    InitialGate(s0);
    RunKeepsGate(s0, actions);
    GateBoundsStorage(Exec(s0, actions), user, x);
    StoredAreAdmitted(Exec(s0, actions));
  }

  lemma InitialGate(s0: State)
    requires Initial(s0)
    ensures GateOk(s0)
  {
  }
}
