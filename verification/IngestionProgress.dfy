/** Webhook handlers never deadlock, and every run of them ends. */
module IngestionProgress {
  import opened Ingestion
  import opened IngestionInvariant

  /** An upper bound on the number of statements a handler still has to run. */
  function StepsLeft(pc: Pc): nat {
    match pc
    case Arrived => 9
    case CheckDuplicate => 8
    case FindConversation => 7
    case InsertConversation => 6
    case UndoConversation => 5
    case FindAgain => 4
    case InsertMessage => 3
    case UndoMessage => 1
    case Commit => 2
    case Enqueue => 1
    case _ => 0
  }

  function TotalRank(handlers: seq<Handler>): nat {
    if handlers == [] then 0 else TotalRank(handlers[..|handlers| - 1]) + StepsLeft(handlers[|handlers| - 1].pc)
  }

  lemma {:induction false} TotalRankUpdate(handlers: seq<Handler>, h: nat, after: Handler)
    requires h < |handlers|
    ensures TotalRank(handlers[h := after]) == TotalRank(handlers) - StepsLeft(handlers[h].pc) + StepsLeft(after.pc)
  {
    var front := handlers[..|handlers| - 1];
    if h == |handlers| - 1 {
      assert handlers[h := after][..|handlers| - 1] == front;
    } else {
      TotalRankUpdate(front, h, after);
      assert handlers[h := after][..|handlers| - 1] == front[h := after];
    }
  }

  lemma SteppedRank(h: Handler, conversations: seq<Conversation>, messages: seq<MessageRow>)
    requires !Finished(h.pc) && !h.pc.Arrived?
    ensures StepsLeft(Stepped(h, conversations, messages).pc) < StepsLeft(h.pc)
  {
  }

  lemma StepLowersRank(s: State, a: Action)
    requires Enabled(s, a)
    ensures TotalRank(Next(s, a).handlers) < TotalRank(s.handlers)
  {
    var h := a.handler;
    var after := Next(s, a).handlers[h];
    assert Next(s, a).handlers == s.handlers[h := after];
    if a.Run? {
      SteppedRank(s.handlers[h], VisibleConversations(s, h), VisibleMessages(s, h));
    }
    TotalRankUpdate(s.handlers, h, after);
  }

  lemma {:induction false} RunIsBoundedByRank(s: State, actions: seq<Action>)
    requires Runs(s, actions)
    ensures |actions| + TotalRank(Exec(s, actions).handlers) <= TotalRank(s.handlers)
    decreases |actions|
  {
    if actions != [] {
      StepLowersRank(s, actions[0]);
      RunIsBoundedByRank(Next(s, actions[0]), actions[1..]);
    }
  }

  lemma {:induction false} TotalRankBound(handlers: seq<Handler>)
    ensures TotalRank(handlers) <= 9 * |handlers|
  {
    if handlers != [] {
      TotalRankBound(handlers[..|handlers| - 1]);
    }
  }

  /** No run of n handlers has more than 9n steps. */
  lemma EveryRunEnds(s: State, actions: seq<Action>)
    requires Runs(s, actions)
    ensures |actions| <= 9 * |s.handlers|
  {
    RunIsBoundedByRank(s, actions);
    TotalRankBound(s.handlers);
  }

  /** How far a handler is in taking keys: conversation keys come before message keys. */
  function Level(pc: Pc): nat {
    match pc
    case InsertMessage => 1
    case UndoMessage => 2
    case Commit => 2
    case _ => 0
  }

  /** The waits-for relation only goes up in level, so it has no cycle. */
  lemma WaitsGoUp(t: Tables, waiter: Handler, holder: Handler)
    requires HandlerOk(t, waiter) && HandlerOk(t, holder) && Blocks(holder, waiter)
    ensures Level(waiter.pc) < Level(holder.pc)
    ensures !Finished(holder.pc)
  {
  }

  /** Following the waits-for relation from an unfinished handler leads to one that can run. */
  lemma {:induction false} SomeHandlerCanRun(s: State, h: nat) returns (a: Action)
    requires Inv(s) && h < |s.handlers| && !Finished(s.handlers[h].pc)
    ensures Enabled(s, a) && !a.Stop?
    decreases 2 - Level(s.handlers[h].pc)
  {
    assert HandlerOk(s.tables, s.handlers[h]);
    if s.handlers[h].pc.Arrived? {
      a := Arrive(h, s.clock);
    } else if Waiting(s, h) {
      var k: nat :| k < |s.handlers| && k != h && Blocks(s.handlers[k], s.handlers[h]);
      assert HandlerOk(s.tables, s.handlers[k]);
      WaitsGoUp(s.tables, s.handlers[h], s.handlers[k]);
      a := SomeHandlerCanRun(s, k);
    } else {
      a := Run(h);
    }
  }

  /** In every reachable state with an unfinished handler, some handler can take a step. */
  lemma NoDeadlock(s0: State, actions: seq<Action>, h: nat) returns (a: Action)
    requires Initial(s0) && Runs(s0, actions)
    requires h < |Exec(s0, actions).handlers| && !Finished(Exec(s0, actions).handlers[h].pc)
    ensures Enabled(Exec(s0, actions), a) && !a.Stop?
  {
    InitialInv(s0);
    RunKeepsInv(s0, actions);
    a := SomeHandlerCanRun(Exec(s0, actions), h);
  }

  ghost predicate AllFinished(s: State) {
    forall k :: 0 <= k < |s.handlers| ==> Finished(s.handlers[k].pc)
  }

  /** Every reachable state can be run to the end without stopping anyone. */
  lemma {:induction false} RunsToCompletion(s: State) returns (actions: seq<Action>)
    requires Inv(s)
    ensures Runs(s, actions) && AllFinished(Exec(s, actions))
    ensures forall i :: 0 <= i < |actions| ==> !actions[i].Stop?
    decreases TotalRank(s.handlers)
  {
    if h: nat :| h < |s.handlers| && !Finished(s.handlers[h].pc) {
      var a := SomeHandlerCanRun(s, h);
      StepKeepsInv(s, a);
      StepLowersRank(s, a);
      var rest := RunsToCompletion(Next(s, a));
      actions := [a] + rest;
      assert actions[1..] == rest;
    } else {
      actions := [];
    }
  }
}
