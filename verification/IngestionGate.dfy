/** The whitelist over whole runs: nothing of an unlisted number is stored or queued, and no listed
    number is ever turned away by it. */
module IngestionGate {
  import opened Ingestion
  import opened IngestionInvariant
  import opened IngestionFacts
  import opened IngestionRate

  /** The row is the message of handler k, whose number is in the list. */
  predicate FromListed(s: State, m: MessageRow, k: nat, numbers: set<string>) {
    && k < |s.handlers|
    && m.messageId == s.handlers[k].inbound.messageId && m.content == s.handlers[k].inbound.content
    && s.handlers[k].inbound.sender.user in numbers
  }

  /** The row is the message of some listed number. */
  ghost predicate ComesFromListed(s: State, m: MessageRow, numbers: set<string>) {
    exists k: nat :: FromListed(s, m, k, numbers)
  }

  /** Who is turned away by the whitelist. */
  ghost predicate ForbiddenOk(s: State) {
    forall k: nat :: k < |s.handlers| && s.handlers[k].pc.Forbidden? ==>
      s.gate.allowedNumbers != {} && s.handlers[k].inbound.sender.user !in s.gate.allowedNumbers
  }

  lemma SteppedIsNotForbidden(h: Handler, conversations: seq<Conversation>, messages: seq<MessageRow>)
    requires !Finished(h.pc)
    ensures !Stepped(h, conversations, messages).pc.Forbidden?
  {
  }

  lemma StepKeepsForbidden(s: State, a: Action)
    requires ForbiddenOk(s) && Enabled(s, a)
    ensures ForbiddenOk(Next(s, a)) && Next(s, a).gate == s.gate
  {
    var h, s' := a.handler, Next(s, a);
    if a.Run? {
      SteppedIsNotForbidden(s.handlers[h], VisibleConversations(s, h), VisibleMessages(s, h));
    }
    assert s'.handlers == s.handlers[h := s'.handlers[h]];
  }

  lemma {:induction false} RunKeepsForbidden(s: State, actions: seq<Action>)
    requires ForbiddenOk(s) && Runs(s, actions)
    ensures ForbiddenOk(Exec(s, actions)) && Exec(s, actions).gate == s.gate
    decreases |actions|
  {
    if actions != [] {
      StepKeepsForbidden(s, actions[0]);
      RunKeepsForbidden(Next(s, actions[0]), actions[1..]);
    }
  }

  lemma StoredIsListed(s: State, m: MessageRow) returns (k: nat)
    requires GateOk(s) && BelongsToSender(s, m) && s.gate.allowedNumbers != {}
    ensures FromListed(s, m, k, s.gate.allowedNumbers)
  {
    k :| k < |s.handlers| && StoredFor(s, m, k);
    assert Admitted(s, k);
  }

  lemma QueuedIsListed(s: State, i: nat)
    requires GateOk(s) && QueueOk(s.queue, s.handlers) && i < |s.queue| && s.gate.allowedNumbers != {}
    ensures s.queue[i].task.user in s.gate.allowedNumbers
  {
    assert Admitted(s, s.queue[i].handler);
  }

  /** In every reachable state of any interleaving: with a whitelist, every row stored in the run is the
      message of a listed number and every queued task is for one; and whoever was turned away by the
      whitelist is not on it. */
  lemma WhitelistHolds(s0: State, actions: seq<Action>)
    requires Initial(s0) && Runs(s0, actions)
    ensures
      var s, numbers := Exec(s0, actions), s0.gate.allowedNumbers;
      && (numbers != {} ==>
            && |s0.tables.messages| <= |s.tables.messages|
            && (forall i :: |s0.tables.messages| <= i < |s.tables.messages| ==>
                  ComesFromListed(s, s.tables.messages[i], numbers))
            && (forall i :: 0 <= i < |s.queue| ==> s.queue[i].task.user in numbers))
      && (forall k: nat :: k < |s.handlers| && s.handlers[k].pc.Forbidden? ==>
            numbers != {} && s.handlers[k].inbound.sender.user !in numbers)
  {
    var s := Exec(s0, actions);
    InitialGate(s0);
    RunKeepsGate(s0, actions);
    RunKeepsQueue(s0, actions);
    RunKeepsForbidden(s0, actions);
    EveryRowHasItsConversation(s0, actions);
    if s0.gate.allowedNumbers != {} {
      GateListsAll(s, |s0.tables.messages|);
    }
  }

  lemma GateListsAll(s: State, n: nat)
    requires GateOk(s) && QueueOk(s.queue, s.handlers) && s.gate.allowedNumbers != {}
    requires forall i :: n <= i < |s.tables.messages| ==> BelongsToSender(s, s.tables.messages[i])
    ensures forall i :: n <= i < |s.tables.messages| ==>
              ComesFromListed(s, s.tables.messages[i], s.gate.allowedNumbers)
    ensures forall i :: 0 <= i < |s.queue| ==> s.queue[i].task.user in s.gate.allowedNumbers
  {
    forall i | n <= i < |s.tables.messages|
      ensures ComesFromListed(s, s.tables.messages[i], s.gate.allowedNumbers)
    {
      var k := StoredIsListed(s, s.tables.messages[i]);
    }
    forall i | 0 <= i < |s.queue|
      ensures s.queue[i].task.user in s.gate.allowedNumbers
    {
      QueuedIsListed(s, i);
    }
  }

  // --- Who waits for whom ---

  /** Given what holds of handlers in every reachable state, an insert waits exactly for another handler's
      pending conversation of the same user, or for its pending message of the same id. */
  lemma BlocksIff(t: Tables, holder: Handler, waiter: Handler)
    requires HandlerOk(t, holder) && HandlerOk(t, waiter)
    ensures Blocks(holder, waiter) <==>
            || (waiter.pc.InsertConversation? && holder.newConversations != [] && holder.inbound.sender == waiter.inbound.sender)
            || (waiter.pc.InsertMessage? && holder.pc.Commit? && holder.inbound.messageId == waiter.inbound.messageId)
  {
    if holder.newConversations != [] {
      assert NewConversation(holder) in holder.newConversations;
    }
    if holder.pc.Commit? {
      assert RowOf(holder) in holder.newMessages;
    }
  }
}
