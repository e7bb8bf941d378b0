/** Tasks, conversations and the rate limit in every reachable state of the ingestion. */
module IngestionFacts {
  import opened Ingestion
  import opened IngestionInvariant

  /** The queue holds exactly one task for each accepted handler. */
  ghost predicate QueueOk(queue: seq<Delivery>, handlers: seq<Handler>) {
    && (forall i :: 0 <= i < |queue| ==>
          && queue[i].handler < |handlers|
          && handlers[queue[i].handler].pc.Accepted?
          && queue[i] == DeliveryOf(queue[i].handler, handlers[queue[i].handler]))
    && (forall i, j :: 0 <= i < j < |queue| ==> queue[i].handler != queue[j].handler)
    && (forall k: nat :: k < |handlers| && handlers[k].pc.Accepted? ==>
          DeliveryOf(k, handlers[k]) in queue)
  }

  lemma SteppedAccepts(h: Handler, conversations: seq<Conversation>, messages: seq<MessageRow>)
    requires !Finished(h.pc)
    ensures
      var after := Stepped(h, conversations, messages);
      && (after.pc.Accepted? <==> h.pc.Enqueue?)
      && (h.pc.Enqueue? ==> after == h.(pc := Accepted))
  {
  }

  lemma StepKeepsQueue(s: State, a: Action)
    requires QueueOk(s.queue, s.handlers) && Enabled(s, a)
    ensures QueueOk(Next(s, a).queue, Next(s, a).handlers)
  {
    var h, s' := a.handler, Next(s, a);
    if a.Run? {
      SteppedAccepts(s.handlers[h], VisibleConversations(s, h), VisibleMessages(s, h));
    }
    assert s'.handlers == s.handlers[h := s'.handlers[h]];
    if s'.handlers[h].pc.Accepted? {
      assert s'.queue == s.queue + [DeliveryOf(h, s.handlers[h])];
      assert DeliveryOf(h, s'.handlers[h]) == DeliveryOf(h, s.handlers[h]);
    } else {
      assert s'.queue == s.queue;
    }
  }

  lemma {:induction false} RunKeepsQueue(s: State, actions: seq<Action>)
    requires QueueOk(s.queue, s.handlers) && Runs(s, actions)
    ensures QueueOk(Exec(s, actions).queue, Exec(s, actions).handlers)
    decreases |actions|
  {
    if actions != [] {
      StepKeepsQueue(s, actions[0]);
      RunKeepsQueue(Next(s, actions[0]), actions[1..]);
    }
  }

  /** Every queued task names a committed active conversation of its sender, whose inbound row is
      committed as well, so a worker that picks the task up finds both. */
  lemma TasksNameCommittedRows(s0: State, actions: seq<Action>, i: nat)
    requires Initial(s0) && Runs(s0, actions) && i < |Exec(s0, actions).queue|
    ensures
      var s := Exec(s0, actions);
      var d := s.queue[i];
      && d.handler < |s0.handlers|
      && var inbound := s0.handlers[d.handler].inbound;
         && d.task.user == inbound.sender.user && d.task.content == inbound.content
         && ActiveRow(d.task.conversation, inbound.sender) in s.tables.conversations
         && MessageRow(inbound.messageId, d.task.conversation, inbound.content) in s.tables.messages
  {
    InitialInv(s0);
    RunKeepsInv(s0, actions);
    RunKeepsQueue(s0, actions);
    RunKeepsRequests(s0, actions);
    TaskNamesCommittedRows(Exec(s0, actions), i);
  }

  lemma TaskNamesCommittedRows(s: State, i: nat)
    requires Inv(s) && QueueOk(s.queue, s.handlers) && i < |s.queue|
    ensures
      var d := s.queue[i];
      && d.handler < |s.handlers|
      && var inbound := s.handlers[d.handler].inbound;
         && d.task.user == inbound.sender.user && d.task.content == inbound.content
         && ActiveRow(d.task.conversation, inbound.sender) in s.tables.conversations
         && MessageRow(inbound.messageId, d.task.conversation, inbound.content) in s.tables.messages
  {
    assert HandlerOk(s.tables, s.handlers[s.queue[i].handler]);
  }

  /** A message id is stored at most once and queued at most once. */
  lemma AtMostOncePerMessage(s0: State, actions: seq<Action>)
    requires Initial(s0) && Runs(s0, actions)
    ensures
      var s := Exec(s0, actions);
      && (forall i, j :: 0 <= i < j < |s.tables.messages| ==> s.tables.messages[i].messageId != s.tables.messages[j].messageId)
      && (forall i, j :: 0 <= i < j < |s.queue| ==>
            && s.queue[i].handler < |s.handlers| && s.queue[j].handler < |s.handlers|
            && s.handlers[s.queue[i].handler].inbound.messageId != s.handlers[s.queue[j].handler].inbound.messageId)
  {
    InitialInv(s0);
    RunKeepsInv(s0, actions);
    RunKeepsQueue(s0, actions);
    var s := Exec(s0, actions);
    forall i, j | 0 <= i < j < |s.queue|
      ensures s.handlers[s.queue[i].handler].inbound.messageId != s.handlers[s.queue[j].handler].inbound.messageId
    {
      assert Apart(s.handlers[s.queue[i].handler], s.handlers[s.queue[j].handler]);
    }
  }

  /** All rows that the handlers of one user stored belong to one conversation. */
  lemma OneConversationPerUser(s0: State, actions: seq<Action>, j: nat, k: nat)
    requires Initial(s0) && Runs(s0, actions)
    requires
      var s := Exec(s0, actions);
      && j < |s.handlers| && k < |s.handlers|
      && Committed(s.handlers[j].pc) && Committed(s.handlers[k].pc)
      && s.handlers[j].inbound.sender == s.handlers[k].inbound.sender
    ensures
      var s := Exec(s0, actions);
      && TablesOk(s.tables)
      && s.handlers[j].conversation.Some? && s.handlers[j].conversation == s.handlers[k].conversation
      && FindActive(s.tables.conversations, s.handlers[j].inbound.sender) == OneRow(s.handlers[j].conversation.value)
      && RowOf(s.handlers[j]) in s.tables.messages
  {
    InitialInv(s0);
    RunKeepsInv(s0, actions);
    StoredTogether(Exec(s0, actions), j, k);
  }

  lemma StoredTogether(s: State, j: nat, k: nat)
    requires Inv(s) && j < |s.handlers| && k < |s.handlers|
    requires Committed(s.handlers[j].pc) && Committed(s.handlers[k].pc)
    requires s.handlers[j].inbound.sender == s.handlers[k].inbound.sender
    ensures s.handlers[j].conversation.Some? && s.handlers[j].conversation == s.handlers[k].conversation
    ensures FindActive(s.tables.conversations, s.handlers[j].inbound.sender) == OneRow(s.handlers[j].conversation.value)
    ensures RowOf(s.handlers[j]) in s.tables.messages
  {
    var g, h := s.handlers[j], s.handlers[k];
    assert HandlerOk(s.tables, g) && HandlerOk(s.tables, h);
    LookupIsUnique(s.tables, g.inbound.sender, g.conversation.value);
    LookupIsUnique(s.tables, h.inbound.sender, h.conversation.value);
  }

  /** The row is that of a committed handler, and names the one active conversation of its sender. */
  ghost predicate BelongsToSender(s: State, m: MessageRow) {
    exists k: nat :: k < |s.handlers| && StoredFor(s, m, k)
  }

  ghost predicate StoredFor(s: State, m: MessageRow, k: nat)
    requires k < |s.handlers|
  {
    var h := s.handlers[k];
    && Committed(h.pc) && h.conversation.Some? && m == RowOf(h)
    && FindActive(s.tables.conversations, h.inbound.sender) == OneRow(m.conversation)
  }

  /** The rows stored since `before`, one for each commit, in commit order. */
  ghost predicate RowsAdded(before: seq<MessageRow>, s: State) {
    && before <= s.tables.messages && |s.tables.messages| == |before| + |s.commits|
    && forall i :: 0 <= i < |s.commits| ==> RowAdded(s, s.commits[i], s.tables.messages[|before| + i])
  }

  ghost predicate RowAdded(s: State, k: int, m: MessageRow) {
    && 0 <= k < |s.handlers| && Committed(s.handlers[k].pc)
    && s.handlers[k].conversation.Some? && m == RowOf(s.handlers[k])
  }

  lemma SteppedKeepsRow(h: Handler, conversations: seq<Conversation>, messages: seq<MessageRow>)
    requires Committed(h.pc) || h.pc.Commit?
    ensures
      var after := Stepped(h, conversations, messages);
      after.conversation == h.conversation && after.inbound == h.inbound && Committed(after.pc)
  {
  }

  lemma StepKeepsRows(before: seq<MessageRow>, s: State, a: Action)
    requires Inv(s) && RowsAdded(before, s) && Enabled(s, a)
    ensures RowsAdded(before, Next(s, a))
  {
    var h, s' := a.handler, Next(s, a);
    assert s'.handlers == s.handlers[h := s'.handlers[h]];
    assert HandlerOk(s.tables, s.handlers[h]);
    if Committed(s.handlers[h].pc) || s.handlers[h].pc.Commit? {
      SteppedKeepsRow(s.handlers[h], VisibleConversations(s, h), VisibleMessages(s, h));
    }
    forall i | 0 <= i < |s.commits|
      ensures RowAdded(s', s.commits[i], s.tables.messages[|before| + i])
    {
      assert RowAdded(s, s.commits[i], s.tables.messages[|before| + i]);
    }
  }

  lemma {:induction false} RunKeepsRows(before: seq<MessageRow>, s: State, actions: seq<Action>)
    requires Inv(s) && RowsAdded(before, s) && Runs(s, actions)
    ensures RowsAdded(before, Exec(s, actions))
    decreases |actions|
  {
    if actions != [] {
      StepKeepsInv(s, actions[0]);
      StepKeepsRows(before, s, actions[0]);
      RunKeepsRows(before, Next(s, actions[0]), actions[1..]);
    }
  }

  /** In every reachable state every row names a committed conversation, and every row stored in the
      run names the one active conversation of the sender who sent it. */
  lemma EveryRowHasItsConversation(s0: State, actions: seq<Action>)
    requires Initial(s0) && Runs(s0, actions)
    ensures
      var s := Exec(s0, actions);
      && s0.tables.messages <= s.tables.messages
      && (forall m :: m in s.tables.messages ==> UsesId(s.tables.conversations, m.conversation))
      && forall i :: |s0.tables.messages| <= i < |s.tables.messages| ==> BelongsToSender(s, s.tables.messages[i])
  {
    InitialInv(s0);
    RunKeepsInv(s0, actions);
    RunKeepsRows(s0.tables.messages, s0, actions);
    AddedRowsBelong(s0.tables.messages, Exec(s0, actions));
  }

  lemma AddedRowsBelong(before: seq<MessageRow>, s: State)
    requires Inv(s) && RowsAdded(before, s)
    ensures forall i :: |before| <= i < |s.tables.messages| ==> BelongsToSender(s, s.tables.messages[i])
  {
    forall i | |before| <= i < |s.tables.messages|
      ensures BelongsToSender(s, s.tables.messages[i])
    {
      var k := s.commits[i - |before|];
      assert RowAdded(s, k, s.tables.messages[|before| + (i - |before|)]);
      StoredTogether(s, k, k);
      assert StoredFor(s, s.tables.messages[i], k);
    }
  }

  /** A webhook delivery that was answered "OK" as a duplicate has its message stored. */
  lemma DuplicateIsStored(s0: State, actions: seq<Action>, k: nat)
    requires Initial(s0) && Runs(s0, actions)
    requires k < |Exec(s0, actions).handlers| && Exec(s0, actions).handlers[k].pc.Duplicate?
    ensures exists m :: m in Exec(s0, actions).tables.messages && m.messageId == Exec(s0, actions).handlers[k].inbound.messageId
  {
    InitialInv(s0);
    RunKeepsInv(s0, actions);
    assert HandlerOk(Exec(s0, actions).tables, Exec(s0, actions).handlers[k]);
  }
}
