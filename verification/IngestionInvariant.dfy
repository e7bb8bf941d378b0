/** What every interleaving of webhook handlers keeps. */
module IngestionInvariant {
  import opened Ingestion

  function ActiveRow(id: nat, user: UserKey): Conversation {
    Conversation(id, user, true)
  }

  function RowOf(h: Handler): MessageRow
    requires h.conversation.Some?
  {
    MessageRow(h.inbound.messageId, h.conversation.value, h.inbound.content)
  }

  /** The handler has its conversation: a committed one of its sender, or its own pending one while
      its sender has no committed one. */
  ghost predicate Bound(t: Tables, h: Handler) {
    && h.conversation.Some?
    && if h.newConversations == [] then ActiveRow(h.conversation.value, h.inbound.sender) in t.conversations
       else && h.newConversations == [NewConversation(h)]
            && h.conversation.value == h.draw
            && !HasActive(t.conversations, h.inbound.sender)
  }

  /** The handler's row is committed, and so is the conversation it names. */
  ghost predicate Stored(t: Tables, h: Handler) {
    && h.conversation.Some?
    && ActiveRow(h.conversation.value, h.inbound.sender) in t.conversations
    && RowOf(h) in t.messages
  }

  ghost predicate NothingPending(h: Handler) {
    h.newConversations == [] && h.newMessages == []
  }

  /** What is true of a handler before each of its statements and after its end. */
  ghost predicate HandlerOk(t: Tables, h: Handler) {
    && (match h.pc
        case InsertMessage => h.newMessages == [] && Bound(t, h)
        case UndoMessage => h.newMessages == [] && Bound(t, h) && Known(t.messages, h.inbound.messageId)
        case Commit => Bound(t, h) && h.newMessages == [RowOf(h)] && !Known(t.messages, h.inbound.messageId)
        case Enqueue => NothingPending(h) && Stored(t, h)
        case Accepted => NothingPending(h) && Stored(t, h)
        case Stopped(afterCommit) => NothingPending(h) && (afterCommit ==> Stored(t, h))
        case UndoConversation => NothingPending(h) && HasActive(t.conversations, h.inbound.sender)
        case FindAgain => NothingPending(h) && HasActive(t.conversations, h.inbound.sender)
        case Duplicate => NothingPending(h) && Known(t.messages, h.inbound.messageId)
        case Failed => false
        case _ => NothingPending(h))
    && (!Committed(h.pc) ==> !UsesId(t.conversations, h.draw))
  }

  /** Two handlers never hold the same key, never draw the same id, never both commit one message. */
  ghost predicate Apart(g: Handler, h: Handler) {
    && g.draw != h.draw
    && (g.newConversations != [] && h.newConversations != [] ==> g.inbound.sender != h.inbound.sender)
    && (g.pc.Commit? && h.pc.Commit? ==> g.inbound.messageId != h.inbound.messageId)
    && (Committed(g.pc) && Committed(h.pc) ==> g.inbound.messageId != h.inbound.messageId)
  }

  ghost predicate HandlersOk(t: Tables, handlers: seq<Handler>) {
    && (forall k: nat :: k < |handlers| ==> HandlerOk(t, handlers[k]))
    && (forall j: nat, k: nat :: j < |handlers| && k < |handlers| && j != k ==> Apart(handlers[j], handlers[k]))
  }

  /** The commit history lists exactly the handlers that committed. */
  ghost predicate CommitsOk(s: State) {
    && (forall k :: k in s.commits ==> 0 <= k < |s.handlers| && Committed(s.handlers[k].pc))
    && (forall k: nat :: k < |s.handlers| && Committed(s.handlers[k].pc) ==> k in s.commits)
    && (forall i, j :: 0 <= i < j < |s.commits| ==> s.commits[i] != s.commits[j])
  }

  ghost predicate Inv(s: State) {
    TablesOk(s.tables) && HandlersOk(s.tables, s.handlers) && CommitsOk(s)
  }

  // --- Queries ---

  lemma {:induction false} FindActiveFacts(conversations: seq<Conversation>, user: UserKey)
    ensures FindActive(conversations, user).NoRow? <==> !HasActive(conversations, user)
    ensures FindActive(conversations, user).OneRow? ==>
              ActiveRow(FindActive(conversations, user).id, user) in conversations
    ensures FindActive(conversations, user).ManyRows? ==>
              exists i, j :: 0 <= i < j < |conversations|
                && conversations[i].isActive && conversations[j].isActive
                && conversations[i].owner == conversations[j].owner
  {
    if conversations != [] {
      var front, last := conversations[..|conversations| - 1], conversations[|conversations| - 1];
      FindActiveFacts(front, user);
      assert conversations == front + [last];
      if last.owner == user && last.isActive {
        assert last in conversations;
        if !FindActive(front, user).NoRow? {
          var c :| c in front && c.owner == user && c.isActive;
          var i :| 0 <= i < |front| && front[i] == c;
          assert conversations[i] == c && conversations[|front|] == last;
        }
      }
      if HasActive(front, user) {
        var c :| c in front && c.owner == user && c.isActive;
        assert c in conversations;
      }
    }
  }

  /** With the unique constraint, the lookup finds the one active row of a user who has one. */
  lemma LookupIsUnique(t: Tables, user: UserKey, id: nat)
    requires TablesOk(t) && ActiveRow(id, user) in t.conversations
    ensures FindActive(t.conversations, user) == OneRow(id)
  {
    FindActiveFacts(t.conversations, user);
    var found := FindActive(t.conversations, user);
    assert HasActive(t.conversations, user);
    if found.OneRow? {
      var a, b := ActiveRow(id, user), ActiveRow(found.id, user);
      var i :| 0 <= i < |t.conversations| && t.conversations[i] == a;
      var j :| 0 <= j < |t.conversations| && t.conversations[j] == b;
      assert i == j;
    }
  }

  // --- Steps of one handler that leave the tables alone ---

  lemma HandlersUpdate(t: Tables, handlers: seq<Handler>, h: nat, after: Handler)
    requires HandlersOk(t, handlers) && h < |handlers|
    requires HandlerOk(t, after)
    requires forall k: nat :: k < |handlers| && k != h ==> Apart(after, handlers[k]) && Apart(handlers[k], after)
    ensures HandlersOk(t, handlers[h := after])
  {
  }

  /** A handler's own step, while the tables stay: it is well again, and it took no key that
      another handler holds. */
  lemma LocalStep(s: State, h: nat)
    requires Inv(s) && Enabled(s, Run(h)) && !s.handlers[h].pc.Commit?
    ensures HandlersOk(s.tables, RunStep(s, h).handlers)
    ensures Committed(RunStep(s, h).handlers[h].pc) == Committed(s.handlers[h].pc)
  {
    var before := s.handlers[h];
    var after := RunStep(s, h).handlers[h];
    StepKeepsHandler(s, h);
    forall k: nat | k < |s.handlers| && k != h
      ensures Apart(after, s.handlers[k]) && Apart(s.handlers[k], after)
    {
      StepStaysApart(s, h, k);
    }
    HandlersUpdate(s.tables, s.handlers, h, after);
  }

  lemma StepKeepsHandler(s: State, h: nat)
    requires Inv(s) && Enabled(s, Run(h)) && !s.handlers[h].pc.Commit?
    ensures HandlerOk(s.tables, RunStep(s, h).handlers[h])
    ensures Committed(RunStep(s, h).handlers[h].pc) == Committed(s.handlers[h].pc)
  {
    assert HandlerOk(s.tables, s.handlers[h]);
    SteppedIsOk(s.tables, s.handlers[h]);
  }

  lemma SteppedIsOk(t: Tables, h: Handler)
    requires TablesOk(t) && HandlerOk(t, h) && !Finished(h.pc) && !h.pc.Arrived? && !h.pc.Commit?
    ensures
      var after := Stepped(h, t.conversations + h.newConversations, t.messages + h.newMessages);
      HandlerOk(t, after) && Committed(after.pc) == Committed(h.pc)
  {
    if h.newConversations == [] {
      assert t.conversations + h.newConversations == t.conversations;
    }
    if h.newMessages == [] {
      assert t.messages + h.newMessages == t.messages;
    }
    FindActiveFacts(t.conversations, h.inbound.sender);
  }

  lemma StepStaysApart(s: State, h: nat, k: nat)
    requires Inv(s) && Enabled(s, Run(h)) && !s.handlers[h].pc.Commit?
    requires k < |s.handlers| && k != h
    ensures Apart(RunStep(s, h).handlers[h], s.handlers[k]) && Apart(s.handlers[k], RunStep(s, h).handlers[h])
  {
    var before, other := s.handlers[h], s.handlers[k];
    assert HandlerOk(s.tables, before) && HandlerOk(s.tables, other);
    assert Apart(before, other) && Apart(other, before);
    assert Violates(s.tables, before) || !Blocks(other, before);
    SteppedStaysApart(s.tables, before, other);
  }

  lemma SteppedStaysApart(t: Tables, h: Handler, other: Handler)
    requires HandlerOk(t, h) && HandlerOk(t, other) && Apart(h, other) && Apart(other, h)
    requires !Finished(h.pc) && !h.pc.Arrived? && !h.pc.Commit? && (Violates(t, h) || !Blocks(other, h))
    ensures
      var after := Stepped(h, t.conversations + h.newConversations, t.messages + h.newMessages);
      Apart(after, other) && Apart(other, after)
  {
    if h.pc.InsertConversation? {
      assert t.conversations + h.newConversations == t.conversations;
      if other.newConversations != [] {
        assert NewConversation(other) in other.newConversations;
      }
    }
    if h.pc.InsertMessage? {
      assert t.messages + h.newMessages == t.messages;
      if other.pc.Commit? {
        assert RowOf(other) in other.newMessages;
      }
    }
  }

  // --- The commit ---

  function CommittedTables(t: Tables, h: Handler): Tables {
    Tables(t.conversations + h.newConversations, t.messages + h.newMessages)
  }

  /** What a commit publishes cannot break the unique constraints. */
  lemma CommitKeepsConstraints(t: Tables, h: Handler)
    requires TablesOk(t) && HandlerOk(t, h) && h.pc.Commit?
    ensures TablesOk(CommittedTables(t, h))
    ensures Stored(CommittedTables(t, h), h)
  {
    var t' := CommittedTables(t, h);
    assert RowOf(h) in t'.messages;
    assert forall m :: m in t.messages ==> m.messageId != h.inbound.messageId;
    if h.newConversations != [] {
      assert NewConversation(h) in t'.conversations;
      assert forall c :: c in t.conversations ==> c.id != h.draw && !(c.owner == h.inbound.sender && c.isActive);
    }
  }

  lemma QueriesGrow(t: Tables, h: Handler, user: UserKey, messageId: string, id: nat)
    ensures HasActive(CommittedTables(t, h).conversations, user) <==>
              HasActive(t.conversations, user) || HasActive(h.newConversations, user)
    ensures Known(CommittedTables(t, h).messages, messageId) <==>
              Known(t.messages, messageId) || Known(h.newMessages, messageId)
    ensures UsesId(CommittedTables(t, h).conversations, id) <==>
              UsesId(t.conversations, id) || UsesId(h.newConversations, id)
  {
    var t' := CommittedTables(t, h);
    assert forall c :: c in t'.conversations <==> c in t.conversations || c in h.newConversations;
    assert forall m :: m in t'.messages <==> m in t.messages || m in h.newMessages;
  }

  /** Another handler does not notice the commit, except that more is committed. */
  lemma CommitKeepsOthers(t: Tables, h: Handler, other: Handler)
    requires HandlerOk(t, h) && h.pc.Commit? && HandlerOk(t, other) && Apart(h, other) && Apart(other, h)
    ensures HandlerOk(CommittedTables(t, h), other)
  {
    var t' := CommittedTables(t, h);
    QueriesGrow(t, h, other.inbound.sender, other.inbound.messageId, other.draw);
    assert forall c :: c in t.conversations ==> c in t'.conversations;
    assert forall m :: m in t.messages ==> m in t'.messages;
    if h.newConversations != [] {
      assert h.newConversations == [NewConversation(h)];
    }
    assert h.newMessages == [RowOf(h)];
  }

  lemma CommitApart(t: Tables, h: Handler, other: Handler)
    requires HandlerOk(t, h) && h.pc.Commit? && HandlerOk(t, other) && Apart(h, other) && Apart(other, h)
    ensures
      var after := h.(pc := Enqueue, newConversations := [], newMessages := []);
      Apart(after, other) && Apart(other, after)
  {
    if Committed(other.pc) {
      assert RowOf(other) in t.messages;
    }
  }

  lemma CommitStep(s: State, h: nat)
    requires Inv(s) && h < |s.handlers| && s.handlers[h].pc.Commit?
    ensures Inv(RunStep(s, h))
  {
    var before, t := s.handlers[h], s.tables;
    var after := before.(pc := Enqueue, newConversations := [], newMessages := []);
    var t' := CommittedTables(t, before);
    assert HandlerOk(t, before);
    CommitKeepsConstraints(t, before);
    forall k: nat | k < |s.handlers| && k != h
      ensures HandlerOk(t', s.handlers[k]) && Apart(after, s.handlers[k]) && Apart(s.handlers[k], after)
    {
      assert HandlerOk(t, s.handlers[k]) && Apart(before, s.handlers[k]) && Apart(s.handlers[k], before);
      CommitKeepsOthers(t, before, s.handlers[k]);
      CommitApart(t, before, s.handlers[k]);
    }
    assert HandlerOk(t', after);
    var s' := RunStep(s, h);
    assert s'.handlers == s.handlers[h := after] && s'.tables == t' && s'.commits == s.commits + [h];
    assert h !in s.commits;
  }

  // --- Every step ---

  lemma CommitsKept(s: State, s': State, h: nat)
    requires CommitsOk(s) && h < |s.handlers| && s'.commits == s.commits
    requires |s'.handlers| == |s.handlers| && forall k: nat :: k < |s.handlers| && k != h ==> s'.handlers[k] == s.handlers[k]
    requires Committed(s'.handlers[h].pc) == Committed(s.handlers[h].pc)
    ensures CommitsOk(s')
  {
  }

  /** A handler that drops its pending rows and moves to a point that needs none. */
  lemma QuietStep(s: State, s': State, h: nat)
    requires Inv(s) && h < |s.handlers| && s'.tables == s.tables && s'.commits == s.commits
    requires |s'.handlers| == |s.handlers| && s'.handlers == s.handlers[h := s'.handlers[h]]
    requires HandlerOk(s.tables, s'.handlers[h]) && NothingPending(s'.handlers[h]) && !s'.handlers[h].pc.Commit?
    requires s'.handlers[h].inbound == s.handlers[h].inbound && s'.handlers[h].draw == s.handlers[h].draw
    requires Committed(s'.handlers[h].pc) == Committed(s.handlers[h].pc)
    ensures Inv(s')
  {
    forall k: nat | k < |s.handlers| && k != h
      ensures Apart(s'.handlers[h], s.handlers[k]) && Apart(s.handlers[k], s'.handlers[h])
    {
      assert Apart(s.handlers[h], s.handlers[k]) && Apart(s.handlers[k], s.handlers[h]);
    }
    HandlersUpdate(s.tables, s.handlers, h, s'.handlers[h]);
    CommitsKept(s, s', h);
  }

  /** The invariant survives every statement of every handler. */
  lemma StepKeepsInv(s: State, a: Action)
    requires Inv(s) && Enabled(s, a)
    ensures Inv(Next(s, a))
  {
    var h := a.handler;
    assert HandlerOk(s.tables, s.handlers[h]);
    match a
    case Run(_) =>
      if s.handlers[h].pc.Commit? {
        CommitStep(s, h);
      } else {
        LocalStep(s, h);
        CommitsKept(s, RunStep(s, h), h);
      }
    case Arrive(_, now) => QuietStep(s, Next(s, a), h);
    case Stop(_) => QuietStep(s, Next(s, a), h);
  }

  lemma InitialInv(s: State)
    requires Initial(s)
    ensures Inv(s)
  {
  }

  /** The invariant holds after every run of any number of handlers, in any interleaving. */
  lemma {:induction false} RunKeepsInv(s: State, actions: seq<Action>)
    requires Inv(s) && Runs(s, actions)
    ensures Inv(Exec(s, actions))
    decreases |actions|
  {
    if actions != [] {
      StepKeepsInv(s, actions[0]);
      RunKeepsInv(Next(s, actions[0]), actions[1..]);
    }
  }

  /** The RuntimeError after the second select, and the errors of a select that finds two rows,
      never happen. */
  lemma NoHandlerFails(s: State, actions: seq<Action>, h: nat)
    requires Initial(s) && Runs(s, actions) && h < |s.handlers|
    ensures |Exec(s, actions).handlers| == |s.handlers|
    ensures !Exec(s, actions).handlers[h].pc.Failed?
  {
    InitialInv(s);
    RunKeepsInv(s, actions);
    RunKeepsRequests(s, actions);
    assert HandlerOk(Exec(s, actions).tables, Exec(s, actions).handlers[h]);
  }

  lemma StepKeepsRequests(s: State, a: Action)
    requires Enabled(s, a)
    ensures |Next(s, a).handlers| == |s.handlers|
    ensures forall k :: 0 <= k < |s.handlers| ==>
              Next(s, a).handlers[k].inbound == s.handlers[k].inbound && Next(s, a).handlers[k].draw == s.handlers[k].draw
  {
  }

  /** No step changes who the handlers are. */
  lemma {:induction false} RunKeepsRequests(s: State, actions: seq<Action>)
    requires Runs(s, actions)
    ensures |Exec(s, actions).handlers| == |s.handlers|
    ensures forall k :: 0 <= k < |s.handlers| ==>
              && Exec(s, actions).handlers[k].inbound == s.handlers[k].inbound
              && Exec(s, actions).handlers[k].draw == s.handlers[k].draw
    decreases |actions|
  {
    if actions != [] {
      StepKeepsRequests(s, actions[0]);
      RunKeepsRequests(Next(s, actions[0]), actions[1..]);
    }
  }
}
