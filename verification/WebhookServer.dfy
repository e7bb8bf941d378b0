/** The webhook code itself, statement by statement, while other handlers run in between. */
module WebhookServer {
  import opened Options
  import opened RateLimiting
  import opened Ingestion
  import opened IngestionInvariant
  import opened IngestionProgress

  datatype Response = Ok | Http403 | Http429

  /** One state can become the other by steps of handlers. */
  ghost predicate Reaches(s: State, s': State) {
    exists actions :: Runs(s, actions) && Exec(s, actions) == s'
  }

  lemma ReachesItself(s: State)
    ensures Reaches(s, s)
  {
    assert Runs(s, []) && Exec(s, []) == s;
  }

  lemma ReachesStep(s: State, s': State, a: Action)
    requires Reaches(s, s') && Enabled(s', a)
    ensures Reaches(s, Next(s', a))
  {
    var actions :| Runs(s, actions) && Exec(s, actions) == s';
    RunThenStep(s, actions, a);
  }

  lemma {:induction false} RunThenStep(s: State, actions: seq<Action>, a: Action)
    requires Runs(s, actions) && Enabled(Exec(s, actions), a)
    ensures Runs(s, actions + [a]) && Exec(s, actions + [a]) == Next(Exec(s, actions), a)
    decreases |actions|
  {
    if actions == [] {
      assert actions + [a] == [a] && [a][1..] == [];
    } else {
      assert (actions + [a])[1..] == actions[1..] + [a];
      RunThenStep(Next(s, actions[0]), actions[1..], a);
    }
  }

  lemma {:induction false} RunThenRun(s: State, first: seq<Action>, second: seq<Action>)
    requires Runs(s, first) && Runs(Exec(s, first), second)
    ensures Runs(s, first + second) && Exec(s, first + second) == Exec(Exec(s, first), second)
    decreases |first|
  {
    if first == [] {
      assert first + second == second;
    } else {
      assert (first + second)[1..] == first[1..] + second;
      RunThenRun(Next(s, first[0]), first[1..], second);
    }
  }

  lemma ReachesTransitive(a: State, b: State, c: State)
    requires Reaches(a, b) && Reaches(b, c)
    ensures Reaches(a, c)
  {
    var first :| Runs(a, first) && Exec(a, first) == b;
    var second :| Runs(b, second) && Exec(b, second) == c;
    RunThenRun(a, first, second);
  }

  /** The state after handler h went on, with others in between. */
  ghost predicate Continues(s: State, s': State, h: nat) {
    && Reaches(s, s')
    && h < |s.handlers| == |s'.handlers|
    && s'.handlers[h].inbound == s.handlers[h].inbound
  }

  lemma ContinuesTransitive(a: State, b: State, c: State, h: nat)
    requires Continues(a, b, h) && Continues(b, c, h)
    ensures Continues(a, c, h)
  {
    ReachesTransitive(a, b, c);
  }

  lemma ContinuesStep(s: State, s': State, h: nat)
    requires Continues(s, s', h) && Enabled(s', Run(h))
    ensures Continues(s, RunStep(s', h), h)
  {
    ReachesStep(s, s', Run(h));
    SteppedInbound(s'.handlers[h], VisibleConversations(s', h), VisibleMessages(s', h));
  }

  lemma SteppedInbound(h: Handler, conversations: seq<Conversation>, messages: seq<MessageRow>)
    ensures Stepped(h, conversations, messages).inbound == h.inbound
  {
  }

  /** The API server: the tables it shares with all handlers, the task queue and the module-level
      rate limiter. `commits`, `checks` and `arrivals` only record history. */
  class Server {
    const gate: Gate
    const limiter: RateLimiter
    var conversations: seq<Conversation>
    var messages: seq<MessageRow>
    var handlers: seq<Handler>
    var queue: seq<Delivery>
    var clock: real
    var commits: seq<nat>
    var checks: seq<Check>
    var arrivals: seq<nat>

    constructor (gate: Gate, conversations: seq<Conversation>, messages: seq<MessageRow>, handlers: seq<Handler>, clock: real)
      requires Initial(State(gate, Tables(conversations, messages), handlers, [], map[], clock, [], [], []))
      ensures Valid() && fresh(limiter)
      ensures View() == State(gate, Tables(conversations, messages), handlers, [], map[], clock, [], [], [])
    {
      this.gate := gate;
      limiter := new RateLimiter(gate.limit.maxRequests, gate.limit.window);
      this.conversations, this.messages, this.handlers := conversations, messages, handlers;
      this.clock := clock;
      queue, commits, checks, arrivals := [], [], [], [];
      new;
      InitialInv(View());
    }

    function View(): State
      reads this, limiter
    {
      State(gate, Tables(conversations, messages), handlers, queue, limiter.requests, clock, commits, checks, arrivals)
    }

    ghost predicate Valid()
      reads this, limiter
    {
      Inv(View()) && limiter.config == gate.limit
    }

    // --- Single statements ---

    /** Whitelist check and rate limiter. */
    method Admit(h: nat, now: real) returns (response: Response)
      requires Valid() && Enabled(View(), Arrive(h, now))
      modifies this, limiter
      ensures Valid() && View() == ArriveStep(old(View()), h, now)
      ensures handlers[h].pc == match response case Ok => CheckDuplicate case Http403 => Forbidden case Http429 => RateLimited
      ensures response.Http403? <==> gate.allowedNumbers != {} && handlers[h].inbound.sender.user !in gate.allowedNumbers
      ensures response.Http429? <==>
                && (gate.allowedNumbers == {} || handlers[h].inbound.sender.user in gate.allowedNumbers)
                && !HasRoom(gate.limit, old(limiter.requests), Check(handlers[h].inbound.sender.user, now))
    {
      StepKeepsInv(View(), Arrive(h, now));
      var user := handlers[h].inbound.sender.user;
      if !Whitelisted(gate, user) {
        handlers := handlers[h := handlers[h].(pc := Forbidden)];
        return Http403;
      }
      clock, checks, arrivals := now, checks + [Check(user, now)], arrivals + [h];
      var allowed := limiter.IsAllowed(user, now);
      if !allowed {
        handlers := handlers[h := handlers[h].(pc := RateLimited)];
        return Http429;
      }
      handlers := handlers[h := handlers[h].(pc := CheckDuplicate)];
      return Ok;
    }

    /** message_exists */
    method MessageExists(h: nat) returns (known: bool)
      requires Valid() && h < |handlers| && handlers[h].pc.CheckDuplicate?
      modifies this
      ensures Valid() && View() == RunStep(old(View()), h)
      ensures known <==> exists m :: m in messages && m.messageId == handlers[h].inbound.messageId
      ensures handlers[h].pc == if known then Duplicate else FindConversation
    {
      StepKeepsInv(View(), Run(h));
      assert HandlerOk(View().tables, handlers[h]) && VisibleMessages(View(), h) == messages;
      known := Known(messages + handlers[h].newMessages, handlers[h].inbound.messageId);
      handlers := handlers[h := handlers[h].(pc := if known then Duplicate else FindConversation)];
    }

    /** _find_active_conversation; more than one row would raise. */
    method FindActiveConversation(h: nat) returns (found: Option<nat>)
      requires Valid() && h < |handlers| && (handlers[h].pc.FindConversation? || handlers[h].pc.FindAgain?)
      modifies this
      ensures Valid() && View() == RunStep(old(View()), h)
      ensures found.Some? ==> handlers[h].pc.InsertMessage? && handlers[h].conversation == found
      ensures found.None? ==> old(handlers[h].pc.FindConversation?) && handlers[h].pc.InsertConversation?
    {
      StepKeepsInv(View(), Run(h));
      var before := handlers[h];
      assert HandlerOk(View().tables, before);
      FindActiveFacts(conversations, before.inbound.sender);
      assert VisibleConversations(View(), h) == conversations;
      match FindActive(conversations + before.newConversations, before.inbound.sender)
      case OneRow(id) =>
        handlers := handlers[h := before.(pc := InsertMessage, conversation := Some(id))];
        found := Some(id);
      case NoRow =>
        handlers := handlers[h := before.(pc := if before.pc.FindConversation? then InsertConversation else Failed)];
        found := None;
      case ManyRows =>
        assert false;
    }

    /** session.add(conversation) and flush; a key that is already committed is an IntegrityError. */
    method FlushConversation(h: nat) returns (inserted: bool)
      requires Valid() && h < |handlers| && handlers[h].pc.InsertConversation? && !Waiting(View(), h)
      modifies this
      ensures Valid() && View() == RunStep(old(View()), h)
      ensures handlers[h].pc == if inserted then InsertMessage else UndoConversation
      ensures inserted ==> handlers[h].conversation == Some(handlers[h].draw)
    {
      StepKeepsInv(View(), Run(h));
      var before := handlers[h];
      inserted := !HasActive(conversations + before.newConversations, before.inbound.sender);
      if inserted {
        handlers := handlers[h := before.(pc := InsertMessage, conversation := Some(before.draw),
                                          newConversations := before.newConversations + [NewConversation(before)])];
      } else {
        handlers := handlers[h := before.(pc := UndoConversation)];
      }
    }

    /** session.rollback() after an IntegrityError. */
    method Rollback(h: nat)
      requires Valid() && h < |handlers| && (handlers[h].pc.UndoConversation? || handlers[h].pc.UndoMessage?)
      modifies this
      ensures Valid() && View() == RunStep(old(View()), h)
      ensures handlers[h].pc == if old(handlers[h].pc.UndoConversation?) then FindAgain else Duplicate
    {
      StepKeepsInv(View(), Run(h));
      var next := if handlers[h].pc.UndoConversation? then FindAgain else Duplicate;
      handlers := handlers[h := handlers[h].(pc := next, newConversations := [], newMessages := [])];
    }

    /** session.add(message) and flush. */
    method FlushMessage(h: nat) returns (inserted: bool)
      requires Valid() && h < |handlers| && handlers[h].pc.InsertMessage? && !Waiting(View(), h)
      modifies this
      ensures Valid() && View() == RunStep(old(View()), h)
      ensures handlers[h].pc == if inserted then Commit else UndoMessage
    {
      StepKeepsInv(View(), Run(h));
      var before := handlers[h];
      assert HandlerOk(View().tables, before);
      inserted := !Known(messages + before.newMessages, before.inbound.messageId);
      if inserted {
        handlers := handlers[h := before.(pc := Commit, newMessages := before.newMessages + [RowOf(before)])];
      } else {
        handlers := handlers[h := before.(pc := UndoMessage)];
      }
    }

    /** db.commit() */
    method CommitSession(h: nat)
      requires Valid() && h < |handlers| && handlers[h].pc.Commit?
      modifies this
      ensures Valid() && View() == RunStep(old(View()), h)
      ensures handlers[h].pc.Enqueue?
    {
      StepKeepsInv(View(), Run(h));
      var before := handlers[h];
      conversations, messages := conversations + before.newConversations, messages + before.newMessages;
      commits := commits + [h];
      handlers := handlers[h := before.(pc := Enqueue, newConversations := [], newMessages := [])];
    }

    /** process_whatsapp_message.delay(...) */
    method Delay(h: nat)
      requires Valid() && h < |handlers| && handlers[h].pc.Enqueue?
      modifies this
      ensures Valid() && View() == RunStep(old(View()), h)
      ensures handlers[h].pc.Accepted? && DeliveryOf(h, handlers[h]) in queue
    {
      StepKeepsInv(View(), Run(h));
      queue := queue + [DeliveryOf(h, handlers[h])];
      handlers := handlers[h := handlers[h].(pc := Accepted)];
      assert queue[|queue| - 1] == DeliveryOf(h, handlers[h]);
    }

    /** The process of a handler dies. */
    method Die(h: nat)
      requires Valid() && Enabled(View(), Stop(h))
      modifies this
      ensures Valid() && View() == StopStep(old(View()), h)
    {
      StepKeepsInv(View(), Stop(h));
      var before := handlers[h];
      handlers := handlers[h := before.(pc := Stopped(before.pc.Enqueue?), newConversations := [], newMessages := [])];
    }

    // --- Other handlers ---

    /** The next statement of handler k. */
    method Turn(k: nat)
      requires Valid() && Enabled(View(), Run(k))
      modifies this
      ensures Valid() && View() == RunStep(old(View()), k)
    {
      match handlers[k].pc
      case CheckDuplicate => var _ := MessageExists(k);
      case FindConversation => var _ := FindActiveConversation(k);
      case InsertConversation => var _ := FlushConversation(k);
      case UndoConversation => Rollback(k);
      case FindAgain => var _ := FindActiveConversation(k);
      case InsertMessage => var _ := FlushMessage(k);
      case UndoMessage => Rollback(k);
      case Commit => CommitSession(k);
      case Enqueue => Delay(k);
    }

    /** Another request k arrives. */
    method LetArrive(h: nat, k: nat, now: real)
      requires Valid() && h < |handlers| && k != h && Enabled(View(), Arrive(k, now))
      modifies this, limiter
      ensures Valid() && Reaches(old(View()), View())
      ensures |handlers| == old(|handlers|) && handlers[h] == old(handlers[h])
    {
      ReachesItself(View());
      ReachesStep(View(), View(), Arrive(k, now));
      var _ := Admit(k, now);
    }

    /** Another handler k arrives, runs or dies, if it can. */
    method LetGo(h: nat, k: nat)
      requires Valid() && h < |handlers| && k < |handlers| && k != h && !Finished(handlers[k].pc)
      modifies this, limiter
      ensures Valid() && Reaches(old(View()), View())
      ensures |handlers| == old(|handlers|) && handlers[h] == old(handlers[h])
    {
      ReachesItself(View());
      var pause: real := *;
      if handlers[k].pc.Arrived? && pause >= 0.0 {
        LetArrive(h, k, clock + pause);
      } else if * {
        ReachesStep(View(), View(), Stop(k));
        Die(k);
      } else if !handlers[k].pc.Arrived? && !Waiting(View(), k) {
        ReachesStep(View(), View(), Run(k));
        Turn(k);
      }
    }

    /** While handler h is suspended, any other handlers arrive, run or die, in any order and any
        number of times. */
    method Yield(h: nat)
      requires Valid() && h < |handlers|
      modifies this, limiter
      ensures Valid() && Reaches(old(View()), View())
      ensures |handlers| == old(|handlers|) && handlers[h] == old(handlers[h])
    {
      var schedule: seq<nat> := *;
      ReachesItself(View());
      while schedule != []
        invariant Valid() && Reaches(old(View()), View())
        invariant |handlers| == old(|handlers|) && handlers[h] == old(handlers[h])
        decreases |schedule|
      {
        var k := schedule[0];
        schedule := schedule[1..];
        if k < |handlers| && k != h && !Finished(handlers[k].pc) {
          ghost var s := View();
          LetGo(h, k);
          ReachesTransitive(old(View()), s, View());
        }
      }
    }

    /** Runs a handler that stands between k and its key, directly or through others. */
    method RunHolderOf(k: nat) returns (j: nat)
      requires Valid() && k < |handlers| && !Finished(handlers[k].pc) && Waiting(View(), k)
      modifies this
      ensures Valid() && Enabled(old(View()), Run(j)) && View() == RunStep(old(View()), j)
      ensures Level(old(handlers[j].pc)) > Level(old(handlers[k].pc))
      decreases 2 - Level(handlers[k].pc)
    {
      j :| 0 <= j < |handlers| && j != k && Blocks(handlers[j], handlers[k]);
      assert HandlerOk(View().tables, handlers[k]) && HandlerOk(View().tables, handlers[j]);
      WaitsGoUp(View().tables, handlers[k], handlers[j]);
      if Waiting(View(), j) {
        j := RunHolderOf(j);
      } else {
        Turn(j);
      }
    }

    /** Handler h waits for its key: the holders go on until it is free. This always ends. */
    method AwaitTurn(h: nat)
      requires Valid() && h < |handlers| && !Finished(handlers[h].pc)
      modifies this
      ensures Valid() && Reaches(old(View()), View())
      ensures |handlers| == old(|handlers|) && handlers[h] == old(handlers[h]) && !Waiting(View(), h)
    {
      ReachesItself(View());
      while Waiting(View(), h)
        invariant Valid() && Reaches(old(View()), View())
        invariant |handlers| == old(|handlers|) && handlers[h] == old(handlers[h])
        decreases TotalRank(handlers)
      {
        ghost var s := View();
        var j := RunHolderOf(h);
        ReachesStep(old(View()), s, Run(j));
        StepLowersRank(s, Run(j));
      }
    }

    // --- The webhook ---

    /** Lets others run, then waits for the key that the next insert of h needs. */
    method YieldAndAwait(h: nat)
      requires Valid() && h < |handlers| && !Finished(handlers[h].pc)
      modifies this, limiter
      ensures Valid() && Reaches(old(View()), View())
      ensures |handlers| == old(|handlers|) && handlers[h] == old(handlers[h]) && !Waiting(View(), h)
    {
      Yield(h);
      ghost var s := View();
      AwaitTurn(h);
      ReachesTransitive(old(View()), s, View());
    }

    method InsertConversationInTurn(h: nat) returns (inserted: bool)
      requires Valid() && h < |handlers| && handlers[h].pc.InsertConversation?
      modifies this, limiter
      ensures Valid() && Continues(old(View()), View(), h)
      ensures handlers[h].pc == if inserted then InsertMessage else UndoConversation
      ensures inserted ==> handlers[h].conversation == Some(handlers[h].draw)
    {
      YieldAndAwait(h);
      ContinuesStep(old(View()), View(), h);
      inserted := FlushConversation(h);
    }

    method InsertMessageInTurn(h: nat) returns (inserted: bool)
      requires Valid() && h < |handlers| && handlers[h].pc.InsertMessage?
      modifies this, limiter
      ensures Valid() && Continues(old(View()), View(), h)
      ensures handlers[h].pc == if inserted then Commit else UndoMessage
    {
      YieldAndAwait(h);
      ContinuesStep(old(View()), View(), h);
      inserted := FlushMessage(h);
    }

    method RollbackInTurn(h: nat)
      requires Valid() && h < |handlers| && (handlers[h].pc.UndoConversation? || handlers[h].pc.UndoMessage?)
      modifies this, limiter
      ensures Valid() && Continues(old(View()), View(), h)
      ensures handlers[h].pc == if old(handlers[h].pc.UndoConversation?) then FindAgain else Duplicate
    {
      Yield(h);
      ContinuesStep(old(View()), View(), h);
      Rollback(h);
    }

    method FindInTurn(h: nat) returns (found: Option<nat>)
      requires Valid() && h < |handlers| && (handlers[h].pc.FindConversation? || handlers[h].pc.FindAgain?)
      modifies this, limiter
      ensures Valid() && Continues(old(View()), View(), h)
      ensures found.Some? ==> handlers[h].pc.InsertMessage? && handlers[h].conversation == found
      ensures found.None? ==> old(handlers[h].pc.FindConversation?) && handlers[h].pc.InsertConversation?
    {
      Yield(h);
      ContinuesStep(old(View()), View(), h);
      found := FindActiveConversation(h);
    }

    method CommitInTurn(h: nat)
      requires Valid() && h < |handlers| && handlers[h].pc.Commit?
      modifies this, limiter
      ensures Valid() && Continues(old(View()), View(), h)
      ensures handlers[h].pc.Enqueue?
    {
      Yield(h);
      ContinuesStep(old(View()), View(), h);
      CommitSession(h);
    }

    method DelayInTurn(h: nat)
      requires Valid() && h < |handlers| && handlers[h].pc.Enqueue?
      modifies this, limiter
      ensures Valid() && Continues(old(View()), View(), h)
      ensures handlers[h].pc.Accepted? && DeliveryOf(h, handlers[h]) in queue
    {
      Yield(h);
      ContinuesStep(old(View()), View(), h);
      Delay(h);
    }

    /** get_or_create_conversation. After a conflict and its rollback the second select cannot come
        back empty, so the RuntimeError is never raised. */
    method GetOrCreateConversation(h: nat) returns (conversation: nat)
      requires Valid() && h < |handlers| && handlers[h].pc.FindConversation?
      modifies this, limiter
      ensures Valid() && Continues(old(View()), View(), h)
      ensures handlers[h].pc.InsertMessage? && handlers[h].conversation == Some(conversation)
    {
      var found := FindInTurn(h);
      if found.Some? {
        return found.value;
      }
      ghost var s := View();
      var inserted := InsertConversationInTurn(h);
      ContinuesTransitive(old(View()), s, View(), h);
      if inserted {
        return handlers[h].draw;
      }
      s := View();
      RollbackInTurn(h);
      ContinuesTransitive(old(View()), s, View(), h);
      s := View();
      found := FindInTurn(h);
      ContinuesTransitive(old(View()), s, View(), h);
      return found.value;
    }

    /** store_inbound_message: false when the message turns out to be stored already. */
    method StoreInboundMessage(h: nat) returns (stored: bool)
      requires Valid() && h < |handlers| && handlers[h].pc.InsertMessage?
      modifies this, limiter
      ensures Valid() && Continues(old(View()), View(), h)
      ensures handlers[h].pc == if stored then Commit else Duplicate
    {
      stored := InsertMessageInTurn(h);
      if !stored {
        ghost var s := View();
        RollbackInTurn(h);
        ContinuesTransitive(old(View()), s, View(), h);
      }
    }

    /** whatsapp_webhook, steps 3 to 10, for a request that has just arrived. However the others
        interleave: the answer is 403 exactly when the number is not on the whitelist, 429 exactly when
        the rate limiter has no room at that call, and nothing is stored then. Otherwise it is "OK",
        the message is stored, and its task is queued unless the message was a duplicate; it never
        fails. */
    method WhatsappWebhook(h: nat, now: real) returns (response: Response)
      requires Valid() && Enabled(View(), Arrive(h, now))
      modifies this, limiter
      ensures Valid() && Continues(old(View()), View(), h)
      ensures response.Http403? <==> gate.allowedNumbers != {} && handlers[h].inbound.sender.user !in gate.allowedNumbers
      ensures response.Http429? <==>
                && (gate.allowedNumbers == {} || handlers[h].inbound.sender.user in gate.allowedNumbers)
                && !HasRoom(gate.limit, old(limiter.requests), Check(handlers[h].inbound.sender.user, now))
      ensures !response.Ok? ==> handlers[h].pc == if response.Http403? then Forbidden else RateLimited
      ensures !response.Ok? ==> View().tables == old(View().tables) && queue == old(queue)
      ensures response.Http403? ==> limiter.requests == old(limiter.requests)
      ensures response.Ok? ==> exists m :: m in messages && m.messageId == handlers[h].inbound.messageId
      ensures response.Ok? ==> handlers[h].pc.Duplicate? || (handlers[h].pc.Accepted? && DeliveryOf(h, handlers[h]) in queue)
    {
      ReachesItself(View());
      ReachesStep(View(), View(), Arrive(h, now));
      response := Admit(h, now);
      if response.Ok? {
        ghost var s := View();
        ServeAdmitted(h);
        ContinuesTransitive(old(View()), s, View(), h);
      }
    }

    /** Steps 5 to 9. */
    method ServeAdmitted(h: nat)
      requires Valid() && h < |handlers| && handlers[h].pc.CheckDuplicate?
      modifies this, limiter
      ensures Valid() && Continues(old(View()), View(), h)
      ensures exists m :: m in messages && m.messageId == handlers[h].inbound.messageId
      ensures handlers[h].pc.Duplicate? || (handlers[h].pc.Accepted? && DeliveryOf(h, handlers[h]) in queue)
    {
      Yield(h);
      ContinuesStep(old(View()), View(), h);
      var known := MessageExists(h);
      if !known {
        ghost var s := View();
        ServeNewMessage(h);
        ContinuesTransitive(old(View()), s, View(), h);
      }
    }

    /** Steps 6 to 9. */
    method ServeNewMessage(h: nat)
      requires Valid() && h < |handlers| && handlers[h].pc.FindConversation?
      modifies this, limiter
      ensures Valid() && Continues(old(View()), View(), h)
      ensures exists m :: m in messages && m.messageId == handlers[h].inbound.messageId
      ensures handlers[h].pc.Duplicate? || (handlers[h].pc.Accepted? && DeliveryOf(h, handlers[h]) in queue)
    {
      var _ := GetOrCreateConversation(h);
      ghost var s := View();
      var stored := StoreInboundMessage(h);
      ContinuesTransitive(old(View()), s, View(), h);
      if stored {
        s := View();
        CommitAndQueue(h);
        ContinuesTransitive(old(View()), s, View(), h);
      }
      DoneIsKnown(View(), h);
    }

    /** Steps 8 and 9. */
    method CommitAndQueue(h: nat)
      requires Valid() && h < |handlers| && handlers[h].pc.Commit?
      modifies this, limiter
      ensures Valid() && Continues(old(View()), View(), h)
      ensures handlers[h].pc.Accepted? && DeliveryOf(h, handlers[h]) in queue
    {
      CommitInTurn(h);
      ghost var s := View();
      DelayInTurn(h);
      ContinuesTransitive(old(View()), s, View(), h);
    }
  }

  lemma DoneIsKnown(s: State, h: nat)
    requires Inv(s) && h < |s.handlers| && (s.handlers[h].pc.Duplicate? || s.handlers[h].pc.Accepted?)
    ensures exists m :: m in s.tables.messages && m.messageId == s.handlers[h].inbound.messageId
  {
    assert HandlerOk(s.tables, s.handlers[h]);
  }
}
