/** Any interleaving of webhook handlers has the effect of serving the committing requests one at a
    time, in commit order. */
module IngestionSerial {
  import opened Options
  import opened Ingestion
  import opened IngestionInvariant

  datatype World = World(tables: Tables, queue: seq<Delivery>)

  /** One request served alone: a known message changes nothing; otherwise its row is stored under
      the sender's active conversation, which is created if there is none, and its task is queued. */
  function Serve(w: World, k: nat, request: Handler): World {
    var t, inbound := w.tables, request.inbound;
    if Known(t.messages, inbound.messageId) then w
    else
      match FindActive(t.conversations, inbound.sender)
      case ManyRows => w
      case OneRow(id) => Accept(w, k, request, id, [])
      case NoRow => Accept(w, k, request, request.draw, [NewConversation(request)])
  }

  function Accept(w: World, k: nat, request: Handler, conversation: nat, created: seq<Conversation>): World {
    var row := MessageRow(request.inbound.messageId, conversation, request.inbound.content);
    World(Tables(w.tables.conversations + created, w.tables.messages + [row]),
          w.queue + [DeliveryOf(k, request.(conversation := Some(conversation)))])
  }

  ghost predicate ValidOrder(order: seq<nat>, n: nat) {
    forall i :: 0 <= i < |order| ==> order[i] < n
  }

  /** The requests served one after the other. */
  ghost function Replay(w: World, requests: seq<Handler>, order: seq<nat>): World
    requires ValidOrder(order, |requests|)
  {
    if order == [] then w
    else
      var k := order[|order| - 1];
      Serve(Replay(w, requests, order[..|order| - 1]), k, requests[k])
  }

  predicate Owes(pc: Pc) {
    pc.Enqueue? || (pc.Stopped? && pc.afterCommit)
  }

  /** The task of a handler that committed but has not queued it (yet, or ever). */
  function Debt(k: nat, h: Handler): multiset<Delivery> {
    if Owes(h.pc) then multiset{DeliveryOf(k, h)} else multiset{}
  }

  function Debts(handlers: seq<Handler>): seq<multiset<Delivery>> {
    seq(|handlers|, k requires 0 <= k < |handlers| => Debt(k, handlers[k]))
  }

  function Sum(debts: seq<multiset<Delivery>>): multiset<Delivery> {
    if debts == [] then multiset{} else Sum(debts[..|debts| - 1]) + debts[|debts| - 1]
  }

  /** All tasks owed by the handlers. */
  function Outstanding(handlers: seq<Handler>): multiset<Delivery> {
    Sum(Debts(handlers))
  }

  /** The handlers still serve the requests they started with. */
  ghost predicate SameRequests(s0: State, s: State) {
    && |s.handlers| == |s0.handlers|
    && (forall k :: 0 <= k < |s.handlers| ==> SameRequest(s0.handlers[k], s.handlers[k]))
    && ValidOrder(s.commits, |s0.handlers|)
  }

  predicate SameRequest(g: Handler, h: Handler) {
    g.inbound == h.inbound && g.draw == h.draw
  }

  /** The committed handlers served one at a time, in commit order. */
  ghost function Serial(s0: State, commits: seq<nat>): World
    requires ValidOrder(commits, |s0.handlers|)
  {
    Replay(World(s0.tables, []), s0.handlers, commits)
  }

  /** What the state has in common with the serial run of its committed handlers. */
  ghost predicate Agrees(s0: State, s: State) {
    && SameRequests(s0, s)
    && s.tables == Serial(s0, s.commits).tables
    && QueueAgrees(Serial(s0, s.commits).queue, s.queue, s.handlers)
    && |Serial(s0, s.commits).queue| == |s.commits|
    && |s.tables.messages| == |s0.tables.messages| + |s.commits|
  }

  ghost predicate QueueAgrees(serial: seq<Delivery>, queue: seq<Delivery>, handlers: seq<Handler>) {
    multiset(serial) == multiset(queue) + Outstanding(handlers)
  }

  /** At its commit, a handler has computed exactly what serving it alone would do now. */
  lemma CommitServes(t: Tables, queue: seq<Delivery>, k: nat, h: Handler, request: Handler)
    requires TablesOk(t) && HandlerOk(t, h) && h.pc.Commit? && SameRequest(request, h)
    ensures Serve(World(t, queue), k, request) ==
            World(CommittedTables(t, h), queue + [DeliveryOf(k, h)])
  {
    if h.newConversations == [] {
      LookupIsUnique(t, h.inbound.sender, h.conversation.value);
      assert t.conversations + [] == t.conversations;
    } else {
      FindActiveFacts(t.conversations, h.inbound.sender);
    }
  }

  /** Adding the same bag to both sides of an equation, and taking it away again. */
  lemma AddToBoth(p: multiset<Delivery>, q: multiset<Delivery>, r: multiset<Delivery>, t: multiset<Delivery>, more: multiset<Delivery>)
    ensures p + q == r + t <==> (p + more) + q == (r + more) + t
  {
    if (p + more) + q == (r + more) + t {
      forall x
        ensures (p + q)[x] == (r + t)[x]
      {
        assert ((p + more) + q)[x] == ((r + more) + t)[x];
      }
      assert p + q == r + t;
    }
    if p + q == r + t {
      forall x
        ensures ((p + more) + q)[x] == ((r + more) + t)[x]
      {
        assert (p + q)[x] == (r + t)[x];
      }
      assert (p + more) + q == (r + more) + t;
    }
  }

  lemma {:induction false} SumUpdate(debts: seq<multiset<Delivery>>, h: nat, debt: multiset<Delivery>)
    requires h < |debts|
    ensures Sum(debts[h := debt]) + debts[h] == Sum(debts) + debt
  {
    var front := debts[..|debts| - 1];
    if h == |debts| - 1 {
      assert debts[h := debt][..|debts| - 1] == front;
    } else {
      SumUpdate(front, h, debt);
      assert debts[h := debt][..|debts| - 1] == front[h := debt];
      AddToBoth(Sum(front[h := debt]), debts[h], Sum(front), debt, debts[|debts| - 1]);
    }
  }

  lemma OutstandingUpdate(handlers: seq<Handler>, h: nat, after: Handler)
    requires h < |handlers|
    ensures Outstanding(handlers[h := after]) + Debt(h, handlers[h]) == Outstanding(handlers) + Debt(h, after)
  {
    SumUpdate(Debts(handlers), h, Debt(h, after));
    assert Debts(handlers[h := after]) == Debts(handlers)[h := Debt(h, after)];
  }

  lemma InitialAgrees(s: State)
    requires Initial(s)
    ensures Agrees(s, s)
  {
    NothingOutstanding(s.handlers);
  }

  lemma NothingOutstanding(handlers: seq<Handler>)
    requires forall k :: 0 <= k < |handlers| ==> !Owes(handlers[k].pc)
    ensures Outstanding(handlers) == multiset{}
  {
    SumOfNone(Debts(handlers));
  }

  lemma {:induction false} SumOfNone(debts: seq<multiset<Delivery>>)
    requires forall k :: 0 <= k < |debts| ==> debts[k] == multiset{}
    ensures Sum(debts) == multiset{}
  {
    if debts != [] {
      SumOfNone(debts[..|debts| - 1]);
    }
  }

  lemma ReplayOneMore(w: World, requests: seq<Handler>, order: seq<nat>, k: nat)
    requires k < |requests| && ValidOrder(order, |requests|)
    ensures Replay(w, requests, order + [k]) == Serve(Replay(w, requests, order), k, requests[k])
  {
    assert (order + [k])[..|order|] == order;
  }

  /** Agreement with the serial run survives every step. */
  lemma StepKeepsAgreement(s0: State, s: State, a: Action)
    requires Inv(s) && Agrees(s0, s) && Enabled(s, a)
    ensures Agrees(s0, Next(s, a))
  {
    if a.Run? && s.handlers[a.handler].pc.Commit? {
      CommitKeepsAgreement(s0, s, a.handler);
    } else {
      OtherStepKeepsAgreement(s0, s, a);
    }
  }

  lemma CommitKeepsAgreement(s0: State, s: State, h: nat)
    requires Inv(s) && Agrees(s0, s) && h < |s.handlers| && s.handlers[h].pc.Commit?
    ensures Agrees(s0, RunStep(s, h))
  {
    var before := s.handlers[h];
    var after := before.(pc := Enqueue, newConversations := [], newMessages := []);
    var s' := RunStep(s, h);
    var w := Serial(s0, s.commits);
    assert HandlerOk(s.tables, before) && SameRequest(s0.handlers[h], before);
    assert s'.handlers == s.handlers[h := after] && s'.tables == CommittedTables(s.tables, before);
    assert s'.commits == s.commits + [h] && s'.queue == s.queue;
    CommitServes(s.tables, w.queue, h, before, s0.handlers[h]);
    ReplayOneMore(World(s0.tables, []), s0.handlers, s.commits, h);
    assert Serial(s0, s'.commits) == World(CommittedTables(s.tables, before), w.queue + [DeliveryOf(h, before)]);
    QueueAfterCommit(w.queue, s.queue, s.handlers, h, after);
  }

  lemma QueueAfterCommit(serial: seq<Delivery>, queue: seq<Delivery>, handlers: seq<Handler>, h: nat, after: Handler)
    requires h < |handlers| && QueueAgrees(serial, queue, handlers)
    requires !Owes(handlers[h].pc) && Owes(after.pc) && DeliveryOf(h, after) == DeliveryOf(h, handlers[h])
    ensures QueueAgrees(serial + [DeliveryOf(h, handlers[h])], queue, handlers[h := after])
  {
    OutstandingUpdate(handlers, h, after);
    var d := multiset{DeliveryOf(h, after)};
    assert multiset(serial + [DeliveryOf(h, after)]) == multiset(serial) + d;
    assert Outstanding(handlers[h := after]) + multiset{} == Outstanding(handlers[h := after]);
    Rearrange(multiset(queue), Outstanding(handlers), d);
  }

  lemma QueueAfterEnqueue(serial: seq<Delivery>, queue: seq<Delivery>, handlers: seq<Handler>, h: nat, after: Handler)
    requires h < |handlers| && QueueAgrees(serial, queue, handlers)
    requires Owes(handlers[h].pc) && !Owes(after.pc)
    ensures QueueAgrees(serial, queue + [DeliveryOf(h, handlers[h])], handlers[h := after])
  {
    var d := DeliveryOf(h, handlers[h]);
    OutstandingUpdate(handlers, h, after);
    assert multiset(queue + [d]) == multiset(queue) + multiset{d};
    Rearrange(multiset(queue), Outstanding(handlers[h := after]), multiset{d});
  }

  lemma QueueAfterOther(serial: seq<Delivery>, queue: seq<Delivery>, handlers: seq<Handler>, h: nat, after: Handler)
    requires h < |handlers| && QueueAgrees(serial, queue, handlers)
    requires Debt(h, handlers[h]) == Debt(h, after)
    ensures QueueAgrees(serial, queue, handlers[h := after])
  {
    OutstandingUpdate(handlers, h, after);
    Cancel(Outstanding(handlers[h := after]), Outstanding(handlers), Debt(h, after));
  }

  lemma Cancel(p: multiset<Delivery>, q: multiset<Delivery>, d: multiset<Delivery>)
    requires p + d == q + d
    ensures p == q
  {
    forall x
      ensures p[x] == q[x]
    {
      assert (p + d)[x] == (q + d)[x];
    }
  }

  lemma Rearrange(p: multiset<Delivery>, q: multiset<Delivery>, d: multiset<Delivery>)
    ensures p + (q + d) == (p + d) + q == (p + q) + d
  {
  }

  lemma OtherStepKeepsAgreement(s0: State, s: State, a: Action)
    requires Inv(s) && Agrees(s0, s) && Enabled(s, a)
    requires !(a.Run? && s.handlers[a.handler].pc.Commit?)
    ensures Agrees(s0, Next(s, a))
  {
    var h, s' := a.handler, Next(s, a);
    var after := s'.handlers[h];
    var serial := Serial(s0, s.commits).queue;
    OtherStepEffect(s, a);
    assert SameRequests(s0, s');
    if a.Run? && s.handlers[h].pc.Enqueue? {
      QueueAfterEnqueue(serial, s.queue, s.handlers, h, after);
    } else {
      QueueAfterOther(serial, s.queue, s.handlers, h, after);
    }
  }

  /** A step that is not a commit changes one handler, and the queue if it is an enqueue. */
  lemma OtherStepEffect(s: State, a: Action)
    requires Enabled(s, a) && !(a.Run? && s.handlers[a.handler].pc.Commit?)
    ensures
      var h, s' := a.handler, Next(s, a);
      && |s'.handlers| == |s.handlers| && s'.handlers == s.handlers[h := s'.handlers[h]]
      && SameRequest(s.handlers[h], s'.handlers[h])
      && s'.tables == s.tables && s'.commits == s.commits
      && if a.Run? && s.handlers[h].pc.Enqueue?
         then s'.queue == s.queue + [DeliveryOf(h, s.handlers[h])] && !Owes(s'.handlers[h].pc)
         else s'.queue == s.queue && Debt(h, s.handlers[h]) == Debt(h, s'.handlers[h])
  {
    if a.Run? {
      SteppedFacts(s.handlers[a.handler], VisibleConversations(s, a.handler), VisibleMessages(s, a.handler));
    }
  }

  lemma SteppedFacts(h: Handler, conversations: seq<Conversation>, messages: seq<MessageRow>)
    requires !h.pc.Commit? && !Finished(h.pc)
    ensures
      var after := Stepped(h, conversations, messages);
      SameRequest(h, after) && !Owes(after.pc) && (Owes(h.pc) <==> h.pc.Enqueue?)
  {
  }

  lemma {:induction false} RunAgrees(s0: State, s: State, actions: seq<Action>)
    requires Inv(s) && Agrees(s0, s) && Runs(s, actions)
    ensures Inv(Exec(s, actions)) && Agrees(s0, Exec(s, actions))
    decreases |actions|
  {
    if actions != [] {
      StepKeepsInv(s, actions[0]);
      StepKeepsAgreement(s0, s, actions[0]);
      RunAgrees(s0, Next(s, actions[0]), actions[1..]);
    }
  }

  /** Serializability, at every point of every interleaving: the tables are those of the serial run
      in commit order, and its tasks are the queued ones plus those still owed. */
  lemma IngestionIsSerializable(s0: State, actions: seq<Action>)
    requires Initial(s0) && Runs(s0, actions)
    ensures Agrees(s0, Exec(s0, actions))
  {
    InitialInv(s0);
    InitialAgrees(s0);
    RunAgrees(s0, s0, actions);
  }

  /** Conservation: every stored row is a queued task, or a task that a handler standing or stopped
      between commit and enqueue owes. */
  lemma RowsAreTasksOrOwed(s0: State, actions: seq<Action>)
    requires Initial(s0) && Runs(s0, actions)
    ensures
      var s := Exec(s0, actions);
      |s.tables.messages| - |s0.tables.messages| == |s.queue| + |Outstanding(s.handlers)|
  {
    IngestionIsSerializable(s0, actions);
    var s := Exec(s0, actions);
    var w := Serial(s0, s.commits);
    assert |multiset(w.queue)| == |multiset(s.queue)| + |Outstanding(s.handlers)|;
  }

  /** When all handlers are done and none was stopped, the outcome is that of one serial order of
      all requests that passed the gate: the committed ones, then the duplicates in any order. */
  lemma FinishedRunIsSerial(s0: State, actions: seq<Action>, duplicates: seq<nat>)
    requires Initial(s0) && Runs(s0, actions)
    requires AllDone(Exec(s0, actions)) && AreDuplicates(Exec(s0, actions), duplicates)
    ensures EndsLikeSerial(s0, Exec(s0, actions), duplicates)
  {
    InitialInv(s0);
    RunKeepsInv(s0, actions);
    IngestionIsSerializable(s0, actions);
    DoneIsSerial(s0, Exec(s0, actions), duplicates);
  }

  /** Every handler has finished, and none was stopped. */
  ghost predicate AllDone(s: State) {
    forall k :: 0 <= k < |s.handlers| ==> Finished(s.handlers[k].pc) && !s.handlers[k].pc.Stopped?
  }

  ghost predicate AreDuplicates(s: State, duplicates: seq<nat>) {
    forall i :: 0 <= i < |duplicates| ==> duplicates[i] < |s.handlers| && s.handlers[duplicates[i]].pc.Duplicate?
  }

  /** Tables and tasks are those of serving the committed requests, then the duplicates. */
  ghost predicate EndsLikeSerial(s0: State, s: State, duplicates: seq<nat>) {
    && |s.handlers| == |s0.handlers|
    && ValidOrder(s.commits + duplicates, |s0.handlers|)
    && var w := Serial(s0, s.commits + duplicates);
       s.tables == w.tables && multiset(s.queue) == multiset(w.queue)
  }

  lemma DoneIsSerial(s0: State, s: State, duplicates: seq<nat>)
    requires Inv(s) && Agrees(s0, s) && AllDone(s) && AreDuplicates(s, duplicates)
    ensures EndsLikeSerial(s0, s, duplicates)
  {
    DuplicatesChangeNothing(s0, s, duplicates);
    DoneOwesNothing(s);
  }

  lemma DoneOwesNothing(s: State)
    requires AllDone(s)
    ensures Outstanding(s.handlers) == multiset{}
  {
    NothingOutstanding(s.handlers);
  }

  lemma DuplicatesChangeNothing(s0: State, s: State, duplicates: seq<nat>)
    requires Inv(s) && Agrees(s0, s)
    requires AreDuplicates(s, duplicates)
    ensures ValidOrder(s.commits + duplicates, |s0.handlers|)
    ensures Serial(s0, s.commits + duplicates) == Serial(s0, s.commits)
  {
    forall i | 0 <= i < |duplicates|
      ensures Known(s.tables.messages, s0.handlers[duplicates[i]].inbound.messageId)
    {
      var k := duplicates[i];
      assert HandlerOk(s.tables, s.handlers[k]) && SameRequest(s0.handlers[k], s.handlers[k]);
    }
    KnownAreNotServed(World(s0.tables, []), s0.handlers, s.commits, duplicates);
  }

  /** Serving requests whose messages are known changes nothing. */
  lemma {:induction false} KnownAreNotServed(w: World, requests: seq<Handler>, order: seq<nat>, known: seq<nat>)
    requires ValidOrder(order, |requests|) && ValidOrder(known, |requests|)
    requires
      var after := Replay(w, requests, order);
      forall i :: 0 <= i < |known| ==> Known(after.tables.messages, requests[known[i]].inbound.messageId)
    ensures ValidOrder(order + known, |requests|)
    ensures Replay(w, requests, order + known) == Replay(w, requests, order)
  {
    if known == [] {
      assert order + known == order;
    } else {
      var front, k := known[..|known| - 1], known[|known| - 1];
      KnownAreNotServed(w, requests, order, front);
      assert order + known == (order + front) + [k];
      ReplayOneMore(w, requests, order + front, k);
    }
  }
}
