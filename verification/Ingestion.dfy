/** Webhook ingestion: many handlers, each a sequence of atomic statements against shared tables.

    The database follows PostgreSQL at READ COMMITTED: a select sees the committed rows and the
    handler's own pending rows; an insert of a unique key fails if the key is committed, waits
    while another open transaction has inserted it, and is pending otherwise; a rollback drops the
    handler's pending rows; a commit publishes them. */
module Ingestion {
  import opened Options
  import opened RateLimiting

  datatype UserKey = UserKey(platform: string, user: string)

  datatype Inbound = Inbound(sender: UserKey, messageId: string, content: string)

  datatype Conversation = Conversation(id: nat, owner: UserKey, isActive: bool)

  datatype MessageRow = MessageRow(messageId: string, conversation: nat, content: string)

  datatype Tables = Tables(conversations: seq<Conversation>, messages: seq<MessageRow>)

  datatype Task = Task(conversation: nat, content: string, user: string)

  /** A task in the queue, and the handler that put it there. */
  datatype Delivery = Delivery(handler: nat, task: Task)

  /** The next statement of a handler, or how it ended. */
  datatype Pc =
    | Arrived
    | CheckDuplicate
    | FindConversation
    | InsertConversation
    | UndoConversation
    | FindAgain
    | InsertMessage
    | UndoMessage
    | Commit
    | Enqueue
    | Forbidden
    | RateLimited
    | Duplicate
    | Accepted
    | Failed
    | Stopped(afterCommit: bool)

  /** One request. `draw` is the id it would give a new conversation (a random UUID). */
  datatype Handler = Handler(
    inbound: Inbound,
    draw: nat,
    pc: Pc,
    conversation: Option<nat>,
    newConversations: seq<Conversation>,
    newMessages: seq<MessageRow>)

  /** The whitelist (empty: everyone) and the rate limit. */
  datatype Gate = Gate(allowedNumbers: set<string>, limit: Config)

  /** `commits`, `checks` and `arrivals` are history: the handlers in commit order, the calls of the
      rate limiter in order, and the handler of each call. */
  datatype State = State(
    gate: Gate,
    tables: Tables,
    handlers: seq<Handler>,
    queue: seq<Delivery>,
    limiter: Table,
    clock: real,
    commits: seq<nat>,
    checks: seq<Check>,
    arrivals: seq<nat>)

  datatype Action = Arrive(handler: nat, now: real) | Run(handler: nat) | Stop(handler: nat)

  predicate Finished(pc: Pc) {
    pc.Forbidden? || pc.RateLimited? || pc.Duplicate? || pc.Accepted? || pc.Failed? || pc.Stopped?
  }

  predicate Committed(pc: Pc) {
    pc.Enqueue? || pc.Accepted? || (pc.Stopped? && pc.afterCommit)
  }

  // --- Queries ---

  predicate HasActive(conversations: seq<Conversation>, user: UserKey) {
    exists c :: c in conversations && c.owner == user && c.isActive
  }

  predicate Known(messages: seq<MessageRow>, messageId: string) {
    exists m :: m in messages && m.messageId == messageId
  }

  datatype Lookup = NoRow | OneRow(id: nat) | ManyRows

  /** scalar_one_or_none over the active conversations of the user. */
  function FindActive(conversations: seq<Conversation>, user: UserKey): Lookup {
    if conversations == [] then NoRow
    else
      var before := FindActive(conversations[..|conversations| - 1], user);
      var last := conversations[|conversations| - 1];
      if !(last.owner == user && last.isActive) then before
      else if before.NoRow? then OneRow(last.id)
      else ManyRows
  }

  function VisibleConversations(s: State, h: nat): seq<Conversation>
    requires h < |s.handlers|
  {
    s.tables.conversations + s.handlers[h].newConversations
  }

  function VisibleMessages(s: State, h: nat): seq<MessageRow>
    requires h < |s.handlers|
  {
    s.tables.messages + s.handlers[h].newMessages
  }

  // --- Statements ---

  /** Handler h has inserted a key that handler k wants to insert, and has not committed yet. */
  predicate Blocks(h: Handler, k: Handler) {
    || (k.pc.InsertConversation? && HasActive(h.newConversations, k.inbound.sender))
    || (k.pc.InsertMessage? && Known(h.newMessages, k.inbound.messageId))
  }

  /** The key that the handler wants to insert is already committed. */
  predicate Violates(t: Tables, h: Handler) {
    || (h.pc.InsertConversation? && HasActive(t.conversations, h.inbound.sender))
    || (h.pc.InsertMessage? && Known(t.messages, h.inbound.messageId))
  }

  /** The number is on the whitelist (empty: everyone is). */
  predicate Whitelisted(gate: Gate, user: string) {
    gate.allowedNumbers == {} || user in gate.allowedNumbers
  }

  predicate Waiting(s: State, k: nat)
    requires k < |s.handlers|
  {
    !Violates(s.tables, s.handlers[k]) && exists h :: 0 <= h < |s.handlers| && h != k && Blocks(s.handlers[h], s.handlers[k])
  }

  predicate Enabled(s: State, a: Action) {
    && a.handler < |s.handlers|
    && !Finished(s.handlers[a.handler].pc)
    && match a
       case Arrive(h, now) => s.handlers[h].pc.Arrived? && now >= s.clock
       case Run(h) => !s.handlers[h].pc.Arrived? && !Waiting(s, h)
       case Stop(_) => true
  }

  function NewConversation(h: Handler): Conversation {
    Conversation(h.draw, h.inbound.sender, true)
  }

  /** The handler after its next statement, given what it sees. */
  function Stepped(h: Handler, conversations: seq<Conversation>, messages: seq<MessageRow>): Handler {
    match h.pc
    case CheckDuplicate =>
      if Known(messages, h.inbound.messageId) then h.(pc := Duplicate) else h.(pc := FindConversation)
    case FindConversation =>
      (match FindActive(conversations, h.inbound.sender)
       case OneRow(id) => h.(pc := InsertMessage, conversation := Some(id))
       case NoRow => h.(pc := InsertConversation)
       case ManyRows => h.(pc := Failed))
    case InsertConversation =>
      if HasActive(conversations, h.inbound.sender) then h.(pc := UndoConversation)
      else h.(pc := InsertMessage, conversation := Some(h.draw), newConversations := h.newConversations + [NewConversation(h)])
    case UndoConversation =>
      h.(pc := FindAgain, newConversations := [], newMessages := [])
    case FindAgain =>
      (match FindActive(conversations, h.inbound.sender)
       case OneRow(id) => h.(pc := InsertMessage, conversation := Some(id))
       case NoRow => h.(pc := Failed)
       case ManyRows => h.(pc := Failed))
    case InsertMessage =>
      if h.conversation.None? then h.(pc := Failed)
      else if Known(messages, h.inbound.messageId) then h.(pc := UndoMessage)
      else h.(pc := Commit, newMessages := h.newMessages + [MessageRow(h.inbound.messageId, h.conversation.value, h.inbound.content)])
    case UndoMessage =>
      h.(pc := Duplicate, newConversations := [], newMessages := [])
    case Commit =>
      h.(pc := Enqueue, newConversations := [], newMessages := [])
    case Enqueue =>
      h.(pc := Accepted)
    case _ => h
  }

  /** process_whatsapp_message.delay(...) */
  function DeliveryOf(k: nat, h: Handler): Delivery {
    Delivery(k, Task(if h.conversation.Some? then h.conversation.value else 0, h.inbound.content, h.inbound.sender.user))
  }

  function RunStep(s: State, h: nat): State
    requires h < |s.handlers|
  {
    var before := s.handlers[h];
    var after := Stepped(before, VisibleConversations(s, h), VisibleMessages(s, h));
    var s' := s.(handlers := s.handlers[h := after]);
    match before.pc
    case Commit =>
      s'.(tables := Tables(s.tables.conversations + before.newConversations, s.tables.messages + before.newMessages),
          commits := s.commits + [h])
    case Enqueue => s'.(queue := s.queue + [DeliveryOf(h, before)])
    case _ => s'
  }

  /** Whitelist, then rate limit. */
  function ArriveStep(s: State, h: nat, now: real): State
    requires h < |s.handlers|
  {
    var before := s.handlers[h];
    var user := before.inbound.sender.user;
    if !Whitelisted(s.gate, user) then
      s.(handlers := s.handlers[h := before.(pc := Forbidden)])
    else
      var check := Check(user, now);
      var pc := if HasRoom(s.gate.limit, s.limiter, check) then CheckDuplicate else RateLimited;
      s.(handlers := s.handlers[h := before.(pc := pc)],
         limiter := Recorded(s.gate.limit, s.limiter, check),
         clock := now,
         checks := s.checks + [check],
         arrivals := s.arrivals + [h])
  }

  /** The process dies or the connection is lost: pending rows are rolled back. */
  function StopStep(s: State, h: nat): State
    requires h < |s.handlers|
  {
    var before := s.handlers[h];
    s.(handlers := s.handlers[h := before.(pc := Stopped(before.pc.Enqueue?), newConversations := [], newMessages := [])])
  }

  function Next(s: State, a: Action): State
    requires Enabled(s, a)
  {
    match a
    case Arrive(h, now) => ArriveStep(s, h, now)
    case Run(h) => RunStep(s, h)
    case Stop(h) => StopStep(s, h)
  }

  // --- Runs ---

  ghost predicate Runs(s: State, actions: seq<Action>)
    decreases |actions|
  {
    actions == [] || (Enabled(s, actions[0]) && Runs(Next(s, actions[0]), actions[1..]))
  }

  ghost function Exec(s: State, actions: seq<Action>): State
    requires Runs(s, actions)
    decreases |actions|
  {
    if actions == [] then s else Exec(Next(s, actions[0]), actions[1..])
  }

  /** The unique constraints of the two tables, the primary key of conversations and the foreign key
      of messages. */
  ghost predicate TablesOk(t: Tables) {
    && (forall i, j :: 0 <= i < j < |t.conversations| ==>
          t.conversations[i].id != t.conversations[j].id
          && !(t.conversations[i].isActive && t.conversations[j].isActive && t.conversations[i].owner == t.conversations[j].owner))
    && (forall i, j :: 0 <= i < j < |t.messages| ==> t.messages[i].messageId != t.messages[j].messageId)
    && (forall m :: m in t.messages ==> UsesId(t.conversations, m.conversation))
  }

  predicate UsesId(conversations: seq<Conversation>, id: nat) {
    exists c :: c in conversations && c.id == id
  }

  /** Any tables that meet the constraints, any number of requests that have just arrived, and
      conversation ids drawn without collision. */
  ghost predicate Initial(s: State) {
    && TablesOk(s.tables)
    && (forall k :: 0 <= k < |s.handlers| ==>
          && s.handlers[k].pc.Arrived? && s.handlers[k].newConversations == [] && s.handlers[k].newMessages == []
          && !UsesId(s.tables.conversations, s.handlers[k].draw))
    && (forall j, k :: 0 <= j < k < |s.handlers| ==> s.handlers[j].draw != s.handlers[k].draw)
    && s.queue == [] && s.commits == [] && s.checks == [] && s.arrivals == [] && s.limiter == map[]
  }
}
