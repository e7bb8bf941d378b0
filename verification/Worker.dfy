/** The worker: one task from the queue, from loading the conversation to commit or rollback. */
module Worker {
  import opened Options
  import opened Formatter
  import opened Splitter
  import opened Runner

  const WHATSAPP_MAX_LENGTH := 1600
  const ERROR_NOTICE := "Sorry, something went wrong while processing your message. Please try again in a moment."

  /** The columns of a conversation row that the worker uses. */
  datatype SessionState = SessionState(sessionId: Option<string>, workingDirectory: string)

  datatype Status = Sent | FailedToSend

  datatype OutboundRow = OutboundRow(conversation: nat, content: string, status: Status)

  datatype Store = Store(conversations: map<nat, SessionState>, outbound: seq<OutboundRow>)

  /** The arguments of the task. */
  datatype Job = Job(conversation: nat, content: string, user: string)

  datatype Post = Post(recipient: string, body: string)

  /** Everything the task meets outside: the CLI's attempts, which post is accepted, and which of the
      database calls raise. */
  datatype Surroundings = Surroundings(
    maxTurns: int,
    attempts: nat -> Attempt,
    accepts: nat -> bool,
    sessionFlushRaises: bool,
    outboundFlushRaises: bool,
    commitRaises: bool)

  // --- Specification of one task ---

  function InvocationFor(job: Job, conversation: SessionState, around: Surroundings): Invocation {
    Invocation(job.content, conversation.sessionId, conversation.workingDirectory, around.maxTurns)
  }

  function FinalAttempt(around: Surroundings): Attempt {
    around.attempts(Attempts(around.attempts, 0, MAX_RETRIES) - 1)
  }

  predicate NewSession(result: ClaudeResult) {
    result.sessionId.Some? && result.sessionId.value != ""
  }

  function Updated(conversation: SessionState, result: ClaudeResult): SessionState {
    if NewSession(result) then conversation.(sessionId := result.sessionId) else conversation
  }

  function ResponseText(result: ClaudeResult): string {
    if result.success then Format(result.output)
    else "Sorry, I encountered an error: " + if result.errorMessage.Some? then result.errorMessage.value else "None"
  }

  /** How many posts succeed, from post i on, before one is refused or all are through. */
  function AcceptedUpTo(accepts: nat -> bool, i: nat, n: nat): (k: nat)
    requires i <= n
    ensures i <= k <= n
    decreases n - i
  {
    if i == n || !accepts(i) then i else AcceptedUpTo(accepts, i + 1, n)
  }

  function PostsTo(user: string, bodies: seq<string>): seq<Post> {
    seq(|bodies|, i requires 0 <= i < |bodies| => Post(user, bodies[i]))
  }

  /** The parts of the response that reach the user. */
  function Delivered(text: string, around: Surroundings): seq<string> {
    var parts := Split(text, WHATSAPP_MAX_LENGTH);
    parts[..AcceptedUpTo(around.accepts, 0, |parts|)]
  }

  /** The row that records the response. */
  function Record(job: Job, text: string, around: Surroundings): OutboundRow {
    var parts := Split(text, WHATSAPP_MAX_LENGTH);
    OutboundRow(job.conversation, text, if AcceptedUpTo(around.accepts, 0, |parts|) == |parts| then Sent else FailedToSend)
  }

  /** The task gets as far as sending its response. */
  predicate Responds(around: Surroundings) {
    && FinalAttempt(around).Returned?
    && !(NewSession(FinalAttempt(around).result) && around.sessionFlushRaises)
  }

  function ResponseIn(around: Surroundings): string
    requires Responds(around)
  {
    ResponseText(FinalAttempt(around).result)
  }

  predicate HasConversation(store: Store, job: Job) {
    job.conversation in store.conversations
  }

  function CallsOfTask(store: Store, job: Job, around: Surroundings): seq<Invocation> {
    if HasConversation(store, job) then
      var invocation := InvocationFor(job, store.conversations[job.conversation], around);
      seq(Attempts(around.attempts, 0, MAX_RETRIES), _ => invocation)
    else []
  }

  function BodiesOfTask(store: Store, job: Job, around: Surroundings): seq<string> {
    if HasConversation(store, job) && Responds(around) then Delivered(ResponseIn(around), around) else []
  }

  /** process_message ends without an exception. */
  predicate Processes(store: Store, job: Job, around: Surroundings) {
    HasConversation(store, job) ==> Responds(around) && !around.outboundFlushRaises
  }

  function Processed(store: Store, job: Job, around: Surroundings): Store
    requires Processes(store, job, around)
  {
    if !HasConversation(store, job) then store
    else
      var conversation := Updated(store.conversations[job.conversation], FinalAttempt(around).result);
      Store(store.conversations[job.conversation := conversation], store.outbound + [Record(job, ResponseIn(around), around)])
  }

  predicate Completes(store: Store, job: Job, around: Surroundings) {
    Processes(store, job, around) && !around.commitRaises
  }

  /** The committed store after the task. */
  function StoreAfterTask(store: Store, job: Job, around: Surroundings): Store {
    if Completes(store, job, around) then Processed(store, job, around) else store
  }

  /** The worker: the committed store, the session's view of it, the messages that reached users, the
      error notices that were tried, and the CLI runs. */
  class Worker {
    var committed: Store
    var working: Store
    var posts: seq<Post>
    var notices: seq<Post>
    var calls: seq<Invocation>

    constructor (store: Store)
      ensures committed == working == store && posts == notices == [] && calls == []
    {
      committed, working := store, store;
      posts, notices, calls := [], [], [];
    }

    /** _send_whatsapp_response: posts the parts until one is refused. */
    method SendWhatsappResponse(user: string, text: string, accepts: nat -> bool) returns (sent: bool)
      modifies this`posts
      ensures
        var parts := Split(text, WHATSAPP_MAX_LENGTH);
        var k := AcceptedUpTo(accepts, 0, |parts|);
        posts == old(posts) + PostsTo(user, parts[..k]) && (sent <==> k == |parts|)
      ensures |posts| >= |old(posts)| && posts[..|old(posts)|] == old(posts)
      ensures DeliversPrefix(posts[|old(posts)|..], user, Split(text, 1600), accepts)
      ensures sent <==> |posts| - |old(posts)| == |Split(text, 1600)|
    {
      var parts := Split(text, WHATSAPP_MAX_LENGTH);
      assert posts == old(posts) + PostsTo(user, parts[..0]);
      for i := 0 to |parts|
        invariant posts == old(posts) + PostsTo(user, parts[..i])
        invariant AcceptedUpTo(accepts, 0, |parts|) == AcceptedUpTo(accepts, i, |parts|)
      {
        if !accepts(i) {
          PostsDeliver(user, parts, accepts);
          return false;
        }
        posts := posts + [Post(user, parts[i])];
        assert PostsTo(user, parts[..i + 1]) == PostsTo(user, parts[..i]) + [Post(user, parts[i])];
      }
      PostsDeliver(user, parts, accepts);
      return true;
    }

    /** Sends the text of a result and adds the outbound row. */
    method Respond(job: Job, text: string, around: Surroundings) returns (raised: bool)
      modifies this`working, this`posts
      ensures raised == around.outboundFlushRaises
      ensures posts == old(posts) + PostsTo(job.user, Delivered(text, around))
      ensures working == if raised then old(working)
                         else old(working).(outbound := old(working).outbound + [Record(job, text, around)])
    {
      var sent := SendWhatsappResponse(job.user, text, around.accepts);
      if around.outboundFlushRaises {
        return true;
      }
      var row := OutboundRow(job.conversation, text, if sent then Sent else FailedToSend);
      working := working.(outbound := working.outbound + [row]);
      return false;
    }

    /** Runs the CLI for the job, with retries. */
    method InvokeClaude(job: Job, conversation: SessionState, around: Surroundings) returns (last: Attempt)
      requires HasConversation(working, job) && conversation == working.conversations[job.conversation]
      modifies this`calls
      ensures last == FinalAttempt(around)
      ensures calls == old(calls) + CallsOfTask(working, job, around)
    {
      var invocation := InvocationFor(job, conversation, around);
      var runs, slept;
      last, runs, slept := InvokeWithRetry(invocation, around.attempts, MAX_RETRIES);
      calls := calls + runs;
      assert runs == CallsOfTask(working, job, around);
    }

    /** process_message. On an exception the working store is left as it stands. */
    method ProcessMessage(job: Job, around: Surroundings) returns (raised: bool)
      modifies this`working, this`posts, this`calls
      ensures raised == !Processes(old(working), job, around)
      ensures !raised ==> working == Processed(old(working), job, around)
      ensures posts == old(posts) + PostsTo(job.user, BodiesOfTask(old(working), job, around))
      ensures calls == old(calls) + CallsOfTask(old(working), job, around)
    {
      if job.conversation !in working.conversations {
        return false;
      }
      var conversation := working.conversations[job.conversation];
      var last := InvokeClaude(job, conversation, around);
      if last.Raised? {
        return true;
      }
      if NewSession(last.result) {
        conversation := conversation.(sessionId := last.result.sessionId);
      }
      working := working.(conversations := working.conversations[job.conversation := conversation]);
      if NewSession(last.result) && around.sessionFlushRaises {
        return true;
      }
      raised := Respond(job, ResponseText(last.result), around);
    }

    /** process_whatsapp_message: a fresh session, then commit, or rollback and an error notice. */
    method ProcessWhatsappMessage(job: Job, around: Surroundings) returns (completed: bool)
      modifies this
      ensures committed == StoreAfterTask(old(committed), job, around) && working == committed
      ensures completed == Completes(old(committed), job, around)
      ensures posts == old(posts) + PostsTo(job.user, BodiesOfTask(old(committed), job, around))
      ensures calls == old(calls) + CallsOfTask(old(committed), job, around)
      ensures notices == old(notices) + if completed then [] else [Post(job.user,
                "Sorry, something went wrong while processing your message. Please try again in a moment.")]
      ensures !completed ==> committed == old(committed)
      ensures !completed && posts != old(posts) ==>
                HasConversation(committed, job) && Responds(around) && (around.outboundFlushRaises || around.commitRaises)
    {
      working := committed;
      var raised := ProcessMessage(job, around);
      if !raised && !around.commitRaises {
        committed := working;
        return true;
      }
      working := committed;
      notices := notices + [Post(job.user, ERROR_NOTICE)];
      return false;
    }

    method TakeTask(t: Execution)
      modifies this
      ensures committed == StoreAfterTask(old(committed), t.job, t.around)
      ensures posts == old(posts) + PostsOfTask(old(committed), t)
    {
      var _ := ProcessWhatsappMessage(t.job, t.around);
    }

    /** The queue hands the worker one task after the other. */
    method WorkThrough(tasks: seq<Execution>)
      modifies this
      ensures committed == StoreAfter(old(committed), tasks, |tasks|)
      ensures posts == old(posts) + Flatten(SharesOfRun(old(committed), tasks, |tasks|))
    {
      ghost var store, sent, shares := committed, posts, [];
      for i := 0 to |tasks|
        invariant committed == StoreAfter(store, tasks, i) && shares == SharesOfRun(store, tasks, i)
        invariant posts == sent + Flatten(shares)
      {
        ghost var before, share := committed, PostsOfTask(committed, tasks[i]);
        TakeTask(tasks[i]);
        OneMoreStep(store, tasks, i, before);
        FlattenOneMore(sent, shares, share);
        shares := shares + [share];
      }
    }
  }

  // --- What one task leaves behind ---

  lemma {:induction false} AcceptedIsFirstRefusal(accepts: nat -> bool, i: nat, n: nat)
    requires i <= n
    ensures
      var k := AcceptedUpTo(accepts, i, n);
      && (forall j :: i <= j < k ==> accepts(j))
      && (k < n ==> !accepts(k))
    decreases n - i
  {
    if i < n && accepts(i) {
      AcceptedIsFirstRefusal(accepts, i + 1, n);
    }
  }

  /** A task that commits for a known conversation adds exactly one outbound row. The bodies that
      reached the user are a prefix of the split response: all of it exactly when the row says it was
      sent, and otherwise everything before the first refused post. */
  lemma DeliveryAgreesWithRecord(store: Store, job: Job, around: Surroundings)
    requires Completes(store, job, around) && HasConversation(store, job)
    ensures
      var after := StoreAfterTask(store, job, around);
      var parts := Split(ResponseIn(around), WHATSAPP_MAX_LENGTH);
      var bodies := BodiesOfTask(store, job, around);
      && |after.outbound| == |store.outbound| + 1 && store.outbound <= after.outbound
      && var row := after.outbound[|store.outbound|];
         && row.conversation == job.conversation && row.content == ResponseIn(around)
         && bodies <= parts
         && (row.status.Sent? <==> bodies == parts)
         && (row.status.FailedToSend? ==> |bodies| < |parts| && !around.accepts(|bodies|))
         && (forall j :: 0 <= j < |bodies| ==> around.accepts(j))
  {
    AcceptedIsFirstRefusal(around.accepts, 0, |Split(ResponseIn(around), WHATSAPP_MAX_LENGTH)|);
  }

  /** A task touches only the row of its own conversation, and none if it raises anywhere. */
  lemma OtherRowsUntouched(store: Store, job: Job, around: Surroundings)
    ensures !Completes(store, job, around) ==> StoreAfterTask(store, job, around) == store
    ensures StoreAfterTask(store, job, around).conversations.Keys == store.conversations.Keys
    ensures forall c :: c in store.conversations && c != job.conversation ==>
              StoreAfterTask(store, job, around).conversations[c] == store.conversations[c]
  {
  }

  // --- Runs of tasks ---

  datatype Execution = Execution(job: Job, around: Surroundings)

  /** The committed store after the first n tasks, run one after the other. */
  function StoreAfter(store: Store, tasks: seq<Execution>, n: nat): Store
    requires n <= |tasks|
  {
    if n == 0 then store
    else StoreAfterTask(StoreAfter(store, tasks, n - 1), tasks[n - 1].job, tasks[n - 1].around)
  }

  function PostsOfTask(store: Store, t: Execution): seq<Post> {
    PostsTo(t.job.user, BodiesOfTask(store, t.job, t.around))
  }

  /** What each of the first n tasks posts. */
  function SharesOfRun(store: Store, tasks: seq<Execution>, n: nat): seq<seq<Post>>
    requires n <= |tasks|
  {
    if n == 0 then []
    else SharesOfRun(store, tasks, n - 1) + [PostsOfTask(StoreAfter(store, tasks, n - 1), tasks[n - 1])]
  }

  function Flatten(shares: seq<seq<Post>>): seq<Post> {
    if shares == [] then [] else Flatten(shares[..|shares| - 1]) + shares[|shares| - 1]
  }

  lemma {:induction false} ShareOfTask(store: Store, tasks: seq<Execution>, n: nat, i: nat)
    requires i < n <= |tasks|
    ensures |SharesOfRun(store, tasks, n)| == n
    ensures SharesOfRun(store, tasks, n)[i] == PostsOfTask(StoreAfter(store, tasks, i), tasks[i])
  {
    if n > 1 {
      ShareOfTask(store, tasks, n - 1, if i < n - 1 then i else 0);
    }
  }

  lemma OneMoreStep(store: Store, tasks: seq<Execution>, i: nat, before: Store)
    requires i < |tasks| && before == StoreAfter(store, tasks, i)
    ensures StoreAfter(store, tasks, i + 1) == StoreAfterTask(before, tasks[i].job, tasks[i].around)
    ensures SharesOfRun(store, tasks, i + 1) == SharesOfRun(store, tasks, i) + [PostsOfTask(before, tasks[i])]
  {
  }

  lemma FlattenOneMore(sent: seq<Post>, shares: seq<seq<Post>>, last: seq<Post>)
    ensures sent + Flatten(shares + [last]) == (sent + Flatten(shares)) + last
  {
    assert (shares + [last])[..|shares|] == shares;
  }

  /** The task commits, once its conversation is known. */
  predicate Commits(around: Surroundings) {
    Responds(around) && !around.outboundFlushRaises && !around.commitRaises
  }

  /** The last nonempty session id that a committed task on the conversation returned among the
      first n, or the initial one. */
  function LastSession(initial: Option<string>, conversation: nat, tasks: seq<Execution>, n: nat): Option<string>
    requires n <= |tasks|
  {
    if n == 0 then initial
    else
      var t := tasks[n - 1];
      if t.job.conversation == conversation && Commits(t.around) && NewSession(FinalAttempt(t.around).result)
      then FinalAttempt(t.around).result.sessionId
      else LastSession(initial, conversation, tasks, n - 1)
  }

  lemma {:induction false} StoredSessionIsLast(store: Store, conversation: nat, tasks: seq<Execution>, n: nat)
    requires n <= |tasks| && conversation in store.conversations
    ensures
      var after := StoreAfter(store, tasks, n);
      && conversation in after.conversations
      && after.conversations[conversation].sessionId ==
           LastSession(store.conversations[conversation].sessionId, conversation, tasks, n)
      && after.conversations[conversation].workingDirectory == store.conversations[conversation].workingDirectory
  {
    if n > 0 {
      StoredSessionIsLast(store, conversation, tasks, n - 1);
      OtherRowsUntouched(StoreAfter(store, tasks, n - 1), tasks[n - 1].job, tasks[n - 1].around);
    }
  }

  /** Session threading: every attempt of every task carries the last nonempty session id that an
      earlier committed task on its conversation returned, or the initial one if there is none. */
  lemma EveryAttemptResumesLastSession(store: Store, tasks: seq<Execution>, n: nat, i: nat)
    requires n < |tasks| && tasks[n].job.conversation in store.conversations
    requires i < |CallsOfTask(StoreAfter(store, tasks, n), tasks[n].job, tasks[n].around)|
    ensures
      var c := tasks[n].job.conversation;
      var call := CallsOfTask(StoreAfter(store, tasks, n), tasks[n].job, tasks[n].around)[i];
      && call.sessionId == LastSession(store.conversations[c].sessionId, c, tasks, n)
      && call.prompt == tasks[n].job.content
      && call.workingDirectory == store.conversations[c].workingDirectory
      && call.maxTurns == tasks[n].around.maxTurns
  {
    StoredSessionIsLast(store, tasks[n].job.conversation, tasks, n);
  }

  /** The task adds a row. */
  predicate AddsRow(store: Store, t: Execution) {
    HasConversation(store, t.job) && Commits(t.around)
  }

  function AddsRows(store: Store, tasks: seq<Execution>): seq<bool> {
    seq(|tasks|, i requires 0 <= i < |tasks| => AddsRow(store, tasks[i]))
  }

  function Count(flags: seq<bool>, n: nat): nat
    requires n <= |flags|
  {
    if n == 0 then 0 else Count(flags, n - 1) + if flags[n - 1] then 1 else 0
  }

  function CommittedTasks(store: Store, tasks: seq<Execution>, n: nat): nat
    requires n <= |tasks|
  {
    Count(AddsRows(store, tasks), n)
  }

  lemma RowOfTask(store: Store, t: Execution)
    ensures StoreAfterTask(store, t.job, t.around).outbound ==
            store.outbound + if AddsRow(store, t) then [Record(t.job, ResponseIn(t.around), t.around)] else []
    ensures StoreAfterTask(store, t.job, t.around).conversations.Keys == store.conversations.Keys
  {
  }

  /** Over a whole run, the outbound rows are those of the committed tasks on known conversations. */
  lemma {:induction false} OneRowPerCommittedTask(store: Store, tasks: seq<Execution>, n: nat)
    requires n <= |tasks|
    ensures |StoreAfter(store, tasks, n).outbound| == |store.outbound| + CommittedTasks(store, tasks, n)
    ensures StoreAfter(store, tasks, n).conversations.Keys == store.conversations.Keys
  {
    if n > 0 {
      OneRowPerCommittedTask(store, tasks, n - 1);
      RowOfTask(StoreAfter(store, tasks, n - 1), tasks[n - 1]);
    }
  }

  // --- The posts of a run against its rows ---

  /** Where the row of task i ends up. */
  function RowIndex(store: Store, tasks: seq<Execution>, i: nat): nat
    requires i < |tasks|
  {
    |store.outbound| + CommittedTasks(store, tasks, i)
  }

  /** These posts are the parts up to the first one that was refused. */
  ghost predicate DeliversPrefix(posts: seq<Post>, user: string, parts: seq<string>, accepts: nat -> bool) {
    && |posts| <= |parts|
    && (forall j: nat :: j < |posts| ==> accepts(j) && posts[j].recipient == user && posts[j].body == parts[j])
    && (|posts| < |parts| ==> !accepts(|posts|))
  }

  lemma PostsDeliver(user: string, parts: seq<string>, accepts: nat -> bool)
    ensures
      var k := AcceptedUpTo(accepts, 0, |parts|);
      |PostsTo(user, parts[..k])| == k && DeliversPrefix(PostsTo(user, parts[..k]), user, parts, accepts)
  {
    AcceptedIsFirstRefusal(accepts, 0, |parts|);
  }

  /** The row records a response of which these posts reached the user. */
  ghost predicate RowRecords(row: OutboundRow, posts: seq<Post>, t: Execution) {
    Responds(t.around) &&
    var parts := Split(row.content, WHATSAPP_MAX_LENGTH);
    && row.conversation == t.job.conversation && row.content == ResponseIn(t.around)
    && DeliversPrefix(posts, t.job.user, parts, t.around.accepts)
    && (row.status == Sent <==> forall j: nat :: j < |parts| ==> t.around.accepts(j))
  }

  lemma TaskDelivers(store: Store, t: Execution)
    requires HasConversation(store, t.job) && Responds(t.around)
    ensures RowRecords(Record(t.job, ResponseIn(t.around), t.around), PostsOfTask(store, t), t)
  {
    var parts := Split(ResponseIn(t.around), WHATSAPP_MAX_LENGTH);
    AcceptedIsFirstRefusal(t.around.accepts, 0, |parts|);
    PostsDeliver(t.job.user, parts, t.around.accepts);
    assert BodiesOfTask(store, t.job, t.around) == parts[..AcceptedUpTo(t.around.accepts, 0, |parts|)];
  }

  lemma {:induction false} RowsGrow(store: Store, tasks: seq<Execution>, i: nat, n: nat)
    requires i <= n <= |tasks|
    ensures StoreAfter(store, tasks, i).outbound <= StoreAfter(store, tasks, n).outbound
  {
    if i < n {
      RowsGrow(store, tasks, i, n - 1);
      var t := tasks[n - 1];
      RowOfTask(StoreAfter(store, tasks, n - 1), t);
    }
  }

  /** Delivery agrees with the record over whole runs. The posts of a run are the shares of its tasks,
      one after the other (WorkThrough); the row of each task that commits is in its place and records
      exactly the task's share. */
  lemma PostsMatchRows(store: Store, tasks: seq<Execution>, n: nat, i: nat)
    requires i < n <= |tasks| && AddsRow(store, tasks[i])
    ensures
      var rows, r := StoreAfter(store, tasks, n).outbound, RowIndex(store, tasks, i);
      && r < |rows| && |SharesOfRun(store, tasks, n)| == n
      && RowRecords(rows[r], SharesOfRun(store, tasks, n)[i], tasks[i])
  {
    ShareOfTask(store, tasks, n, i);
    RowStays(store, tasks, n, i);
    OneRowPerCommittedTask(store, tasks, i);
    TaskDelivers(StoreAfter(store, tasks, i), tasks[i]);
  }

  lemma RowStays(store: Store, tasks: seq<Execution>, n: nat, i: nat)
    requires i < n <= |tasks| && AddsRow(store, tasks[i])
    ensures
      var rows, r, t := StoreAfter(store, tasks, n).outbound, RowIndex(store, tasks, i), tasks[i];
      r < |rows| && rows[r] == Record(t.job, ResponseIn(t.around), t.around)
  {
    var t, before := tasks[i], StoreAfter(store, tasks, i);
    var row := Record(t.job, ResponseIn(t.around), t.around);
    RowIsAdded(store, tasks, i);
    RowsGrow(store, tasks, i + 1, n);
    OneRowPerCommittedTask(store, tasks, i);
    RowAtEnd(before.outbound, row, StoreAfter(store, tasks, n).outbound);
  }

  lemma RowIsAdded(store: Store, tasks: seq<Execution>, i: nat)
    requires i < |tasks| && AddsRow(store, tasks[i])
    ensures
      var t := tasks[i];
      StoreAfter(store, tasks, i + 1).outbound ==
      StoreAfter(store, tasks, i).outbound + [Record(t.job, ResponseIn(t.around), t.around)]
  {
    OneRowPerCommittedTask(store, tasks, i);
    OneMoreStep(store, tasks, i, StoreAfter(store, tasks, i));
    RowOfTask(StoreAfter(store, tasks, i), tasks[i]);
  }

  lemma RowAtEnd(before: seq<OutboundRow>, row: OutboundRow, rows: seq<OutboundRow>)
    requires before + [row] <= rows
    ensures |before| < |rows| && rows[|before|] == row
  {
  }

  /** A task that does not commit has no row; what it posted before it raised is its share. */
  lemma PostsWithoutRow(store: Store, tasks: seq<Execution>, n: nat, i: nat)
    requires i < n <= |tasks| && !AddsRow(store, tasks[i])
    ensures StoreAfter(store, tasks, i + 1).outbound == StoreAfter(store, tasks, i).outbound
    ensures |SharesOfRun(store, tasks, n)| == n
    ensures
      var share, t := SharesOfRun(store, tasks, n)[i], tasks[i];
      if HasConversation(store, t.job) && Responds(t.around)
      then DeliversPrefix(share, t.job.user, Split(ResponseIn(t.around), WHATSAPP_MAX_LENGTH), t.around.accepts)
      else share == []
  {
    ShareOfTask(store, tasks, n, i);
    OneRowPerCommittedTask(store, tasks, i);
    RowOfTask(StoreAfter(store, tasks, i), tasks[i]);
    if HasConversation(store, tasks[i].job) && Responds(tasks[i].around) {
      TaskDelivers(StoreAfter(store, tasks, i), tasks[i]);
    }
  }

  /** And every row that a run adds belongs to exactly one of its tasks. */
  lemma EveryRowHasATask(store: Store, tasks: seq<Execution>, r: nat) returns (i: nat)
    requires |store.outbound| <= r < |StoreAfter(store, tasks, |tasks|).outbound|
    ensures i < |tasks| && AddsRow(store, tasks[i]) && RowIndex(store, tasks, i) == r
    ensures forall j: nat :: j < |tasks| && AddsRow(store, tasks[j]) && RowIndex(store, tasks, j) == r ==> j == i
  {
    var flags, k := AddsRows(store, tasks), r - |store.outbound|;
    OneRowPerCommittedTask(store, tasks, |tasks|);
    i := Nth(flags, |tasks|, k);
    forall j: nat | j < |tasks| && AddsRow(store, tasks[j]) && RowIndex(store, tasks, j) == r
      ensures j == i
    {
      assert flags[j] && Count(flags, j) == k;
    }
  }

  lemma {:induction false} Nth(flags: seq<bool>, n: nat, k: nat) returns (i: nat)
    requires n <= |flags| && k < Count(flags, n)
    ensures i < n && flags[i] && Count(flags, i) == k
    ensures forall j: nat :: j < |flags| && flags[j] && Count(flags, j) == k ==> j == i
  {
    if k < Count(flags, n - 1) {
      i := Nth(flags, n - 1, k);
    } else {
      i := n - 1;
      forall j: nat | j < |flags| && flags[j] && Count(flags, j) == k
        ensures j == i
      {
        if j < i {
          CountGrows(flags, j + 1, i);
        } else if i < j {
          CountGrows(flags, i + 1, j);
        }
      }
    }
  }

  lemma {:induction false} CountGrows(flags: seq<bool>, i: nat, n: nat)
    requires i <= n <= |flags|
    ensures Count(flags, i) <= Count(flags, n)
  {
    if i < n {
      CountGrows(flags, i, n - 1);
    }
  }

  // --- A run without the tasks that raise ---

  function Completing(store: Store, tasks: seq<Execution>, n: nat): seq<Execution>
    requires n <= |tasks|
  {
    if n == 0 then []
    else Completing(store, tasks, n - 1) + if Completes(store, tasks[n - 1].job, tasks[n - 1].around) then [tasks[n - 1]] else []
  }

  lemma {:induction false} StoreAfterPrefix(store: Store, tasks: seq<Execution>, more: seq<Execution>, n: nat)
    requires n <= |tasks|
    ensures StoreAfter(store, tasks + more, n) == StoreAfter(store, tasks, n)
  {
    if n > 0 {
      StoreAfterPrefix(store, tasks, more, n - 1);
    }
  }

  lemma OneMoreTask(store: Store, tasks: seq<Execution>, t: Execution)
    ensures StoreAfter(store, tasks + [t], |tasks| + 1) == StoreAfterTask(StoreAfter(store, tasks, |tasks|), t.job, t.around)
  {
    StoreAfterPrefix(store, tasks, [t], |tasks|);
  }

  /** Whether a task completes depends on which conversations exist, and on nothing else in the store. */
  lemma CompletesByKeys(store: Store, other: Store, t: Execution)
    requires store.conversations.Keys == other.conversations.Keys
    ensures Completes(store, t.job, t.around) == Completes(other, t.job, t.around)
  {
  }

  /** Tasks that raise leave no trace in the store: a run ends as the run of the others does, so each
      of them ran as if the raising ones had never been queued. */
  lemma {:induction false} RaisingTasksLeaveNoTrace(store: Store, tasks: seq<Execution>, n: nat)
    requires n <= |tasks|
    ensures StoreAfter(store, tasks, n) == StoreAfter(store, Completing(store, tasks, n), |Completing(store, tasks, n)|)
  {
    if n > 0 {
      var t, front := tasks[n - 1], Completing(store, tasks, n - 1);
      RaisingTasksLeaveNoTrace(store, tasks, n - 1);
      OneRowPerCommittedTask(store, tasks, n - 1);
      CompletesByKeys(store, StoreAfter(store, tasks, n - 1), t);
      OneMoreTask(store, front, t);
      assert front + [] == front;
    }
  }
}
