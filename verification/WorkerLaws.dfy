/** What a task does, said of its surroundings alone: who gets which posts, what is recorded, when it
    completes, and which session every run of the CLI resumes. */
module WorkerLaws {
  import opened Options
  import opened Formatter
  import opened Splitter
  import opened Runner
  import opened Worker

  // --- The attempts ---

  lemma {:induction false} AttemptsAre(attempts: nat -> Attempt, i: nat, retries: nat)
    ensures
      var n := Attempts(attempts, i, retries);
      && 1 <= n <= retries + 1
      && (forall j: nat :: i <= j < i + n - 1 ==> TriesAgain(attempts(j)))
      && (n == retries + 1 || !TriesAgain(attempts(i + n - 1)))
    decreases retries
  {
    if retries > 0 && TriesAgain(attempts(i)) {
      AttemptsAre(attempts, i + 1, retries - 1);
    }
  }

  /** A task on a known conversation runs the CLI once, and up to two more times as long as the result is
      to be retried; what it answers with is the last attempt. */
  lemma TaskTriesThreeTimes(store: Store, job: Job, around: Surroundings)
    requires job.conversation in store.conversations
    ensures
      var n := |CallsOfTask(store, job, around)|;
      && 1 <= n <= 3 && FinalAttempt(around) == around.attempts(n - 1)
      && (forall j: nat :: j < n - 1 ==> TriesAgain(around.attempts(j)))
      && (n == 3 || !TriesAgain(around.attempts(n - 1)))
  {
    AttemptsAre(around.attempts, 0, MAX_RETRIES);
  }

  // --- When a task completes ---

  /** The last attempt returned a session id that is not empty. */
  ghost predicate ReturnsId(around: Surroundings, id: string) {
    FinalAttempt(around).Returned? && FinalAttempt(around).result.sessionId == Some(id) && id != ""
  }

  /** A task completes unless the commit raises or, its conversation being known, the last attempt, the
      flush of a new session id or the flush of the outbound row does. */
  lemma CompletesIff(store: Store, job: Job, around: Surroundings)
    ensures Completes(store, job, around) <==>
            && !around.commitRaises
            && (job.conversation in store.conversations ==>
                  && FinalAttempt(around).Returned? && !around.outboundFlushRaises
                  && (around.sessionFlushRaises ==> forall id: string :: !ReturnsId(around, id)))
  {
    if FinalAttempt(around).Returned? && FinalAttempt(around).result.sessionId.Some? {
      var id := FinalAttempt(around).result.sessionId.value;
      assert ReturnsId(around, id) <==> id != "";
    }
  }

  /** For an unknown conversation nothing is run, posted or changed. */
  lemma UnknownConversationDoesNothing(store: Store, t: Execution)
    requires t.job.conversation !in store.conversations
    ensures CallsOfTask(store, t.job, t.around) == [] && PostsOfTask(store, t) == []
    ensures StoreAfterTask(store, t.job, t.around) == store
  {
  }

  // --- What is posted and recorded ---

  /** The text of an answer: the formatted output, or an apology with the error message. */
  ghost predicate IsAnswer(result: ClaudeResult, text: string) {
    if result.success then text == Format(result.output)
    else if result.errorMessage.Some? then text == "Sorry, I encountered an error: " + result.errorMessage.value
    else text == "Sorry, I encountered an error: None"
  }

  lemma AnswerIs(result: ClaudeResult)
    ensures IsAnswer(result, ResponseText(result))
  {
  }

  /** The posts of a task that gets as far as responding: the parts of its answer, each to the user, up
      to the first one that is refused. */
  lemma AnswerIsPosted(store: Store, t: Execution, text: string)
    requires t.job.conversation in store.conversations && FinalAttempt(t.around).Returned?
    requires IsAnswer(FinalAttempt(t.around).result, text)
    requires t.around.sessionFlushRaises ==> forall id: string :: !ReturnsId(t.around, id)
    ensures DeliversPrefix(PostsOfTask(store, t), t.job.user, Split(text, 1600), t.around.accepts)
    ensures (forall j: nat :: t.around.accepts(j)) ==> |PostsOfTask(store, t)| == |Split(text, 1600)|
    ensures BodiesOfTask(store, t.job, t.around) <= Split(text, 1600)
  {
    var result := FinalAttempt(t.around).result;
    assert Responds(t.around) by {
      RespondsIff(t.around);
    }
    AnswerIs(result);
    assert ResponseIn(t.around) == text;
    TaskDelivers(store, t);
  }

  lemma RespondsIff(around: Surroundings)
    ensures Responds(around) <==>
            FinalAttempt(around).Returned? && (around.sessionFlushRaises ==> forall id: string :: !ReturnsId(around, id))
  {
    if FinalAttempt(around).Returned? && FinalAttempt(around).result.sessionId.Some? {
      var id := FinalAttempt(around).result.sessionId.value;
      assert ReturnsId(around, id) <==> id != "";
    }
  }

  /** The posts of a task whose flush of a new session id raises, or whose last attempt does: none. */
  lemma NothingIsPosted(store: Store, t: Execution)
    requires FinalAttempt(t.around).Raised? || (t.around.sessionFlushRaises && exists id: string :: ReturnsId(t.around, id))
    ensures PostsOfTask(store, t) == []
  {
    RespondsIff(t.around);
  }

  /** The row that a committing task adds holds its answer, and says that it was sent exactly when every
      part was accepted. */
  lemma AnswerIsRecorded(store: Store, t: Execution, text: string) returns (row: OutboundRow)
    requires t.job.conversation in store.conversations && Completes(store, t.job, t.around)
    requires IsAnswer(FinalAttempt(t.around).result, text)
    ensures StoreAfterTask(store, t.job, t.around).outbound == store.outbound + [row]
    ensures row.conversation == t.job.conversation && row.content == text
    ensures row.status == Sent <==> forall j: nat :: j < |Split(text, 1600)| ==> t.around.accepts(j)
  {
    AnswerIs(FinalAttempt(t.around).result);
    assert ResponseIn(t.around) == text;
    row := Record(t.job, text, t.around);
    TaskDelivers(store, t);
  }

  /** From the CLI's JSON to the user: if the last attempt prints an answer, the posted bodies are a
      prefix of its formatted parts, all of them when every post is accepted. */
  lemma JsonAnswerIsPosted(store: Store, t: Execution, answer: string, sessionId: Option<string>)
    requires t.job.conversation in store.conversations && !t.around.sessionFlushRaises
    requires FinalAttempt(t.around) == Returned(ResultOf(JsonOutput(false, Some(answer), sessionId)))
    ensures
      var bodies, parts := BodiesOfTask(store, t.job, t.around), Split(Format(answer), 1600);
      bodies <= parts && ((forall j: nat :: t.around.accepts(j)) ==> bodies == parts)
  {
    AnswerOfOutcome(JsonOutput(false, Some(answer), sessionId));
    AnswerIsPosted(store, t, Format(answer));
  }

  // --- Sessions ---

  /** The task commits and leaves the session id with its conversation. */
  ghost predicate Leaves(t: Execution, id: string) {
    && ReturnsId(t.around, id)
    && !t.around.sessionFlushRaises && !t.around.outboundFlushRaises && !t.around.commitRaises
  }

  /** None of the tasks from i on, below n, leaves a session id with the conversation. */
  ghost predicate NoneLeaves(tasks: seq<Execution>, conversation: nat, i: nat, n: nat) {
    forall j: nat, id: string :: i <= j < n <= |tasks| && tasks[j].job.conversation == conversation ==> !Leaves(tasks[j], id)
  }

  lemma LeavesIff(t: Execution)
    ensures Commits(t.around) && NewSession(FinalAttempt(t.around).result) ==>
              && FinalAttempt(t.around).result.sessionId.Some?
              && Leaves(t, FinalAttempt(t.around).result.sessionId.value)
    ensures forall id: string :: Leaves(t, id) ==>
              && Commits(t.around) && NewSession(FinalAttempt(t.around).result)
              && FinalAttempt(t.around).result.sessionId == Some(id)
  {
  }

  lemma {:induction false} LastSessionStays(initial: Option<string>, conversation: nat, tasks: seq<Execution>, i: nat, n: nat)
    requires i <= n <= |tasks| && NoneLeaves(tasks, conversation, i, n)
    ensures LastSession(initial, conversation, tasks, n) == LastSession(initial, conversation, tasks, i)
  {
    if i < n {
      LeavesIff(tasks[n - 1]);
      LastSessionStays(initial, conversation, tasks, i, n - 1);
    }
  }

  /** Every run of the CLI for task n resumes the session that the last earlier task on its conversation
      left there: task i, if it commits after an attempt that returned a session id that is not empty, and
      no task on the conversation between the two does. */
  lemma LastIdIsResumed(store: Store, tasks: seq<Execution>, i: nat, n: nat, id: string, k: nat)
    requires i < n < |tasks| && tasks[i].job.conversation == tasks[n].job.conversation
    requires tasks[n].job.conversation in store.conversations
    requires Leaves(tasks[i], id) && NoneLeaves(tasks, tasks[n].job.conversation, i + 1, n)
    requires k < |CallsOfTask(StoreAfter(store, tasks, n), tasks[n].job, tasks[n].around)|
    ensures CallsOfTask(StoreAfter(store, tasks, n), tasks[n].job, tasks[n].around)[k].sessionId == Some(id)
  {
    var c := tasks[n].job.conversation;
    EveryAttemptResumesLastSession(store, tasks, n, k);
    LastSessionStays(store.conversations[c].sessionId, c, tasks, i + 1, n);
    LeavesIff(tasks[i]);
  }

  /** And if no earlier task leaves one, it resumes the session that the conversation had to begin with. */
  lemma FirstIdIsResumed(store: Store, tasks: seq<Execution>, n: nat, k: nat)
    requires n < |tasks| && tasks[n].job.conversation in store.conversations
    requires NoneLeaves(tasks, tasks[n].job.conversation, 0, n)
    requires k < |CallsOfTask(StoreAfter(store, tasks, n), tasks[n].job, tasks[n].around)|
    ensures CallsOfTask(StoreAfter(store, tasks, n), tasks[n].job, tasks[n].around)[k].sessionId ==
            store.conversations[tasks[n].job.conversation].sessionId
  {
    var c := tasks[n].job.conversation;
    EveryAttemptResumesLastSession(store, tasks, n, k);
    LastSessionStays(store.conversations[c].sessionId, c, tasks, 0, n);
  }
}
