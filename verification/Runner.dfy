/** ClaudeCodeRunner: the result of one CLI run, and the retry loop around it. */
module Runner {
  import opened Options
  import opened Text

  const MAX_RETRIES := 2
  const BASE_BACKOFF := 5

  datatype Invocation = Invocation(prompt: string, sessionId: Option<string>, workingDirectory: string, maxTurns: int)

  datatype ClaudeResult = ClaudeResult(success: bool, output: string, sessionId: Option<string>, errorMessage: Option<string>)

  /** How one run of the CLI can go; JSON output is given by the fields that matter here, the result
      being optional. */
  datatype CliOutcome =
    | TimedOut(seconds: nat)
    | Missing(path: string)
    | NonZeroExit(code: int, stdout: string, stderr: string)
    | PlainOutput(stdout: string)
    | JsonOutput(isError: bool, result: Option<string>, sessionId: Option<string>)

  function Number(n: int): string {
    if n < 0 then "-" + Decimal(-n) else Decimal(n)
  }

  /** invoke, from the outcome of the subprocess on. */
  function ResultOf(outcome: CliOutcome): ClaudeResult {
    match outcome
    case TimedOut(seconds) =>
      ClaudeResult(false, "", None, Some("Claude CLI timed out after " + Decimal(seconds) + " seconds"))
    case Missing(path) =>
      ClaudeResult(false, "", None, Some("Claude CLI not found at: " + path))
    case NonZeroExit(code, stdout, stderr) =>
      ClaudeResult(false, stdout, None, Some(if stderr != "" then stderr else "CLI exited with code " + Number(code)))
    case PlainOutput(stdout) =>
      ClaudeResult(true, Strip(stdout), None, None)
    case JsonOutput(isError, result, sessionId) =>
      ClaudeResult(!isError, if result.Some? then result.value else "", sessionId, if isError then result else None)
  }

  predicate Mentions(message: string) {
    Contains(message, "timed out") || Contains(message, "not found")
  }

  /** The results after which the loop goes on. */
  predicate Retryable(result: ClaudeResult) {
    !result.success && !(result.errorMessage.Some? && result.errorMessage.value != "" && Mentions(result.errorMessage.value))
  }

  /** One attempt: the result, or an exception out of invoke. */
  datatype Attempt = Returned(result: ClaudeResult) | Raised

  predicate TriesAgain(attempt: Attempt) {
    attempt.Returned? && Retryable(attempt.result)
  }

  /** How many attempts are made from attempt i on, with at most `retries` more retries. */
  function Attempts(attempts: nat -> Attempt, i: nat, retries: nat): nat
    decreases retries
  {
    if retries == 0 || !TriesAgain(attempts(i)) then 1 else 1 + Attempts(attempts, i + 1, retries - 1)
  }

  function Pow2(n: nat): nat {
    if n == 0 then 1 else 2 * Pow2(n - 1)
  }

  /** invoke_with_retry: every attempt carries the same invocation, all but the last failed in a way
      that is retried, the last one is returned, and k retries sleep 5 * (2^k - 1) seconds. */
  method InvokeWithRetry(invocation: Invocation, attempts: nat -> Attempt, maxRetries: nat)
    returns (last: Attempt, calls: seq<Invocation>, slept: nat)
    ensures 1 <= |calls| <= maxRetries + 1 && |calls| == Attempts(attempts, 0, maxRetries)
    ensures forall i :: 0 <= i < |calls| ==> calls[i] == invocation
    ensures last == attempts(|calls| - 1)
    ensures forall i :: 0 <= i < |calls| - 1 ==> TriesAgain(attempts(i))
    ensures |calls| == maxRetries + 1 || !TriesAgain(last)
    ensures slept == 5 * (Pow2(|calls| - 1) - 1)
  {
    calls, slept := [], 0;
    last := Raised;
    for attempt := 0 to maxRetries + 1
      invariant |calls| == attempt && forall i :: 0 <= i < attempt ==> calls[i] == invocation
      invariant forall i :: 0 <= i < attempt ==> TriesAgain(attempts(i))
      invariant attempt > 0 ==> last == attempts(attempt - 1)
      invariant attempt <= maxRetries ==>
                  && Attempts(attempts, 0, maxRetries) == attempt + Attempts(attempts, attempt, maxRetries - attempt)
                  && slept == BASE_BACKOFF * (Pow2(attempt) - 1)
      invariant attempt == maxRetries + 1 ==>
                  && Attempts(attempts, 0, maxRetries) == attempt
                  && slept == BASE_BACKOFF * (Pow2(maxRetries) - 1)
    {
      last := attempts(attempt);
      calls := calls + [invocation];
      if !TriesAgain(last) {
        return;
      }
      if attempt < maxRetries {
        slept := slept + BASE_BACKOFF * Pow2(attempt);
      }
    }
  }

  /** The number of attempts is the only one that fits: all before the last are retried, and the last
      either is not, or is the last one allowed. */
  lemma {:induction false} AttemptsIsUnique(attempts: nat -> Attempt, i: nat, retries: nat, n: nat)
    requires 1 <= n <= retries + 1
    requires forall j :: i <= j < i + n - 1 ==> TriesAgain(attempts(j))
    requires n == retries + 1 || !TriesAgain(attempts(i + n - 1))
    ensures Attempts(attempts, i, retries) == n
    decreases retries
  {
    if n > 1 {
      AttemptsIsUnique(attempts, i + 1, retries - 1, n - 1);
    }
  }

  /** The phrase stands somewhere in the message. */
  ghost predicate Includes(message: string, phrase: string) {
    exists before: string, after: string :: message == before + phrase + after
  }

  lemma ContainsIff(message: string, phrase: string)
    ensures Contains(message, phrase) <==> Includes(message, phrase)
  {
    if Contains(message, phrase) {
      var i :| 0 <= i <= |message| - |phrase| && Occurs(message, phrase, i);
      assert message == message[..i] + phrase + message[i + |phrase|..];
    }
    if Includes(message, phrase) {
      var before: string, after: string :| message == before + phrase + after;
      ContainsAt(before, phrase, after);
    }
  }

  // --- Which failures are retried ---

  /** A result is retried exactly when it is a failure whose message, if there is one, includes neither
      "timed out" nor "not found". */
  lemma RetryableIff(result: ClaudeResult)
    ensures Retryable(result) <==>
            && !result.success
            && (result.errorMessage.Some? ==>
                  !Includes(result.errorMessage.value, "timed out") && !Includes(result.errorMessage.value, "not found"))
  {
    EmptyMentionsNothing();
    if result.errorMessage.Some? {
      ContainsIff(result.errorMessage.value, "timed out");
      ContainsIff(result.errorMessage.value, "not found");
    }
  }

  /** An exception out of an attempt ends the loop; a returned result goes by its message. */
  lemma TriesAgainIff(attempt: Attempt)
    ensures TriesAgain(attempt) <==>
            && attempt.Returned? && !attempt.result.success
            && (attempt.result.errorMessage.Some? ==>
                  && !Includes(attempt.result.errorMessage.value, "timed out")
                  && !Includes(attempt.result.errorMessage.value, "not found"))
  {
    if attempt.Returned? {
      RetryableIff(attempt.result);
    }
  }

  /** The answer of the CLI is what it printed, without outer whitespace, or the result of its JSON; a
      session id comes from JSON only, and an answer is an error if the JSON says so. */
  lemma AnswerOfOutcome(outcome: CliOutcome)
    ensures ResultOf(outcome).success <==> outcome.PlainOutput? || (outcome.JsonOutput? && !outcome.isError)
    ensures ResultOf(outcome).sessionId == if outcome.JsonOutput? then outcome.sessionId else None
    ensures outcome.PlainOutput? ==> ResultOf(outcome).output == Strip(outcome.stdout)
    ensures outcome.JsonOutput? && outcome.result.Some? ==> ResultOf(outcome).output == outcome.result.value
    ensures outcome.JsonOutput? && outcome.result.None? ==> ResultOf(outcome).output == ""
    ensures outcome.JsonOutput? && outcome.isError ==> ResultOf(outcome).errorMessage == outcome.result
  {
  }

  /** The error message of a run that did not end well: what the CLI wrote to its error output, or else
      what went wrong. */
  lemma ErrorOfOutcome(outcome: CliOutcome, message: string)
    requires ResultOf(outcome).errorMessage == Some(message)
    ensures match outcome
            case NonZeroExit(code, _, stderr) =>
              message == if stderr != "" then stderr
                         else "CLI exited with code " + (if code < 0 then "-" + Decimal(-code) else Decimal(code))
            case TimedOut(seconds) => message == "Claude CLI timed out after " + Decimal(seconds) + " seconds"
            case Missing(path) => message == "Claude CLI not found at: " + path
            case JsonOutput(isError, result, _) => isError && result == Some(message)
            case PlainOutput(_) => false
  {
  }

  /** The message of a silent failure mentions neither phrase. */
  lemma ExitMessageIsRetried(code: int)
    ensures !Mentions("CLI exited with code " + Number(code))
  {
    var message := "CLI exited with code " + Number(code);
    assert 'm' !in message && 'n' !in message by {
      var n := if code < 0 then -code else code;
      assert 'm' !in Decimal(n) && 'n' !in Decimal(n);
    }
    MentionsNeedsLetters(message);
  }

  lemma MentionsNeedsLetters(message: string)
    ensures Mentions(message) ==> 'm' in message || 'n' in message
  {
    if Contains(message, "timed out") {
      ContainsChars(message, "timed out", 2);
    }
    if Contains(message, "not found") {
      ContainsChars(message, "not found", 0);
    }
  }

  lemma ContainsAt(before: string, phrase: string, after: string)
    ensures Contains(before + phrase + after, phrase)
  {
    var s := before + phrase + after;
    assert s[|before|..|before| + |phrase|] == phrase;
    assert Occurs(s, phrase, |before|);
  }

  lemma TimeoutMentions(seconds: nat)
    ensures Mentions("Claude CLI timed out after " + Decimal(seconds) + " seconds")
  {
    var after := " after " + Decimal(seconds) + " seconds";
    ContainsAt("Claude CLI ", "timed out", after);
    assert "Claude CLI timed out after " == "Claude CLI " + "timed out" + " after ";
    assert "Claude CLI timed out after " + Decimal(seconds) + " seconds" == "Claude CLI " + "timed out" + after;
  }

  lemma MissingMentions(path: string)
    ensures Mentions("Claude CLI not found at: " + path)
  {
    ContainsAt("Claude CLI ", "not found", " at: " + path);
    assert "Claude CLI not found at: " == "Claude CLI " + "not found" + " at: ";
    assert "Claude CLI not found at: " + path == "Claude CLI " + "not found" + (" at: " + path);
  }

  lemma EmptyMentionsNothing()
    ensures !Mentions("")
  {
  }

  /** The documentation says that exactly the non-zero exits are retried. That is what happens, except
      when an exit's error output mentions one of the two phrases (not retried), and when the CLI
      reports an error in its JSON without mentioning one (retried although the exit code is 0). */
  lemma RetriesAsDocumentedIff(outcome: CliOutcome)
    ensures (Retryable(ResultOf(outcome)) <==> outcome.NonZeroExit?) <==>
            match outcome
            case NonZeroExit(_, _, stderr) => !Includes(stderr, "timed out") && !Includes(stderr, "not found")
            case JsonOutput(isError, result, _) =>
              isError ==> result.Some? && (Includes(result.value, "timed out") || Includes(result.value, "not found"))
            case _ => true
  {
    MentionsIff(outcome);
    EmptyMentionsNothing();
    match outcome
    case TimedOut(seconds) => TimeoutMentions(seconds);
    case Missing(path) => MissingMentions(path);
    case NonZeroExit(code, _, _) => ExitMessageIsRetried(code);
    case _ =>
  }

  /** The messages that RetriesAsDocumentedIff looks at, phrase by phrase. */
  lemma MentionsIff(outcome: CliOutcome)
    ensures outcome.NonZeroExit? ==>
              (Mentions(outcome.stderr) <==> Includes(outcome.stderr, "timed out") || Includes(outcome.stderr, "not found"))
    ensures outcome.JsonOutput? && outcome.result.Some? ==>
              (Mentions(outcome.result.value) <==>
               Includes(outcome.result.value, "timed out") || Includes(outcome.result.value, "not found"))
  {
    if outcome.NonZeroExit? {
      ContainsIff(outcome.stderr, "timed out");
      ContainsIff(outcome.stderr, "not found");
    }
    if outcome.JsonOutput? && outcome.result.Some? {
      ContainsIff(outcome.result.value, "timed out");
      ContainsIff(outcome.result.value, "not found");
    }
  }

  /** Both exceptions occur: a non-zero exit is not retried when its error output ends in one of the
      phrases, whatever comes before it ... */
  lemma NonZeroExitCanBeFinal(code: int, stdout: string, before: string)
    ensures !Retryable(ResultOf(NonZeroExit(code, stdout, before + "not found")))
    ensures !Retryable(ResultOf(NonZeroExit(code, stdout, before + "timed out")))
  {
    ContainsAt(before, "not found", "");
    ContainsAt(before, "timed out", "");
    assert before + "not found" + "" == before + "not found";
    assert before + "timed out" + "" == before + "timed out";
  }

  /** ... and an error in the JSON is retried, although the exit code is 0, when it has no 'm' and no 'n'. */
  lemma JsonErrorCanBeRetried(message: string, sessionId: Option<string>)
    requires 'm' !in message && 'n' !in message
    ensures Retryable(ResultOf(JsonOutput(true, Some(message), sessionId)))
  {
    MentionsNeedsLetters(message);
  }

  /** So is an error without a result. */
  lemma JsonErrorWithoutResultIsRetried(sessionId: Option<string>)
    ensures Retryable(ResultOf(JsonOutput(true, None, sessionId)))
  {
  }
}
