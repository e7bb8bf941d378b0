/** The text for a failed run: an apology and the error message, which is not truncated. */
module FailureMessages {
  import opened Text
  import opened Splitter
  import opened SplitterSize
  import opened SplitterText
  import opened SplitterPrefix
  import opened SplitterTight
  import opened SplitterShortest
  import opened SplitterExact
  import opened Runner
  import opened Worker
  import opened Pipeline

  const APOLOGY := "Sorry, I encountered an error: "

  /** The length of the shortest error message whose text can break the limit. */
  const SHORTEST_BREAKING := 25 * WINDOW + 173

  /** What matters of the apology: it is one line without a period that ends in a space. */
  predicate IsApology(prefix: string) {
    && |prefix| == 31 && prefix[30] == ' '
    && (forall i :: 0 <= i < 31 ==> prefix[i] != '\n' && prefix[i] != '.')
  }

  lemma ApologyIs(prefix: string)
    requires prefix == APOLOGY
    ensures IsApology(prefix) && prefix[0] == 'S'
  {
  }

  // --- The first cut ---

  lemma DelimiterIsAfter(prefix: string, message: string, kind: Kind, at: nat)
    requires IsApology(prefix) && (kind == Paragraph || kind == Sentence)
    requires Occurs(prefix + message, Delimiter(kind), at)
    ensures at >= 31
  {
    var text := prefix + message;
    assert forall i :: 0 <= i < 31 ==> text[i] == prefix[i];
    assert text[at..at + 2][0] == text[at];
  }

  lemma SpaceOccurs(prefix: string, message: string)
    requires IsApology(prefix)
    ensures Occurs(prefix + message, Delimiter(Word), 30)
  {
    assert (prefix + message)[30..31] == " ";
  }

  /** The first cut passes the apology. */
  lemma FirstCutPasses(prefix: string, message: string, n: nat)
    requires IsApology(prefix) && 33 <= n < 31 + |message|
    ensures
      var text := prefix + message;
      var kind := ChooseCut(text, n).kind;
      kind != Hard && Advance(text, n) >= if kind == Word then 31 else 33
  {
    var text := prefix + message;
    var cut := ChooseCut(text, n);
    SpaceOccurs(prefix, message);
    CutIsBestInWindow(text, n);
    CutPassesDelimiter(text, n);
    if cut.kind == Paragraph || cut.kind == Sentence {
      DelimiterIsAfter(prefix, message, cut.kind, cut.pos - Kept(cut.kind));
    }
  }

  // --- Which lengths are safe ---

  lemma NinetyNineNeed(n: nat, p: nat)
    requires n >= 5 && p == 99
    ensures ShortestWith(p, n) == 25 * n + 171 && ShortestWith(p - 1, n) == 25 * n + 168
  {
    assert (p - 3) / 4 == 24 && (p - 3) % 4 == 0 && (p - 4) / 4 == 23 && (p - 4) % 4 == 3;
  }

  /** The first cut and the second, after a word cut, leave the window together. */
  lemma SecondCutLeaves(text: string, n: nat)
    requires 1 <= n < |text| && |Rest(text, n)| > n
    requires ChooseCut(text, n).kind == Word && Advance(text, n) >= 1
    ensures |text| - |Rest(Rest(text, n), n)| > n
  {
    CutsTogether(text, n);
    CutAdvances(Rest(text, n), n);
  }

  /** A hundred parts that start with the apology need 30 characters more than any hundred parts. */
  lemma ApologyNeeds(prefix: string, message: string, n: nat, p: nat)
    requires IsApology(prefix) && n >= 35 && p == 99
    requires |DoSplit(prefix + message, n)| > p
    ensures |message| >= 25 * n + 173
  {
    var text := prefix + message;
    RestHasOnePartLess(text, n);
    FirstCutPasses(prefix, message, n);
    NinetyNineNeed(n, p);
    RestNeeds(text, n, p);
  }

  lemma RestNeeds(text: string, n: nat, p: nat)
    requires n >= 35 && p == 99 && |text| > n && |DoSplit(Rest(text, n), n)| >= p
    requires ShortestWith(p, n) == 25 * n + 171 && ShortestWith(p - 1, n) == 25 * n + 168
    requires
      var kind := ChooseCut(text, n).kind;
      kind != Hard && Advance(text, n) >= if kind == Word then 31 else 33
    ensures |text| >= 25 * n + 204
  {
    var rest := Rest(text, n);
    PartsNeed(rest, n, p);
    if ChooseCut(text, n).kind == Word {
      RestHasOnePartLess(rest, n);
      SecondCutLeaves(text, n);
      PartsNeed(Rest(rest, n), n, p - 1);
    }
  }

  lemma ShorterMessageFits(message: string)
    requires |message| < SHORTEST_BREAKING
    ensures AllFit(Messages(APOLOGY + message), WHATSAPP_MAX_LENGTH)
  {
    var prefix: string :| prefix == APOLOGY;
    ApologyIs(prefix);
    ShorterMessageHasFewParts(prefix, message, WINDOW);
    FitsIfFew(prefix + message, WHATSAPP_MAX_LENGTH);
  }

  lemma ShorterMessageHasFewParts(prefix: string, message: string, n: nat)
    requires IsApology(prefix) && n >= 35 && |message| < 25 * n + 173
    ensures |DoSplit(prefix + message, n)| <= 99
  {
    if |DoSplit(prefix + message, n)| > 99 {
      ApologyNeeds(prefix, message, n, 99);
    }
  }

  // --- Which lengths can break the limit ---

  /** A period right after the apology makes its first cut a sentence, as short as it can be. */
  lemma PeriodIsCut(prefix: string, right: string, n: nat)
    requires IsApology(prefix) && 33 <= n < 33 + |right| && StartsVisibly(right)
    requires forall i :: 0 <= i < n - 33 ==> right[i] != '.' && right[i] != '\n'
    ensures
      var left := prefix + ".";
      First(left + " " + right, n) == left && Rest(left + " " + right, n) == right
  {
    var left := prefix + ".";
    var text := left + " " + right;
    assert text[31..33] == ". ";
    assert forall i :: 0 <= i < n && i != 31 && i != 32 ==> text[i] == if i < 31 then prefix[i] else right[i - 33];
    NoneWithout(text, Paragraph, 0, 1, n);
    NoneWithout(text, Sentence, 0, 32, n);
    CutAt(text, n, Sentence, 31);
    SpaceOrNot('.');
    SpaceOrNot(' ');
    StepIs(text, n, left, " ", right);
  }

  lemma WordAndRounds(n: nat, k: nat, m: nat) returns (text: string, front: seq<string>)
    requires n >= 5 && m > n
    ensures |text| == 2 + k * (n + 7) + m && |text| >= n && StartsVisibly(text)
    ensures forall i :: 0 <= i < n ==> text[i] != '.' && text[i] != '\n'
    ensures |front| == 4 * k + 1 && PartsBefore(text, n, front, Filler(m))
  {
    SpaceOrNot('a');
    SpaceOrNot('Z');
    var rounds, parts := Rounds(k, n, Filler(m));
    text := WordBefore("Z", rounds, n);
    front := ["Z"] + parts;
    Before(text, n, ["Z"], rounds, parts, Filler(m));
  }

  lemma BreakingAfter(prefix: string, n: nat, k: nat, m: nat) returns (message: string, front: seq<string>)
    requires IsApology(prefix) && n >= 35 && k == 24 && m > n
    ensures |message| == 4 + k * (n + 7) + m
    ensures |front| == 98 && PartsBefore(prefix + message, n, front, Filler(m))
  {
    var right, parts := WordAndRounds(n, k, m);
    var left := prefix + ".";
    message := ". " + right;
    assert prefix + message == left + " " + right;
    PeriodIsCut(prefix, right, n);
    UnfoldSplit(prefix + message, n, left, right);
    front := [left] + parts;
    Before(prefix + message, n, [left], right, parts, Filler(m));
  }

  /** For every length from there on there is an error message whose text breaks the limit. */
  lemma LongerMessageBreaks(length: nat) returns (message: string)
    requires length >= SHORTEST_BREAKING
    ensures |message| == length && !AllFit(Messages(APOLOGY + message), WHATSAPP_MAX_LENGTH)
  {
    var prefix: string, k: nat :| prefix == APOLOGY && k == 24;
    ApologyIs(prefix);
    var m := length - 4 - k * (WINDOW + 7);
    var front;
    message, front := BreakingAfter(prefix, WINDOW, k, m);
    FullAfter98Parts(prefix + message, WINDOW, front, m);
    FullAfter98Breaks(prefix + message, WHATSAPP_MAX_LENGTH);
  }

  /** All error messages of a length have texts that fit exactly when the length is below
      25 windows and 173 characters. */
  lemma ErrorMessageFitsIff(length: nat)
    ensures (forall message: string :: |message| == length ==> AllFit(Messages(APOLOGY + message), WHATSAPP_MAX_LENGTH)) <==>
            length < SHORTEST_BREAKING
  {
    if length < SHORTEST_BREAKING {
      forall message: string | |message| == length
        ensures AllFit(Messages(APOLOGY + message), WHATSAPP_MAX_LENGTH)
      {
        ShorterMessageFits(message);
      }
    } else {
      var message := LongerMessageBreaks(length);
    }
  }

  // --- From the CLI to the posts ---

  /** The text of every failed result with a shorter error message fits. */
  lemma FailureTextFits(result: ClaudeResult)
    requires !result.success && (result.errorMessage.Some? ==> |result.errorMessage.value| < SHORTEST_BREAKING)
    ensures AllFit(Messages(ResponseText(result)), WHATSAPP_MAX_LENGTH)
  {
    ShorterMessageFits(if result.errorMessage.Some? then result.errorMessage.value else "None");
  }

  /** For every length from there on there is an error output such that, when every attempt of the CLI
      fails with it, the task commits and has posted a message that is longer than the limit. */
  lemma FailureTextCanBreakLimit(store: Store, job: Job, length: nat) returns (stderr: string, around: Surroundings)
    requires HasConversation(store, job) && length >= SHORTEST_BREAKING
    ensures |stderr| == length
    ensures forall i: nat :: around.attempts(i) == Returned(ResultOf(NonZeroExit(1, "", stderr)))
    ensures Completes(store, job, around)
    ensures !AllFit(BodiesOfTask(store, job, around), WHATSAPP_MAX_LENGTH)
  {
    stderr := LongerMessageBreaks(length);
    around := AlwaysFails(store, job, stderr);
  }

  lemma AlwaysFails(store: Store, job: Job, stderr: string) returns (around: Surroundings)
    requires HasConversation(store, job) && stderr != ""
    ensures forall i: nat :: around.attempts(i) == Returned(ResultOf(NonZeroExit(1, "", stderr)))
    ensures Completes(store, job, around) && BodiesOfTask(store, job, around) == Messages(APOLOGY + stderr)
  {
    var result := ResultOf(NonZeroExit(1, "", stderr));
    around := Surroundings(1, _ => Returned(result), _ => true, false, false, false);
    assert FinalAttempt(around) == Returned(result);
    assert ResponseText(result) == APOLOGY + stderr;
    AllPostsAccepted(around.accepts, 0, |Messages(APOLOGY + stderr)|);
  }

  lemma {:induction false} AllPostsAccepted(accepts: nat -> bool, i: nat, n: nat)
    requires i <= n && forall j: nat :: accepts(j)
    ensures AcceptedUpTo(accepts, i, n) == n
    decreases n - i
  {
    if i < n {
      AllPostsAccepted(accepts, i + 1, n);
    }
  }

  /** However the error message looks, no message of a failed run is blank. */
  lemma FailureBodiesAreVisible(result: ClaudeResult, i: nat)
    requires !result.success && |ResponseText(result)| > WHATSAPP_MAX_LENGTH
    requires i < |Messages(ResponseText(result))|
    ensures ReadPart(Messages(ResponseText(result))[i]).Some?
    ensures
      var body := ReadPart(Messages(ResponseText(result))[i]).value.body;
      body != "" && !IsSpace(body[0])
  {
    var text := ResponseText(result);
    assert text[0] == 'S';
    SpaceOrNot('S');
    VisibleBodies(text, i);
  }

  lemma VisibleBodies(text: string, i: nat)
    requires |text| > WHATSAPP_MAX_LENGTH && !IsSpace(text[0]) && i < |Messages(text)|
    ensures ReadPart(Messages(text)[i]).Some?
    ensures
      var body := ReadPart(Messages(text)[i]).value.body;
      body != "" && !IsSpace(body[0])
  {
    var body := BodyOf(text, i);
    PartsStartVisibly(text, WINDOW);
  }
}
