/** From the CLI's output to the messages on the user's phone. */
module Pipeline {
  import opened Options
  import opened Text
  import opened Formatter
  import opened FormatterFacts
  import opened Splitter
  import opened SplitterSize
  import opened SplitterText
  import opened SplitterPrefix
  import opened SplitterTight
  import opened Worker

  const WINDOW := WHATSAPP_MAX_LENGTH - MAX_PART_PREFIX_LEN

  /** What the user gets for a text, if every post is accepted. */
  function Messages(text: string): seq<string> {
    Split(text, WHATSAPP_MAX_LENGTH)
  }

  /** Whatever the CLI answers, a successful response is at most 25 messages of at most 1600
      characters each. */
  lemma SuccessfulResponseFits(output: string)
    ensures |Messages(Format(output))| <= 25
    ensures AllFit(Messages(Format(output)), WHATSAPP_MAX_LENGTH)
  {
    FormatIsShortAndTrimmed(output);
    TruncatedTextFits(Format(output));
  }

  lemma TruncatedTextFits(text: string)
    requires |text| <= 10022
    ensures |Messages(text)| <= 25
    ensures AllFit(Messages(text), WHATSAPP_MAX_LENGTH)
  {
    FitsByLength(text, WHATSAPP_MAX_LENGTH);
    if |text| > WHATSAPP_MAX_LENGTH {
      PartCountBound(text, WINDOW);
      QuotientBelow(|text| - 1, WINDOW, 7);
    }
  }

  /** Reading the numbered messages of a long response back, in order, gives the response without
      the whitespace at the cuts. */
  lemma MessagesCarryTheText(text: string) returns (bodies: seq<string>)
    requires |text| > WHATSAPP_MAX_LENGTH
    ensures |bodies| == |Messages(text)|
    ensures forall i :: 0 <= i < |bodies| ==> ReadPart(Messages(text)[i]) == Some(Part(i + 1, |bodies|, bodies[i]))
    ensures Visible(Join(bodies)) == Visible(text)
  {
    bodies := DoSplit(text, WINDOW);
    SplitRoundTrip(text, WHATSAPP_MAX_LENGTH);
    SplitKeepsVisibleText(text, WINDOW);
  }

  /** No message of a successful response is blank, apart from the single empty message for an output
      of nothing but (at most 10000) whitespace characters. */
  lemma BlankMessageIff(output: string)
    ensures (exists i :: 0 <= i < |Messages(Format(output))| && Messages(Format(output))[i] == "") <==>
            output != "" && AllSpace(output) && |output| <= MAX_RESPONSE_LENGTH
  {
    FormatBlankIff(output);
    EmptyMessageIff(Format(output));
  }

  lemma EmptyMessageIff(text: string)
    ensures (exists i :: 0 <= i < |Messages(text)| && Messages(text)[i] == "") <==> text == ""
  {
    if |text| <= WHATSAPP_MAX_LENGTH {
      assert Messages(text)[0] == text;
    } else {
      forall i | 0 <= i < |Messages(text)|
        ensures Messages(text)[i] != ""
      {
        SplitPartLength(text, WHATSAPP_MAX_LENGTH, i);
      }
    }
  }

  /** The body behind each prefix of a long successful response is nonblank and trimmed, and there are
      at least two. */
  lemma LongResponseHasNoBlankBodies(output: string, i: nat)
    requires |Format(output)| > WHATSAPP_MAX_LENGTH && i < |Messages(Format(output))|
    ensures |Messages(Format(output))| >= 2
    ensures ReadPart(Messages(Format(output))[i]).Some?
    ensures
      var body := ReadPart(Messages(Format(output))[i]).value.body;
      body != "" && Trimmed(body)
  {
    FormatIsShortAndTrimmed(output);
    LongTextHasNoBlankBodies(Format(output), i);
  }

  lemma LongTextHasNoBlankBodies(text: string, i: nat)
    requires |text| > WHATSAPP_MAX_LENGTH && Trimmed(text) && i < |Messages(text)|
    ensures |Messages(text)| >= 2 && ReadPart(Messages(text)[i]).Some?
    ensures
      var body := ReadPart(Messages(text)[i]).value.body;
      body != "" && Trimmed(body)
  {
    var body := BodyOf(text, i);
    NoBlankPart(text, WINDOW, body);
  }

  /** What is read back from a message is a raw part. */
  lemma BodyOf(text: string, i: nat) returns (body: string)
    requires |text| > WHATSAPP_MAX_LENGTH && i < |Messages(text)|
    ensures |Messages(text)| == |DoSplit(text, WINDOW)| && body in DoSplit(text, WINDOW)
    ensures ReadPart(Messages(text)[i]).Some? && ReadPart(Messages(text)[i]).value.body == body
  {
    var raw := DoSplit(text, WINDOW);
    SplitRoundTrip(text, WHATSAPP_MAX_LENGTH);
    body := raw[i];
    assert ReadPart(Messages(text)[i]) == Some(Part(i + 1, |raw|, raw[i]));
  }

  lemma NoBlankPart(text: string, maxLen: nat, part: string)
    requires 1 <= maxLen < |text| && Trimmed(text) && part in DoSplit(text, maxLen)
    ensures part != "" && Trimmed(part) && |DoSplit(text, maxLen)| >= 2
  {
    NoBlankParts(text, maxLen);
  }

  /** Every message that a task posts for a successful result fits. */
  lemma PostedBodiesFit(store: Store, job: Job, around: Surroundings)
    requires Responds(around) && FinalAttempt(around).result.success
    ensures |BodiesOfTask(store, job, around)| <= 25
    ensures AllFit(BodiesOfTask(store, job, around), WHATSAPP_MAX_LENGTH)
  {
    SuccessfulResponseFits(FinalAttempt(around).result.output);
  }

  /** Text without brackets and exclamation marks, trimmed and not too long, goes through format() as
      it is. */
  lemma PlainTextIsKept(text: string)
    requires text != "" && Trimmed(text) && |text| <= MAX_RESPONSE_LENGTH
    requires '[' !in text && '!' !in text
    ensures Format(text) == text
  {
    CopiedWhole(Image, text);
    CopiedWhole(Link, text);
    StripOfTrimmed(text);
  }

  lemma StripOfTrimmed(text: string)
    requires Trimmed(text)
    ensures Strip(text) == text
  {
  }

  /** The bound of 25 messages is reached: 6 blocks and a letter. */
  lemma TwentyFiveMessagesOccur() returns (output: string)
    ensures |Messages(Format(output))| == 25
  {
    var k: nat :| k == 6;
    output := BoundIsReached(k, WINDOW);
    BlockTextIsPlain(k, WINDOW);
    BlockTextEnds(BlockText(k, WINDOW), output);
    PlainTextIsKept(output);
    SplitPartLength(output, WHATSAPP_MAX_LENGTH, 0);
  }

  lemma {:induction false} BlockTextIsPlain(k: nat, n: nat)
    ensures '[' !in BlockText(k, n) && '!' !in BlockText(k, n)
    ensures k > 0 ==> BlockText(k, n) != "" && BlockText(k, n)[0] == 'X'
  {
    if k > 0 {
      BlockTextIsPlain(k - 1, n);
      assert '[' !in Block(n) && '!' !in Block(n) && Block(n)[0] == 'X';
    }
  }

  lemma BlockTextEnds(blocks: string, text: string)
    requires blocks != "" && blocks[0] == 'X' && '[' !in blocks && '!' !in blocks && text == blocks + "b"
    ensures Trimmed(text) && '[' !in text && '!' !in text
  {
    SpaceOrNot('X');
    SpaceOrNot('b');
  }
}
