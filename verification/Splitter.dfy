/** MessageSplitter: cutting a long text into numbered parts, and what one cut does to the text. */
module Splitter {
  import opened Text

  const MAX_PART_PREFIX_LEN := 8

  /** The four ways of choosing a cut, best first. */
  datatype Kind = Paragraph | Sentence | Word | Hard

  /** Where the text is cut, and by which rule. */
  datatype Cut = Cut(kind: Kind, pos: nat)

  function Delimiter(kind: Kind): string {
    match kind
    case Paragraph => "\n\n"
    case Sentence => ". "
    case Word => " "
    case Hard => ""
  }

  /** How much of the delimiter stays with the left part: a sentence keeps its period. */
  function Kept(kind: Kind): nat {
    if kind == Sentence then 1 else 0
  }

  /** Paragraph cuts outrank sentence cuts, which outrank word cuts, which outrank hard cuts. */
  function Rank(kind: Kind): nat {
    match kind
    case Paragraph => 3
    case Sentence => 2
    case Word => 1
    case Hard => 0
  }

  /** _find_split_point: a delimiter at the very start does not count. */
  function FindSplitPoint(text: string, maxLen: nat, delimiter: string): int
    requires maxLen <= |text|
  {
    var pos := RFind(text, delimiter, maxLen);
    if pos > 0 then pos else -1
  }

  function ChooseCut(text: string, maxLen: nat): (cut: Cut)
    requires maxLen < |text|
    ensures cut.pos <= maxLen
  {
    var paragraph := FindSplitPoint(text, maxLen, "\n\n");
    if paragraph != -1 then Cut(Paragraph, paragraph)
    else
      var sentence := FindSplitPoint(text, maxLen, ". ");
      if sentence != -1 then Cut(Sentence, sentence + 1)
      else
        var word := FindSplitPoint(text, maxLen, " ");
        if word != -1 then Cut(Word, word)
        else Cut(Hard, maxLen)
  }

  /** The cut position is the last occurrence of the best delimiter that occurs in the window
      after its first character. */
  lemma CutIsBestInWindow(text: string, maxLen: nat)
    requires maxLen < |text|
    ensures
      var cut := ChooseCut(text, maxLen);
      var at := cut.pos - Kept(cut.kind);
      && cut.pos <= maxLen
      && (cut.kind == Hard ==> cut.pos == maxLen)
      && (cut.kind != Hard ==>
            && 1 <= at && at + |Delimiter(cut.kind)| <= maxLen
            && Occurs(text, Delimiter(cut.kind), at)
            && NoneBetween(text, Delimiter(cut.kind), at + 1, maxLen))
      && (forall k: Kind :: Rank(k) > Rank(cut.kind) ==> NoneBetween(text, Delimiter(k), 1, maxLen))
  {
    SplitPointIsLast(text, maxLen, "\n\n");
    SplitPointIsLast(text, maxLen, ". ");
    SplitPointIsLast(text, maxLen, " ");
  }

  lemma SplitPointIsLast(text: string, maxLen: nat, delimiter: string)
    requires maxLen <= |text|
    ensures
      var pos := FindSplitPoint(text, maxLen, delimiter);
      if pos == -1 then NoneBetween(text, delimiter, 1, maxLen)
      else && 1 <= pos && pos + |delimiter| <= maxLen && Occurs(text, delimiter, pos)
           && NoneBetween(text, delimiter, pos + 1, maxLen)
  {
    RFindIsLast(text, delimiter, maxLen);
  }

  function First(text: string, maxLen: nat): string
    requires maxLen < |text|
  {
    RStrip(text[..ChooseCut(text, maxLen).pos])
  }

  function Rest(text: string, maxLen: nat): string
    requires maxLen < |text|
  {
    LStrip(text[ChooseCut(text, maxLen).pos..])
  }

  /** The whitespace that the cut throws away. */
  function Gap(text: string, maxLen: nat): string
    requires maxLen < |text|
  {
    text[|First(text, maxLen)|..|text| - |Rest(text, maxLen)|]
  }

  /** One cut loses only whitespace, keeps the left part within the limit and never cuts
      at the front of the text. */
  lemma CutLosesOnlySpace(text: string, maxLen: nat)
    requires maxLen < |text|
    ensures text == First(text, maxLen) + Gap(text, maxLen) + Rest(text, maxLen)
    ensures AllSpace(Gap(text, maxLen))
    ensures |First(text, maxLen)| <= maxLen
    ensures |First(text, maxLen)| <= ChooseCut(text, maxLen).pos <= |text| - |Rest(text, maxLen)|
    ensures maxLen >= 1 ==> ChooseCut(text, maxLen).pos >= 1
    ensures Rest(text, maxLen) == text[|text| - |Rest(text, maxLen)|..]
  {
    StripAround(text, ChooseCut(text, maxLen).pos);
  }

  /** Cutting anywhere and stripping both sides of the cut loses only whitespace. */
  lemma StripAround(text: string, pos: nat)
    requires pos <= |text|
    ensures
      var first, rest := RStrip(text[..pos]), LStrip(text[pos..]);
      && |first| <= pos <= |text| - |rest|
      && rest == text[|text| - |rest|..]
      && AllSpace(text[|first|..|text| - |rest|])
      && text == first + text[|first|..|text| - |rest|] + rest
  {
    RStripDropsSuffix(text[..pos]);
    LStripDropsPrefix(text[pos..]);
    KeepAround(text, pos, RStrip(text[..pos]), LStrip(text[pos..]));
  }

  /** A prefix of the left side and a suffix of the right side of a cut, with only whitespace
      between them, make up the text. */
  lemma KeepAround(text: string, pos: nat, first: string, rest: string)
    requires pos <= |text|
    requires first <= text[..pos] && AllSpace(text[..pos][|first|..])
    requires |rest| <= |text| - pos && rest == text[pos..][|text| - pos - |rest|..]
    requires AllSpace(text[pos..][..|text| - pos - |rest|])
    ensures rest == text[|text| - |rest|..]
    ensures AllSpace(text[|first|..|text| - |rest|])
    ensures text == first + text[|first|..|text| - |rest|] + rest
  {
    var a, b := text[..pos][|first|..], text[pos..][..|text| - pos - |rest|];
    assert text[|first|..|text| - |rest|] == a + b;
    assert rest == text[|text| - |rest|..];
    assert text[..|first|] == first;
  }

  /** Each step shortens the text exactly when the budget is positive (or there is leading
      whitespace to strip): with a budget of 0 the recursion would never end. */
  lemma ProgressNeedsBudget(text: string, maxLen: nat)
    requires maxLen < |text|
    ensures |Rest(text, maxLen)| < |text| <==> maxLen >= 1 || IsSpace(text[0])
  {
    CutLosesOnlySpace(text, maxLen);
    if maxLen == 0 {
      CutIsBestInWindow(text, maxLen);
      assert ChooseCut(text, maxLen).pos == 0;
      assert text[0..] == text;
    }
  }

  /** The recursion of _do_split is over after at most this many calls. */
  predicate EndsWithin(text: string, maxLen: nat, calls: nat)
    decreases calls
  {
    calls > 0 &&
    (|text| <= maxLen || Rest(text, maxLen) == "" || EndsWithin(Rest(text, maxLen), maxLen, calls - 1))
  }

  ghost predicate Ends(text: string, maxLen: nat) {
    exists calls: nat :: EndsWithin(text, maxLen, calls)
  }

  /** The recursion ends for every text when the budget is positive, and only for blank text when it
      is 0: a limit of 8 leaves nothing for the text beside the prefix. */
  lemma RecursionEndsIff(text: string, maxLen: nat)
    ensures Ends(text, maxLen) <==> maxLen >= 1 || AllSpace(text)
  {
    if maxLen >= 1 {
      EndsWithBudget(text, maxLen);
    } else {
      if AllSpace(text) {
        BlankTextEnds(text, 1);
      }
      if Ends(text, maxLen) {
        var calls: nat :| EndsWithin(text, maxLen, calls);
        NeverEnds(text, calls);
      }
    }
  }

  lemma {:induction false} EndsWithBudget(text: string, maxLen: nat)
    requires maxLen >= 1
    ensures EndsWithin(text, maxLen, |text| + 1)
    decreases |text|
  {
    if |text| > maxLen {
      ProgressNeedsBudget(text, maxLen);
      var rest := Rest(text, maxLen);
      EndsWithBudget(rest, maxLen);
      MoreCalls(rest, maxLen, |rest| + 1, |text|);
    }
  }

  lemma {:induction false} MoreCalls(text: string, maxLen: nat, calls: nat, more: nat)
    requires EndsWithin(text, maxLen, calls) && calls <= more
    ensures EndsWithin(text, maxLen, more)
    decreases calls
  {
    if |text| > maxLen && Rest(text, maxLen) != "" {
      MoreCalls(Rest(text, maxLen), maxLen, calls - 1, more - 1);
    }
  }

  /** Without a budget, a step takes off the whitespace in front and leaves all the rest to the next. */
  lemma StepWithoutBudget(text: string)
    requires text != ""
    ensures Rest(text, 0) == LStrip(text) && (AllSpace(LStrip(text)) <==> AllSpace(text))
  {
    assert ChooseCut(text, 0).pos == 0 && text[0..] == text;
    LStripDropsPrefix(text);
    var rest := LStrip(text);
    assert text == text[..|text| - |rest|] + rest;
    assert forall i :: 0 <= i < |rest| ==> rest[i] == text[|text| - |rest| + i];
  }

  lemma {:induction false} NeverEnds(text: string, calls: nat)
    ensures EndsWithin(text, 0, calls) ==> AllSpace(text)
    decreases calls
  {
    if text != "" && calls > 0 {
      StepWithoutBudget(text);
      NeverEnds(LStrip(text), calls - 1);
    }
  }

  lemma BlankTextEnds(text: string, calls: nat)
    requires AllSpace(text) && calls > 0
    ensures EndsWithin(text, 0, calls)
  {
    if text != "" {
      StepWithoutBudget(text);
      LStripDropsPrefix(text);
    }
  }

  /** _do_split */
  function DoSplit(text: string, maxLen: nat): (parts: seq<string>)
    requires maxLen >= 1
    ensures |parts| >= 1
    decreases |text|
  {
    if |text| <= maxLen then [text]
    else
      ProgressNeedsBudget(text, maxLen);
      var first := First(text, maxLen);
      var rest := Rest(text, maxLen);
      if rest == "" then [first]
      else [first] + DoSplit(rest, maxLen)
  }

  /** The numbered form of part i out of total: "[i/total] part". */
  function Numbered(i: nat, total: nat, part: string): string {
    "[" + Decimal(i) + "/" + Decimal(total) + "] " + part
  }

  /** split. A text that does not fit needs room for the prefix and at least one character. */
  function Split(text: string, maxLength: int): (parts: seq<string>)
    requires |text| <= maxLength || maxLength > MAX_PART_PREFIX_LEN
    ensures |parts| >= 1
    ensures |text| <= maxLength ==> parts == [text]
  {
    if |text| <= maxLength then [text]
    else
      var raw := DoSplit(text, maxLength - MAX_PART_PREFIX_LEN);
      seq(|raw|, i requires 0 <= i < |raw| => Numbered(i + 1, |raw|, raw[i]))
  }
}
