/** The shortest text that breaks the promise "each part no longer than max_length", for every limit.
    A part is too long only if there are a hundred, so it is the shortest text with a hundred parts. */
module SplitterExact {
  import opened Splitter
  import opened SplitterPrefix
  import opened SplitterTight
  import opened SplitterShortest

  /** The length of the shortest text that makes a hundred parts, from the window. */
  function ShortestHundred(maxLen: nat): nat
    requires maxLen >= 1
  {
    if maxLen == 1 then 100
    else if maxLen <= 3 then 197 + maxLen
    else if maxLen == 4 then 250
    else 25 * maxLen + 174
  }

  lemma HundredIs(maxLen: nat, p: nat)
    requires maxLen >= 1 && p == 100
    ensures ShortestHundred(maxLen) == ShortestWith(p, maxLen)
  {
    assert (p - 3) / 4 == 24 && (p - 3) % 4 == 1 && (p - 2) / 2 == 49;
  }

  lemma HundredPartsNeed(text: string, maxLen: nat)
    requires maxLen >= 1 && |DoSplit(text, maxLen)| >= 100
    ensures |text| >= ShortestHundred(maxLen)
  {
    HundredIs(maxLen, 100);
    PartsNeed(text, maxLen, 100);
  }

  /** 98 parts, then a full one, then more. */
  ghost predicate FullAfter98(text: string, n: nat)
    requires n >= 1
  {
    |DoSplit(text, n)| >= 100 && |DoSplit(text, n)[98]| == n
  }

  lemma FullAfter98Parts(text: string, n: nat, front: seq<string>, m: nat)
    requires n >= 1 && m > n && |front| == 98 && PartsBefore(text, n, front, Filler(m))
    ensures FullAfter98(text, n)
  {
    LettersAreCut(n, m);
  }

  lemma FullAfter98Breaks(text: string, maxLength: int)
    requires maxLength > MAX_PART_PREFIX_LEN && |text| > maxLength
    requires FullAfter98(text, maxLength - MAX_PART_PREFIX_LEN)
    ensures !AllFit(Split(text, maxLength), maxLength)
  {
    FullTenthPartBreaks(text, maxLength, 98);
  }

  // --- The exact limit ---

  /** Below the length of the shortest hundred every text keeps the promise. */
  lemma ShorterFits(text: string, maxLength: int)
    requires maxLength > MAX_PART_PREFIX_LEN && |text| < ShortestHundred(maxLength - MAX_PART_PREFIX_LEN)
    ensures AllFit(Split(text, maxLength), maxLength)
  {
    var maxLen: nat := maxLength - MAX_PART_PREFIX_LEN;
    ShorterHasFewParts(text, maxLen);
    FewFit(text, maxLength, maxLen);
  }

  lemma FewFit(text: string, maxLength: int, maxLen: nat)
    requires maxLen >= 1 && maxLength == maxLen + MAX_PART_PREFIX_LEN && |DoSplit(text, maxLen)| <= 99
    ensures AllFit(Split(text, maxLength), maxLength)
  {
    FitsIfFew(text, maxLength);
  }

  lemma ShorterHasFewParts(text: string, maxLen: nat)
    requires maxLen >= 1 && |text| < ShortestHundred(maxLen)
    ensures |DoSplit(text, maxLen)| <= 99
  {
    if |DoSplit(text, maxLen)| >= 100 {
      HundredPartsNeed(text, maxLen);
    }
  }

  /** From that length on, there is a text of every length that breaks it. */
  lemma LongerBreaks(maxLength: int, length: nat) returns (text: string)
    requires maxLength > MAX_PART_PREFIX_LEN && length >= ShortestHundred(maxLength - MAX_PART_PREFIX_LEN)
    ensures |text| == length && !AllFit(Split(text, maxLength), maxLength)
  {
    text := HundredOfLength(maxLength - MAX_PART_PREFIX_LEN, length, 100);
    FullAfter98Breaks(text, maxLength);
  }

  lemma HundredOfLength(n: nat, length: nat, p: nat) returns (text: string)
    requires n >= 1 && p == 100 && length >= ShortestHundred(n)
    ensures |text| == length && FullAfter98(text, n) && length > n + MAX_PART_PREFIX_LEN
  {
    HundredIs(n, p);
    var m := length - LeastCuts(p - 2, n);
    var front;
    text, front := LeastCutsBefore(p - 2, n, m);
    FullAfter98Parts(text, n, front, m);
  }

  /** The promise of the docstring, decided for every limit and every length: all texts of that length
      keep it exactly when the length is below that of the shortest text with a hundred parts. */
  lemma PromiseHoldsIff(maxLength: int, length: nat)
    requires maxLength > MAX_PART_PREFIX_LEN
    ensures (forall text: string :: |text| == length ==> AllFit(Split(text, maxLength), maxLength)) <==>
            length < ShortestHundred(maxLength - MAX_PART_PREFIX_LEN)
  {
    if length < ShortestHundred(maxLength - MAX_PART_PREFIX_LEN) {
      forall text: string | |text| == length
        ensures AllFit(Split(text, maxLength), maxLength)
      {
        ShorterFits(text, maxLength);
      }
    } else {
      var text := LongerBreaks(maxLength, length);
    }
  }
}
