/** The "[i/n] " prefixes: they can be read back, and they fit in the space reserved for them
    exactly while the two numbers have at most four digits together. */
module SplitterPrefix {
  import opened Options
  import opened Text
  import opened Splitter
  import opened SplitterSize
  import opened SplitterText

  datatype Part = Part(index: nat, total: nat, body: string)

  /** Reads "[index/total] body", cutting at the first "] ". */
  function ReadPart(s: string): Option<Part> {
    var close := IndexOf(s, "] ", 0);
    if close < 1 || s[0] != '[' then None else ReadNumbers(s[1..close], s[close + 2..])
  }

  function ReadNumbers(numbers: string, body: string): Option<Part> {
    var slash := IndexOf(numbers, "/", 0);
    if slash < 0 then None
    else
      var index, total := numbers[..slash], numbers[slash + 1..];
      if !AllDigits(index) || !AllDigits(total) then None
      else Some(Part(Numeral(index), Numeral(total), body))
  }

  /** The first occurrence of d in s at or after i, or -1. */
  function IndexOf(s: string, d: string, i: nat): (r: int)
    ensures r == -1 || (i <= r && r + |d| <= |s|)
    decreases |s| - i
  {
    if i + |d| > |s| || i >= |s| then -1
    else if Occurs(s, d, i) then i
    else IndexOf(s, d, i + 1)
  }

  lemma {:induction false} IndexOfIsFirst(s: string, d: string, i: nat, at: nat)
    requires i <= at && d != "" && Occurs(s, d, at)
    requires forall j :: i <= j < at ==> s[j] != d[0]
    ensures IndexOf(s, d, i) == at
    decreases at - i
  {
    if i < at {
      NotHere(s, d, i);
      IndexOfIsFirst(s, d, i + 1, at);
    }
  }

  lemma NotHere(s: string, d: string, i: nat)
    requires i < |s| && d != "" && s[i] != d[0]
    ensures !Occurs(s, d, i)
  {
    if i + |d| <= |s| {
      assert s[i..i + |d|][0] == s[i];
    }
  }

  /** Every numbered part gives back its number, the total and its text, whatever the text is. */
  lemma PartRoundTrip(i: nat, total: nat, body: string)
    ensures ReadPart(Numbered(i, total, body)) == Some(Part(i, total, body))
  {
    ReadBracketed(Decimal(i), Decimal(total), body);
    NumeralDecimal(i);
    NumeralDecimal(total);
  }

  lemma ReadBracketed(a: string, b: string, body: string)
    requires AllDigits(a) && AllDigits(b)
    ensures ReadPart("[" + a + "/" + b + "] " + body) == Some(Part(Numeral(a), Numeral(b), body))
  {
    var numbers := a + "/" + b;
    assert "[" + a + "/" + b + "] " + body == "[" + numbers + "] " + body;
    CloseBracketIsFirst(numbers, body);
    SlashIsFirst(a, b, body);
  }

  lemma CloseBracketIsFirst(numbers: string, body: string)
    requires forall k :: 0 <= k < |numbers| ==> numbers[k] != ']'
    ensures ReadPart("[" + numbers + "] " + body) == ReadNumbers(numbers, body)
  {
    var s := "[" + numbers + "] " + body;
    var close := 1 + |numbers|;
    assert s[close..close + 2] == "] ";
    IndexOfIsFirst(s, "] ", 0, close);
    assert s[1..close] == numbers && s[close + 2..] == body;
  }

  lemma SlashIsFirst(a: string, b: string, body: string)
    requires AllDigits(a) && AllDigits(b)
    ensures ReadNumbers(a + "/" + b, body) == Some(Part(Numeral(a), Numeral(b), body))
  {
    var s := a + "/" + b;
    assert s[|a|..|a| + 1] == "/";
    IndexOfIsFirst(s, "/", 0, |a|);
    assert s[..|a|] == a && s[|a| + 1..] == b;
  }

  /** A split of a long text can be read back part by part. */
  lemma SplitRoundTrip(text: string, maxLength: int)
    requires |text| > maxLength > MAX_PART_PREFIX_LEN
    ensures
      var raw := DoSplit(text, maxLength - MAX_PART_PREFIX_LEN);
      && |Split(text, maxLength)| == |raw|
      && forall i :: 0 <= i < |raw| ==>
           ReadPart(Split(text, maxLength)[i]) == Some(Part(i + 1, |raw|, raw[i]))
  {
    var raw := DoSplit(text, maxLength - MAX_PART_PREFIX_LEN);
    forall i | 0 <= i < |raw|
      ensures ReadPart(Split(text, maxLength)[i]) == Some(Part(i + 1, |raw|, raw[i]))
    {
      PartRoundTrip(i + 1, |raw|, raw[i]);
    }
  }

  lemma NumberedLength(i: nat, total: nat, body: string)
    ensures |Numbered(i, total, body)| == 4 + |Decimal(i)| + |Decimal(total)| + |body|
  {
  }

  /** The prefix stays within the 8 reserved characters exactly when the two numbers have at most
      four digits together: in a split into at most 99 parts, or for the first nine of at most
      999 parts. */
  lemma PrefixFits(i: nat, total: nat)
    requires 1 <= i <= total
    ensures |Numbered(i, total, "")| <= MAX_PART_PREFIX_LEN <==> |Decimal(i)| + |Decimal(total)| <= 4
    ensures |Numbered(i, total, "")| <= MAX_PART_PREFIX_LEN <==> total <= 99 || (total <= 999 && i <= 9)
  {
    NumberedLength(i, total, "");
    DecimalLength(i);
    DecimalLength(total);
    DecimalMonotone(i, total);
  }

  lemma SplitPartLength(text: string, maxLength: int, i: nat)
    requires |text| > maxLength > MAX_PART_PREFIX_LEN
    requires i < |DoSplit(text, maxLength - MAX_PART_PREFIX_LEN)|
    ensures
      var raw := DoSplit(text, maxLength - MAX_PART_PREFIX_LEN);
      && |Split(text, maxLength)| == |raw|
      && |Split(text, maxLength)[i]| == 4 + |Decimal(i + 1)| + |Decimal(|raw|)| + |raw[i]|
  {
    var raw := DoSplit(text, maxLength - MAX_PART_PREFIX_LEN);
    NumberedLength(i + 1, |raw|, raw[i]);
  }

  ghost predicate AllFit(parts: seq<string>, maxLength: int) {
    forall i :: 0 <= i < |parts| ==> |parts[i]| <= maxLength
  }

  /** The raw part and the digits of its prefix fit beside the four fixed prefix characters. */
  predicate HasRoomForPrefix(raw: seq<string>, maxLength: int, i: nat) {
    i < |raw| ==> |raw[i]| <= maxLength - 4 - |Decimal(i + 1)| - |Decimal(|raw|)|
  }

  ghost predicate AllHaveRoom(raw: seq<string>, maxLength: int) {
    forall i: nat :: i < |raw| ==> HasRoomForPrefix(raw, maxLength, i)
  }

  /** A split fits when its raw parts leave room for the digits of their prefixes. */
  lemma FitsExactly(text: string, maxLength: int)
    requires |text| > maxLength > MAX_PART_PREFIX_LEN
    ensures AllFit(Split(text, maxLength), maxLength) <==>
            AllHaveRoom(DoSplit(text, maxLength - MAX_PART_PREFIX_LEN), maxLength)
  {
    var raw, parts := DoSplit(text, maxLength - MAX_PART_PREFIX_LEN), Split(text, maxLength);
    forall i | 0 <= i < |raw|
      ensures |parts| == |raw| && (|parts[i]| <= maxLength <==> HasRoomForPrefix(raw, maxLength, i))
    {
      SplitPartLength(text, maxLength, i);
    }
    if AllFit(parts, maxLength) {
      forall i | 0 <= i < |raw|
        ensures HasRoomForPrefix(raw, maxLength, i)
      {
        assert |parts[i]| <= maxLength;
      }
    }
  }

  lemma WholeTextFits(text: string, maxLength: int)
    requires |text| <= maxLength
    ensures AllFit(Split(text, maxLength), maxLength)
  {
  }

  /** With at most 99 parts every part fits; with more, only if the later ones happen to be short. */
  lemma FitsWithFewParts(text: string, maxLength: int)
    requires |text| > maxLength > MAX_PART_PREFIX_LEN
    requires |DoSplit(text, maxLength - MAX_PART_PREFIX_LEN)| <= 99
    ensures AllFit(Split(text, maxLength), maxLength)
  {
    FewHaveRoom(text, maxLength);
    FitsExactly(text, maxLength);
  }

  lemma FitsIfFew(text: string, maxLength: int)
    requires maxLength > MAX_PART_PREFIX_LEN
    requires |DoSplit(text, maxLength - MAX_PART_PREFIX_LEN)| <= 99
    ensures AllFit(Split(text, maxLength), maxLength)
  {
    if |text| > maxLength {
      FitsWithFewParts(text, maxLength);
    } else {
      WholeTextFits(text, maxLength);
    }
  }

  lemma FewHaveRoom(text: string, maxLength: int)
    requires |text| > maxLength > MAX_PART_PREFIX_LEN
    requires |DoSplit(text, maxLength - MAX_PART_PREFIX_LEN)| <= 99
    ensures AllHaveRoom(DoSplit(text, maxLength - MAX_PART_PREFIX_LEN), maxLength)
  {
    PartsFitWindow(text, maxLength - MAX_PART_PREFIX_LEN);
    RoomWithFewParts(DoSplit(text, maxLength - MAX_PART_PREFIX_LEN), maxLength);
  }

  lemma RoomWithFewParts(raw: seq<string>, maxLength: int)
    requires |raw| <= 99
    requires forall i :: 0 <= i < |raw| ==> |raw[i]| <= maxLength - MAX_PART_PREFIX_LEN
    ensures AllHaveRoom(raw, maxLength)
  {
    forall i: nat | i < |raw|
      ensures HasRoomForPrefix(raw, maxLength, i)
    {
      TwoDigits(i + 1, |raw|);
    }
  }

  lemma TwoDigits(i: nat, total: nat)
    requires i <= total <= 99
    ensures |Decimal(i)| <= 2 && |Decimal(total)| <= 2
  {
    DecimalLength(i);
    DecimalLength(total);
  }

  /** The promise of split holds up to 25 windows, as the part count bound shows; the exact length is
      in SplitterExact. */
  lemma FitsByLength(text: string, maxLength: int)
    requires maxLength > MAX_PART_PREFIX_LEN
    requires |text| <= 25 * (maxLength - MAX_PART_PREFIX_LEN)
    ensures AllFit(Split(text, maxLength), maxLength)
  {
    FewParts(text, maxLength - MAX_PART_PREFIX_LEN);
    FitsIfFew(text, maxLength);
  }

  lemma FewParts(text: string, maxLen: nat)
    requires maxLen >= 1 && |text| <= 25 * maxLen
    ensures |DoSplit(text, maxLen)| <= 97
  {
    PartCountBound(text, maxLen);
    FewPartsByLength(|text|, maxLen);
  }

  lemma FewPartsByLength(length: nat, maxLen: nat)
    requires maxLen >= 1 && length <= 25 * maxLen
    ensures PartBound(length, maxLen) <= 97
  {
    if length > 0 {
      QuotientBelow(length - 1, maxLen, 25);
    }
  }

  lemma QuotientBelow(n: nat, d: nat, q: nat)
    requires d >= 1 && n < q * d
    ensures n / d < q
  {
    if n / d >= q {
      MulMonotone(d, q, n / d);
    }
  }
}
