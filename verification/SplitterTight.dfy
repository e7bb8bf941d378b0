/** Where the promise "each part no longer than max_length" breaks: solid text beyond 99 windows,
    and a family of texts that shows four parts per window is really reached. */
module SplitterTight {
  import opened Text
  import opened Splitter
  import opened SplitterSize
  import opened SplitterPrefix

  // --- Text without any whitespace: only hard cuts ---

  ghost predicate Solid(text: string) {
    forall i :: 0 <= i < |text| ==> !IsSpace(text[i])
  }

  lemma SolidHasNoDelimiter(text: string, kind: Kind, at: int)
    requires Solid(text) && kind != Hard
    ensures !Occurs(text, Delimiter(kind), at)
  {
    var d := Delimiter(kind);
    SpaceOrNot(d[|d| - 1]);
    assert 0 <= at && at + |d| <= |text| ==> text[at..at + |d|][|d| - 1] == text[at + |d| - 1];
  }

  lemma SolidCut(text: string, maxLen: nat)
    requires Solid(text) && 1 <= maxLen < |text|
    ensures First(text, maxLen) == text[..maxLen] && Rest(text, maxLen) == text[maxLen..]
  {
    assert ChooseCut(text, maxLen) == Cut(Hard, maxLen) by {
      CutIsBestInWindow(text, maxLen);
      var cut := ChooseCut(text, maxLen);
      if cut.kind != Hard {
        SolidHasNoDelimiter(text, cut.kind, cut.pos - Kept(cut.kind));
      }
    }
  }

  /** A length of more than n-1 and at most n windows. */
  ghost predicate Windows(length: int, n: int, maxLen: int) {
    (n - 1) * maxLen < length <= n * maxLen
  }

  lemma OneMoreWindow(length: int, n: int, maxLen: int)
    requires Windows(length, n, maxLen)
    ensures Windows(length + maxLen, n + 1, maxLen)
  {
    assert n * maxLen == (n - 1) * maxLen + maxLen;
    assert (n + 1) * maxLen == n * maxLen + maxLen;
  }

  lemma WindowsCompare(length: int, n: int, maxLen: int, limit: int)
    requires maxLen >= 1 && Windows(length, n, maxLen)
    ensures n <= limit <==> length <= limit * maxLen
  {
    if n <= limit {
      MulMonotone(maxLen, n, limit);
    } else {
      MulMonotone(maxLen, limit, n - 1);
    }
  }

  lemma SolidUnfold(text: string, maxLen: nat)
    requires Solid(text) && 1 <= maxLen < |text|
    ensures Solid(text[maxLen..]) && text[maxLen..] != ""
    ensures DoSplit(text, maxLen) == [text[..maxLen]] + DoSplit(text[maxLen..], maxLen)
  {
    SolidCut(text, maxLen);
  }

  /** All parts but the last fill the window. */
  ghost predicate FullButLast(parts: seq<string>, maxLen: nat) {
    forall i :: 0 <= i < |parts| - 1 ==> |parts[i]| == maxLen
  }

  /** Solid text is cut into full windows, all but the last part. */
  lemma {:induction false} SolidParts(text: string, maxLen: nat)
    requires Solid(text) && text != "" && maxLen >= 1
    ensures Windows(|text|, |DoSplit(text, maxLen)|, maxLen)
    ensures FullButLast(DoSplit(text, maxLen), maxLen)
    decreases |text|
  {
    if |text| > maxLen {
      SolidUnfold(text, maxLen);
      var rest := text[maxLen..];
      SolidParts(rest, maxLen);
      FirstIsFull(text[..maxLen], DoSplit(rest, maxLen), maxLen);
      OneMoreWindow(|rest|, |DoSplit(rest, maxLen)|, maxLen);
    }
  }

  lemma FirstIsFull(first: string, parts: seq<string>, maxLen: nat)
    requires |first| == maxLen && parts != []
    requires FullButLast(parts, maxLen)
    ensures FullButLast([first] + parts, maxLen)
  {
  }

  /** For solid text the promise holds exactly up to 99 windows. */
  lemma SolidFitsIffShort(text: string, maxLength: int)
    requires Solid(text) && maxLength > MAX_PART_PREFIX_LEN
    ensures AllFit(Split(text, maxLength), maxLength) <==> |text| <= 99 * (maxLength - MAX_PART_PREFIX_LEN)
  {
    if |text| > maxLength {
      var few := SolidIsFew(text, maxLength - MAX_PART_PREFIX_LEN);
      var fits := SolidFits(text, maxLength);
      assert few == fits;
    } else {
      WholeTextFits(text, maxLength);
    }
  }

  lemma SolidIsFew(text: string, maxLen: nat) returns (few: bool)
    requires Solid(text) && 1 <= maxLen < |text|
    ensures few == (|text| <= 99 * maxLen) == (|DoSplit(text, maxLen)| <= 99)
  {
    var n := SolidPartCount(text, maxLen, 99);
    few := n <= 99;
  }

  lemma SolidFits(text: string, maxLength: int) returns (fits: bool)
    requires Solid(text) && |text| > maxLength > MAX_PART_PREFIX_LEN
    ensures fits == AllFit(Split(text, maxLength), maxLength) == (|DoSplit(text, maxLength - MAX_PART_PREFIX_LEN)| <= 99)
  {
    var n := SolidPartCount(text, maxLength - MAX_PART_PREFIX_LEN, 99);
    FullPartsFitIffFew(text, maxLength);
    fits := n <= 99;
  }

  lemma FullPartsFitIffFew(text: string, maxLength: int)
    requires |text| > maxLength > MAX_PART_PREFIX_LEN
    requires FullButLast(DoSplit(text, maxLength - MAX_PART_PREFIX_LEN), maxLength - MAX_PART_PREFIX_LEN)
    ensures AllFit(Split(text, maxLength), maxLength) <==> |DoSplit(text, maxLength - MAX_PART_PREFIX_LEN)| <= 99
  {
    if |DoSplit(text, maxLength - MAX_PART_PREFIX_LEN)| <= 99 {
      FitsWithFewParts(text, maxLength);
    } else {
      FullTenthPartBreaks(text, maxLength, 9);
    }
  }

  lemma SolidPartCount(text: string, maxLen: nat, limit: nat) returns (n: nat)
    requires Solid(text) && 1 <= maxLen < |text|
    ensures n == |DoSplit(text, maxLen)|
    ensures n <= limit <==> |text| <= limit * maxLen
    ensures FullButLast(DoSplit(text, maxLen), maxLen)
  {
    SolidParts(text, maxLen);
    n := |DoSplit(text, maxLen)|;
    WindowsCompare(|text|, n, maxLen, limit);
  }

  /** A full window in the tenth or a later part, out of a hundred or more, is too long. */
  lemma FullTenthPartBreaks(text: string, maxLength: int, i: nat)
    requires |text| > maxLength > MAX_PART_PREFIX_LEN
    requires
      var raw := DoSplit(text, maxLength - MAX_PART_PREFIX_LEN);
      |raw| >= 100 && 9 <= i < |raw| && |raw[i]| == maxLength - MAX_PART_PREFIX_LEN
    ensures |Split(text, maxLength)| > i && |Split(text, maxLength)[i]| > maxLength
  {
    SplitPartLength(text, maxLength, i);
    DecimalLength(i + 1);
    DecimalLength(|DoSplit(text, maxLength - MAX_PART_PREFIX_LEN)|);
  }

  // --- The worst case: a paragraph, a sentence, a word and a window-filling word ---

  function Filler(n: nat): string {
    seq(n, _ => 'a')
  }

  /** n + 8 characters that are cut into four parts when a window has n characters. */
  function Block(n: nat): string {
    "X\n\nY. Z " + Filler(n)
  }

  function BlockText(k: nat, n: nat): string {
    if k == 0 then "" else Block(n) + BlockText(k - 1, n)
  }

  function BlockParts(k: nat, n: nat): seq<string> {
    if k == 0 then [] else ["X", "Y.", "Z", Filler(n)] + BlockParts(k - 1, n)
  }

  /** A cut at the only delimiter of its kind, with no better delimiter in the window. */
  lemma CutAt(text: string, maxLen: nat, kind: Kind, at: nat)
    requires maxLen < |text| && kind != Hard
    requires 1 <= at && at + |Delimiter(kind)| <= maxLen && Occurs(text, Delimiter(kind), at)
    requires NoneBetween(text, Delimiter(kind), at + 1, maxLen)
    requires forall k: Kind :: Rank(k) > Rank(kind) ==> NoneBetween(text, Delimiter(k), 1, maxLen)
    ensures ChooseCut(text, maxLen) == Cut(kind, at + Kept(kind))
  {
    CutIsBestInWindow(text, maxLen);
    var cut := ChooseCut(text, maxLen);
    assert Rank(cut.kind) <= Rank(kind) by {
      assert !(1 <= cut.pos - Kept(cut.kind) && Rank(cut.kind) > Rank(kind) && Occurs(text, Delimiter(cut.kind), cut.pos - Kept(cut.kind)));
    }
    assert Rank(cut.kind) >= Rank(kind);
    assert cut.kind == kind;
  }

  /** No delimiter inside a stretch of text that lacks the delimiter's j-th character. */
  lemma NoneWithout(text: string, kind: Kind, j: nat, lo: int, hi: int)
    requires j < |Delimiter(kind)| && 0 <= lo && hi <= |text|
    requires forall i :: lo + j <= i < hi - |Delimiter(kind)| + 1 + j ==> text[i] != Delimiter(kind)[j]
    ensures NoneBetween(text, Delimiter(kind), lo, hi)
  {
    var d := Delimiter(kind);
    forall i | lo <= i && i + |d| <= hi
      ensures !Occurs(text, d, i)
    {
      assert text[i..i + |d|][j] == text[i + j];
    }
  }

  /** A cut right after a visible character, with whitespace up to the next visible one. */
  lemma StepIs(text: string, maxLen: nat, left: string, sep: string, right: string)
    requires maxLen < |text| && text == left + sep + right
    requires ChooseCut(text, maxLen).pos == |left|
    requires left != "" && !IsSpace(left[|left| - 1])
    requires AllSpace(sep) && (right == "" || !IsSpace(right[0]))
    ensures First(text, maxLen) == left && Rest(text, maxLen) == right
  {
    CutBetween(left, sep, right);
    LStripSpace(sep, right);
  }

  lemma CutBetween(left: string, sep: string, right: string)
    ensures (left + sep + right)[..|left|] == left && (left + sep + right)[|left|..] == sep + right
  {
  }

  lemma {:induction false} LStripSpace(sep: string, right: string)
    requires AllSpace(sep) && (right == "" || !IsSpace(right[0]))
    ensures LStrip(sep + right) == right
  {
    if sep == "" {
      assert sep + right == right;
    } else {
      assert (sep + right)[1..] == sep[1..] + right;
      LStripSpace(sep[1..], right);
    }
  }

  lemma BlockStep(rest: string, n: nat)
    requires n >= 3
    ensures
      var text := Block(n) + rest;
      First(text, n) == "X" && Rest(text, n) == "Y. Z " + Filler(n) + rest
  {
    var right := "Y. Z " + Filler(n) + rest;
    var text := Block(n) + rest;
    assert text == "X" + "\n\n" + right;
    assert text[1..3] == "\n\n";
    NoneWithout(text, Paragraph, 1, 2, n);
    CutAt(text, n, Paragraph, 1);
    SpaceOrNot('X');
    SpaceOrNot('\n');
    SpaceOrNot('Y');
    StepIs(text, n, "X", "\n\n", right);
  }

  lemma SentenceStep(rest: string, n: nat)
    requires n >= 3
    ensures
      var text := "Y. Z " + Filler(n) + rest;
      First(text, n) == "Y." && Rest(text, n) == "Z " + Filler(n) + rest
  {
    var right := "Z " + Filler(n) + rest;
    var text := "Y. Z " + Filler(n) + rest;
    assert text == "Y." + " " + right;
    assert text[1..3] == ". ";
    NoneWithout(text, Paragraph, 0, 1, n);
    NoneWithout(text, Sentence, 0, 2, n);
    CutAt(text, n, Sentence, 1);
    SpaceOrNot('.');
    SpaceOrNot(' ');
    SpaceOrNot('Z');
    StepIs(text, n, "Y.", " ", right);
  }

  lemma WordStep(rest: string, n: nat)
    requires n >= 3
    ensures
      var text := "Z " + Filler(n) + rest;
      First(text, n) == "Z" && Rest(text, n) == Filler(n) + rest
  {
    var right := Filler(n) + rest;
    var text := "Z " + Filler(n) + rest;
    assert text == "Z" + " " + right;
    assert text[1..2] == " ";
    NoneWithout(text, Paragraph, 0, 1, n);
    NoneWithout(text, Sentence, 0, 1, n);
    NoneWithout(text, Word, 0, 2, n);
    CutAt(text, n, Word, 1);
    SpaceOrNot('Z');
    SpaceOrNot(' ');
    SpaceOrNot('a');
    StepIs(text, n, "Z", " ", right);
  }

  lemma FillerStep(rest: string, n: nat)
    requires n >= 3 && rest != "" && !IsSpace(rest[0])
    ensures First(Filler(n) + rest, n) == Filler(n) && Rest(Filler(n) + rest, n) == rest
  {
    var text := Filler(n) + rest;
    forall k: Kind | k != Hard
      ensures NoneBetween(text, Delimiter(k), 1, n)
    {
      NoneWithout(text, k, 0, 1, n);
    }
    CutIsBestInWindow(text, n);
    assert ChooseCut(text, n) == Cut(Hard, n);
    SpaceOrNot('a');
    assert text == Filler(n) + "" + rest;
    StepIs(text, n, Filler(n), "", rest);
  }

  /** k blocks of n + 8 characters come out as exactly 4k parts, whatever follows. */
  lemma {:induction false} BlocksSplitIntoFour(k: nat, n: nat, rest: string)
    requires n >= 3 && (rest == "" || !IsSpace(rest[0]))
    ensures PartsOf(BlockText(k, n) + rest, n) == BlockParts(k, n) + PartsOf(rest, n)
    decreases k
  {
    if k == 0 {
      assert BlockText(k, n) + rest == rest;
    } else {
      BlocksStartVisibly(k - 1, n, rest);
      BlocksSplitIntoFour(k - 1, n, rest);
      BlockOnTop(n, BlockText(k - 1, n) + rest, BlockParts(k - 1, n), PartsOf(rest, n));
      ConcatAssoc(Block(n), BlockText(k - 1, n), rest);
    }
  }

  lemma BlockOnTop(n: nat, more: string, parts: seq<string>, end: seq<string>)
    requires n >= 3 && (more == "" || !IsSpace(more[0]))
    requires PartsOf(more, n) == parts + end
    ensures PartsOf(Block(n) + more, n) == (["X", "Y.", "Z", Filler(n)] + parts) + end
  {
    BlockSplit(more, n);
  }

  lemma ConcatAssoc(a: string, b: string, c: string)
    ensures (a + b) + c == a + (b + c)
  {
  }

  function PartsOf(rest: string, n: nat): seq<string>
    requires n >= 1
  {
    if rest == "" then [] else DoSplit(rest, n)
  }

  lemma BlocksStartVisibly(k: nat, n: nat, rest: string)
    requires rest == "" || !IsSpace(rest[0])
    ensures var text := BlockText(k, n) + rest; text == "" || !IsSpace(text[0])
  {
    SpaceOrNot('X');
  }

  /** The bound on the number of parts is reached, by texts of any number of blocks that is small
      beside the window. */
  lemma BoundIsReached(k: nat, n: nat) returns (text: string)
    requires n >= 3 && 8 * k < n
    ensures |text| == k * (n + 8) + 1 && text == BlockText(k, n) + "b"
    ensures |DoSplit(text, n)| == PartBound(|text|, n) == 4 * k + 1
  {
    text := BlockText(k, n) + "b";
    BlocksLength(k, n);
    SpaceOrNot('b');
    BlocksSplitIntoFour(k, n, "b");
    QuotientIs(k, 8 * k, n);
    assert k * (n + 8) == k * n + 8 * k;
  }

  lemma QuotientIs(q: nat, r: nat, d: nat)
    requires r < d
    ensures (q * d + r) / d == q
  {
    var q', r' := (q * d + r) / d, (q * d + r) % d;
    if q' < q {
      MulMonotone(d, q' + 1, q);
    } else if q' > q {
      MulMonotone(d, q + 1, q');
    }
  }

  lemma BlockSplit(rest: string, n: nat)
    requires n >= 3 && (rest == "" || !IsSpace(rest[0]))
    ensures DoSplit(Block(n) + rest, n) ==
            ["X", "Y.", "Z", Filler(n)] + PartsOf(rest, n)
  {
    var t0, t1 := Block(n) + rest, "Y. Z " + Filler(n) + rest;
    var t2, t3 := "Z " + Filler(n) + rest, Filler(n) + rest;
    BlockStep(rest, n);
    UnfoldSplit(t0, n, "X", t1);
    SentenceStep(rest, n);
    UnfoldSplit(t1, n, "Y.", t2);
    WordStep(rest, n);
    UnfoldSplit(t2, n, "Z", t3);
    FillerSplit(rest, n);
    FourThen("X", "Y.", "Z", Filler(n), PartsOf(rest, n));
  }

  lemma FourThen(a: string, b: string, c: string, d: string, s: seq<string>)
    ensures [a] + ([b] + ([c] + ([d] + s))) == [a, b, c, d] + s
  {
  }

  lemma FillerSplit(rest: string, n: nat)
    requires n >= 3 && (rest == "" || !IsSpace(rest[0]))
    ensures DoSplit(Filler(n) + rest, n) == [Filler(n)] + PartsOf(rest, n)
  {
    if rest == "" {
      assert Filler(n) + rest == Filler(n);
    } else {
      FillerStep(rest, n);
      UnfoldSplit(Filler(n) + rest, n, Filler(n), rest);
    }
  }

  lemma UnfoldSplit(text: string, maxLen: nat, first: string, rest: string)
    requires 1 <= maxLen < |text| && rest != ""
    requires First(text, maxLen) == first && Rest(text, maxLen) == rest
    ensures DoSplit(text, maxLen) == [first] + DoSplit(rest, maxLen)
  {
  }

  lemma {:induction false} BlocksLength(k: nat, n: nat)
    ensures |BlockText(k, n)| == k * (n + 8)
    ensures |BlockParts(k, n)| == 4 * k
  {
    if k > 0 {
      BlocksLength(k - 1, n);
      assert k * (n + 8) == (k - 1) * (n + 8) + (n + 8);
    }
  }

  lemma {:induction false} EveryFourthPartIsFull(k: nat, n: nat, j: nat)
    requires j < k
    ensures 4 * j + 3 < |BlockParts(k, n)| && |BlockParts(k, n)[4 * j + 3]| == n
  {
    var block, rest := ["X", "Y.", "Z", Filler(n)], BlockParts(k - 1, n);
    assert BlockParts(k, n) == block + rest;
    if j > 0 {
      EveryFourthPartIsFull(k - 1, n, j - 1);
      assert (block + rest)[4 * j + 3] == rest[4 * (j - 1) + 3];
    } else {
      assert (block + rest)[3] == Filler(n);
    }
  }

  lemma BlocksOfLength(maxLength: int, k: nat, length: nat) returns (text: string)
    requires maxLength >= MAX_PART_PREFIX_LEN + 3 && k >= 25 && length >= k * maxLength
    ensures |text| == length && |Split(text, maxLength)| >= 4 * k && !AllFit(Split(text, maxLength), maxLength)
    ensures length == k * maxLength ==> |Split(text, maxLength)| == 4 * k
  {
    var rest := Filler(length - k * maxLength);
    text := BlockText(k, maxLength - MAX_PART_PREFIX_LEN) + rest;
    BlocksLength(k, maxLength - MAX_PART_PREFIX_LEN);
    SpaceOrNot('a');
    BlocksBreakPromise(maxLength, k, rest);
  }

  lemma SolidBreaks(text: string, maxLength: int)
    requires maxLength > MAX_PART_PREFIX_LEN && |text| > maxLength
    requires |text| > 99 * (maxLength - MAX_PART_PREFIX_LEN)
    requires forall i :: 0 <= i < |text| ==> text[i] == 'a'
    ensures |Split(text, maxLength)| >= 100 && !AllFit(Split(text, maxLength), maxLength)
  {
    SolidFromLetters(text);
    SolidFitsIffShort(text, maxLength);
    SolidIsMany(text, maxLength);
  }

  lemma SolidFromLetters(text: string)
    requires forall i :: 0 <= i < |text| ==> text[i] == 'a'
    ensures Solid(text)
  {
    SpaceOrNot('a');
  }

  lemma SolidIsMany(text: string, maxLength: int)
    requires Solid(text) && |text| > maxLength > MAX_PART_PREFIX_LEN
    requires |text| > 99 * (maxLength - MAX_PART_PREFIX_LEN)
    ensures |Split(text, maxLength)| >= 100
  {
    var n := SolidPartCount(text, maxLength - MAX_PART_PREFIX_LEN, 99);
    SplitPartLength(text, maxLength, 0);
  }

  /** For every limit there is a text of 25 maximal messages whose split breaks the promise; with
      room for three characters in a message it has exactly 100 parts. */
  lemma PromiseBreaksAt25Messages(maxLength: int) returns (text: string)
    requires maxLength > MAX_PART_PREFIX_LEN
    ensures |text| == 25 * maxLength && !AllFit(Split(text, maxLength), maxLength)
    ensures maxLength >= MAX_PART_PREFIX_LEN + 3 ==> |Split(text, maxLength)| == 100
  {
    if maxLength < MAX_PART_PREFIX_LEN + 3 {
      text := Filler(25 * maxLength);
      SolidBreaks(text, maxLength);
    } else {
      text := BlocksOfLength(maxLength, 25, 25 * maxLength);
    }
  }

  /** A hundred parts, the twelfth one longer than maxLength. */
  lemma BlocksBreakPromise(maxLength: int, k: nat, rest: string)
    requires maxLength >= MAX_PART_PREFIX_LEN + 3 && k >= 25
    requires rest == "" || !IsSpace(rest[0])
    ensures
      var parts := Split(BlockText(k, maxLength - MAX_PART_PREFIX_LEN) + rest, maxLength);
      && |parts| >= 4 * k && (rest == "" ==> |parts| == 4 * k)
      && !AllFit(parts, maxLength)
  {
    var n := maxLength - MAX_PART_PREFIX_LEN;
    var text := BlockText(k, n) + rest;
    BlocksLength(k, n);
    assert |text| > maxLength by {
      MulMonotone(maxLength, 2, k);
    }
    BlocksSplitIntoFour(k, n, rest);
    EveryFourthPartIsFull(k, n, 2);
    assert DoSplit(text, n)[11] == BlockParts(k, n)[11];
    FullTenthPartBreaks(text, maxLength, 11);
    SplitPartLength(text, maxLength, 11);
  }
}
