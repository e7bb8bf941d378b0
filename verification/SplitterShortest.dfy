/** How many characters it takes to make p parts: the shortest text with p parts, for every p and every
    window, and with it the largest number of parts for every length. */
module SplitterShortest {
  import opened Text
  import opened Splitter
  import opened SplitterSize
  import opened SplitterTight

  /** What n cuts that are followed by another one advance at least. In windows of 5 or more the cheapest
      are rounds of four: a word that fills the window, a paragraph, a sentence and a word. */
  function LeastCuts(n: nat, maxLen: nat): nat
    requires maxLen >= 1
  {
    if n == 0 then 0
    else if maxLen == 1 then n
    else if maxLen <= 3 then 2 * n
    else if maxLen == 4 then 5 * (n / 2) + 2 * (n % 2)
    else ((n - 1) / 4) * (maxLen + 7) + LastRound((n - 1) % 4, maxLen)
  }

  /** One to four cuts that are not yet a round. */
  function LastRound(r: nat, maxLen: nat): nat {
    if r == 0 then 2 else if r == 1 then 5 else if r == 2 then 8 else maxLen + 6
  }

  /** The length of the shortest text with p parts: all cuts but the last, and a text that needs it. */
  function ShortestWith(p: nat, maxLen: nat): nat
    requires maxLen >= 1
  {
    if p <= 1 then 0 else LeastCuts(p - 2, maxLen) + maxLen + 1
  }

  // --- What one cut and two cuts advance ---

  function Advance(text: string, maxLen: nat): int
    requires maxLen < |text|
  {
    |text| - |Rest(text, maxLen)|
  }

  /** A delimiter stands after at least one character; a hard cut takes a whole window. */
  function LeastAdvance(kind: Kind, maxLen: nat): nat {
    match kind
    case Paragraph => 3
    case Sentence => 3
    case Word => 2
    case Hard => maxLen
  }

  lemma CutAdvances(text: string, maxLen: nat)
    requires 1 <= maxLen < |text|
    ensures
      var kind := ChooseCut(text, maxLen).kind;
      && Advance(text, maxLen) >= LeastAdvance(kind, maxLen)
      && LeastAdvance(kind, maxLen) <= maxLen
  {
    CutIsBestInWindow(text, maxLen);
    CutPassesDelimiter(text, maxLen);
    CutUsesItsPosition(text, maxLen);
  }

  /** Two consecutive cuts, the second of the same or a better kind, leave the first one's window. */
  predicate Together(k: Kind, a: int, k': Kind, a': int, maxLen: nat) {
    k != Hard && k' != Hard && Rank(k) <= Rank(k') ==> a + a' > maxLen
  }

  lemma CutsTogether(text: string, maxLen: nat)
    requires 1 <= maxLen < |text| && |Rest(text, maxLen)| > maxLen
    ensures
      var next := Rest(text, maxLen);
      Together(ChooseCut(text, maxLen).kind, Advance(text, maxLen), ChooseCut(next, maxLen).kind, Advance(next, maxLen), maxLen)
  {
    var k, k' := ChooseCut(text, maxLen).kind, ChooseCut(Rest(text, maxLen), maxLen).kind;
    if k != Hard && k' != Hard && Rank(k) <= Rank(k') {
      RepeatedKindLeavesWindow(text, maxLen);
    }
  }

  // --- Windows of 5 or more ---

  /** What the cuts before a cut of this kind and advance have advanced at least, beyond maxLen + 7
      for every four of them; r is the number of cuts before it, modulo 4. */
  function Need(r: nat, kind: Kind, a: int, maxLen: nat): int {
    if r == 0 then
      if a >= maxLen - 1 then -1 else 0
    else if r == 1 then
      if kind == Paragraph then Max(2, maxLen + 1 - a) else if a >= maxLen - 1 then 2 else 3
    else if r == 2 then
      if kind == Paragraph || kind == Sentence then Max(5, maxLen + 4 - a) else if a >= maxLen - 1 then 5 else 6
    else
      if kind == Word && a == 2 then maxLen + 4 else Max(8, maxLen + 7 - a)
  }

  function Max(a: int, b: int): int {
    if a >= b then a else b
  }

  /** One more cut: four in a row gain a whole maxLen + 7. */
  lemma NeedGrows(r: nat, k: Kind, a: int, k': Kind, a': int, maxLen: nat)
    requires r < 4 && maxLen >= 5
    requires a >= LeastAdvance(k, maxLen) && a' >= LeastAdvance(k', maxLen) && Together(k, a, k', a', maxLen)
    ensures Need((r + 1) % 4, k', a', maxLen) + (if r == 3 then maxLen + 7 else 0) <= Need(r, k, a, maxLen) + a
  {
  }

  /** What the first i cuts of a text of this length need, if the next one is that of t. */
  ghost predicate NeedMet(length: int, i: nat, t: string, maxLen: nat) {
    && 1 <= maxLen < |t|
    && length - |t| >= (i / 4) * (maxLen + 7) + Need(i % 4, ChooseCut(t, maxLen).kind, Advance(t, maxLen), maxLen)
  }

  lemma {:induction false} CutsNeed(text: string, maxLen: nat, i: nat)
    requires maxLen >= 5 && i + 1 < |Starts(text, maxLen)|
    ensures NeedMet(|text|, i, Starts(text, maxLen)[i], maxLen)
  {
    NextStartIsRest(text, maxLen, i);
    if i == 0 {
      OneStartPerPart(text, maxLen);
    } else {
      CutsNeed(text, maxLen, i - 1);
      NextStartIsRest(text, maxLen, i - 1);
      OneMoreCut(|text|, i - 1, Starts(text, maxLen)[i - 1], maxLen);
    }
  }

  lemma OneMoreCut(length: int, i: nat, t: string, maxLen: nat)
    requires maxLen >= 5 && NeedMet(length, i, t, maxLen) && |Rest(t, maxLen)| > maxLen
    ensures NeedMet(length, i + 1, Rest(t, maxLen), maxLen)
  {
    var t' := Rest(t, maxLen);
    CutAdvances(t, maxLen);
    CutAdvances(t', maxLen);
    CutsTogether(t, maxLen);
    NeedGrows(i % 4, ChooseCut(t, maxLen).kind, Advance(t, maxLen), ChooseCut(t', maxLen).kind, Advance(t', maxLen), maxLen);
    FourGain(i, maxLen + 7);
  }

  lemma FourGain(i: nat, gain: int)
    ensures (i + 1) % 4 == (i % 4 + 1) % 4
    ensures ((i + 1) / 4) * gain == (i / 4) * gain + if i % 4 == 3 then gain else 0
  {
    if i % 4 == 3 {
      assert (i + 1) / 4 == i / 4 + 1;
    } else {
      assert (i + 1) / 4 == i / 4;
    }
  }

  // --- Small windows ---

  lemma RestHasOnePartLess(text: string, maxLen: nat)
    requires maxLen >= 1 && |DoSplit(text, maxLen)| >= 2
    ensures |text| > maxLen && |Rest(text, maxLen)| < |text|
    ensures |DoSplit(Rest(text, maxLen), maxLen)| == |DoSplit(text, maxLen)| - 1
  {
    ProgressNeedsBudget(text, maxLen);
  }

  /** In windows up to 3 every cut advances two characters, or one. */
  lemma {:induction false} OneOrTwoEach(text: string, maxLen: nat, n: nat)
    requires 1 <= maxLen <= 3 && |DoSplit(text, maxLen)| >= n + 2
    ensures |text| > (if maxLen == 1 then n else 2 * n) + maxLen
    decreases n
  {
    RestHasOnePartLess(text, maxLen);
    if n > 0 {
      CutAdvances(text, maxLen);
      OneOrTwoEach(Rest(text, maxLen), maxLen, n - 1);
    }
  }

  lemma AdvanceFive(t: string, maxLen: nat)
    requires maxLen == 4 && |t| > maxLen && |Rest(t, maxLen)| > maxLen
    ensures |t| - |Rest(Rest(t, maxLen), maxLen)| >= 5
  {
    CutAdvances(t, maxLen);
    CutAdvances(Rest(t, maxLen), maxLen);
    CutsTogether(t, maxLen);
  }

  /** In windows of 4 any two cuts advance five. */
  lemma {:induction false} FiveEachTwo(text: string, maxLen: nat, n: nat)
    requires maxLen == 4 && |DoSplit(text, maxLen)| >= n + 2
    ensures |text| > 5 * (n / 2) + 2 * (n % 2) + maxLen
    decreases n
  {
    RestHasOnePartLess(text, maxLen);
    if n == 1 {
      CutAdvances(text, maxLen);
      RestHasOnePartLess(Rest(text, maxLen), maxLen);
    } else if n > 1 {
      RestHasOnePartLess(Rest(text, maxLen), maxLen);
      RestHasOnePartLess(Rest(Rest(text, maxLen), maxLen), maxLen);
      AdvanceFive(text, maxLen);
      FiveEachTwo(Rest(Rest(text, maxLen), maxLen), maxLen, n - 2);
    }
  }

  // --- The bound ---

  lemma LastNeed(length: int, i: nat, t: string, maxLen: nat)
    requires maxLen >= 5 && NeedMet(length, i, t, maxLen)
    ensures length - |Rest(t, maxLen)| >= LeastCuts(i + 1, maxLen)
  {
    CutAdvances(t, maxLen);
  }

  lemma RoundsNeed(text: string, maxLen: nat, n: nat)
    requires maxLen >= 5 && n >= 1 && n + 1 < |Starts(text, maxLen)|
    ensures |text| > LeastCuts(n, maxLen) + maxLen
  {
    NextStartIsRest(text, maxLen, n);
    NextStartIsRest(text, maxLen, n - 1);
    CutsNeed(text, maxLen, n - 1);
    LastNeed(|text|, n - 1, Starts(text, maxLen)[n - 1], maxLen);
  }

  /** A text with p parts is no shorter. */
  lemma PartsNeed(text: string, maxLen: nat, p: nat)
    requires maxLen >= 1 && |DoSplit(text, maxLen)| >= p
    ensures |text| >= ShortestWith(p, maxLen)
  {
    if p == 2 {
      RestHasOnePartLess(text, maxLen);
    } else if p > 2 {
      if maxLen <= 3 {
        OneOrTwoEach(text, maxLen, p - 2);
      } else if maxLen == 4 {
        FiveEachTwo(text, maxLen, p - 2);
      } else {
        OneStartPerPart(text, maxLen);
        RoundsNeed(text, maxLen, p - 2);
      }
    }
  }

  // --- Texts that reach it ---

  /** None of the characters of the delimiters among the first n of the text. */
  ghost predicate LettersFirst(text: string, n: int) {
    forall i :: 0 <= i < n && i < |text| ==> text[i] != ' ' && text[i] != '\n' && text[i] != '.'
  }

  predicate StartsVisibly(text: string) {
    text != "" && !IsSpace(text[0])
  }

  /** A word, a space and no other delimiter in the window. */
  lemma WordIsCut(word: string, right: string, n: nat)
    requires 1 <= |word| < n < |word| + 1 + |right|
    requires LettersFirst(word, |word|) && !IsSpace(word[|word| - 1])
    requires LettersFirst(right, n - |word| - 1) && StartsVisibly(right)
    ensures
      var text := word + " " + right;
      First(text, n) == word && Rest(text, n) == right
  {
    var text, at := word + " " + right, |word|;
    assert text[at..at + 1] == " ";
    assert forall i :: 0 <= i < n && i != at ==> text[i] == if i < at then word[i] else right[i - at - 1];
    NoneWithout(text, Paragraph, 0, 1, n);
    NoneWithout(text, Sentence, 0, 1, n);
    NoneWithout(text, Word, 0, at + 1, n);
    CutAt(text, n, Word, at);
    SpaceOrNot(' ');
    StepIs(text, n, word, " ", right);
  }

  lemma SentenceIsCut(right: string, n: nat)
    requires 3 <= n < 3 + |right| && StartsVisibly(right)
    requires forall i :: 0 <= i < n - 3 ==> right[i] != '.' && right[i] != '\n'
    ensures
      var text := "Y. " + right;
      First(text, n) == "Y." && Rest(text, n) == right
  {
    var text := "Y. " + right;
    assert text == "Y." + " " + right && text[1..3] == ". ";
    assert forall i :: 3 <= i < n ==> text[i] == right[i - 3];
    NoneWithout(text, Paragraph, 0, 1, n);
    NoneWithout(text, Sentence, 0, 2, n);
    CutAt(text, n, Sentence, 1);
    SpaceOrNot('.');
    SpaceOrNot(' ');
    StepIs(text, n, "Y.", " ", right);
  }

  lemma ParagraphIsCut(right: string, n: nat)
    requires 3 <= n < 3 + |right| && StartsVisibly(right)
    requires forall i :: 0 <= i < n - 3 ==> right[i] != '\n'
    ensures
      var text := "X\n\n" + right;
      First(text, n) == "X" && Rest(text, n) == right
  {
    var text := "X\n\n" + right;
    assert text == "X" + "\n\n" + right && text[1..3] == "\n\n";
    assert forall i :: 3 <= i < n ==> text[i] == right[i - 3];
    NoneWithout(text, Paragraph, 1, 2, n);
    CutAt(text, n, Paragraph, 1);
    SpaceOrNot('X');
    SpaceOrNot('\n');
    StepIs(text, n, "X", "\n\n", right);
  }

  /** A word that fills the window up to a space, a paragraph, a sentence and a word: four cuts that
      advance n + 7 characters. */
  function Round(n: nat, rest: string): string
    requires n >= 2
  {
    Filler(n - 2) + " " + ("X\n\n" + ("Y. " + ("Z" + " " + rest)))
  }

  /** The text after a round goes on with enough letters to fill the window. */
  ghost predicate GoesOn(text: string, n: nat) {
    |text| >= n - 1 && StartsVisibly(text) && LettersFirst(text, n - 2)
  }

  lemma RoundGoesOn(n: nat, rest: string)
    requires n >= 5
    ensures GoesOn(Round(n, rest), n) && |Round(n, rest)| == |rest| + n + 7
  {
    SpaceOrNot('a');
    var word := Filler(n - 2);
    assert forall i :: 0 <= i < n - 2 ==> Round(n, rest)[i] == word[i];
  }

  lemma RoundIsCut(n: nat, rest: string)
    requires n >= 5 && GoesOn(rest, n)
    ensures DoSplit(Round(n, rest), n) == [Filler(n - 2), "X", "Y.", "Z"] + DoSplit(rest, n)
  {
    var t3 := "Z" + " " + rest;
    var t2 := "Y. " + t3;
    var t1 := "X\n\n" + t2;
    FirstCutOfRound(n, t2);
    SecondCutOfRound(n, rest);
    ThirdCutOfRound(n, rest);
    SpaceOrNot('Z');
    WordIsCut("Z", rest, n);
    FourCuts(n, Round(n, rest), t1, t2, t3, rest);
  }

  lemma FirstCutOfRound(n: nat, t2: string)
    requires n >= 5
    ensures
      var t1 := "X\n\n" + t2;
      First(Filler(n - 2) + " " + t1, n) == Filler(n - 2) && Rest(Filler(n - 2) + " " + t1, n) == t1
  {
    SpaceOrNot('a');
    SpaceOrNot('X');
    WordIsCut(Filler(n - 2), "X\n\n" + t2, n);
  }

  lemma SecondCutOfRound(n: nat, rest: string)
    requires n >= 5 && GoesOn(rest, n)
    ensures
      var t2 := "Y. " + ("Z" + " " + rest);
      First("X\n\n" + t2, n) == "X" && Rest("X\n\n" + t2, n) == t2
  {
    SpaceOrNot('Y');
    var t2 := "Y. " + ("Z" + " " + rest);
    assert forall i :: 5 <= i < |t2| ==> t2[i] == rest[i - 5];
    ParagraphIsCut(t2, n);
  }

  lemma ThirdCutOfRound(n: nat, rest: string)
    requires n >= 5 && GoesOn(rest, n)
    ensures
      var t3 := "Z" + " " + rest;
      First("Y. " + t3, n) == "Y." && Rest("Y. " + t3, n) == t3
  {
    SpaceOrNot('Z');
    var t3 := "Z" + " " + rest;
    assert forall i :: 2 <= i < |t3| ==> t3[i] == rest[i - 2];
    SentenceIsCut(t3, n);
  }

  lemma FourCuts(n: nat, t0: string, t1: string, t2: string, t3: string, rest: string)
    requires n >= 1 && |t0| > n && |t1| > n && |t2| > n && |t3| > n && rest != ""
    requires Rest(t0, n) == t1 && Rest(t1, n) == t2 && Rest(t2, n) == t3 && Rest(t3, n) == rest
    ensures DoSplit(t0, n) == [First(t0, n), First(t1, n), First(t2, n), First(t3, n)] + DoSplit(rest, n)
  {
    UnfoldSplit(t0, n, First(t0, n), t1);
    UnfoldSplit(t1, n, First(t1, n), t2);
    UnfoldSplit(t2, n, First(t2, n), t3);
    UnfoldSplit(t3, n, First(t3, n), rest);
    FourThen(First(t0, n), First(t1, n), First(t2, n), First(t3, n), DoSplit(rest, n));
  }

  /** A text that comes out as some parts before those of the rest. */
  ghost predicate PartsBefore(text: string, n: nat, front: seq<string>, rest: string)
    requires n >= 1
  {
    DoSplit(text, n) == front + DoSplit(rest, n)
  }

  lemma Before(text: string, n: nat, head: seq<string>, inner: string, front: seq<string>, rest: string)
    requires n >= 1 && PartsBefore(text, n, head, inner) && PartsBefore(inner, n, front, rest)
    ensures PartsBefore(text, n, head + front, rest)
  {
  }

  lemma OneMoreRound(n: nat, inner: string) returns (text: string, head: seq<string>)
    requires n >= 5 && GoesOn(inner, n)
    ensures GoesOn(text, n) && |text| == |inner| + n + 7
    ensures |head| == 4 && PartsBefore(text, n, head, inner)
  {
    text, head := Round(n, inner), [Filler(n - 2), "X", "Y.", "Z"];
    RoundGoesOn(n, inner);
    RoundIsCut(n, inner);
  }

  /** k rounds before the rest. */
  lemma {:induction false} Rounds(k: nat, n: nat, rest: string) returns (text: string, front: seq<string>)
    requires n >= 5 && GoesOn(rest, n)
    ensures GoesOn(text, n) && |text| == |rest| + k * (n + 7)
    ensures |front| == 4 * k && PartsBefore(text, n, front, rest)
    decreases k
  {
    if k == 0 {
      text, front := rest, [];
    } else {
      var inner, parts := Rounds(k - 1, n, rest);
      var head;
      text, head := OneMoreRound(n, inner);
      front := head + parts;
      Before(text, n, head, inner, parts, rest);
      OneMoreTimes(k, n + 7);
    }
  }

  lemma OneMoreTimes(k: nat, d: nat)
    requires k > 0
    ensures k * d == (k - 1) * d + d
  {
  }

  ghost predicate StartsWithLetter(text: string) {
    |text| >= 2 && StartsVisibly(text) && LettersFirst(text, 1)
  }

  lemma OneMorePair(n: nat, inner: string) returns (text: string, head: seq<string>)
    requires n >= 3 && StartsWithLetter(inner)
    ensures StartsWithLetter(text) && |text| == |inner| + n + 1
    ensures |head| == 2 && PartsBefore(text, n, head, inner)
  {
    var second: string;
    text, second := PairIsCut(n, inner);
    TwoCuts(n, text, second, inner);
    head := [First(text, n), First(second, n)];
  }

  lemma TwoCuts(n: nat, t0: string, t1: string, rest: string)
    requires n >= 1 && |t0| > n && |t1| > n && rest != ""
    requires Rest(t0, n) == t1 && Rest(t1, n) == rest
    ensures DoSplit(t0, n) == [First(t0, n), First(t1, n)] + DoSplit(rest, n)
  {
    UnfoldSplit(t0, n, First(t0, n), t1);
    UnfoldSplit(t1, n, First(t1, n), rest);
    TwoThen(First(t0, n), First(t1, n), DoSplit(rest, n));
  }

  lemma TwoThen(a: string, b: string, s: seq<string>)
    ensures [a] + ([b] + s) == [a, b] + s
  {
  }

  /** Two words that fill the window together. */
  lemma PairIsCut(n: nat, inner: string) returns (text: string, second: string)
    requires n >= 3 && StartsWithLetter(inner)
    ensures StartsWithLetter(text) && |text| == |inner| + n + 1 && |second| > n
    ensures Rest(text, n) == second && Rest(second, n) == inner
  {
    SpaceOrNot('a');
    SpaceOrNot('Z');
    second := Filler(n - 2) + " " + inner;
    text := "Z" + " " + second;
    WordIsCut("Z", second, n);
    WordIsCut(Filler(n - 2), inner, n);
  }

  lemma {:induction false} Pairs(k: nat, n: nat, rest: string) returns (text: string, front: seq<string>)
    requires n >= 3 && StartsWithLetter(rest)
    ensures StartsWithLetter(text) && |text| == |rest| + k * (n + 1)
    ensures |front| == 2 * k && PartsBefore(text, n, front, rest)
    decreases k
  {
    if k == 0 {
      text, front := rest, [];
    } else {
      var inner, parts := Pairs(k - 1, n, rest);
      var head;
      text, head := OneMorePair(n, inner);
      front := head + parts;
      Before(text, n, head, inner, parts, rest);
      OneMoreTimes(k, n + 1);
    }
  }

  /** The letters at the end: at least two parts, the first one full. */
  lemma LettersAreCut(n: nat, m: nat)
    requires n >= 1 && m > n
    ensures |DoSplit(Filler(m), n)| >= 2 && |DoSplit(Filler(m), n)[0]| == n
  {
    SpaceOrNot('a');
    SolidParts(Filler(m), n);
    if |DoSplit(Filler(m), n)| <= 1 {
      WindowsCompare(m, |DoSplit(Filler(m), n)|, n, 1);
    }
  }

  lemma TwoBefore(n: nat, rest: string)
    requires n >= 5 && GoesOn(rest, n)
    ensures DoSplit("Y. " + ("Z" + " " + rest), n) == ["Y.", "Z"] + DoSplit(rest, n)
  {
    ThirdCutOfRound(n, rest);
    SpaceOrNot('Z');
    WordIsCut("Z", rest, n);
    TwoCuts(n, "Y. " + ("Z" + " " + rest), "Z" + " " + rest, rest);
  }

  lemma WordBefore(word: string, inner: string, n: nat) returns (text: string)
    requires 1 <= |word| < n < |word| + 1 + |inner|
    requires LettersFirst(word, |word|) && !IsSpace(word[|word| - 1])
    requires LettersFirst(inner, n - |word| - 1) && StartsVisibly(inner)
    ensures text == word + " " + inner && PartsBefore(text, n, [word], inner)
  {
    text := word + " " + inner;
    WordIsCut(word, inner, n);
    UnfoldSplit(text, n, word, inner);
  }

  ghost predicate OnlyLetters(text: string) {
    forall i :: 0 <= i < |text| ==> text[i] == 'a'
  }

  /** n hard cuts. */
  lemma {:induction false} HardCutsBefore(n: nat, maxLen: nat, rest: string) returns (text: string, front: seq<string>)
    requires maxLen >= 1 && OnlyLetters(rest) && rest != ""
    ensures OnlyLetters(text) && |text| == n * maxLen + |rest|
    ensures |front| == n && PartsBefore(text, maxLen, front, rest)
    decreases n
  {
    if n == 0 {
      text, front := rest, [];
    } else {
      var inner, parts := HardCutsBefore(n - 1, maxLen, rest);
      OneMoreTimes(n, maxLen);
      var head;
      text, head := HardCutBefore(inner, maxLen);
      front := head + parts;
      Before(text, maxLen, head, inner, parts, rest);
    }
  }

  lemma HardCutBefore(inner: string, n: nat) returns (text: string, head: seq<string>)
    requires n >= 1 && OnlyLetters(inner) && inner != ""
    ensures OnlyLetters(text) && |text| == |inner| + n
    ensures |head| == 1 && PartsBefore(text, n, head, inner)
  {
    text, head := Filler(n) + inner, [Filler(n)];
    SpaceOrNot('a');
    assert text[n..] == inner && text[..n] == Filler(n);
    SolidUnfold(text, n);
  }

  /** n cuts in windows of 3 or 4. */
  lemma WordsBefore(n: nat, maxLen: nat, m: nat) returns (text: string, front: seq<string>)
    requires 3 <= maxLen <= 4 && m > maxLen
    ensures |text| == LeastCuts(n, maxLen) + m
    ensures |front| == n && PartsBefore(text, maxLen, front, Filler(m))
  {
    LeastPairs(n, n / 2, maxLen);
    if n % 2 == 0 {
      SpaceOrNot('a');
      text, front := Pairs(n / 2, maxLen, Filler(m));
    } else {
      text, front := PairsAndWord(n / 2, maxLen, m);
    }
  }

  lemma LeastPairs(n: nat, k: nat, maxLen: nat)
    requires 3 <= maxLen <= 4 && k == n / 2
    ensures LeastCuts(n, maxLen) == k * (maxLen + 1) + 2 * (n % 2)
    ensures n == 2 * k + n % 2
  {
  }

  lemma PairsAndWord(k: nat, n: nat, m: nat) returns (text: string, front: seq<string>)
    requires n >= 3 && m > n
    ensures |text| == k * (n + 1) + 2 + m
    ensures |front| == 2 * k + 1 && PartsBefore(text, n, front, Filler(m))
  {
    SpaceOrNot('a');
    SpaceOrNot('Z');
    var last := WordBefore("Z", Filler(m), n);
    var parts;
    text, parts := Pairs(k, n, last);
    front := parts + ["Z"];
    Before(text, n, parts, last, ["Z"], Filler(m));
  }

  /** One to four cuts before rounds. */
  lemma StartOfRounds(r: nat, inner: string, n: nat) returns (text: string, front: seq<string>)
    requires n >= 5 && r < 4 && GoesOn(inner, n)
    ensures |text| == LastRound(r, n) + |inner|
    ensures |front| == r + 1 && PartsBefore(text, n, front, inner)
  {
    if r == 0 {
      text := LetterBefore(inner, n);
      front := ["Z"];
    } else if r == 1 {
      text := SentenceBefore(inner, n);
      front := ["Y.", "Z"];
    } else if r == 2 {
      text, front := ParagraphBefore(inner, n);
    } else {
      text, front := FourBefore(inner, n);
    }
  }

  lemma SentenceBefore(inner: string, n: nat) returns (text: string)
    requires n >= 5 && GoesOn(inner, n)
    ensures text == "Y. " + ("Z" + " " + inner) && StartsVisibly(text) && LettersFirst(text, 1)
    ensures PartsBefore(text, n, ["Y.", "Z"], inner)
  {
    SpaceOrNot('Y');
    text := "Y. " + ("Z" + " " + inner);
    TwoBefore(n, inner);
  }

  lemma ParagraphBefore(inner: string, n: nat) returns (text: string, front: seq<string>)
    requires n >= 5 && GoesOn(inner, n)
    ensures |text| == 8 + |inner| && |front| == 3 && PartsBefore(text, n, front, inner)
  {
    var sentence := SentenceBefore(inner, n);
    text, front := "X\n\n" + sentence, ["X"] + ["Y.", "Z"];
    SecondCutOfRound(n, inner);
    UnfoldSplit(text, n, "X", sentence);
    Before(text, n, ["X"], sentence, ["Y.", "Z"], inner);
  }

  lemma FourBefore(inner: string, n: nat) returns (text: string, front: seq<string>)
    requires n >= 5 && GoesOn(inner, n)
    ensures |text| == n + 6 + |inner| && |front| == 4 && PartsBefore(text, n, front, inner)
  {
    var sentence := SentenceBefore(inner, n);
    text := FillerAndWord(sentence, n);
    front := (["Z"] + [Filler(n - 2)]) + ["Y.", "Z"];
    Before(text, n, ["Z"] + [Filler(n - 2)], sentence, ["Y.", "Z"], inner);
  }

  lemma FillerAndWord(inner: string, n: nat) returns (text: string)
    requires n >= 5 && StartsVisibly(inner) && LettersFirst(inner, 1) && |inner| >= 2
    ensures |text| == |inner| + n + 1 && PartsBefore(text, n, ["Z"] + [Filler(n - 2)], inner)
  {
    var second := FillerWordBefore(inner, n);
    text := LetterBefore(second, n);
    Before(text, n, ["Z"], second, [Filler(n - 2)], inner);
  }

  lemma FillerWordBefore(inner: string, n: nat) returns (text: string)
    requires n >= 5 && StartsVisibly(inner) && LettersFirst(inner, 1) && |inner| >= 2
    ensures |text| == |inner| + n - 1 && GoesOn(text, n) && PartsBefore(text, n, [Filler(n - 2)], inner)
  {
    SpaceOrNot('a');
    text := WordBefore(Filler(n - 2), inner, n);
    assert forall i :: 0 <= i < n - 2 ==> text[i] == 'a';
  }

  lemma LetterBefore(inner: string, n: nat) returns (text: string)
    requires n >= 3 && GoesOn(inner, n)
    ensures |text| == |inner| + 2 && PartsBefore(text, n, ["Z"], inner)
  {
    SpaceOrNot('Z');
    text := WordBefore("Z", inner, n);
  }

  /** q rounds, and one to four cuts before them. */
  lemma RoundsBefore(q: nat, r: nat, n: nat, m: nat) returns (text: string, front: seq<string>)
    requires r < 4 && n >= 5 && m > n
    ensures |text| == q * (n + 7) + LastRound(r, n) + m
    ensures |front| == 4 * q + r + 1 && PartsBefore(text, n, front, Filler(m))
  {
    SpaceOrNot('a');
    var inner, parts := Rounds(q, n, Filler(m));
    var head;
    text, head := StartOfRounds(r, inner, n);
    front := head + parts;
    Before(text, n, head, inner, parts, Filler(m));
  }

  /** For every n, a text whose n first cuts advance as little as possible, before any number of letters
      that do not fit one part. */
  lemma LeastCutsBefore(n: nat, maxLen: nat, m: nat) returns (text: string, front: seq<string>)
    requires maxLen >= 1 && m > maxLen
    ensures |text| == LeastCuts(n, maxLen) + m
    ensures |front| == n && PartsBefore(text, maxLen, front, Filler(m))
  {
    if n == 0 {
      text, front := Filler(m), [];
    } else if maxLen <= 2 {
      text, front := HardCutsBefore(n, maxLen, Filler(m));
      LeastHardCuts(n, maxLen);
    } else if maxLen <= 4 {
      text, front := WordsBefore(n, maxLen, m);
    } else {
      text, front := RoundsBefore((n - 1) / 4, (n - 1) % 4, maxLen, m);
      LeastRounds(n, (n - 1) / 4, (n - 1) % 4, maxLen);
    }
  }

  lemma LeastHardCuts(n: nat, maxLen: nat)
    requires 1 <= maxLen <= 2
    ensures LeastCuts(n, maxLen) == n * maxLen
  {
  }

  lemma LeastRounds(n: nat, q: nat, r: nat, maxLen: nat)
    requires n >= 1 && maxLen >= 5 && q == (n - 1) / 4 && r == (n - 1) % 4
    ensures LeastCuts(n, maxLen) == q * (maxLen + 7) + LastRound(r, maxLen)
    ensures n == 4 * q + r + 1
  {
  }

  // --- The largest number of parts ---

  /** p parts or more come out of some text of a length exactly when the length is at least that of the
      shortest text with p parts. */
  lemma PartsReachableIff(maxLen: nat, length: nat, p: nat)
    requires maxLen >= 1
    ensures (exists text: string :: |text| == length && |DoSplit(text, maxLen)| >= p) <==> length >= ShortestWith(p, maxLen)
  {
    if text: string :| |text| == length && |DoSplit(text, maxLen)| >= p {
      PartsNeed(text, maxLen, p);
    }
    if length >= ShortestWith(p, maxLen) {
      var text := TextWithParts(maxLen, length, p);
    }
  }

  lemma TextWithParts(maxLen: nat, length: nat, p: nat) returns (text: string)
    requires maxLen >= 1 && length >= ShortestWith(p, maxLen)
    ensures |text| == length && |DoSplit(text, maxLen)| >= p
  {
    if p <= 1 {
      text := Filler(length);
    } else {
      var m := length - LeastCuts(p - 2, maxLen);
      var front;
      text, front := LeastCutsBefore(p - 2, maxLen, m);
      TwoAfter(text, maxLen, front, m);
    }
  }

  lemma TwoAfter(text: string, n: nat, front: seq<string>, m: nat)
    requires n >= 1 && m > n && PartsBefore(text, n, front, Filler(m))
    ensures |DoSplit(text, n)| >= |front| + 2
  {
    LettersAreCut(n, m);
  }
}
