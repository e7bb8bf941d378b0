/** How many parts a split can produce: any four consecutive cuts use up a whole window. */
module SplitterSize {
  import opened Text
  import opened Splitter

  /** The texts that the recursion is called with: what is left at the start of each part. */
  function Starts(text: string, maxLen: nat): seq<string>
    requires maxLen >= 1
    decreases |text|
  {
    if |text| <= maxLen then [text]
    else
      ProgressNeedsBudget(text, maxLen);
      var rest := Rest(text, maxLen);
      if rest == "" then [text] else [text] + Starts(rest, maxLen)
  }

  lemma {:induction false} OneStartPerPart(text: string, maxLen: nat)
    requires maxLen >= 1
    ensures |Starts(text, maxLen)| == |DoSplit(text, maxLen)|
    ensures Starts(text, maxLen)[0] == text
    decreases |text|
  {
    if |text| > maxLen && Rest(text, maxLen) != "" {
      ProgressNeedsBudget(text, maxLen);
      OneStartPerPart(Rest(text, maxLen), maxLen);
    }
  }

  /** Each start but the last is too long for a part, and is cut to give the next one. */
  lemma {:induction false} NextStartIsRest(text: string, maxLen: nat, i: nat)
    requires maxLen >= 1 && i + 1 < |Starts(text, maxLen)|
    ensures |Starts(text, maxLen)[i]| > maxLen
    ensures Starts(text, maxLen)[i + 1] == Rest(Starts(text, maxLen)[i], maxLen)
    ensures Starts(text, maxLen)[i + 1] != ""
    decreases i
  {
    StartsUnfold(text, maxLen);
    if i > 0 {
      NextStartIsRest(Rest(text, maxLen), maxLen, i - 1);
    }
  }

  lemma StartsUnfold(text: string, maxLen: nat)
    requires maxLen >= 1 && |Starts(text, maxLen)| > 1
    ensures |text| > maxLen && Rest(text, maxLen) != ""
    ensures Starts(text, maxLen) == [text] + Starts(Rest(text, maxLen), maxLen)
    ensures Starts(Rest(text, maxLen), maxLen)[0] == Rest(text, maxLen)
  {
    OneStartPerPart(Rest(text, maxLen), maxLen);
  }

  /** A delimiter cut also discards the whitespace of its delimiter, so the text shrinks past
      the end of the delimiter. */
  lemma CutPassesDelimiter(text: string, maxLen: nat)
    requires maxLen < |text|
    ensures
      var cut := ChooseCut(text, maxLen);
      cut.kind != Hard ==> |text| - |Rest(text, maxLen)| >= cut.pos - Kept(cut.kind) + |Delimiter(cut.kind)|
  {
    CutIsBestInWindow(text, maxLen);
    var cut := ChooseCut(text, maxLen);
    if cut.kind != Hard {
      StripPassesDelimiter(text, cut.kind, cut.pos);
    }
  }

  lemma StripPassesDelimiter(text: string, kind: Kind, pos: nat)
    requires kind != Hard && pos >= Kept(kind) && Occurs(text, Delimiter(kind), pos - Kept(kind))
    ensures |text| - |LStrip(text[pos..])| >= pos - Kept(kind) + |Delimiter(kind)|
  {
    var d, n := Delimiter(kind), |Delimiter(kind)| - Kept(kind);
    assert forall i :: 0 <= i < n ==> text[pos..][i] == d[i + Kept(kind)];
    DelimiterEndsInSpace(kind);
    LStripAtLeast(text[pos..], n);
  }

  /** What a cut drops of its delimiter is whitespace. */
  lemma DelimiterEndsInSpace(kind: Kind)
    ensures forall i :: Kept(kind) <= i < |Delimiter(kind)| ==> IsSpace(Delimiter(kind)[i])
  {
    SpaceOrNot(' ');
    SpaceOrNot('\n');
  }

  lemma {:induction false} LStripAtLeast(s: string, n: nat)
    requires n <= |s| && forall i :: 0 <= i < n ==> IsSpace(s[i])
    ensures |LStrip(s)| <= |s| - n
  {
    if n > 0 {
      assert forall i :: 0 <= i < n - 1 ==> s[1..][i] == s[i + 1];
      LStripAtLeast(s[1..], n - 1);
    }
  }

  lemma OccursInSuffix(text: string, suffix: string, d: string, at: nat)
    requires |suffix| <= |text| && suffix == text[|text| - |suffix|..]
    requires Occurs(suffix, d, at)
    ensures Occurs(text, d, |text| - |suffix| + at)
  {
    var q := |text| - |suffix| + at;
    assert text[q..q + |d|] == suffix[at..at + |d|];
  }

  /** A delimiter of the first cut's kind or of a better kind, past the first cut: it was not in the
      first cut's window, or that cut would have used it. */
  lemma LaterDelimiterIsOutside(text: string, maxLen: nat, kind: Kind, q: int)
    requires maxLen < |text|
    requires
      var cut := ChooseCut(text, maxLen);
      cut.kind != Hard && Rank(kind) >= Rank(cut.kind) && q > cut.pos - Kept(cut.kind)
    requires Occurs(text, Delimiter(kind), q)
    ensures q + |Delimiter(kind)| > maxLen
  {
    CutIsBestInWindow(text, maxLen);
    var cut := ChooseCut(text, maxLen);
    assert Rank(kind) == Rank(cut.kind) ==> kind == cut.kind;
  }

  /** A cut followed by one of the same or a better kind ends beyond the first cut's window. */
  lemma RepeatedKindLeavesWindow(text: string, maxLen: nat)
    requires maxLen >= 1 && |text| > maxLen
    requires |Rest(text, maxLen)| > maxLen
    requires
      var k0, k1 := ChooseCut(text, maxLen).kind, ChooseCut(Rest(text, maxLen), maxLen).kind;
      k0 != Hard && k1 != Hard && Rank(k0) <= Rank(k1)
    ensures |text| - |Rest(Rest(text, maxLen), maxLen)| > maxLen
  {
    var next := Rest(text, maxLen);
    var cut := ChooseCut(next, maxLen);
    CutPassesDelimiter(next, maxLen);
    CutIsBestInWindow(next, maxLen);
    CutLosesOnlySpace(text, maxLen);
    NextDelimiterIsOutside(text, next, maxLen, cut.kind, cut.pos - Kept(cut.kind));
  }

  lemma NextDelimiterIsOutside(text: string, next: string, maxLen: nat, kind: Kind, at: nat)
    requires maxLen < |text| && ChooseCut(text, maxLen).kind != Hard
    requires |next| <= |text| - ChooseCut(text, maxLen).pos && next == text[|text| - |next|..]
    requires Rank(kind) >= Rank(ChooseCut(text, maxLen).kind)
    requires 1 <= at && Occurs(next, Delimiter(kind), at)
    ensures |text| - |next| + at + |Delimiter(kind)| > maxLen
  {
    OccursInSuffix(text, next, Delimiter(kind), at);
    LaterDelimiterIsOutside(text, maxLen, kind, |text| - |next| + at);
  }

  /** Any four consecutive cuts advance at least a whole window: one of them is hard, or a kind that
      is as good as the one before it comes up, as four ranks between 1 and 3 cannot all go down. */
  lemma FourCutsUseAWindow(t0: string, t1: string, t2: string, t3: string, maxLen: nat)
    requires maxLen >= 1 && |t0| > maxLen && |t1| > maxLen && |t2| > maxLen && |t3| > maxLen
    requires t1 == Rest(t0, maxLen) && t2 == Rest(t1, maxLen) && t3 == Rest(t2, maxLen)
    ensures |t0| - |Rest(t3, maxLen)| >= maxLen
  {
    CutUsesItsPosition(t0, maxLen);
    CutUsesItsPosition(t1, maxLen);
    CutUsesItsPosition(t2, maxLen);
    CutUsesItsPosition(t3, maxLen);
    if |t0| - |Rest(t3, maxLen)| < maxLen {
      var k0, k1 := ChooseCut(t0, maxLen).kind, ChooseCut(t1, maxLen).kind;
      var k2, k3 := ChooseCut(t2, maxLen).kind, ChooseCut(t3, maxLen).kind;
      if Rank(k0) <= Rank(k1) { RepeatedKindLeavesWindow(t0, maxLen); }
      if Rank(k1) <= Rank(k2) { RepeatedKindLeavesWindow(t1, maxLen); }
      if Rank(k2) <= Rank(k3) { RepeatedKindLeavesWindow(t2, maxLen); }
    }
  }

  lemma CutUsesItsPosition(text: string, maxLen: nat)
    requires 1 <= maxLen < |text|
    ensures |Rest(text, maxLen)| < |text|
    ensures ChooseCut(text, maxLen).kind == Hard ==> |text| - |Rest(text, maxLen)| >= maxLen
  {
    CutLosesOnlySpace(text, maxLen);
    CutIsBestInWindow(text, maxLen);
  }

  /** The number of parts, from the length of the text and the window alone. The bound is reached as
      long as there are few windows in the text (BoundIsReached in SplitterTight). */
  function PartBound(length: nat, maxLen: nat): nat
    requires maxLen >= 1
  {
    if length == 0 then 1 else 4 * ((length - 1) / maxLen) + 1
  }

  lemma PartCountBound(text: string, maxLen: nat)
    requires maxLen >= 1
    ensures |DoSplit(text, maxLen)| <= PartBound(|text|, maxLen)
  {
    var starts := StartsOf(text, maxLen);
    if |starts| > 1 {
      ChainBound(starts, maxLen);
    }
  }

  /** The starts of the parts, as a chain of ever shorter texts. */
  lemma StartsOf(text: string, maxLen: nat) returns (starts: seq<string>)
    requires maxLen >= 1
    ensures |starts| == |DoSplit(text, maxLen)| && starts[0] == text
    ensures |starts| > 1 ==> IsChain(starts, maxLen)
  {
    OneStartPerPart(text, maxLen);
    starts := Starts(text, maxLen);
    if |starts| > 1 {
      StartsAreNonempty(text, maxLen);
      StartsAreCut(text, maxLen);
      StartsLoseWindows(text, maxLen);
    }
  }

  lemma StartsLoseWindows(text: string, maxLen: nat)
    requires maxLen >= 1
    ensures forall i: nat :: LosesWindow(Starts(text, maxLen), maxLen, i)
  {
    forall i: nat
      ensures LosesWindow(Starts(text, maxLen), maxLen, i)
    {
      if i + 4 < |Starts(text, maxLen)| {
        FourStartsUseAWindow(text, maxLen, i);
      }
    }
  }

  lemma StartsAreNonempty(text: string, maxLen: nat)
    requires maxLen >= 1 && |Starts(text, maxLen)| > 1
    ensures forall i :: 0 <= i < |Starts(text, maxLen)| ==> Starts(text, maxLen)[i] != ""
  {
    forall i | 0 <= i < |Starts(text, maxLen)|
      ensures Starts(text, maxLen)[i] != ""
    {
      NextStartIsRest(text, maxLen, if i == 0 then 0 else i - 1);
    }
  }

  lemma StartsAreCut(text: string, maxLen: nat)
    requires maxLen >= 1
    ensures forall i :: 0 <= i < |Starts(text, maxLen)| - 1 ==> |Starts(text, maxLen)[i]| > maxLen
  {
    forall i | 0 <= i < |Starts(text, maxLen)| - 1
      ensures |Starts(text, maxLen)[i]| > maxLen
    {
      NextStartIsRest(text, maxLen, i);
    }
  }

  /** Nonempty texts, all but the last too long for a part, every fifth shorter by a window. */
  ghost predicate IsChain(starts: seq<string>, maxLen: nat) {
    && (forall i :: 0 <= i < |starts| ==> starts[i] != "")
    && (forall i :: 0 <= i < |starts| - 1 ==> |starts[i]| > maxLen)
    && (forall i: nat :: LosesWindow(starts, maxLen, i))
  }

  predicate LosesWindow(starts: seq<string>, maxLen: nat, i: nat) {
    i + 4 < |starts| ==> |starts[i]| - |starts[i + 4]| >= maxLen
  }

  lemma FourStartsUseAWindow(text: string, maxLen: nat, i: nat)
    requires maxLen >= 1 && i + 4 < |Starts(text, maxLen)|
    ensures LosesWindow(Starts(text, maxLen), maxLen, i)
  {
    var starts := Starts(text, maxLen);
    NextStartIsRest(text, maxLen, i);
    NextStartIsRest(text, maxLen, i + 1);
    NextStartIsRest(text, maxLen, i + 2);
    NextStartIsRest(text, maxLen, i + 3);
    FourCutsUseAWindow(starts[i], starts[i + 1], starts[i + 2], starts[i + 3], maxLen);
  }

  lemma {:induction false} ChainBound(starts: seq<string>, maxLen: nat)
    requires maxLen >= 1 && starts != [] && IsChain(starts, maxLen)
    ensures |starts| <= PartBound(|starts[0]|, maxLen)
  {
    if |starts| > 4 {
      assert LosesWindow(starts, maxLen, 0);
      forall i: nat
        ensures LosesWindow(starts[4..], maxLen, i)
      {
        assert LosesWindow(starts, maxLen, i + 4);
      }
      ChainBound(starts[4..], maxLen);
      OneWindowLess(|starts[0]|, |starts[4]|, maxLen);
    } else if |starts| > 1 {
      OneWindowLess(|starts[0]|, |starts[0]| - maxLen, maxLen);
    }
  }

  lemma OneWindowLess(length: nat, rest: nat, maxLen: nat)
    requires maxLen >= 1 && rest >= 1 && length >= rest + maxLen
    ensures PartBound(rest, maxLen) + 4 <= PartBound(length, maxLen)
  {
    var q, r := (rest - 1) / maxLen, (rest - 1) % maxLen;
    var q', r' := (length - 1) / maxLen, (length - 1) % maxLen;
    QuotientGrows(q, r, q', r', maxLen);
  }

  lemma QuotientGrows(q: int, r: int, q': int, r': int, d: int)
    requires 0 <= r < d && 0 <= r' < d
    requires d * q' + r' >= d * q + r + d
    ensures q' >= q + 1
  {
    if q' <= q {
      MulMonotone(d, q', q);
    }
  }

  lemma MulMonotone(d: int, a: int, b: int)
    requires d >= 0 && a <= b
    ensures d * a <= d * b
  {
  }
}
