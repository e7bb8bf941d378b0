/** What a split keeps of the text: everything but whitespace around the cuts. */
module SplitterText {
  import opened Text
  import opened Splitter
  import opened SplitterSize

  /** The whitespace thrown away after each part, in the order of the parts. */
  function Gaps(text: string, maxLen: nat): seq<string>
    requires maxLen >= 1
    decreases |text|
  {
    if |text| <= maxLen then [""]
    else
      ProgressNeedsBudget(text, maxLen);
      var rest := Rest(text, maxLen);
      if rest == "" then [Gap(text, maxLen)]
      else [Gap(text, maxLen)] + Gaps(rest, maxLen)
  }

  /** p0 g0 p1 g1 ... */
  function Weave(parts: seq<string>, gaps: seq<string>): string
    requires |parts| == |gaps|
  {
    if parts == [] then "" else parts[0] + gaps[0] + Weave(parts[1..], gaps[1..])
  }

  function Join(parts: seq<string>): string {
    if parts == [] then "" else parts[0] + Join(parts[1..])
  }

  lemma {:induction false} SplitIsLossless(text: string, maxLen: nat)
    requires maxLen >= 1
    ensures |DoSplit(text, maxLen)| == |Gaps(text, maxLen)|
    ensures Weave(DoSplit(text, maxLen), Gaps(text, maxLen)) == text
    ensures forall i :: 0 <= i < |Gaps(text, maxLen)| ==> AllSpace(Gaps(text, maxLen)[i])
    ensures forall i :: 0 <= i < |DoSplit(text, maxLen)| ==> |DoSplit(text, maxLen)[i]| <= maxLen
    decreases |text|
  {
    var parts, gaps := DoSplit(text, maxLen), Gaps(text, maxLen);
    if |text| > maxLen {
      CutLosesOnlySpace(text, maxLen);
      var rest := Rest(text, maxLen);
      if rest == "" {
        assert parts[1..] == [] && gaps[1..] == [];
      } else {
        ProgressNeedsBudget(text, maxLen);
        SplitIsLossless(rest, maxLen);
        assert parts[1..] == DoSplit(rest, maxLen) && gaps[1..] == Gaps(rest, maxLen);
      }
    }
  }

  lemma PartsFitWindow(text: string, maxLen: nat)
    requires maxLen >= 1
    ensures forall i :: 0 <= i < |DoSplit(text, maxLen)| ==> |DoSplit(text, maxLen)[i]| <= maxLen
  {
    SplitIsLossless(text, maxLen);
  }

  /** Every visible character survives, once and in order. */
  lemma SplitKeepsVisibleText(text: string, maxLen: nat)
    requires maxLen >= 1
    ensures Visible(Join(DoSplit(text, maxLen))) == Visible(text)
  {
    SplitIsLossless(text, maxLen);
    VisibleWeave(DoSplit(text, maxLen), Gaps(text, maxLen));
  }

  lemma {:induction false} VisibleWeave(parts: seq<string>, gaps: seq<string>)
    requires |parts| == |gaps|
    requires forall i :: 0 <= i < |gaps| ==> AllSpace(gaps[i])
    ensures Visible(Weave(parts, gaps)) == Visible(Join(parts))
  {
    if parts != [] {
      var p, g := parts[0], gaps[0];
      VisibleWeave(parts[1..], gaps[1..]);
      VisibleConcat(p + g, Weave(parts[1..], gaps[1..]));
      VisibleConcat(p, g);
      VisibleOfSpace(g);
      VisibleConcat(p, Join(parts[1..]));
    }
  }

  /** A string with no delimiter anywhere after its first character. */
  ghost predicate Unbreakable(s: string) {
    forall k: Kind :: k != Hard ==> NoneBetween(s, Delimiter(k), 1, |s|)
  }

  /** A word is broken (nothing dropped between two parts) only by a hard cut: the left part fills
      the window and offers no delimiter. A part that fills the window is always such a part. */
  lemma {:induction false} WordsBreakOnlyAtHardCuts(text: string, maxLen: nat, i: nat)
    requires maxLen >= 1 && i + 1 < |DoSplit(text, maxLen)|
    ensures |Gaps(text, maxLen)| == |DoSplit(text, maxLen)|
    ensures Gaps(text, maxLen)[i] == "" ==> |DoSplit(text, maxLen)[i]| == maxLen
    ensures |DoSplit(text, maxLen)[i]| == maxLen ==> Unbreakable(DoSplit(text, maxLen)[i])
    decreases |text|
  {
    SplitIsLossless(text, maxLen);
    if i == 0 {
      EmptyGapMeansHardCut(text, maxLen);
    } else {
      ProgressNeedsBudget(text, maxLen);
      WordsBreakOnlyAtHardCuts(Rest(text, maxLen), maxLen, i - 1);
    }
  }

  lemma EmptyGapMeansHardCut(text: string, maxLen: nat)
    requires 1 <= maxLen < |text|
    ensures Gap(text, maxLen) == "" ==> |First(text, maxLen)| == maxLen
    ensures |First(text, maxLen)| == maxLen ==> Unbreakable(First(text, maxLen))
  {
    CutIsBestInWindow(text, maxLen);
    CutLosesOnlySpace(text, maxLen);
    CutPassesDelimiter(text, maxLen);
    var first := First(text, maxLen);
    if |first| == maxLen {
      assert ChooseCut(text, maxLen).kind == Hard;
      assert first == text[..maxLen];
      forall k: Kind, i | k != Hard && 1 <= i && i + |Delimiter(k)| <= |first|
        ensures !Occurs(first, Delimiter(k), i)
      {
        assert !Occurs(text, Delimiter(k), i);
        assert first[i..i + |Delimiter(k)|] == text[i..i + |Delimiter(k)|];
      }
    }
  }

  /** From a trimmed text no part is blank, none has outer whitespace, and a text that does not
      fit gives at least two of them. */
  lemma {:induction false} NoBlankParts(text: string, maxLen: nat)
    requires maxLen >= 1 && text != "" && Trimmed(text)
    ensures forall i :: 0 <= i < |DoSplit(text, maxLen)| ==>
              DoSplit(text, maxLen)[i] != "" && Trimmed(DoSplit(text, maxLen)[i])
    ensures |text| > maxLen ==> |DoSplit(text, maxLen)| >= 2
    decreases |text|
  {
    if |text| > maxLen {
      var pos := ChooseCut(text, maxLen).pos;
      CutLosesOnlySpace(text, maxLen);
      ProgressNeedsBudget(text, maxLen);
      StripKeepsEnds(text[..pos], text[pos..]);
      NoBlankParts(Rest(text, maxLen), maxLen);
    }
  }

  /** If a text starts with a visible character, so does every part: none is blank. */
  lemma {:induction false} PartsStartVisibly(text: string, maxLen: nat)
    requires maxLen >= 1 && text != "" && !IsSpace(text[0])
    ensures forall i :: 0 <= i < |DoSplit(text, maxLen)| ==>
              DoSplit(text, maxLen)[i] != "" && !IsSpace(DoSplit(text, maxLen)[i][0])
    decreases |text|
  {
    if |text| > maxLen {
      CutStartsVisibly(text, maxLen);
      ProgressNeedsBudget(text, maxLen);
      if Rest(text, maxLen) != "" {
        PartsStartVisibly(Rest(text, maxLen), maxLen);
      }
    }
  }

  lemma CutStartsVisibly(text: string, maxLen: nat)
    requires 1 <= maxLen < |text| && !IsSpace(text[0])
    ensures First(text, maxLen) != "" && First(text, maxLen)[0] == text[0]
    ensures Rest(text, maxLen) != "" ==> !IsSpace(Rest(text, maxLen)[0])
  {
    var pos := ChooseCut(text, maxLen).pos;
    CutLosesOnlySpace(text, maxLen);
    RStripKeepsStart(text[..pos]);
    LStripDropsPrefix(text[pos..]);
  }

  lemma RStripKeepsStart(left: string)
    requires left != "" && !IsSpace(left[0])
    ensures RStrip(left) != "" && RStrip(left)[0] == left[0]
  {
    RStripDropsSuffix(left);
    assert left[0..] == left;
  }

  lemma StripKeepsEnds(left: string, right: string)
    requires left != "" && !IsSpace(left[0])
    requires right != "" && !IsSpace(right[|right| - 1])
    ensures RStrip(left) != "" && Trimmed(RStrip(left))
    ensures LStrip(right) != "" && Trimmed(LStrip(right))
  {
    RStripDropsSuffix(left);
    LStripDropsPrefix(right);
    var l, r := RStrip(left), LStrip(right);
    assert left[0..] == left && right[..|right|] == right;
    assert l != "" && r != "";
    assert r[|r| - 1] == right[|right| - 1];
  }
}
