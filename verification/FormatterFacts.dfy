/** What the two substitutions and the whole of format() do to a text. */
module FormatterFacts {
  import opened Text
  import opened Formatter

  lemma ScanReadsTheText(rule: Rule, text: string)
    ensures LeftmostSegmentation(rule, text, Scan(rule, text))
  {
    ScanIsTheLeftmostSegmentation(rule, text, Scan(rule, text));
  }

  function Matches(segments: seq<Segment>): nat {
    if segments == [] then 0 else (if segments[0].Markup? then 1 else 0) + Matches(segments[1..])
  }

  ghost predicate WellFormedAll(rule: Rule, segments: seq<Segment>) {
    forall i :: 0 <= i < |segments| && segments[i].Markup? ==> WellFormed(rule, segments[i].title, segments[i].url)
  }

  lemma ScanIsWellFormed(rule: Rule, text: string)
    ensures SourceAll(rule, Scan(rule, text)) == text
    ensures WellFormedAll(rule, Scan(rule, text))
  {
    ScanReadsTheText(rule, text);
    var segments := Scan(rule, text);
    forall i | 0 <= i < |segments| && segments[i].Markup?
      ensures WellFormed(rule, segments[i].title, segments[i].url)
    {
      assert Justified(rule, segments[i], SourceAll(rule, segments[i..]));
    }
  }

  // --- Lengths ---

  /** What the images of a text change its length by: each gains 2 characters and loses its address. */
  function ImageGrowth(segments: seq<Segment>): int {
    if segments == [] then 0
    else (if segments[0].Markup? then 2 - |segments[0].url| else 0) + ImageGrowth(segments[1..])
  }

  /** The link pass removes exactly one character per link; each image changes the length by 2 - |url|,
      so that the image pass adds at most one character per image. */
  lemma PassLength(text: string)
    ensures |Substitute(Link, text)| == |text| - Matches(Scan(Link, text))
    ensures |Substitute(Image, text)| == |text| + ImageGrowth(Scan(Image, text))
    ensures ImageGrowth(Scan(Image, text)) <= Matches(Scan(Image, text))
  {
    ScanIsWellFormed(Link, text);
    ScanIsWellFormed(Image, text);
    RenderedLength(Link, Scan(Link, text));
    RenderedLength(Image, Scan(Image, text));
  }

  lemma {:induction false} RenderedLength(rule: Rule, segments: seq<Segment>)
    requires WellFormedAll(rule, segments)
    ensures rule == Link ==> |RenderedAll(rule, segments)| == |SourceAll(rule, segments)| - Matches(segments)
    ensures rule == Image ==> |RenderedAll(rule, segments)| == |SourceAll(rule, segments)| + ImageGrowth(segments)
    ensures ImageGrowth(segments) <= Matches(segments)
  {
    if segments != [] {
      assert WellFormedAll(rule, segments[1..]);
      RenderedLength(rule, segments[1..]);
    }
  }

  // --- What the link pass keeps ---

  /** The text without the characters that the link pass moves around. */
  function Erase(s: string): string {
    if s == "" then ""
    else (if s[0] in "[] " then "" else [s[0]]) + Erase(s[1..])
  }

  lemma {:induction false} EraseConcat(a: string, b: string)
    ensures Erase(a + b) == Erase(a) + Erase(b)
  {
    if a == "" {
      assert a + b == b;
    } else {
      assert (a + b)[1..] == a[1..] + b;
      EraseConcat(a[1..], b);
    }
  }

  /** Apart from square brackets and spaces, the link pass changes nothing. */
  lemma LinkPassKeepsText(text: string)
    ensures Erase(Substitute(Link, text)) == Erase(text)
  {
    ScanIsWellFormed(Link, text);
    EraseRendered(Scan(Link, text));
  }

  lemma {:induction false} EraseRendered(segments: seq<Segment>)
    ensures Erase(RenderedAll(Link, segments)) == Erase(SourceAll(Link, segments))
  {
    if segments != [] {
      var rendered, source := Rendered(Link, segments[0]), Source(Link, segments[0]);
      EraseRendered(segments[1..]);
      EraseConcat(rendered, RenderedAll(Link, segments[1..]));
      EraseConcat(source, SourceAll(Link, segments[1..]));
      if segments[0].Markup? {
        EraseLink(segments[0].title, segments[0].url);
      }
    }
  }

  lemma EraseLink(title: string, url: string)
    ensures Erase(title + " (" + url + ")") == Erase("[" + (title + "](" + url + ")"))
  {
    EraseParts(title, " (", url);
    EraseParts(title, "](", url);
    assert ("[" + (title + "](" + url + ")"))[1..] == title + "](" + url + ")";
    assert Erase(" (") == "(" by { assert " ("[1..] == "("; assert "("[1..] == ""; }
    assert Erase("](") == "(" by { assert "]("[1..] == "("; assert "("[1..] == ""; }
  }

  lemma EraseParts(title: string, middle: string, url: string)
    ensures Erase(title + middle + url + ")") == Erase(title) + Erase(middle) + Erase(url) + Erase(")")
  {
    EraseConcat(title + middle + url, ")");
    EraseConcat(title + middle, url);
    EraseConcat(title, middle);
  }

  // --- The passes from left to right ---

  /** The rule matches nowhere in s when rest follows. */
  ghost predicate NoMatchIn(rule: Rule, s: string, rest: string) {
    forall i :: 0 <= i < |s| ==> MatchFront(rule, s[i..] + rest).None?
  }

  lemma {:induction false} CopiedThrough(rule: Rule, s: string, rest: string)
    requires NoMatchIn(rule, s, rest)
    ensures Substitute(rule, s + rest) == s + Substitute(rule, rest)
  {
    if s == "" {
      assert s + rest == rest;
    } else {
      CopiedStep(rule, s, rest);
      CopiedThrough(rule, s[1..], rest);
      Regroup(s, Substitute(rule, rest));
    }
  }

  lemma CopiedStep(rule: Rule, s: string, rest: string)
    requires s != "" && NoMatchIn(rule, s, rest)
    ensures Substitute(rule, s + rest) == [s[0]] + Substitute(rule, s[1..] + rest)
    ensures NoMatchIn(rule, s[1..], rest)
  {
    assert s[0..] == s;
    Regroup(s, rest);
    CopiedFirst(rule, s[0], s[1..] + rest);
    forall i | 0 <= i < |s[1..]|
      ensures MatchFront(rule, s[1..][i..] + rest).None?
    {
      assert s[1..][i..] == s[i + 1..];
    }
  }

  lemma Regroup(s: string, rest: string)
    requires s != ""
    ensures [s[0]] + (s[1..] + rest) == s + rest
  {
  }

  lemma CopiedFirst(rule: Rule, c: char, rest: string)
    requires MatchFront(rule, [c] + rest).None?
    ensures Substitute(rule, [c] + rest) == [c] + Substitute(rule, rest)
  {
    assert ([c] + rest)[1..] == rest;
    assert Scan(rule, [c] + rest) == [Plain(c)] + Scan(rule, rest);
  }

  /** A text without the first character of the rule's opening is copied. */
  lemma CopiedPlain(rule: Rule, s: string, rest: string)
    requires Opener(rule)[0] !in s
    ensures NoMatchIn(rule, s, rest)
    ensures Substitute(rule, s + rest) == s + Substitute(rule, rest)
  {
    forall i | 0 <= i < |s|
      ensures MatchFront(rule, s[i..] + rest).None?
    {
      assert (s[i..] + rest)[0] == s[i];
    }
    CopiedThrough(rule, s, rest);
  }

  lemma CopiedWhole(rule: Rule, s: string)
    requires Opener(rule)[0] !in s
    ensures Substitute(rule, s) == s
  {
    CopiedPlain(rule, s, "");
    assert s + "" == s;
  }

  lemma ReplacedFirst(rule: Rule, title: string, url: string, rest: string)
    requires WellFormed(rule, title, url)
    ensures Substitute(rule, Source(rule, Markup(title, url)) + rest) ==
            Rendered(rule, Markup(title, url)) + Substitute(rule, rest)
  {
    var source := Source(rule, Markup(title, url));
    MatchFrontIsPattern(rule, source + rest, title, url);
    assert (source + rest)[|source|..] == rest;
    assert Scan(rule, source + rest) == [Markup(title, url)] + Scan(rule, rest);
  }

  // --- The whole of format() ---

  /** Never more than the limit and the truncation notice, and no outer whitespace. */
  lemma FormatIsShortAndTrimmed(text: string)
    ensures |Format(text)| <= MAX_RESPONSE_LENGTH + |TRUNCATED| == 10022
    ensures Trimmed(Format(text))
  {
    SpaceOrNot('C');
    SpaceOrNot('.');
    if text != "" {
      var cut := Truncate(Substitute(Link, Substitute(Image, text)));
      StripTrims(cut);
    }
  }

  /** An empty output is answered by a sentence. */
  lemma EmptyOutputIsAnswered(text: string)
    ensures text == "" ==> Format(text) == "Claude returned an empty response."
  {
  }

  /** A pass turns whitespace into the same whitespace and never blanks out anything else. */
  lemma PassKeepsBlank(rule: Rule, text: string)
    ensures AllSpace(Substitute(rule, text)) <==> AllSpace(text)
    ensures AllSpace(text) ==> Substitute(rule, text) == text
  {
    ScanIsWellFormed(rule, text);
    RenderedBlank(rule, Scan(rule, text));
  }

  lemma {:induction false} RenderedBlank(rule: Rule, segments: seq<Segment>)
    ensures AllSpace(RenderedAll(rule, segments)) <==> AllSpace(SourceAll(rule, segments))
    ensures AllSpace(SourceAll(rule, segments)) ==> RenderedAll(rule, segments) == SourceAll(rule, segments)
  {
    if segments != [] {
      RenderedBlank(rule, segments[1..]);
      SegmentBlank(rule, segments[0]);
      AllSpaceConcat(Rendered(rule, segments[0]), RenderedAll(rule, segments[1..]));
      AllSpaceConcat(Source(rule, segments[0]), SourceAll(rule, segments[1..]));
    }
  }

  lemma AllSpaceConcat(a: string, b: string)
    ensures AllSpace(a + b) <==> AllSpace(a) && AllSpace(b)
  {
    if AllSpace(a + b) {
      assert forall i :: 0 <= i < |a| ==> (a + b)[i] == a[i];
      assert forall i :: 0 <= i < |b| ==> (a + b)[i + |a|] == b[i];
    }
  }

  lemma SegmentBlank(rule: Rule, segment: Segment)
    ensures AllSpace(Rendered(rule, segment)) <==> AllSpace(Source(rule, segment))
    ensures segment.Markup? ==> !AllSpace(Source(rule, segment))
  {
    SpaceOrNot('I');
    SpaceOrNot('(');
    SpaceOrNot('!');
    SpaceOrNot('[');
    if segment.Markup? {
      var source, rendered := Source(rule, segment), Rendered(rule, segment);
      assert source[0] == '!' || source[0] == '[';
      assert rule == Image ==> rendered[0] == 'I';
      assert rule == Link ==> rendered[|segment.title| + 1] == '(';
    }
  }

  /** The formatted text is blank exactly for a short text of nothing but whitespace. */
  lemma FormatBlankIff(text: string)
    ensures Format(text) == "" <==> text != "" && AllSpace(text) && |text| <= MAX_RESPONSE_LENGTH
  {
    if text != "" {
      var body := Substitute(Link, Substitute(Image, text));
      assert AllSpace(body) == AllSpace(text) && (AllSpace(text) ==> body == text) by {
        PassKeepsBlank(Image, text);
        PassKeepsBlank(Link, Substitute(Image, text));
      }
      TruncateBlankIff(body);
      StripBlankIff(Truncate(body));
    } else {
      assert Format(text) == EMPTY_RESPONSE;
    }
  }

  lemma TruncateBlankIff(body: string)
    ensures AllSpace(Truncate(body)) <==> AllSpace(body) && |body| <= MAX_RESPONSE_LENGTH
  {
    if |body| > MAX_RESPONSE_LENGTH {
      AllSpaceConcat(body[..MAX_RESPONSE_LENGTH], TRUNCATED);
      SpaceOrNot('[');
      assert TRUNCATED[2] == '[';
    }
  }

  lemma StripBlankIff(s: string)
    ensures Strip(s) == "" <==> AllSpace(s)
  {
    LStripDropsPrefix(s);
    var l := LStrip(s);
    RStripDropsSuffix(l);
    if AllSpace(s) {
      assert l == "";
    }
    if RStrip(l) == "" {
      assert l[0..] == l;
      assert s == s[..|s| - |l|] + l;
      AllSpaceConcat(s[..|s| - |l|], l);
    }
  }
}
