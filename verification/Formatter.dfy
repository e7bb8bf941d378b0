/** ResponseFormatter: the two markdown substitutions as scanners, truncation and strip. */
module Formatter {
  import opened Options
  import opened Text

  const MAX_RESPONSE_LENGTH := 10000
  const TRUNCATED := "\n\n[Response truncated]"
  const EMPTY_RESPONSE := "Claude returned an empty response."

  /** The two markdown forms: ![title](url) and [title](url). */
  datatype Rule = Image | Link

  /** A piece of a scanned text: a character left alone, or one match of the rule. */
  datatype Segment = Plain(c: char) | Markup(title: string, url: string)

  function Opener(rule: Rule): string {
    match rule
    case Image => "!["
    case Link => "["
  }

  /** What the rule's pattern demands of the two groups: an image may have an empty title. */
  predicate WellFormed(rule: Rule, title: string, url: string) {
    ']' !in title && ')' !in url && url != "" && (rule == Link ==> title != "")
  }

  function Groups(title: string, url: string): string {
    title + "](" + url + ")"
  }

  /** The text a segment was read from. */
  function Source(rule: Rule, segment: Segment): string {
    match segment
    case Plain(c) => [c]
    case Markup(title, url) => Opener(rule) + Groups(title, url)
  }

  /** The text a segment is replaced with. */
  function Rendered(rule: Rule, segment: Segment): string {
    match segment
    case Plain(c) => [c]
    case Markup(title, url) =>
      match rule
      case Image => "Image: " + title
      case Link => title + " (" + url + ")"
  }

  function SourceAll(rule: Rule, segments: seq<Segment>): string {
    if segments == [] then "" else Source(rule, segments[0]) + SourceAll(rule, segments[1..])
  }

  function RenderedAll(rule: Rule, segments: seq<Segment>): string {
    if segments == [] then "" else Rendered(rule, segments[0]) + RenderedAll(rule, segments[1..])
  }

  /** The characters of s before its first c; all of s when there is none. */
  function Until(s: string, c: char): (r: string)
    ensures |r| <= |s|
  {
    if s == "" || s[0] == c then "" else [s[0]] + Until(s[1..], c)
  }

  /** Tries to match the rule at the front of the text: each group runs to the first character
      it excludes. */
  function MatchFront(rule: Rule, text: string): Option<Segment> {
    var opener := Opener(rule);
    if opener <= text then MatchGroups(rule, text[|opener|..]) else None
  }

  function MatchGroups(rule: Rule, body: string): Option<Segment> {
    var title := Until(body, ']');
    if !("](" <= body[|title|..]) then None
    else
      var afterParen := body[|title|..][2..];
      var url := Until(afterParen, ')');
      if |url| == |afterParen| || url == "" || (rule == Link && title == "") then None
      else Some(Markup(title, url))
  }

  /** The scan behind re.sub: a match at the current position is consumed whole, otherwise one
      character is copied. */
  function Scan(rule: Rule, text: string): seq<Segment>
    decreases |text|
  {
    if text == "" then []
    else
      match MatchFront(rule, text)
      case Some(segment) =>
        MatchFrontIsPrefix(rule, text);
        [segment] + Scan(rule, text[|Source(rule, segment)|..])
      case None => [Plain(text[0])] + Scan(rule, text[1..])
  }

  function Substitute(rule: Rule, text: string): string {
    RenderedAll(rule, Scan(rule, text))
  }

  function Truncate(text: string): string {
    if |text| > MAX_RESPONSE_LENGTH then text[..MAX_RESPONSE_LENGTH] + TRUNCATED else text
  }

  /** format */
  function Format(text: string): string {
    if text == "" then EMPTY_RESPONSE
    else Strip(Truncate(Substitute(Link, Substitute(Image, text))))
  }

  // --- The pattern and its matcher ---

  /** The rule's pattern, stated without an algorithm: the text starts with a well-formed markup. */
  ghost predicate StartsWithMarkup(rule: Rule, text: string, title: string, url: string) {
    WellFormed(rule, title, url) && Source(rule, Markup(title, url)) <= text
  }

  lemma {:induction false} UntilStops(s: string, c: char)
    ensures Until(s, c) <= s && c !in Until(s, c)
    ensures |Until(s, c)| < |s| ==> s[|Until(s, c)|] == c
    ensures |Until(s, c)| == |s| ==> c !in s
  {
    if s != "" && s[0] != c {
      UntilStops(s[1..], c);
      assert s == [s[0]] + s[1..];
    }
  }

  lemma {:induction false} UntilIs(a: string, c: char, b: string)
    requires c !in a
    ensures Until(a + [c] + b, c) == a
  {
    if a != "" {
      assert (a + [c] + b)[1..] == a[1..] + [c] + b;
      UntilIs(a[1..], c, b);
    }
  }

  lemma GroupsJoin(body: string, title: string, url: string)
    requires title <= body && "](" <= body[|title|..]
    requires url <= body[|title|..][2..] && |url| < |body[|title|..][2..]| && body[|title|..][2..][|url|] == ')'
    ensures Groups(title, url) <= body
  {
    assert body[|title|..|title| + 2] == body[|title|..][..2] == "](";
    assert body[..|title| + 2 + |url| + 1] == Groups(title, url);
  }

  lemma GroupsSplit(title: string, url: string, rest: string)
    requires ']' !in title && ')' !in url
    ensures
      var body := Groups(title, url) + rest;
      && Until(body, ']') == title
      && "](" <= body[|title|..] && |body[|title|..][2..]| > |url|
      && Until(body[|title|..][2..], ')') == url
  {
    var body := Groups(title, url) + rest;
    var tail := url + [')'] + rest;
    assert body == title + [']'] + ("(" + tail);
    UntilIs(title, ']', "(" + tail);
    assert body[|title|..] == "](" + tail;
    UntilIs(url, ')', rest);
  }

  lemma MatchGroupsIsPattern(rule: Rule, body: string, title: string, url: string)
    ensures MatchGroups(rule, body) == Some(Markup(title, url)) <==>
            WellFormed(rule, title, url) && Groups(title, url) <= body
  {
    if MatchGroups(rule, body) == Some(Markup(title, url)) {
      UntilStops(body, ']');
      UntilStops(body[|title|..][2..], ')');
      GroupsJoin(body, title, url);
    }
    if WellFormed(rule, title, url) && Groups(title, url) <= body {
      var rest := body[|Groups(title, url)|..];
      assert body == Groups(title, url) + rest;
      GroupsSplit(title, url, rest);
    }
  }

  /** The matcher finds a match exactly when there is one, and there is never a choice. */
  lemma MatchFrontIsPattern(rule: Rule, text: string, title: string, url: string)
    ensures MatchFront(rule, text) == Some(Markup(title, url)) <==> StartsWithMarkup(rule, text, title, url)
  {
    var opener := Opener(rule);
    if opener <= text {
      MatchGroupsIsPattern(rule, text[|opener|..], title, url);
      assert text == opener + text[|opener|..];
      assert opener + Groups(title, url) <= text <==> Groups(title, url) <= text[|opener|..];
    }
  }

  /** The two patterns, written out: what is matched is taken up to the first characters that the groups
      exclude, and what follows is left. */
  lemma MatchFrontSpelled(text: string, title: string, url: string)
    ensures MatchFront(Image, text) == Some(Markup(title, url)) <==>
            && (exists rest: string :: text == "![" + title + "](" + url + ")" + rest)
            && ']' !in title && ')' !in url && url != ""
    ensures MatchFront(Link, text) == Some(Markup(title, url)) <==>
            && (exists rest: string :: text == "[" + title + "](" + url + ")" + rest)
            && ']' !in title && title != "" && ')' !in url && url != ""
  {
    ImagePatternSpelled(text, title, url);
    LinkPatternSpelled(text, title, url);
  }

  lemma ImagePatternSpelled(text: string, title: string, url: string)
    ensures MatchFront(Image, text) == Some(Markup(title, url)) <==>
            && (exists rest: string :: text == "![" + title + "](" + url + ")" + rest)
            && ']' !in title && ')' !in url && url != ""
  {
    MatchFrontIsPattern(Image, text, title, url);
    PrefixIff("![" + title + "](" + url + ")", Source(Image, Markup(title, url)), text);
  }

  lemma LinkPatternSpelled(text: string, title: string, url: string)
    ensures MatchFront(Link, text) == Some(Markup(title, url)) <==>
            && (exists rest: string :: text == "[" + title + "](" + url + ")" + rest)
            && ']' !in title && title != "" && ')' !in url && url != ""
  {
    MatchFrontIsPattern(Link, text, title, url);
    PrefixIff("[" + title + "](" + url + ")", Source(Link, Markup(title, url)), text);
  }

  lemma PrefixIff(spelled: string, source: string, text: string)
    requires spelled == source
    ensures source <= text <==> exists rest: string :: text == spelled + rest
  {
    if source <= text {
      assert text == spelled + text[|source|..];
    }
  }

  lemma MatchFrontIsPrefix(rule: Rule, text: string)
    ensures MatchFront(rule, text).Some? ==> MatchFront(rule, text).value.Markup?
    ensures MatchFront(rule, text).Some? ==>
              var segment := MatchFront(rule, text).value;
              && StartsWithMarkup(rule, text, segment.title, segment.url)
              && 1 <= |Source(rule, segment)| <= |text|
  {
    var found := MatchFront(rule, text);
    if found.Some? {
      MatchFrontIsPattern(rule, text, found.value.title, found.value.url);
    }
  }

  // --- The scan is the leftmost segmentation ---

  /** A match must be well-formed; a character may be copied only where no match is possible. */
  ghost predicate Justified(rule: Rule, segment: Segment, remaining: string) {
    match segment
    case Markup(title, url) => WellFormed(rule, title, url)
    case Plain(_) => forall title, url :: !StartsWithMarkup(rule, remaining, title, url)
  }

  /** A segmentation of the text that takes every match as soon as it is possible. */
  ghost predicate LeftmostSegmentation(rule: Rule, text: string, segments: seq<Segment>) {
    && SourceAll(rule, segments) == text
    && forall i :: 0 <= i < |segments| ==> Justified(rule, segments[i], SourceAll(rule, segments[i..]))
  }

  /** The scan is the one leftmost segmentation of the text. */
  lemma {:induction false} ScanIsTheLeftmostSegmentation(rule: Rule, text: string, segments: seq<Segment>)
    ensures LeftmostSegmentation(rule, text, segments) <==> segments == Scan(rule, text)
    decreases |text|
  {
    if text == "" {
      EmptyTextHasNoSegments(rule, segments);
    } else {
      var head, rest := ScanUnfolds(rule, text);
      HeadIsForced(rule, text, head, segments);
      if segments != [] && segments[0] == head {
        ScanIsTheLeftmostSegmentation(rule, rest, segments[1..]);
        TailOfSegmentation(rule, rest, head, segments[1..]);
        assert segments == [head] + segments[1..];
      }
      assert segments == Scan(rule, text) <==> segments != [] && segments[0] == head && segments[1..] == Scan(rule, rest);
    }
  }

  lemma ScanUnfolds(rule: Rule, text: string) returns (head: Segment, rest: string)
    requires text != ""
    ensures Scan(rule, text) == [head] + Scan(rule, rest)
    ensures text == Source(rule, head) + rest && |rest| < |text|
    ensures FrontOf(rule, text, head)
  {
    match MatchFront(rule, text)
    case Some(segment) =>
      MatchFrontIsPrefix(rule, text);
      head, rest := segment, text[|Source(rule, segment)|..];
    case None => head, rest := Plain(text[0]), text[1..];
    FrontIsRead(rule, text, head);
    assert text == Source(rule, head) + rest by {
      assert rest == text[|Source(rule, head)|..];
    }
  }

  lemma FrontIsRead(rule: Rule, text: string, head: Segment)
    requires text != "" && FrontOf(rule, text, head)
    ensures Source(rule, head) <= text && |Source(rule, head)| >= 1
  {
    if head.Markup? {
      MatchFrontIsPattern(rule, text, head.title, head.url);
    }
  }

  /** What the scan does at the front of the text. */
  predicate FrontOf(rule: Rule, text: string, head: Segment) {
    match MatchFront(rule, text)
    case Some(segment) => head == segment
    case None => text != "" && head == Plain(text[0])
  }

  lemma EmptyTextHasNoSegments(rule: Rule, segments: seq<Segment>)
    ensures LeftmostSegmentation(rule, "", segments) <==> segments == []
  {
    if segments != [] {
      assert |Source(rule, segments[0])| >= 1;
      assert |SourceAll(rule, segments)| >= 1;
    }
  }

  /** Whether to match or to copy at the front of the text is decided by the text. */
  lemma HeadIsForced(rule: Rule, text: string, head: Segment, segments: seq<Segment>)
    requires text != "" && FrontOf(rule, text, head)
    ensures Justified(rule, head, text)
    ensures LeftmostSegmentation(rule, text, segments) ==> segments != [] && segments[0] == head
  {
    FrontIsJustified(rule, text, head);
    if LeftmostSegmentation(rule, text, segments) {
      assert segments[0..] == segments;
      assert Justified(rule, segments[0], text);
      OnlyFrontIsJustified(rule, text, head, segments[0]);
    }
  }

  lemma FrontIsJustified(rule: Rule, text: string, head: Segment)
    requires FrontOf(rule, text, head)
    ensures Justified(rule, head, text)
  {
    MatchFrontIsPrefix(rule, text);
    forall title, url
      ensures MatchFront(rule, text) == None ==> !StartsWithMarkup(rule, text, title, url)
    {
      MatchFrontIsPattern(rule, text, title, url);
    }
  }

  lemma OnlyFrontIsJustified(rule: Rule, text: string, head: Segment, other: Segment)
    requires FrontOf(rule, text, head)
    requires Justified(rule, other, text) && Source(rule, other) <= text
    ensures other == head
  {
    MatchFrontIsPrefix(rule, text);
    match other
    case Markup(title, url) => MatchFrontIsPattern(rule, text, title, url);
    case Plain(c) =>
  }

  lemma TailOfSegmentation(rule: Rule, rest: string, head: Segment, tail: seq<Segment>)
    requires Justified(rule, head, Source(rule, head) + rest)
    ensures LeftmostSegmentation(rule, Source(rule, head) + rest, [head] + tail) <==>
            LeftmostSegmentation(rule, rest, tail)
  {
    var segments := [head] + tail;
    assert segments[1..] == tail;
    assert SourceAll(rule, segments) == Source(rule, head) + SourceAll(rule, tail);
    assert segments[0..] == segments;
    assert forall i :: 0 <= i < |tail| ==> segments[i + 1] == tail[i] && segments[i + 1..] == tail[i..];
    if LeftmostSegmentation(rule, Source(rule, head) + rest, segments) {
      assert SourceAll(rule, tail) == rest by {
        assert (Source(rule, head) + SourceAll(rule, tail))[|Source(rule, head)|..] == SourceAll(rule, tail);
        assert (Source(rule, head) + rest)[|Source(rule, head)|..] == rest;
      }
      forall i | 0 <= i < |tail|
        ensures Justified(rule, tail[i], SourceAll(rule, tail[i..]))
      {
        assert Justified(rule, segments[i + 1], SourceAll(rule, segments[i + 1..]));
      }
    }
    if LeftmostSegmentation(rule, rest, tail) {
      forall i | 0 <= i < |segments|
        ensures Justified(rule, segments[i], SourceAll(rule, segments[i..]))
      {
        if i > 0 {
          assert segments[i..] == tail[i - 1..];
        }
      }
    }
  }
}
