/** What is left of images and links in the output of format(). Each pass goes over the text once, so
    what it writes can form a new image or link. Whether one is left can be told from the links that
    the second pass finds: none of the conditions here looks at the output. */
module FormatterSurvivors {
  import opened Text
  import opened Formatter
  import opened FormatterFacts

  ghost predicate MarkupAt(rule: Rule, text: string, i: nat) {
    i < |text| && MatchFront(rule, text[i..]).Some?
  }

  ghost predicate HasMarkup(rule: Rule, text: string) {
    exists i: nat :: MarkupAt(rule, text, i)
  }

  /** Both passes. */
  function Passes(text: string): string {
    Substitute(Link, Substitute(Image, text))
  }

  /** What the second pass sees: copied characters and links. */
  function LinkScan(text: string): seq<Segment> {
    Scan(Link, Substitute(Image, text))
  }

  // --- Conditions on the segments ---

  /** After the segments before it, a closing parenthesis ends a nonempty group here. */
  predicate ParenCloses(segments: seq<Segment>) {
    && segments != []
    && (match segments[0]
        case Plain(c) => c != ')'
        case Markup(title, _) => title != "" ==> title[0] != ')')
    && exists s :: s in segments && (s.Markup? || s.c == ')')
  }

  /** The segments start with a nonempty group in parentheses: a copied one, or one that a link's
      title opens and its address closes. */
  predicate GroupOpens(segments: seq<Segment>) {
    segments != [] &&
    match segments[0]
    case Plain(c) => c == '(' && ParenCloses(segments[1..])
    case Markup(title, _) => title != "" && title[0] == '(' && (|title| >= 2 ==> title[1] != ')')
  }

  /** The address itself has, after its first closing bracket, a parenthesis and more. */
  predicate UrlCloses(url: string) {
    url != "" && if url[0] == ']' then |url| >= 3 && url[1] == '(' else UrlCloses(url[1..])
  }

  /** The first closing bracket of the segments stands before a nonempty group in parentheses. */
  predicate BracketCloses(segments: seq<Segment>) {
    segments != [] &&
    match segments[0]
    case Plain(c) => if c == ']' then GroupOpens(segments[1..]) else BracketCloses(segments[1..])
    case Markup(_, url) => if ']' in url then UrlCloses(url) else BracketCloses(segments[1..])
  }

  /** The same from within the address of a link on. */
  predicate BracketClosesFrom(url: string, segments: seq<Segment>) {
    if ']' in url then UrlCloses(url) else BracketCloses(segments)
  }

  /** A copied closing bracket, with only copied characters before it, stands before a link whose
      title opens a group. */
  predicate BracketMeetsTitle(segments: seq<Segment>) {
    && segments != [] && segments[0].Plain?
    && if segments[0].c == ']' then segments[1..] != [] && segments[1].Markup? && GroupOpens(segments[1..])
       else BracketMeetsTitle(segments[1..])
  }

  predicate StartsWithBracket(segments: seq<Segment>) {
    segments != [] && segments[0] == Plain(']')
  }

  /** The opening of the rule stands in s at p: for a link, not directly before a closing bracket. */
  predicate OpensAt(rule: Rule, s: string, p: nat) {
    p < |s| &&
    match rule
    case Link => s[p] == '[' && (p + 1 < |s| ==> s[p + 1] != ']')
    case Image => s[p] == '!' && p + 1 < |s| && s[p + 1] == '['
  }

  /** A markup comes into being at the first segment: in the title of a link, in its address, or at a
      copied character. */
  ghost predicate FrontLeaves(rule: Rule, segments: seq<Segment>) {
    segments != [] &&
    var rest := segments[1..];
    match segments[0]
    case Markup(title, url) =>
      || ((exists p: nat :: OpensAt(rule, title, p)) && BracketClosesFrom(url, rest))
      || (exists p: nat :: OpensAt(rule, url, p) && BracketClosesFrom(url[p + |Opener(rule)|..], rest))
    case Plain(c) =>
      match rule
      case Link => c == '[' && !StartsWithBracket(rest) && BracketCloses(rest)
      case Image => c == '!' && BangLeaves(rest)
  }

  /** A copied exclamation mark comes before these segments. */
  predicate BangLeaves(segments: seq<Segment>) {
    segments != [] &&
    var rest := segments[1..];
    match segments[0]
    case Markup(title, url) => title != "" && title[0] == '[' && BracketClosesFrom(url, rest)
    case Plain(c) => c == '[' && BracketCloses(rest)
  }

  ghost predicate SomeSegmentLeaves(rule: Rule, segments: seq<Segment>) {
    exists i :: 0 <= i < |segments| && FrontLeaves(rule, segments[i..])
  }

  // --- Closing a bracket, character by character ---

  /** After an opening bracket: the first closing bracket stands before a nonempty group. */
  predicate Closes(text: string) {
    MatchGroups(Image, text).Some?
  }

  predicate Paren(text: string) {
    text != "" && text[0] != ')' && ')' in text
  }

  predicate OpensParen(text: string) {
    text != "" && text[0] == '(' && Paren(text[1..])
  }

  lemma ClosesSkip(c: char, rest: string)
    requires c != ']'
    ensures Closes([c] + rest) == Closes(rest)
  {
    var text := [c] + rest;
    assert text[1..] == rest;
    assert Until(text, ']') == [c] + Until(rest, ']');
    assert text[|Until(text, ']')|..] == rest[|Until(rest, ']')|..];
  }

  lemma {:induction false} ClosesSkipAll(a: string, rest: string)
    requires ']' !in a
    ensures Closes(a + rest) == Closes(rest)
  {
    if a == "" {
      assert a + rest == rest;
    } else {
      ClosesSkip(a[0], a[1..] + rest);
      Regroup(a, rest);
      ClosesSkipAll(a[1..], rest);
    }
  }

  lemma ClosesHere(rest: string)
    ensures Closes([']'] + rest) == OpensParen(rest)
  {
    var text := [']'] + rest;
    assert Until(text, ']') == "" && text[0..] == text && text[1..] == rest;
    if "](" <= text {
      var after := text[2..];
      assert text[0..][2..] == after == rest[1..] && rest[0] == text[1] == '(';
      UntilStops(after, ')');
      assert Until(after, ')') == "" <==> after == "" || after[0] == ')';
      assert ')' in after <==> |Until(after, ')')| < |after|;
    } else {
      assert rest != "" ==> text[1] == rest[0];
    }
  }

  lemma MatchIsClosing(rule: Rule, text: string)
    ensures MatchFront(rule, text).Some? <==>
            && Opener(rule) <= text && Closes(text[|Opener(rule)|..])
            && (rule == Link && |text| >= 2 ==> text[1] != ']')
  {
    if Opener(rule) <= text {
      var body := text[|Opener(rule)|..];
      assert rule == Link && |text| >= 2 ==> body[0] == text[1];
    }
  }

  // --- Closing a bracket, segment by segment ---

  lemma LinkIsPieces(segments: seq<Segment>)
    requires segments != [] && segments[0].Markup?
    ensures
      var title, url, rest := segments[0].title, segments[0].url, RenderedAll(Link, segments[1..]);
      RenderedAll(Link, segments) == title + (" (" + (url + (")" + rest)))
  {
  }

  lemma {:induction false} UrlThenRest(url: string, rest: string)
    requires ')' !in url
    ensures Closes(url + (")" + rest)) == if ']' in url then UrlCloses(url) else Closes(rest)
  {
    if url == "" {
      assert url + (")" + rest) == [')'] + rest;
      ClosesSkip(')', rest);
    } else {
      var tail := url[1..] + (")" + rest);
      Regroup(url, ")" + rest);
      if url[0] == ']' {
        ClosesHere(tail);
        UrlOpensParen(url[1..], rest);
      } else {
        ClosesSkip(url[0], tail);
        UrlThenRest(url[1..], rest);
      }
    }
  }

  lemma UrlOpensParen(url: string, rest: string)
    requires ')' !in url
    ensures OpensParen(url + (")" + rest)) <==> |url| >= 2 && url[0] == '('
  {
    var text := url + (")" + rest);
    assert text[|url|] == ')';
    assert url != "" ==> text[0] == url[0] && ')' in text[1..] by {
      assert url != "" ==> text[1..][|url| - 1] == ')';
    }
    assert |url| >= 2 ==> text[1] == url[1];
  }

  lemma {:induction false} ParenthesisInRendered(segments: seq<Segment>)
    ensures ')' in RenderedAll(Link, segments) <==> exists s :: s in segments && (s.Markup? || s.c == ')')
  {
    if segments != [] {
      ParenthesisInRendered(segments[1..]);
      var first := Rendered(Link, segments[0]);
      assert segments[0].Markup? ==> first[|first| - 1] == ')';
      assert forall s :: s in segments <==> s == segments[0] || s in segments[1..];
      assert RenderedAll(Link, segments) == first + RenderedAll(Link, segments[1..]);
    }
  }

  lemma ParenIff(segments: seq<Segment>)
    requires WellFormedAll(Link, segments)
    ensures Paren(RenderedAll(Link, segments)) == ParenCloses(segments)
  {
    ParenthesisInRendered(segments);
    if segments != [] {
      FirstRendered(segments);
    }
  }

  lemma FirstRendered(segments: seq<Segment>)
    requires WellFormedAll(Link, segments) && segments != []
    ensures RenderedAll(Link, segments) != ""
    ensures RenderedAll(Link, segments)[0] == match segments[0] case Plain(c) => c case Markup(title, _) => title[0]
    ensures RenderedAll(Link, segments)[0] == ']' <==> StartsWithBracket(segments)
  {
    if segments[0].Markup? {
      assert WellFormed(Link, segments[0].title, segments[0].url);
      assert segments[0].title[0] in segments[0].title;
    }
  }

  lemma GroupOpensIff(segments: seq<Segment>)
    requires WellFormedAll(Link, segments)
    ensures OpensParen(RenderedAll(Link, segments)) == GroupOpens(segments)
  {
    if segments != [] {
      FirstRendered(segments);
      var text, rest := RenderedAll(Link, segments), segments[1..];
      match segments[0]
      case Plain(c) =>
        assert text[1..] == RenderedAll(Link, rest);
        ParenIff(rest);
      case Markup(title, url) =>
        LinkIsPieces(segments);
        TitleOpensParen(title, url, RenderedAll(Link, rest));
    }
  }

  lemma TitleOpensParen(title: string, url: string, rest: string)
    requires title != ""
    ensures OpensParen(title + (" (" + (url + (")" + rest)))) <==>
            title[0] == '(' && (|title| >= 2 ==> title[1] != ')')
  {
    var text := title + (" (" + (url + (")" + rest)));
    assert text[0] == title[0] && text[|title|] == ' ';
    assert |title| >= 2 ==> text[1] == title[1];
    assert text[1..][|title| + |url| + 1] == ')';
  }

  lemma {:induction false} BracketClosesIff(segments: seq<Segment>)
    requires WellFormedAll(Link, segments)
    ensures Closes(RenderedAll(Link, segments)) == BracketCloses(segments)
    decreases |segments|
  {
    if segments != [] {
      var rest := segments[1..];
      assert WellFormedAll(Link, rest);
      BracketClosesIff(rest);
      match segments[0]
      case Plain(c) =>
        if c == ']' {
          ClosesHere(RenderedAll(Link, rest));
          GroupOpensIff(rest);
        } else {
          ClosesSkip(c, RenderedAll(Link, rest));
        }
      case Markup(title, url) =>
        assert WellFormed(Link, title, url);
        LinkIsPieces(segments);
        ClosesSkipAll(title, " (" + (url + (")" + RenderedAll(Link, rest))));
        ClosesSkipAll(" (", url + (")" + RenderedAll(Link, rest)));
        UrlThenRest(url, RenderedAll(Link, rest));
    }
  }

  lemma BracketClosesFromIff(url: string, segments: seq<Segment>)
    requires ')' !in url && WellFormedAll(Link, segments)
    ensures Closes(url + (")" + RenderedAll(Link, segments))) == BracketClosesFrom(url, segments)
  {
    UrlThenRest(url, RenderedAll(Link, segments));
    BracketClosesIff(segments);
  }

  // --- Where a markup of the output starts ---

  /** A markup starts within the first of two texts that stand next to each other. */
  ghost predicate StartsWithin(rule: Rule, inner: string, after: string) {
    exists p: nat :: p < |inner| && MarkupAt(rule, inner + after, p)
  }

  lemma MarkupWithinOrAfter(rule: Rule, first: string, rest: string)
    ensures HasMarkup(rule, first + rest) <==> StartsWithin(rule, first, rest) || HasMarkup(rule, rest)
  {
    if HasMarkup(rule, first + rest) {
      WithinOrAfter(rule, first, rest);
    }
    if HasMarkup(rule, rest) {
      var q: nat :| MarkupAt(rule, rest, q);
      MarkupShifts(rule, first, rest, q);
    }
  }

  lemma WithinOrAfter(rule: Rule, first: string, rest: string)
    requires HasMarkup(rule, first + rest)
    ensures StartsWithin(rule, first, rest) || HasMarkup(rule, rest)
  {
    var q: nat :| MarkupAt(rule, first + rest, q);
    if q >= |first| {
      MarkupInRest(rule, first, rest, q);
    }
  }

  lemma MarkupInRest(rule: Rule, first: string, rest: string, q: nat)
    requires q >= |first| && MarkupAt(rule, first + rest, q)
    ensures HasMarkup(rule, rest)
  {
    var p := q - |first|;
    MarkupShifts(rule, first, rest, p);
    assert MarkupAt(rule, rest, p);
  }

  lemma MarkupShifts(rule: Rule, before: string, text: string, q: nat)
    ensures MarkupAt(rule, before + text, |before| + q) == MarkupAt(rule, text, q)
  {
    if q < |text| {
      assert (before + text)[|before| + q..] == text[q..];
    }
  }

  lemma WithinConcat(rule: Rule, a: string, b: string, rest: string)
    ensures StartsWithin(rule, a + b, rest) <==> StartsWithin(rule, a, b + rest) || StartsWithin(rule, b, rest)
  {
    assert a + b + rest == a + (b + rest);
    if StartsWithin(rule, a + b, rest) {
      var q: nat :| q < |a + b| && MarkupAt(rule, a + b + rest, q);
      WithinEither(rule, a, b, rest, q);
    }
    if StartsWithin(rule, a, b + rest) {
      var q: nat :| q < |a| && MarkupAt(rule, a + (b + rest), q);
      assert q < |a + b| && MarkupAt(rule, a + b + rest, q);
    }
    if StartsWithin(rule, b, rest) {
      var q: nat :| q < |b| && MarkupAt(rule, b + rest, q);
      MarkupShifts(rule, a, b + rest, q);
      assert |a| + q < |a + b| && MarkupAt(rule, a + b + rest, |a| + q);
    }
  }

  lemma WithinEither(rule: Rule, a: string, b: string, rest: string, q: nat)
    requires q < |a| + |b| && MarkupAt(rule, a + (b + rest), q)
    ensures StartsWithin(rule, a, b + rest) || StartsWithin(rule, b, rest)
  {
    if q >= |a| {
      MarkupShifts(rule, a, b + rest, q - |a|);
    }
  }

  lemma WithinOne(rule: Rule, c: char, rest: string)
    ensures StartsWithin(rule, [c], rest) <==> MatchFront(rule, [c] + rest).Some?
  {
    assert ([c] + rest)[0..] == [c] + rest;
    assert MarkupAt(rule, [c] + rest, 0) <==> MatchFront(rule, [c] + rest).Some?;
  }

  lemma NotWithin(rule: Rule, a: string, rest: string)
    requires Opener(rule)[0] !in a
    ensures !StartsWithin(rule, a, rest)
  {
    forall q: nat | q < |a|
      ensures !MarkupAt(rule, a + rest, q)
    {
      assert (a + rest)[q..][0] == a[q];
    }
  }

  /** A markup that starts within s is opened there, if no bracket follows s directly. */
  lemma OpenedWithin(rule: Rule, s: string, after: string, p: nat)
    requires p < |s| && after != "" && after[0] != '[' && after[0] != ']'
    ensures MarkupAt(rule, s + after, p) <==>
            OpensAt(rule, s, p) && Closes(s[p + |Opener(rule)|..] + after)
  {
    var text, k := s[p..] + after, |Opener(rule)|;
    assert (s + after)[p..] == text;
    MatchIsClosing(rule, text);
    assert |text| >= 2 && text[0] == s[p];
    assert text[1] == if p + 1 < |s| then s[p + 1] else after[0];
    assert Opener(rule) <= text <==> text[0] == Opener(rule)[0] && (rule == Image ==> text[1] == '[');
    if OpensAt(rule, s, p) {
      assert text[k..] == s[p + k..] + after;
    }
  }

  lemma WithinTitle(rule: Rule, title: string, after: string)
    requires ']' !in title && after != "" && after[0] != '[' && after[0] != ']'
    ensures StartsWithin(rule, title, after) <==> (exists p: nat :: OpensAt(rule, title, p)) && Closes(after)
  {
    forall p: nat | p < |title|
      ensures MarkupAt(rule, title + after, p) <==> OpensAt(rule, title, p) && Closes(after)
    {
      OpenedWithin(rule, title, after, p);
      if OpensAt(rule, title, p) {
        ClosesSkipAll(title[p + |Opener(rule)|..], after);
      }
    }
  }

  lemma WithinUrl(rule: Rule, url: string, segments: seq<Segment>)
    requires ')' !in url && WellFormedAll(Link, segments)
    ensures StartsWithin(rule, url, ")" + RenderedAll(Link, segments)) <==>
            exists p: nat :: OpensAt(rule, url, p) && BracketClosesFrom(url[p + |Opener(rule)|..], segments)
  {
    var after := ")" + RenderedAll(Link, segments);
    forall p: nat | p < |url|
      ensures MarkupAt(rule, url + after, p) <==>
              OpensAt(rule, url, p) && BracketClosesFrom(url[p + |Opener(rule)|..], segments)
    {
      OpenedWithin(rule, url, after, p);
      if OpensAt(rule, url, p) {
        BracketClosesFromIff(url[p + |Opener(rule)|..], segments);
      }
    }
  }

  lemma ReplacementLeavesIff(rule: Rule, segments: seq<Segment>)
    requires segments != [] && segments[0].Markup? && WellFormedAll(Link, segments)
    ensures StartsWithin(rule, Rendered(Link, segments[0]), RenderedAll(Link, segments[1..])) <==> FrontLeaves(rule, segments)
  {
    var title, url, rest := segments[0].title, segments[0].url, RenderedAll(Link, segments[1..]);
    assert WellFormedAll(Link, segments[1..]);
    var afterTitle := " (" + (url + (")" + rest));
    WithinPieces(rule, title, url, rest);
    WithinTitle(rule, title, afterTitle);
    ClosesSkipAll(" (", url + (")" + rest));
    BracketClosesFromIff(url, segments[1..]);
    WithinUrl(rule, url, segments[1..]);
  }

  lemma WithinPieces(rule: Rule, title: string, url: string, rest: string)
    ensures StartsWithin(rule, title + " (" + url + ")", rest) <==>
            StartsWithin(rule, title, " (" + (url + (")" + rest))) || StartsWithin(rule, url, ")" + rest)
  {
    assert title + " (" + url + ")" == title + (" (" + (url + ")"));
    assert url + ")" + rest == url + (")" + rest);
    assert " (" + (url + ")") + rest == " (" + (url + (")" + rest));
    WithinConcat(rule, title, " (" + (url + ")"), rest);
    WithinConcat(rule, " (", url + ")", rest);
    WithinConcat(rule, url, ")", rest);
    NotWithin(rule, " (", url + ")" + rest);
    NotWithin(rule, ")", rest);
  }

  // --- The copied characters ---

  lemma LinkMatchIs(c: char, rest: string)
    ensures MatchFront(Link, [c] + rest).Some? <==>
            c == '[' && (rest != "" ==> rest[0] != ']') && Closes(rest)
  {
    var text := [c] + rest;
    MatchIsClosing(Link, text);
    assert text[0] == c && text[1..] == rest && (rest != "" ==> text[1] == rest[0]);
    assert "[" <= text <==> c == '[';
  }

  lemma LinkAtCopied(segments: seq<Segment>)
    requires segments != [] && segments[0].Plain? && WellFormedAll(Link, segments)
    ensures MatchFront(Link, RenderedAll(Link, segments)).Some? <==> FrontLeaves(Link, segments)
  {
    var rest := segments[1..];
    LinkMatchIs(segments[0].c, RenderedAll(Link, rest));
    assert WellFormedAll(Link, rest);
    BracketClosesIff(rest);
    if rest != [] {
      FirstRendered(rest);
    }
  }

  lemma ImageMatchIs(c: char, rest: string)
    ensures MatchFront(Image, [c] + rest).Some? <==>
            c == '!' && rest != "" && rest[0] == '[' && Closes(rest[1..])
  {
    var text := [c] + rest;
    MatchIsClosing(Image, text);
    if rest != "" {
      assert text[0] == c && text[1] == rest[0] && text[2..] == rest[1..];
      assert "![" <= text <==> c == '!' && rest[0] == '[';
    }
  }

  lemma ImageAtCopied(segments: seq<Segment>)
    requires segments != [] && segments[0].Plain? && WellFormedAll(Link, segments)
    ensures MatchFront(Image, RenderedAll(Link, segments)).Some? <==> FrontLeaves(Image, segments)
  {
    var rest := segments[1..];
    ImageMatchIs(segments[0].c, RenderedAll(Link, rest));
    if rest != [] {
      BangLeavesIff(rest);
    }
  }

  lemma BangLeavesIff(segments: seq<Segment>)
    requires segments != [] && WellFormedAll(Link, segments)
    ensures
      var text := RenderedAll(Link, segments);
      text != "" && text[0] == '[' && Closes(text[1..]) <==> BangLeaves(segments)
  {
    FirstRendered(segments);
    var rest := segments[1..];
    assert WellFormedAll(Link, rest);
    match segments[0]
    case Plain(c) =>
      assert RenderedAll(Link, segments)[1..] == RenderedAll(Link, rest);
      BracketClosesIff(rest);
    case Markup(title, url) =>
      assert WellFormed(Link, title, url);
      TitleThenUrl(title, url, RenderedAll(Link, rest));
      LinkIsPieces(segments);
      BracketClosesFromIff(url, rest);
  }

  lemma TitleThenUrl(title: string, url: string, rest: string)
    requires title != "" && ']' !in title
    ensures
      var text := title + (" (" + (url + (")" + rest)));
      Closes(text[1..]) == Closes(url + (")" + rest))
  {
    var text, after := title + (" (" + (url + (")" + rest))), url + (")" + rest);
    assert text[1..] == title[1..] + (" (" + after);
    ClosesSkipAll(title[1..], " (" + after);
    ClosesSkipAll(" (", after);
  }

  // --- The output ---

  lemma FrontLeavesIff(rule: Rule, segments: seq<Segment>)
    requires segments != [] && WellFormedAll(Link, segments)
    ensures StartsWithin(rule, Rendered(Link, segments[0]), RenderedAll(Link, segments[1..])) <==> FrontLeaves(rule, segments)
  {
    match segments[0]
    case Plain(c) =>
      WithinOne(rule, c, RenderedAll(Link, segments[1..]));
      if rule == Link { LinkAtCopied(segments); } else { ImageAtCopied(segments); }
    case Markup(_, _) =>
      ReplacementLeavesIff(rule, segments);
  }

  lemma FirstSegmentOrRest(rule: Rule, segments: seq<Segment>)
    requires segments != []
    ensures SomeSegmentLeaves(rule, segments) <==> FrontLeaves(rule, segments) || SomeSegmentLeaves(rule, segments[1..])
  {
    var rest := segments[1..];
    assert segments[0..] == segments;
    assert forall i :: 0 <= i < |rest| ==> rest[i..] == segments[i + 1..];
    if SomeSegmentLeaves(rule, segments) {
      var i :| 0 <= i < |segments| && FrontLeaves(rule, segments[i..]);
      assert i > 0 ==> rest[i - 1..] == segments[i..];
    }
    if SomeSegmentLeaves(rule, rest) {
      var i :| 0 <= i < |rest| && FrontLeaves(rule, rest[i..]);
      assert FrontLeaves(rule, segments[i + 1..]);
    }
  }

  lemma {:induction false} RenderedHasMarkupIff(rule: Rule, segments: seq<Segment>)
    requires WellFormedAll(Link, segments)
    ensures HasMarkup(rule, RenderedAll(Link, segments)) <==> SomeSegmentLeaves(rule, segments)
    decreases |segments|
  {
    if segments != [] {
      assert WellFormedAll(Link, segments[1..]);
      RenderedHasMarkupIff(rule, segments[1..]);
      FirstSegmentOrRest(rule, segments);
      MarkupWithinOrAfter(rule, Rendered(Link, segments[0]), RenderedAll(Link, segments[1..]));
      FrontLeavesIff(rule, segments);
    }
  }

  /** Both passes together leave an image, or a link, exactly when one comes into being at one of the
      segments that the second pass sees. */
  lemma PassesLeaveMarkupIff(rule: Rule, text: string)
    ensures HasMarkup(rule, Passes(text)) <==> SomeSegmentLeaves(rule, LinkScan(text))
  {
    ScanIsWellFormed(Link, Substitute(Image, text));
    RenderedHasMarkupIff(rule, LinkScan(text));
  }

  // --- Truncation and strip ---

  function Copied(text: string): seq<Segment> {
    seq(|text|, i requires 0 <= i < |text| => Plain(text[i]))
  }

  /** The segments that are shown in n characters; a link that is cut becomes plain characters. */
  function CutOff(segments: seq<Segment>, n: nat): seq<Segment> {
    if segments == [] then []
    else
      var first := Rendered(Link, segments[0]);
      if |first| <= n then [segments[0]] + CutOff(segments[1..], n - |first|) else Copied(first[..n])
  }

  /** What of the output of the passes is shown. */
  function ShownSegments(text: string): seq<Segment> {
    CutOff(LinkScan(text), MAX_RESPONSE_LENGTH)
  }

  lemma {:induction false} RenderedCopied(text: string)
    ensures RenderedAll(Link, Copied(text)) == text
  {
    if text != "" {
      RenderedCopied(text[1..]);
      assert Copied(text)[1..] == Copied(text[1..]);
    }
  }

  lemma {:induction false} CutIsPrefix(segments: seq<Segment>, n: nat)
    requires WellFormedAll(Link, segments)
    ensures WellFormedAll(Link, CutOff(segments, n))
    ensures
      var text := RenderedAll(Link, segments);
      RenderedAll(Link, CutOff(segments, n)) == if |text| <= n then text else text[..n]
    ensures |RenderedAll(Link, segments)| <= n ==> CutOff(segments, n) == segments
    decreases |segments|
  {
    if segments != [] {
      var first, rest := Rendered(Link, segments[0]), segments[1..];
      assert WellFormedAll(Link, rest);
      if |first| <= n {
        CutIsPrefix(rest, n - |first|);
        PrefixOfConcat(first, RenderedAll(Link, rest), n);
      } else {
        RenderedCopied(first[..n]);
        assert (first + RenderedAll(Link, rest))[..n] == first[..n];
      }
    }
  }

  lemma PrefixOfConcat(first: string, rest: string, n: nat)
    requires |first| <= n
    ensures |first + rest| > n ==> (first + rest)[..n] == first + rest[..n - |first|]
  {
  }

  lemma {:induction false} ClosesNeedsParenthesis(text: string)
    requires ')' !in text
    ensures !Closes(text)
  {
    if text != "" {
      var rest := text[1..];
      assert text == [text[0]] + rest;
      ClosesNeedsParenthesis(rest);
      if text[0] == ']' {
        ClosesHere(rest);
      } else {
        ClosesSkip(text[0], rest);
      }
    }
  }

  /** Text without a closing parenthesis neither makes nor breaks a group before it. */
  lemma {:induction false} ClosesAppend(text: string, after: string)
    requires ')' !in after
    ensures Closes(text + after) == Closes(text)
  {
    if text == "" {
      assert text + after == after;
      ClosesNeedsParenthesis(after);
      ClosesNeedsParenthesis(text);
    } else {
      var rest := text[1..];
      Regroup(text, after);
      assert text == [text[0]] + rest;
      if text[0] == ']' {
        ClosesHere(rest);
        ClosesHere(rest + after);
        OpensParenAppend(rest, after);
      } else {
        ClosesSkip(text[0], rest);
        ClosesSkip(text[0], rest + after);
        ClosesAppend(rest, after);
      }
    }
  }

  lemma OpensParenAppend(text: string, after: string)
    requires ')' !in after
    ensures OpensParen(text + after) == OpensParen(text)
  {
    if text == "" {
      assert text + after == after;
    } else {
      assert (text + after)[1..] == text[1..] + after;
      assert |text| >= 2 ==> (text + after)[1] == text[1];
    }
  }

  lemma MatchAppend(rule: Rule, text: string, after: string)
    requires text != "" && ')' !in after
    ensures MatchFront(rule, text + after).Some? == MatchFront(rule, text).Some?
  {
    var c, rest := text[0], text[1..];
    assert text == [c] + rest && text + after == [c] + (rest + after);
    if rule == Link {
      LinkMatchIs(c, rest);
      LinkMatchIs(c, rest + after);
      ClosesAppend(rest, after);
      ClosesNeedsParenthesis(after);
      assert rest == "" ==> rest + after == after;
    } else {
      ImageMatchIs(c, rest);
      ImageMatchIs(c, rest + after);
      if rest == "" {
        assert rest + after == after;
        ClosesNeedsParenthesis(if after == "" then "" else after[1..]);
      } else {
        assert (rest + after)[1..] == rest[1..] + after;
        ClosesAppend(rest[1..], after);
      }
    }
  }

  lemma NoMatchWithout(rule: Rule, text: string)
    requires ')' !in text
    ensures MatchFront(rule, text).None?
  {
    MatchIsClosing(rule, text);
    if Opener(rule) <= text {
      ClosesNeedsParenthesis(text[|Opener(rule)|..]);
    }
  }

  lemma MarkupAtAppend(rule: Rule, text: string, after: string, q: nat)
    requires ')' !in after
    ensures MarkupAt(rule, text + after, q) <==> MarkupAt(rule, text, q)
  {
    if q < |text| {
      assert (text + after)[q..] == text[q..] + after;
      MatchAppend(rule, text[q..], after);
    } else if q < |text + after| {
      assert (text + after)[q..] == after[q - |text|..];
      NoMatchWithout(rule, after[q - |text|..]);
    }
  }

  lemma HasMarkupAppend(rule: Rule, text: string, after: string)
    requires ')' !in after
    ensures HasMarkup(rule, text + after) <==> HasMarkup(rule, text)
  {
    forall q: nat
      ensures MarkupAt(rule, text + after, q) <==> MarkupAt(rule, text, q)
    {
      MarkupAtAppend(rule, text, after, q);
    }
  }

  lemma StripKeepsMarkup(rule: Rule, text: string)
    ensures HasMarkup(rule, Strip(text)) <==> HasMarkup(rule, text)
  {
    var before, after := StripOnlySpace(text);
    NoneInSpace(before, Opener(rule)[0]);
    NoneInSpace(after, ')');
    assert text == before + (Strip(text) + after);
    MarkupWithinOrAfter(rule, before, Strip(text) + after);
    NotWithin(rule, before, Strip(text) + after);
    HasMarkupAppend(rule, Strip(text), after);
  }

  lemma NoneInSpace(space: string, c: char)
    requires AllSpace(space) && '!' <= c <= '~'
    ensures c !in space
  {
    SpaceOrNot(c);
  }

  /** What of the output of the passes is not truncated. */
  function BeforeNotice(body: string): string {
    if |body| <= MAX_RESPONSE_LENGTH then body else body[..MAX_RESPONSE_LENGTH]
  }

  lemma NoticeHasNoParenthesis(notice: string)
    requires notice == TRUNCATED
    ensures ')' !in notice
  {
  }

  lemma TruncateShows(rule: Rule, body: string)
    ensures HasMarkup(rule, Truncate(body)) <==> HasMarkup(rule, BeforeNotice(body))
  {
    var notice: string :| notice == TRUNCATED;
    NoticeHasNoParenthesis(notice);
    if |body| > MAX_RESPONSE_LENGTH {
      HasMarkupAppend(rule, BeforeNotice(body), notice);
    }
  }

  lemma FormatShows(rule: Rule, text: string)
    requires text != ""
    ensures HasMarkup(rule, Format(text)) <==>
            HasMarkup(rule, BeforeNotice(Passes(text)))
  {
    TruncateShows(rule, Passes(text));
    StripKeepsMarkup(rule, Truncate(Passes(text)));
  }

  lemma NoMarkupWithout(rule: Rule, text: string)
    requires ')' !in text
    ensures !HasMarkup(rule, text)
  {
    forall q: nat | q < |text|
      ensures !MarkupAt(rule, text, q)
    {
      NoMatchWithout(rule, text[q..]);
    }
  }

  lemma ShownIsRendered(text: string)
    ensures WellFormedAll(Link, ShownSegments(text))
    ensures RenderedAll(Link, ShownSegments(text)) == BeforeNotice(Passes(text))
  {
    ScanIsWellFormed(Link, Substitute(Image, text));
    CutIsPrefix(LinkScan(text), MAX_RESPONSE_LENGTH);
  }

  /** The docstring says that format() removes images and converts links. Its output has an image, or
      a link, left exactly when one comes into being at a segment that the second pass sees, as far as
      these are shown. */
  lemma FormatLeavesMarkupIff(rule: Rule, text: string)
    ensures HasMarkup(rule, Format(text)) <==> text != "" && SomeSegmentLeaves(rule, ShownSegments(text))
  {
    if text == "" {
      NoMarkupWithout(rule, EMPTY_RESPONSE);
    } else {
      FormatShows(rule, text);
      ShownIsRendered(text);
      RenderedHasMarkupIff(rule, ShownSegments(text));
    }
  }

  /** For a response that is not truncated, all segments are shown. */
  lemma ShortResponseShowsAll(text: string)
    requires |Passes(text)| <= MAX_RESPONSE_LENGTH
    ensures ShownSegments(text) == LinkScan(text)
  {
    ScanIsWellFormed(Link, Substitute(Image, text));
    CutIsPrefix(LinkScan(text), MAX_RESPONSE_LENGTH);
  }

  // --- A copied opening bracket ---

  /** What closes a copied bracket is not what was copied with it, as that would have made a link. */
  lemma {:induction false} CopiedBracketMeetsTitle(segments: seq<Segment>)
    requires WellFormedAll(Link, segments) && !Closes(SourceAll(Link, segments))
    ensures BracketCloses(segments) == BracketMeetsTitle(segments)
    decreases |segments|
  {
    if segments != [] {
      var rest := segments[1..];
      assert WellFormedAll(Link, rest);
      match segments[0]
      case Plain(c) =>
        if c == ']' {
          ClosesHere(SourceAll(Link, rest));
          if rest != [] && rest[0].Plain? && GroupOpens(rest) {
            CopiedGroup(rest);
          }
        } else {
          ClosesSkip(c, SourceAll(Link, rest));
          CopiedBracketMeetsTitle(rest);
        }
      case Markup(title, url) =>
        LinkCloses(title, url, SourceAll(Link, rest));
        assert false;
    }
  }

  lemma LinkCloses(title: string, url: string, rest: string)
    requires WellFormed(Link, title, url)
    ensures Closes(Source(Link, Markup(title, url)) + rest)
  {
    var source := Source(Link, Markup(title, url));
    assert Groups("[" + title, url) == source && source <= source + rest;
    MatchGroupsIsPattern(Image, source + rest, "[" + title, url);
  }

  lemma CopiedGroup(segments: seq<Segment>)
    requires segments != [] && segments[0].Plain? && GroupOpens(segments)
    ensures OpensParen(SourceAll(Link, segments))
  {
    var rest := segments[1..];
    assert SourceAll(Link, segments)[1..] == SourceAll(Link, rest);
    ParenthesisInSource(rest);
    var first := Source(Link, rest[0]);
    assert SourceAll(Link, rest)[0] == first[0];
  }

  lemma {:induction false} ParenthesisInSource(segments: seq<Segment>)
    requires exists s :: s in segments && (s.Markup? || s.c == ')')
    ensures ')' in SourceAll(Link, segments)
  {
    var first, rest := Source(Link, segments[0]), segments[1..];
    assert SourceAll(Link, segments) == first + SourceAll(Link, rest);
    if segments[0].Markup? {
      assert first[|first| - 1] == ')';
    } else if segments[0].c != ')' {
      var s :| s in segments && (s.Markup? || s.c == ')');
      assert s in rest;
      ParenthesisInSource(rest);
    }
  }

  ghost predicate JustifiedAll(rule: Rule, segments: seq<Segment>) {
    forall i :: 0 <= i < |segments| ==> Justified(rule, segments[i], SourceAll(rule, segments[i..]))
  }

  lemma JustifiedTail(rule: Rule, segments: seq<Segment>)
    requires segments != [] && JustifiedAll(rule, segments)
    ensures JustifiedAll(rule, segments[1..])
    ensures Justified(rule, segments[0], SourceAll(rule, segments))
    ensures WellFormedAll(rule, segments)
  {
    var rest := segments[1..];
    assert segments[0..] == segments;
    forall i | 0 <= i < |rest|
      ensures Justified(rule, rest[i], SourceAll(rule, rest[i..]))
    {
      assert rest[i..] == segments[i + 1..];
      assert Justified(rule, segments[i + 1], SourceAll(rule, segments[i + 1..]));
    }
    forall i | 0 <= i < |segments| && segments[i].Markup?
      ensures WellFormed(rule, segments[i].title, segments[i].url)
    {
      assert Justified(rule, segments[i], SourceAll(rule, segments[i..]));
    }
  }

  /** A copied opening bracket was not the start of a link. */
  lemma CopiedBracket(segments: seq<Segment>)
    requires segments != [] && segments[0] == Plain('[') && JustifiedAll(Link, segments)
    ensures WellFormedAll(Link, segments[1..])
    ensures !StartsWithBracket(segments[1..]) ==> BracketCloses(segments[1..]) == BracketMeetsTitle(segments[1..])
  {
    var rest := segments[1..];
    JustifiedTail(Link, segments);
    if !StartsWithBracket(rest) {
      var source := SourceAll(Link, rest);
      NoLinkAt("[" + source);
      MatchIsClosing(Link, "[" + source);
      assert ("[" + source)[1..] == source;
      assert source != "" ==> source[0] != ']';
      CopiedBracketMeetsTitle(rest);
    }
  }

  lemma NoLinkAt(text: string)
    requires forall title, url :: !StartsWithMarkup(Link, text, title, url)
    ensures MatchFront(Link, text).None?
  {
    MatchFrontIsPrefix(Link, text);
  }

  lemma JustifiedSuffix(rule: Rule, segments: seq<Segment>, i: nat)
    requires i <= |segments| && JustifiedAll(rule, segments)
    ensures JustifiedAll(rule, segments[i..])
  {
    var rest := segments[i..];
    forall k | 0 <= k < |rest|
      ensures Justified(rule, rest[k], SourceAll(rule, rest[k..]))
    {
      assert rest[k..] == segments[i + k..];
      assert Justified(rule, segments[i + k], SourceAll(rule, segments[i + k..]));
    }
  }

  /** At a copied bracket there is one way only: it was not the start of a link, so what closes it now
      is a copied bracket that came to stand before a title, as in [a][(b](u). */
  lemma CopiedBracketLeavesIff(text: string, i: nat)
    requires i < |LinkScan(text)| && LinkScan(text)[i] == Plain('[')
    ensures
      var rest := LinkScan(text)[i + 1..];
      FrontLeaves(Link, LinkScan(text)[i..]) <==> !StartsWithBracket(rest) && BracketMeetsTitle(rest)
  {
    var segments := LinkScan(text);
    ScanReadsTheText(Link, Substitute(Image, text));
    assert JustifiedAll(Link, segments);
    JustifiedSuffix(Link, segments, i);
    assert segments[i..][1..] == segments[i + 1..];
    CopiedBracket(segments[i..]);
  }

  /** A text in which no image is found goes to the second pass as it is. */
  lemma ImageFreeText(text: string)
    requires forall s :: s in Scan(Image, text) ==> s.Plain?
    ensures LinkScan(text) == Scan(Link, text)
  {
    ScanIsWellFormed(Image, text);
    PlainIsRendered(Scan(Image, text));
  }

  /** For such a text, if it is not truncated, the condition is on the links of the text itself. */
  lemma ImageFreeTextLeavesMarkupIff(rule: Rule, text: string)
    requires forall s :: s in Scan(Image, text) ==> s.Plain?
    requires |Passes(text)| <= MAX_RESPONSE_LENGTH
    ensures HasMarkup(rule, Format(text)) <==> text != "" && SomeSegmentLeaves(rule, Scan(Link, text))
  {
    FormatLeavesMarkupIff(rule, text);
    ShortResponseShowsAll(text);
    ImageFreeText(text);
  }

  lemma {:induction false} PlainIsRendered(segments: seq<Segment>)
    requires forall s :: s in segments ==> s.Plain?
    ensures RenderedAll(Image, segments) == SourceAll(Image, segments)
  {
    if segments != [] {
      PlainIsRendered(segments[1..]);
    }
  }

  // --- A condition under which nothing is left ---

  /** A link in which nothing can start, and which closes no bracket before it. */
  predicate PlainPiece(s: Segment)
    requires s.Markup?
  {
    '[' !in s.title && '[' !in s.url && (s.title != "" ==> s.title[0] != '(')
  }

  /** An exclamation mark and an empty pair of brackets are copied here. */
  predicate EmptyImageAt(segments: seq<Segment>, i: nat) {
    i + 2 < |segments| && segments[i] == Plain('!') && segments[i + 1] == Plain('[') && segments[i + 2] == Plain(']')
  }

  lemma MatchPrefix(rule: Rule, text: string, more: string)
    requires MatchFront(rule, text).Some?
    ensures MatchFront(rule, text + more).Some?
  {
    MatchFrontIsPrefix(rule, text);
    var found := MatchFront(rule, text).value;
    MatchFrontIsPattern(rule, text + more, found.title, found.url);
  }

  lemma MarkupAtPrefix(rule: Rule, text: string, more: string, q: nat)
    requires MarkupAt(rule, text, q)
    ensures MarkupAt(rule, text + more, q)
  {
    assert (text + more)[q..] == text[q..] + more;
    MatchPrefix(rule, text[q..], more);
  }

  lemma HasMarkupMore(rule: Rule, text: string, more: string)
    requires HasMarkup(rule, text)
    ensures HasMarkup(rule, text + more)
  {
    var q: nat :| MarkupAt(rule, text, q);
    MarkupAtPrefix(rule, text, more, q);
  }

  lemma HasMarkupPrefix(rule: Rule, text: string, n: nat)
    requires n <= |text| && HasMarkup(rule, text[..n])
    ensures HasMarkup(rule, text)
  {
    HasMarkupMore(rule, text[..n], text[n..]);
    assert text[..n] + text[n..] == text;
  }

  /** Truncation leaves nothing that was not there. */
  lemma FormatLeavesNoMore(rule: Rule, text: string)
    requires text != "" && HasMarkup(rule, Format(text))
    ensures HasMarkup(rule, Passes(text))
  {
    var body := Passes(text);
    FormatShows(rule, text);
    if |body| > MAX_RESPONSE_LENGTH {
      HasMarkupPrefix(rule, body, MAX_RESPONSE_LENGTH);
    }
  }

  lemma CleanPassesCleanFormat(rule: Rule, text: string, shown: string)
    requires Passes(text) == shown && !HasMarkup(rule, shown)
    ensures !HasMarkup(rule, Format(text))
  {
    if text == "" {
      NoMarkupWithout(rule, EMPTY_RESPONSE);
    } else if HasMarkup(rule, Format(text)) {
      FormatLeavesNoMore(rule, text);
    }
  }

  lemma {:induction false} MeetsSomeTitle(segments: seq<Segment>)
    requires BracketMeetsTitle(segments)
    ensures exists s :: s in segments && s.Markup? && s.title != "" && s.title[0] == '('
    decreases |segments|
  {
    if segments[0].c == ']' {
      assert segments[1] in segments && segments[1..][0] == segments[1];
    } else {
      MeetsSomeTitle(segments[1..]);
    }
  }

  /** Nothing starts in a plain link. */
  lemma PlainLinkLeavesNothing(rule: Rule, segments: seq<Segment>)
    requires segments != [] && segments[0].Markup? && PlainPiece(segments[0])
    ensures !FrontLeaves(rule, segments)
  {
  }

  /** A copied bracket before only plain links is not closed, unless it closes at once. */
  lemma PlainBracket(segments: seq<Segment>)
    requires segments != [] && segments[0] == Plain('[') && JustifiedAll(Link, segments)
    requires forall s :: s in segments[1..] && s.Markup? ==> PlainPiece(s)
    ensures StartsWithBracket(segments[1..]) || !BracketCloses(segments[1..])
  {
    CopiedBracket(segments);
    NoTitleMet(segments[1..]);
  }

  lemma PlainFront(rule: Rule, segments: seq<Segment>)
    requires segments != [] && JustifiedAll(Link, segments) && FrontLeaves(rule, segments)
    requires forall s :: s in segments && s.Markup? ==> PlainPiece(s)
    ensures rule == Image && EmptyImageAt(segments, 0)
  {
    var rest := segments[1..];
    assert segments[0] in segments && forall s :: s in rest ==> s in segments;
    JustifiedTail(Link, segments);
    if segments[0].Markup? {
      PlainLinkLeavesNothing(rule, segments);
      assert false;
    } else if rule == Link {
      PlainBracket(segments);
      assert false;
    } else {
      assert rest[0].Plain? by {
        assert rest[0] in segments;
      }
      assert forall s :: s in rest[1..] ==> s in segments;
      PlainBracket(rest);
    }
  }

  lemma NoTitleMet(segments: seq<Segment>)
    requires forall s :: s in segments && s.Markup? ==> PlainPiece(s)
    ensures !BracketMeetsTitle(segments)
  {
    if BracketMeetsTitle(segments) {
      MeetsSomeTitle(segments);
    }
  }

  /** No link is left by format() when no title or address that the second pass finds contains '[' and
      no such title starts with '('; and then no image is left either, unless an image with an empty
      alt text was copied. */
  lemma PlainPiecesLeaveNothing(rule: Rule, text: string)
    requires forall s :: s in LinkScan(text) && s.Markup? ==> PlainPiece(s)
    requires rule == Image ==> forall i: nat :: !EmptyImageAt(LinkScan(text), i)
    ensures !HasMarkup(rule, Format(text))
  {
    var segments := LinkScan(text);
    ScanReadsTheText(Link, Substitute(Image, text));
    assert JustifiedAll(Link, segments);
    if text == "" {
      NoMarkupWithout(rule, EMPTY_RESPONSE);
    } else if HasMarkup(rule, Format(text)) {
      FormatLeavesNoMore(rule, text);
      PassesLeaveMarkupIff(rule, text);
      var i: nat :| i < |segments| && FrontLeaves(rule, segments[i..]);
      JustifiedSuffix(Link, segments, i);
      PlainFront(rule, segments[i..]);
      EmptyImageInSuffix(segments, i);
    }
  }

  lemma EmptyImageInSuffix(segments: seq<Segment>, i: nat)
    requires i <= |segments| && EmptyImageAt(segments[i..], 0)
    ensures EmptyImageAt(segments, i)
  {
  }
}
