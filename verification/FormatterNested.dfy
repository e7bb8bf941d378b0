/** Texts of which format() leaves an image or a link: one family for each way there is. */
module FormatterNested {
  import opened Formatter
  import opened FormatterFacts
  import opened FormatterSurvivors

  /** Some characters, none of which has a meaning in the two patterns. */
  predicate Plainly(s: string) {
    s != "" && '!' !in s && '[' !in s && ']' !in s && '(' !in s && ')' !in s
  }

  /** A markup is left, also by format() if the text is not truncated. */
  ghost predicate Leaves(rule: Rule, text: string) {
    HasMarkup(rule, Passes(text)) && (|Passes(text)| <= MAX_RESPONSE_LENGTH ==> HasMarkup(rule, Format(text)))
  }

  lemma LeavesInside(rule: Rule, text: string, before: string, title: string, url: string)
    requires text != "" && WellFormed(rule, title, url)
    requires Passes(text) == before + Source(rule, Markup(title, url))
    ensures Leaves(rule, text)
  {
    var markup := Source(rule, Markup(title, url));
    MatchFrontIsPattern(rule, markup, title, url);
    assert (before + markup)[|before|..] == markup;
    assert MarkupAt(rule, before + markup, |before|);
    FormatShows(rule, text);
  }

  /** What closes the second pair of brackets. */
  function Ending(url: string): string {
    "](" + url + ")"
  }

  /** ![![](u)](v) becomes Image: ![](v): an empty alt text inside an alt text. */
  lemma EmptyImageInside(u: string, v: string)
    requires Plainly(u) && Plainly(v)
    ensures
      var text := Source(Image, Markup("![", u)) + Ending(v);
      Passes(text) == "Image: " + Source(Image, Markup("", v)) && Leaves(Image, text)
  {
    var title, before: string :| title == "![" && before == "Image: !";
    AltTextIsShown(title, u, Ending(v));
    EmptyLinkStays(before, Ending(v));
    EmptyImageIs(before, title, v);
    LeavesInside(Image, Source(Image, Markup(title, u)) + Ending(v), "Image: ", "", v);
  }

  lemma EmptyImageIs(before: string, title: string, v: string)
    requires title == "![" && before == "Image: !"
    ensures "Image: " + title + Ending(v) == before + (['['] + Ending(v))
    ensures before + (['['] + Ending(v)) == "Image: " + Source(Image, Markup("", v))
  {
  }

  lemma AltTextIsShown(title: string, u: string, ending: string)
    requires WellFormed(Image, title, u) && '!' !in ending
    ensures Substitute(Image, Source(Image, Markup(title, u)) + ending) == "Image: " + title + ending
  {
    ReplacedFirst(Image, title, u, ending);
    CopiedWhole(Image, ending);
  }

  /** The link pass finds no link in brackets without a title. */
  lemma EmptyLinkStays(before: string, ending: string)
    requires '[' !in before && '[' !in ending && ending != "" && ending[0] == ']'
    ensures Substitute(Link, before + (['['] + ending)) == before + (['['] + ending)
  {
    CopiedPlain(Link, before, ['['] + ending);
    LinkMatchIs('[', ending);
    CopiedFirst(Link, '[', ending);
    CopiedWhole(Link, ending);
  }

  /** With an alt text that is not empty, the second pass shows what is left of the inner image as a
      link: ![![a](u)](v) becomes Image: !a (v). */
  lemma NestedImageIsShown(a: string, u: string, v: string)
    requires Plainly(a) && Plainly(u) && Plainly(v)
    ensures Passes(Source(Image, Markup("![" + a, u)) + Ending(v)) == "Image: !" + Rendered(Link, Markup(a, v))
  {
    var before: string :| before == "Image: !";
    AltTextIsShown("![" + a, u, Ending(v));
    LinkAfterBang(before, a, v);
    OneLinkAfter(before, a, v);
  }

  lemma OneLinkAfter(before: string, a: string, v: string)
    requires '[' !in before && WellFormed(Link, a, v)
    ensures Substitute(Link, before + (Source(Link, Markup(a, v)) + "")) == before + Rendered(Link, Markup(a, v))
  {
    CopiedPlain(Link, before, Source(Link, Markup(a, v)) + "");
    ReplacedFirst(Link, a, v, "");
  }

  lemma LinkAfterBang(before: string, a: string, v: string)
    requires before == "Image: !"
    ensures "Image: " + ("![" + a) + Ending(v) == before + (Source(Link, Markup(a, v)) + "")
  {
  }

  /** Copied brackets before a link whose title starts with a parenthesis. */
  function Meeting(a: string, b: string, u: string): string {
    a + "]" + Source(Link, Markup("(" + b, u))
  }

  lemma MeetingIsShown(a: string, b: string, u: string)
    requires Plainly(a) && Plainly(b) && Plainly(u)
    ensures !Closes(Meeting(a, b, u)) && '!' !in Meeting(a, b, u)
    ensures Substitute(Link, ['['] + Meeting(a, b, u)) == Source(Link, Markup(a, b + " (" + u))
  {
    MeetingDoesNotClose(a, b, u);
    LinkMatchIs('[', Meeting(a, b, u));
    CopiedFirst(Link, '[', Meeting(a, b, u));
    MeetingCopied(a, b, u);
    MeetingMakesLink(a, b, u);
  }

  lemma MeetingDoesNotClose(a: string, b: string, u: string)
    requires Plainly(a)
    ensures !Closes(Meeting(a, b, u))
  {
    var link := Source(Link, Markup("(" + b, u));
    assert Meeting(a, b, u) == a + ([']'] + link);
    ClosesSkipAll(a, [']'] + link);
    ClosesHere(link);
  }

  lemma MeetingMakesLink(a: string, b: string, u: string)
    ensures ['['] + ((a + "]") + Rendered(Link, Markup("(" + b, u))) == Source(Link, Markup(a, b + " (" + u))
  {
  }

  lemma MeetingCopied(a: string, b: string, u: string)
    requires Plainly(a) && Plainly(b) && Plainly(u)
    ensures Substitute(Link, Meeting(a, b, u)) == (a + "]") + Rendered(Link, Markup("(" + b, u))
  {
    var link := Source(Link, Markup("(" + b, u));
    CopiedPlain(Link, a + "]", link);
    ReplacedFirst(Link, "(" + b, u, "");
    assert link + "" == link;
  }

  /** ![a][(b](u) becomes ![a](b (u): the link pass makes an image of it. */
  lemma ImageFromLink(a: string, b: string, u: string)
    requires Plainly(a) && Plainly(b) && Plainly(u)
    ensures
      var text := "!" + (['['] + Meeting(a, b, u));
      Passes(text) == Source(Image, Markup(a, b + " (" + u)) && Leaves(Image, text)
  {
    var body := Meeting(a, b, u);
    MeetingIsShown(a, b, u);
    BangIsCopied(body);
    CopiedPlain(Link, "!", ['['] + body);
    BangBeforeLink(a, b + " (" + u);
    LeavesInside(Image, "!" + (['['] + body), "", a, b + " (" + u);
  }

  /** The image pass finds no image at an exclamation mark before a bracket that does not close. */
  lemma BangIsCopied(body: string)
    requires !Closes(body) && '!' !in body
    ensures Substitute(Image, "!" + (['['] + body)) == "!" + (['['] + body)
  {
    ImageMatchIs('!', ['['] + body);
    assert (['['] + body)[1..] == body;
    CopiedFirst(Image, '!', ['['] + body);
    CopiedWhole(Image, ['['] + body);
  }

  lemma BangBeforeLink(title: string, url: string)
    ensures "!" + Source(Link, Markup(title, url)) == "" + Source(Image, Markup(title, url))
  {
  }

  /** [a][(b](u) becomes [a](b (u). */
  lemma LinkAtBrackets(a: string, b: string, u: string)
    requires Plainly(a) && Plainly(b) && Plainly(u)
    ensures
      var text := ['['] + Meeting(a, b, u);
      Passes(text) == Source(Link, Markup(a, b + " (" + u)) && Leaves(Link, text)
  {
    var text := ['['] + Meeting(a, b, u);
    MeetingIsShown(a, b, u);
    CopiedWhole(Image, text);
    assert "" + Source(Link, Markup(a, b + " (" + u)) == Source(Link, Markup(a, b + " (" + u));
    LeavesInside(Link, text, "", a, b + " (" + u);
  }

  lemma OneLink(title: string, url: string, ending: string)
    requires WellFormed(Link, title, url) && '[' !in ending
    requires '!' !in title && '!' !in url && '!' !in ending
    ensures Passes(Source(Link, Markup(title, url)) + ending) == Rendered(Link, Markup(title, url)) + ending
  {
    var text := Source(Link, Markup(title, url)) + ending;
    CopiedWhole(Image, text);
    ReplacedFirst(Link, title, url, ending);
    CopiedWhole(Link, ending);
  }

  /** [a[b](u)](v) becomes a[b (u)](v): a link starts in a title. */
  lemma LinkInTitle(a: string, b: string, u: string, v: string)
    requires Plainly(a) && Plainly(b) && Plainly(u) && Plainly(v)
    ensures
      var text := Source(Link, Markup(a + "[" + b, u)) + Ending(v);
      Passes(text) == a + Source(Link, Markup(b + " (" + u + ")", v)) && Leaves(Link, text)
  {
    OneLink(a + "[" + b, u, Ending(v));
    TitleIsLink(a, b, u, v);
    LeavesInside(Link, Source(Link, Markup(a + "[" + b, u)) + Ending(v), a, b + " (" + u + ")", v);
  }

  lemma TitleIsLink(a: string, b: string, u: string, v: string)
    ensures Rendered(Link, Markup(a + "[" + b, u)) + Ending(v) == a + Source(Link, Markup(b + " (" + u + ")", v))
  {
  }

  /** [a](u[b)](v) becomes a (u[b)](v): a link starts in an address. */
  lemma LinkInUrl(a: string, b: string, u: string, v: string)
    requires Plainly(a) && Plainly(b) && Plainly(u) && Plainly(v)
    ensures
      var text := Source(Link, Markup(a, u + "[" + b)) + Ending(v);
      Passes(text) == (a + " (" + u) + Source(Link, Markup(b + ")", v)) && Leaves(Link, text)
  {
    OneLink(a, u + "[" + b, Ending(v));
    UrlIsLink(a, b, u, v);
    LeavesInside(Link, Source(Link, Markup(a, u + "[" + b)) + Ending(v), a + " (" + u, b + ")", v);
  }

  lemma UrlIsLink(a: string, b: string, u: string, v: string)
    ensures Rendered(Link, Markup(a, u + "[" + b)) + Ending(v) == (a + " (" + u) + Source(Link, Markup(b + ")", v))
  {
  }

  // --- One text of each family ---

  /** A word of one letter. */
  predicate IsLetter(s: string, c: char) {
    s == [c] && 'a' <= c <= 'z'
  }

  lemma Letter(c: char) returns (s: string)
    requires 'a' <= c <= 'z'
    ensures IsLetter(s, c) && Plainly(s) && |s| == 1
  {
    s := [c];
  }

  lemma EmptyImageText(text: string)
    requires text == "![![](u)](v)"
    ensures HasMarkup(Image, Format(text))
  {
    var u := Letter('u');
    var v := Letter('v');
    EmptyImageSpelled(text, u, v);
    ShortEmptyImage(u, v);
  }

  lemma EmptyImageSpelled(text: string, u: string, v: string)
    requires text == "![![](u)](v)" && IsLetter(u, 'u') && IsLetter(v, 'v')
    ensures text == Source(Image, Markup("![", u)) + Ending(v)
  {
  }

  lemma ShortEmptyImage(u: string, v: string)
    requires Plainly(u) && Plainly(v) && |u| == |v| == 1
    ensures HasMarkup(Image, Format(Source(Image, Markup("![", u)) + Ending(v)))
  {
    EmptyImageInside(u, v);
  }

  lemma ImageFromLinkText(text: string)
    requires text == "![a][(b](u)"
    ensures HasMarkup(Image, Format(text))
  {
    var a := Letter('a');
    var b := Letter('b');
    var u := Letter('u');
    ImageFromLinkSpelled(text, a, b, u);
    ShortImageFromLink(a, b, u);
  }

  lemma ImageFromLinkSpelled(text: string, a: string, b: string, u: string)
    requires text == "![a][(b](u)" && IsLetter(a, 'a') && IsLetter(b, 'b') && IsLetter(u, 'u')
    ensures text == "!" + (['['] + Meeting(a, b, u))
  {
  }

  lemma ShortImageFromLink(a: string, b: string, u: string)
    requires Plainly(a) && Plainly(b) && Plainly(u) && |a| == |b| == |u| == 1
    ensures HasMarkup(Image, Format("!" + (['['] + Meeting(a, b, u))))
  {
    ImageFromLink(a, b, u);
  }

  lemma LinkInTitleText(text: string)
    requires text == "[a[b](u)](v)"
    ensures HasMarkup(Link, Format(text))
  {
    var a := Letter('a');
    var b := Letter('b');
    var u := Letter('u');
    var v := Letter('v');
    LinkInTitleSpelled(text, a, b, u, v);
    ShortLinkInTitle(a, b, u, v);
  }

  lemma LinkInTitleSpelled(text: string, a: string, b: string, u: string, v: string)
    requires text == "[a[b](u)](v)"
    requires IsLetter(a, 'a') && IsLetter(b, 'b') && IsLetter(u, 'u') && IsLetter(v, 'v')
    ensures text == Source(Link, Markup(a + "[" + b, u)) + Ending(v)
  {
  }

  lemma ShortLinkInTitle(a: string, b: string, u: string, v: string)
    requires Plainly(a) && Plainly(b) && Plainly(u) && Plainly(v) && |a| == |b| == |u| == |v| == 1
    ensures HasMarkup(Link, Format(Source(Link, Markup(a + "[" + b, u)) + Ending(v)))
  {
    LinkInTitle(a, b, u, v);
  }

  lemma LinkInUrlText(text: string)
    requires text == "[a](u[b)](v)"
    ensures HasMarkup(Link, Format(text))
  {
    var a := Letter('a');
    var b := Letter('b');
    var u := Letter('u');
    var v := Letter('v');
    LinkInUrlSpelled(text, a, b, u, v);
    ShortLinkInUrl(a, b, u, v);
  }

  lemma LinkInUrlSpelled(text: string, a: string, b: string, u: string, v: string)
    requires text == "[a](u[b)](v)"
    requires IsLetter(a, 'a') && IsLetter(b, 'b') && IsLetter(u, 'u') && IsLetter(v, 'v')
    ensures text == Source(Link, Markup(a, u + "[" + b)) + Ending(v)
  {
  }

  lemma ShortLinkInUrl(a: string, b: string, u: string, v: string)
    requires Plainly(a) && Plainly(b) && Plainly(u) && Plainly(v) && |a| == |b| == |u| == |v| == 1
    ensures HasMarkup(Link, Format(Source(Link, Markup(a, u + "[" + b)) + Ending(v)))
  {
    LinkInUrl(a, b, u, v);
  }

  lemma LinkAtBracketsText(text: string)
    requires text == "[a][(b](u)"
    ensures HasMarkup(Link, Format(text))
  {
    var a := Letter('a');
    var b := Letter('b');
    var u := Letter('u');
    LinkAtBracketsSpelled(text, a, b, u);
    ShortLinkAtBrackets(a, b, u);
  }

  lemma LinkAtBracketsSpelled(text: string, a: string, b: string, u: string)
    requires text == "[a][(b](u)" && IsLetter(a, 'a') && IsLetter(b, 'b') && IsLetter(u, 'u')
    ensures text == ['['] + Meeting(a, b, u)
  {
  }

  lemma ShortLinkAtBrackets(a: string, b: string, u: string)
    requires Plainly(a) && Plainly(b) && Plainly(u) && |a| == |b| == |u| == 1
    ensures HasMarkup(Link, Format(['['] + Meeting(a, b, u)))
  {
    LinkAtBrackets(a, b, u);
  }
}
