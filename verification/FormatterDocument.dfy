/** format() on ordinary markdown: each image and each link is shown in its plain form, everything
    else as it is, no image or link is left, and a response that is cut says so. */
module FormatterDocument {
  import opened Text
  import opened Formatter
  import opened FormatterFacts
  import opened FormatterSurvivors

  /** A piece of a markdown document. */
  datatype Element = Words(text: string) | ImageRef(title: string, url: string) | LinkRef(title: string, url: string)

  /** Every opening bracket of the text is closed in it, and no closing one stands before a
      parenthesis. */
  predicate BracketsClosed(text: string) {
    && (forall i :: 0 <= i < |text| && text[i] == '[' ==> ']' in text[i + 1..])
    && (forall i :: 0 <= i < |text| - 1 && text[i] == ']' ==> text[i + 1] != '(')
  }

  /** Words may contain brackets, like "[1]" or "- [ ] done", but do not end in '!' (which would turn a
      link that follows into an image); the groups of images and links contain no brackets. */
  predicate Ordinary(e: Element) {
    match e
    case Words(text) => text != "" && BracketsClosed(text) && text[|text| - 1] != '!'
    case ImageRef(title, url) => WellFormed(Image, title, url) && '[' !in title
    case LinkRef(title, url) => WellFormed(Link, title, url) && '[' !in title && '[' !in url
  }

  /** Words that end in a bracket do not meet a parenthesis. */
  predicate Meet(e: Element, next: Element) {
    e.Words? && e.text != "" && e.text[|e.text| - 1] == ']' ==>
      match next
      case Words(text) => text != "" ==> text[0] != '('
      case LinkRef(title, _) => title != "" ==> title[0] != '('
      case ImageRef(_, _) => true
  }

  ghost predicate OrdinaryAll(document: seq<Element>) {
    && (forall e :: e in document ==> Ordinary(e))
    && (forall i :: 0 <= i < |document| - 1 ==> Meet(document[i], document[i + 1]))
  }

  function Written(e: Element): string {
    match e
    case Words(text) => text
    case ImageRef(title, url) => Source(Image, Markup(title, url))
    case LinkRef(title, url) => Source(Link, Markup(title, url))
  }

  function Shown(e: Element): string {
    match e
    case Words(text) => text
    case ImageRef(title, _) => "Image: " + title
    case LinkRef(title, url) => title + " (" + url + ")"
  }

  function WrittenAll(document: seq<Element>): string {
    if document == [] then "" else Written(document[0]) + WrittenAll(document[1..])
  }

  function ShownAll(document: seq<Element>): string {
    if document == [] then "" else Shown(document[0]) + ShownAll(document[1..])
  }

  /** The document after the image pass: images have become words. */
  function HalfShown(e: Element): string {
    if e.LinkRef? then Written(e) else Shown(e)
  }

  function HalfShownAll(document: seq<Element>): string {
    if document == [] then "" else HalfShown(document[0]) + HalfShownAll(document[1..])
  }

  lemma OrdinaryTail(document: seq<Element>)
    requires document != [] && OrdinaryAll(document)
    ensures OrdinaryAll(document[1..]) && Ordinary(document[0])
    ensures |document| > 1 ==> Meet(document[0], document[1]) && Ordinary(document[1])
  {
    var rest := document[1..];
    assert forall i :: 0 <= i < |rest| ==> rest[i] == document[i + 1];
  }

  // --- Brackets that are closed make no group ---

  /** What follows does not continue a bracket at the end of the text to a group. */
  predicate StopsGroup(text: string, rest: string) {
    text != "" && text[|text| - 1] == ']' && rest != "" ==> rest[0] != '('
  }

  lemma {:induction false} ClosedMakesNoGroup(text: string, rest: string)
    requires ']' in text && StopsGroup(text, rest)
    requires forall i :: 0 <= i < |text| - 1 && text[i] == ']' ==> text[i + 1] != '('
    ensures !Closes(text + rest)
  {
    var tail := text[1..];
    Regroup(text, rest);
    assert text == [text[0]] + tail;
    if text[0] == ']' {
      ClosesHere(tail + rest);
      assert tail + rest != "" ==> (tail + rest)[0] == if tail == "" then rest[0] else text[1];
    } else {
      ClosesSkip(text[0], tail + rest);
      assert forall i :: 0 <= i < |tail| ==> tail[i] == text[i + 1];
      ClosedMakesNoGroup(tail, rest);
    }
  }

  /** Nowhere in the text does an opening bracket come before a group. */
  ghost predicate NoGroupIn(text: string, rest: string) {
    forall i :: 0 <= i < |text| && text[i] == '[' ==> !Closes(text[i + 1..] + rest)
  }

  lemma ClosedHasNoGroup(text: string, rest: string)
    requires BracketsClosed(text) && StopsGroup(text, rest)
    ensures NoGroupIn(text, rest)
  {
    forall i | 0 <= i < |text| && text[i] == '['
      ensures !Closes(text[i + 1..] + rest)
    {
      var tail := text[i + 1..];
      assert forall k :: 0 <= k < |tail| ==> tail[k] == text[i + 1 + k];
      ClosedMakesNoGroup(tail, rest);
    }
  }

  lemma LinkNeedsGroup(text: string, rest: string)
    requires NoGroupIn(text, rest)
    ensures NoMatchIn(Link, text, rest)
  {
    forall i | 0 <= i < |text|
      ensures MatchFront(Link, text[i..] + rest).None?
    {
      assert text[i..] + rest == [text[i]] + (text[i + 1..] + rest);
      LinkMatchIs(text[i], text[i + 1..] + rest);
    }
  }

  lemma ImageNeedsGroup(text: string, rest: string)
    requires NoGroupIn(text, rest) && (text != "" ==> text[|text| - 1] != '!')
    ensures NoMatchIn(Image, text, rest)
  {
    forall i | 0 <= i < |text|
      ensures MatchFront(Image, text[i..] + rest).None?
    {
      var after := text[i + 1..] + rest;
      assert text[i..] + rest == [text[i]] + after;
      ImageMatchIs(text[i], after);
      if text[i] == '!' {
        assert after[0] == text[i + 1] && after[1..] == text[i + 2..] + rest;
      }
    }
  }

  // --- The two passes ---

  /** What a text that shows the document, or some of it, starts with. */
  lemma NextStops(document: seq<Element>)
    requires document != [] && OrdinaryAll(document) && document[0].Words?
    ensures StopsGroup(document[0].text, WrittenAll(document[1..]))
    ensures StopsGroup(document[0].text, HalfShownAll(document[1..]))
    ensures StopsGroup(document[0].text, ShownAll(document[1..]))
  {
    OrdinaryTail(document);
    if |document| > 1 {
      var next := document[1];
      assert document[1..][0] == next;
      assert Written(next) != "" && HalfShown(next) != "" && Shown(next) != "";
    }
  }

  lemma {:induction false} ImagePassShowsImages(document: seq<Element>)
    requires OrdinaryAll(document)
    ensures Substitute(Image, WrittenAll(document)) == HalfShownAll(document)
  {
    if document != [] {
      var e, rest := document[0], WrittenAll(document[1..]);
      OrdinaryTail(document);
      ImagePassShowsImages(document[1..]);
      match e
      case ImageRef(title, url) => ReplacedFirst(Image, title, url, rest);
      case Words(text) =>
        NextStops(document);
        ClosedHasNoGroup(text, rest);
        ImageNeedsGroup(text, rest);
        CopiedThrough(Image, text, rest);
      case LinkRef(title, url) =>
        LinkIsNoImage(title, url, rest);
        CopiedThrough(Image, Written(e), rest);
    }
  }

  /** In a link an exclamation mark is followed by something other than a bracket. */
  lemma LinkIsNoImage(title: string, url: string, rest: string)
    requires Ordinary(LinkRef(title, url))
    ensures NoMatchIn(Image, Source(Link, Markup(title, url)), rest)
  {
    var s := Source(Link, Markup(title, url));
    assert '[' !in s[1..] && s[|s| - 1] == ')';
    forall i | 0 <= i < |s|
      ensures MatchFront(Image, s[i..] + rest).None?
    {
      assert s[i..] + rest == [s[i]] + (s[i + 1..] + rest);
      ImageMatchIs(s[i], s[i + 1..] + rest);
      if s[i] == '!' {
        assert (s[i + 1..] + rest)[0] == s[1..][i];
      }
    }
  }

  lemma {:induction false} LinkPassShowsLinks(document: seq<Element>)
    requires OrdinaryAll(document)
    ensures Substitute(Link, HalfShownAll(document)) == ShownAll(document)
  {
    if document != [] {
      var e, rest := document[0], HalfShownAll(document[1..]);
      OrdinaryTail(document);
      LinkPassShowsLinks(document[1..]);
      match e
      case LinkRef(title, url) => ReplacedFirst(Link, title, url, rest);
      case ImageRef(_, _) => CopiedPlain(Link, HalfShown(e), rest);
      case Words(text) =>
        NextStops(document);
        ClosedHasNoGroup(text, rest);
        LinkNeedsGroup(text, rest);
        CopiedThrough(Link, text, rest);
    }
  }

  /** The two passes together show every image and every link of an ordinary document in its plain
      form and keep the words. */
  lemma PassesShowTheDocument(document: seq<Element>)
    requires OrdinaryAll(document)
    ensures Passes(WrittenAll(document)) == ShownAll(document)
  {
    ImagePassShowsImages(document);
    LinkPassShowsLinks(document);
  }

  /** In the other order the link would be found inside the image. */
  lemma OtherOrderBreaksImages(title: string, url: string)
    requires Ordinary(ImageRef(title, url)) && title != "" && '[' !in url
    ensures Substitute(Image, Substitute(Link, Source(Image, Markup(title, url)))) == "!" + Rendered(Link, Markup(title, url))
    ensures Passes(Source(Image, Markup(title, url))) == Rendered(Image, Markup(title, url))
  {
    var bang: string :| bang == "!";
    BangThenLink(bang, title, url);
    WithoutBracket(bang + Rendered(Link, Markup(title, url)));
    AloneIsReplaced(Image, title, url);
    CopiedWhole(Link, Rendered(Image, Markup(title, url)));
  }

  lemma AloneIsReplaced(rule: Rule, title: string, url: string)
    requires WellFormed(rule, title, url)
    ensures Substitute(rule, Source(rule, Markup(title, url))) == Rendered(rule, Markup(title, url))
  {
    var source := Source(rule, Markup(title, url));
    assert source + "" == source;
    ReplacedFirst(rule, title, url, "");
  }

  lemma BangThenLink(bang: string, title: string, url: string)
    requires bang == "!" && WellFormed(Link, title, url)
    ensures Substitute(Link, Source(Image, Markup(title, url))) == bang + Rendered(Link, Markup(title, url))
  {
    CopiedPlain(Link, bang, Source(Link, Markup(title, url)));
    AloneIsReplaced(Link, title, url);
    assert bang + Source(Link, Markup(title, url)) == Source(Image, Markup(title, url));
  }

  lemma WithoutBracket(text: string)
    requires '[' !in text
    ensures Substitute(Image, text) == text
  {
    forall i | 0 <= i < |text|
      ensures MatchFront(Image, text[i..] + "").None?
    {
      assert text[i..] + "" == [text[i]] + text[i + 1..];
      ImageMatchIs(text[i], text[i + 1..]);
    }
    CopiedThrough(Image, text, "");
    assert text + "" == text;
  }

  // --- Nothing is left ---

  lemma GroupNeedsBracket(rule: Rule, text: string)
    requires NoGroupIn(text, "")
    ensures !HasMarkup(rule, text)
  {
    forall q: nat | q < |text|
      ensures !MarkupAt(rule, text, q)
    {
      var tail := text[q + 1..];
      assert text[q..] == [text[q]] + tail && tail == tail + "";
      LinkMatchIs(text[q], tail);
      ImageMatchIs(text[q], tail);
      if tail != "" {
        assert tail[0] == text[q + 1] && tail[1..] == text[q + 2..] + "";
      }
    }
  }

  lemma NoGroupConcat(text: string, rest: string)
    requires NoGroupIn(text, rest) && NoGroupIn(rest, "")
    ensures NoGroupIn(text + rest, "")
  {
    forall i | 0 <= i < |text + rest| && (text + rest)[i] == '['
      ensures !Closes((text + rest)[i + 1..] + "")
    {
      if i < |text| {
        assert (text + rest)[i + 1..] + "" == text[i + 1..] + rest;
      } else {
        assert (text + rest)[i + 1..] == rest[i - |text| + 1..];
      }
    }
  }

  lemma {:induction false} ShownHasNoGroup(document: seq<Element>)
    requires OrdinaryAll(document)
    ensures NoGroupIn(ShownAll(document), "")
  {
    if document != [] {
      OrdinaryTail(document);
      ShownHasNoGroup(document[1..]);
      var rest := ShownAll(document[1..]);
      if document[0].Words? {
        NextStops(document);
        ClosedHasNoGroup(document[0].text, rest);
      } else {
        assert '[' !in Shown(document[0]);
      }
      NoGroupConcat(Shown(document[0]), rest);
    }
  }

  /** No image and no link is left of an ordinary document, however long it is. */
  lemma OrdinaryDocumentIsCleaned(rule: Rule, document: seq<Element>)
    requires OrdinaryAll(document)
    ensures !HasMarkup(rule, Format(WrittenAll(document)))
  {
    PassesShowTheDocument(document);
    ShownHasNoGroup(document);
    GroupNeedsBracket(rule, ShownAll(document));
    CleanPassesCleanFormat(rule, WrittenAll(document), ShownAll(document));
  }

  // --- The whole of format() ---

  /** A document of ordinary length comes out whole, up to whitespace at its ends. */
  lemma FormatShowsTheDocument(document: seq<Element>) returns (before: string, after: string)
    requires OrdinaryAll(document) && WrittenAll(document) != ""
    requires |ShownAll(document)| <= 10000
    ensures ShownAll(document) == before + Format(WrittenAll(document)) + after
    ensures AllSpace(before) && AllSpace(after)
    ensures Trimmed(Format(WrittenAll(document)))
  {
    PassesShowTheDocument(document);
    before, after := StripOnlySpace(ShownAll(document));
    StripTrims(ShownAll(document));
  }

  /** A longer one comes out as its first 10000 characters, up to whitespace at the front, and the
      notice that it was cut. */
  lemma LongDocumentSaysSo(document: seq<Element>) returns (before: string)
    requires OrdinaryAll(document) && |ShownAll(document)| > 10000
    ensures WrittenAll(document) != ""
    ensures ShownAll(document)[..10000] + "\n\n[Response truncated]" == before + Format(WrittenAll(document))
    ensures AllSpace(before)
  {
    PassesShowTheDocument(document);
    assert Substitute(Image, "") == "" && Substitute(Link, "") == "";
    before := StripKeepsNotice(ShownAll(document)[..MAX_RESPONSE_LENGTH], TRUNCATED);
  }

  lemma StripKeepsNotice(text: string, notice: string) returns (before: string)
    requires notice != "" && notice[|notice| - 1] == ']'
    ensures AllSpace(before) && text + notice == before + Strip(text + notice)
  {
    var s, after := text + notice, "";
    before, after := StripOnlySpace(s);
    SpaceOrNot(']');
    assert s[|s| - 1] == ']';
  }
}
