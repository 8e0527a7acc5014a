/**
 * Whether the text of a card can change the markup around it (`compileCards` in
 * src/modules/news/news.service.ts). Rich text cards are rendered from outside and are not covered.
 */
module CardEscaping {
  import opened CardCompiler
  import opened Common
  import opened Content
  import opened EscapeHtml

  predicate IsMarkup(c: char) {
    c == '<' || c == '>' || c == '"' || c == '\''
  }

  /** The angle brackets and quotes of a text, in order. */
  function Markup(s: string): string {
    if s == "" then "" else (if IsMarkup(s[0]) then [s[0]] else "") + Markup(s[1..])
  }

  lemma {:induction false} MarkupConcat(a: string, b: string)
    ensures Markup(a + b) == Markup(a) + Markup(b)
  {
    if a == "" {
      assert a + b == b;
    } else {
      MarkupConcat(a[1..], b);
      MarkupCons(a[0], a[1..]);
      MarkupCons(a[0], a[1..] + b);
      assert a == [a[0]] + a[1..] && a + b == [a[0]] + (a[1..] + b);
    }
  }

  lemma MarkupCons(c: char, s: string)
    ensures Markup([c] + s) == (if IsMarkup(c) then [c] else "") + Markup(s)
  {
    assert ([c] + s)[1..] == s;
  }

  lemma {:induction false} MarkupFree(s: string)
    ensures Markup(s) == "" <==> forall c <- s :: !IsMarkup(c)
  {
    if s != "" {
      MarkupFree(s[1..]);
      assert s == [s[0]] + s[1..];
    }
  }

  /** Escaped text has none. */
  lemma EscapedIsFree(text: string)
    ensures Markup(Escape(text)) == ""
  {
    EscapeRoundTrip(text);
    MarkupFree(Escape(text));
  }

  /** A template with three places for text. */
  lemma MarkupOfFive(a: string, x: string, b: string, y: string, c: string)
    ensures Markup(a + x + b + y + c) == Markup(a) + Markup(x) + Markup(b) + Markup(y) + Markup(c)
  {
    MarkupConcat(a, x);
    MarkupConcat(a + x, b);
    MarkupConcat(a + x + b, y);
    MarkupConcat(a + x + b + y, c);
  }

  // ---------------------------------------------------------------- the same card without its texts

  /** A caption or image that is shown stays shown. */
  function BlankOption(s: Option<string>): Option<string> {
    if Truthy(s) then Some("x") else None
  }

  function BlankReference(ref: Reference): Reference {
    Reference("", BlankOption(ref.coverImage), "")
  }

  function BlankMap(pub: PublicationMap): PublicationMap {
    map id | id in pub :: BlankReference(pub[id])
  }

  function Blank(data: CardData): CardData {
    match data
    case TextData(_) => data
    case QuoteData(_) => QuoteData("")
    case PublicationData(_) => data
    case ImageData(_, caption) => ImageData("", BlankOption(caption))
    case VideoData(_, caption) => VideoData("", BlankOption(caption))
  }

  /** The card has HTML that the compiler builds itself. */
  predicate Built(pub: PublicationMap, data: CardData) {
    !data.TextData? && (data.PublicationData? ==> data.articleId in pub)
  }

  function Html(r: Renderer, pub: PublicationMap, data: CardData): string
    requires Built(pub, data)
  {
    CardParts(r, pub, data).html[0]
  }

  lemma EscapeEmpty(text: string)
    ensures Escape(text) == "" <==> text == ""
  {
    EscapeRoundTrip(text);
    EscapeRoundTrip("");
    assert Escape("") == "";
  }

  lemma BlankCaption(caption: Option<string>)
    ensures Markup(EscapedOr(caption)) == "" && Markup(EscapedOr(BlankOption(caption))) == ""
    ensures EscapedOr(caption) != "" <==> Truthy(caption)
    ensures EscapedOr(BlankOption(caption)) != "" <==> Truthy(caption)
  {
    if Truthy(caption) {
      EscapedIsFree(caption.value);
      EscapeEmpty(caption.value);
      EscapedIsFree("x");
      EscapeEmpty("x");
    }
  }

  lemma QuoteMarkup(text: string)
    ensures Markup("<blockquote><p>" + Escape(text) + "</p></blockquote>")
         == Markup("<blockquote><p>" + Escape("") + "</p></blockquote>")
  {
    var a, c := "<blockquote><p>", "</p></blockquote>";
    MarkupConcat(a, Escape(text));
    MarkupConcat(a + Escape(text), c);
    MarkupConcat(a, Escape(""));
    MarkupConcat(a + Escape(""), c);
    EscapedIsFree(text);
    EscapedIsFree("");
  }

  lemma SameFrame(a: string, x: string, x': string, b: string, y: string, y': string, c: string)
    requires Markup(x) == Markup(x') && Markup(y) == Markup(y')
    ensures Markup(a + x + b + y + c) == Markup(a + x' + b + y' + c)
  {
    MarkupOfFive(a, x, b, y, c);
    MarkupOfFive(a, x', b, y', c);
  }

  function Figcaption(escaped: string): string {
    if escaped != "" then "<figcaption>" + escaped + "</figcaption>" else ""
  }

  lemma FigcaptionMarkup(x: string, y: string)
    requires Markup(x) == "" && Markup(y) == "" && (x == "" <==> y == "")
    ensures Markup(Figcaption(x)) == Markup(Figcaption(y))
  {
    if x != "" {
      var a, c := "<figcaption>", "</figcaption>";
      MarkupConcat(a, x);
      MarkupConcat(a + x, c);
      MarkupConcat(a, y);
      MarkupConcat(a + y, c);
    }
  }

  lemma ImageMarkup(url: string, caption: Option<string>)
    ensures Markup(ImageHtml(url, caption)) == Markup(ImageHtml("", BlankOption(caption)))
  {
    var x, y := EscapedOr(caption), EscapedOr(BlankOption(caption));
    BlankCaption(caption);
    EscapedIsFree(url);
    EscapedIsFree("");
    FigcaptionMarkup(x, y);
    var a, b, c := "<figure><img src=\"", "\" alt=\"", "\" loading=\"lazy\">";
    SameFrame(a, Escape(url), Escape(""), b, x, y, c);
    var head, head' := a + Escape(url) + b + x + c, a + Escape("") + b + y + c;
    MarkupConcat(head, Figcaption(x));
    MarkupConcat(head + Figcaption(x), "</figure>");
    MarkupConcat(head', Figcaption(y));
    MarkupConcat(head' + Figcaption(y), "</figure>");
    assert ImageHtml(url, caption) == head + Figcaption(x) + "</figure>";
    assert ImageHtml("", BlankOption(caption)) == head' + Figcaption(y) + "</figure>";
  }

  function CoverTag(ref: Reference): string {
    if Truthy(ref.coverImage)
    then "<img src=\"" + Escape(ref.coverImage.value) + "\" alt=\"" + Escape(ref.title) + "\" loading=\"lazy\">"
    else ""
  }

  lemma CoverMarkup(ref: Reference)
    ensures Markup(CoverTag(ref)) == Markup(CoverTag(BlankReference(ref)))
  {
    if Truthy(ref.coverImage) {
      EscapedIsFree(ref.coverImage.value);
      EscapedIsFree("x");
      EscapedIsFree(ref.title);
      EscapedIsFree("");
      SameFrame("<img src=\"", Escape(ref.coverImage.value), Escape("x"), "\" alt=\"", Escape(ref.title), Escape(""),
                "\" loading=\"lazy\">");
    }
  }

  lemma PublicationMarkup(ref: Reference)
    ensures Markup(PublicationHtml(ref)) == Markup(PublicationHtml(BlankReference(ref)))
  {
    var a, b, c := "<div class=\"embedded-publication\"><a href=\"/press/", "\">", "<span>";
    var d := "</span></a></div>";
    var ref' := BlankReference(ref);
    CoverMarkup(ref);
    EscapedIsFree(ref.slug);
    EscapedIsFree(ref.title);
    EscapedIsFree("");
    SameFrame(a, Escape(ref.slug), Escape(""), b, CoverTag(ref), CoverTag(ref'), c);
    var head, head' := a + Escape(ref.slug) + b + CoverTag(ref) + c, a + Escape("") + b + CoverTag(ref') + c;
    MarkupConcat(head, Escape(ref.title));
    MarkupConcat(head + Escape(ref.title), d);
    MarkupConcat(head', Escape(""));
    MarkupConcat(head' + Escape(""), d);
    assert PublicationHtml(ref) == head + Escape(ref.title) + d;
    assert PublicationHtml(ref') == head' + Escape("") + d;
  }

  lemma VideoMarkup(url: string, caption: Option<string>)
    ensures Markup(VideoHtml(url, caption)) == Markup(VideoHtml("", BlankOption(caption)))
            <==> Truthy(caption) || Markup(url) == ""
  {
    var a, b, c := "<div class=\"video-embed\"><a href=\"", "\" target=\"_blank\" rel=\"noopener noreferrer\">", "</a></div>";
    var x, y := EscapedOr(caption), EscapedOr(BlankOption(caption));
    var shown, shown' := if x != "" then x else url, y;
    BlankCaption(caption);
    EscapedIsFree(url);
    EscapedIsFree("");
    assert VideoHtml(url, caption) == a + Escape(url) + b + shown + c;
    assert VideoHtml("", BlankOption(caption)) == a + Escape("") + b + shown' + c;
    LastTextShows(a, Escape(url), Escape(""), b, shown, shown', c);
  }

  lemma LastTextShows(a: string, x: string, x': string, b: string, y: string, y': string, c: string)
    requires Markup(x) == "" && Markup(x') == "" && Markup(y') == ""
    ensures Markup(a + x + b + y + c) == Markup(a + x' + b + y' + c) <==> Markup(y) == ""
  {
    MarkupOfFive(a, x, b, y, c);
    MarkupOfFive(a, x', b, y', c);
    assert |Markup(a) + Markup(b) + Markup(y) + Markup(c)| == |Markup(a) + Markup(b) + Markup(c)| + |Markup(y)|;
  }

  /**
   * The angle brackets and quotes in a quote, publication, image or video card are those of its template,
   * whatever its texts: exactly unless it is a video without caption whose URL contains one.
   */
  lemma CardTextIsInert(r: Renderer, pub: PublicationMap, data: CardData)
    requires Built(pub, data)
    ensures Built(BlankMap(pub), Blank(data))
    ensures Markup(Html(r, pub, data)) == Markup(Html(r, BlankMap(pub), Blank(data)))
            <==> !(data.VideoData? && !Truthy(data.caption) && exists c <- data.url :: IsMarkup(c))
  {
    match data
    case QuoteData(text) => QuoteMarkup(text);
    case PublicationData(id) => PublicationMarkup(pub[id]);
    case ImageData(url, caption) => ImageMarkup(url, caption);
    case VideoData(url, caption) =>
      VideoMarkup(url, caption);
      MarkupFree(url);
  }

  /** A URL with a pair of brackets shows them as markup. */
  lemma BracketedUrl(r: Renderer, pub: PublicationMap)
    ensures var card := VideoData("https://v.example/<1>", None);
            Built(pub, card) && Built(BlankMap(pub), Blank(card))
            && Markup(Html(r, pub, card)) != Markup(Html(r, BlankMap(pub), Blank(card)))
  {
    var url := "https://v.example/<1>";
    assert url[18] == '<';
    CardTextIsInert(r, pub, VideoData(url, None));
  }

  // ---------------------------------------------------------------- the text of a video link

  lemma {:induction false} SubstituteSame(text: string)
    ensures |Substitute(text)| >= |text|
    ensures Substitute(text) == text <==> forall c <- text :: !IsMarkup(c) && c != '&'
  {
    if text != "" {
      SubstituteSame(text[1..]);
      assert text == [text[0]] + text[1..];
      if !IsMarkup(text[0]) && text[0] != '&' {
        assert Substitute(text)[1..] == Substitute(text[1..]);
      } else {
        assert |Substitute(text)| > |text|;
      }
    }
  }

  function VideoHead(url: string): string {
    "<div class=\"video-embed\"><a href=\"" + Escape(url) + "\" target=\"_blank\" rel=\"noopener noreferrer\">"
  }

  /** The text of a video link is escaped exactly if it is the caption, or a URL that escaping leaves alone. */
  lemma VideoTextEscaped(url: string, caption: Option<string>)
    ensures VideoHtml(url, caption)
            == VideoHead(url) + Escape(if Truthy(caption) then caption.value else url) + "</a></div>"
            <==> Truthy(caption) || forall c <- url :: !IsMarkup(c) && c != '&'
  {
    BlankCaption(caption);
    var shown := if Truthy(caption) then Escape(caption.value) else url;
    assert VideoHtml(url, caption) == VideoHead(url) + shown + "</a></div>";
    if !Truthy(caption) {
      EscapeIsSubstitution(url);
      SubstituteSame(url);
      CancelFrame(VideoHead(url), url, Escape(url), "</a></div>");
    }
  }

  lemma CancelFrame(a: string, x: string, y: string, b: string)
    ensures a + x + b == a + y + b <==> x == y
  {
    if a + x + b == a + y + b {
      assert |x| == |y|;
      assert (a + x + b)[|a|..|a| + |x|] == x;
      assert (a + y + b)[|a|..|a| + |y|] == y;
    }
  }

  /** An ordinary case: an ampersand between two parameters is put into the link text as it is. */
  lemma PlainAmpersand(url: string)
    requires '&' in url
    ensures VideoHtml(url, None) != VideoHead(url) + Escape(url) + "</a></div>"
  {
    VideoTextEscaped(url, None);
  }
}
