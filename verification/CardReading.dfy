/**
 * Reading a published body back: the texts of the cards can be recovered from their HTML parts, and the
 * plain text and the nodes are those of the cards, in order (`compileCards` in
 * src/modules/news/news.service.ts). Rich text cards are rendered from outside.
 */
module CardReading {
  import opened CardCompiler
  import opened CardEscaping
  import opened Common
  import opened Content
  import opened EscapeHtml
  import opened NewsModel
  import opened NewsRuns
  import Text

  // ---------------------------------------------------------------- templates

  /** The text before the first angle bracket or quote. */
  function Lead(s: string): string {
    if s == "" || IsMarkup(s[0]) then "" else [s[0]] + Lead(s[1..])
  }

  lemma LeadIsPrefix(s: string)
    ensures Lead(s) <= s
  {
  }

  /** The unescaped texts found between the fixed strings, if the HTML consists of those and nothing else. */
  function ReadTexts(fixed: seq<string>, html: string): Option<seq<string>>
    requires |fixed| >= 1
    decreases |fixed|
  {
    if !(fixed[0] <= html) then None
    else
      var rest := html[|fixed[0]|..];
      if |fixed| == 1 then if rest == "" then Some([]) else None
      else
        LeadIsPrefix(rest);
        var more := ReadTexts(fixed[1..], rest[|Lead(rest)|..]);
        if more.None? then None else Some([Unescape(Lead(rest))] + more.value)
  }

  /** The fixed strings with the escaped texts between them. */
  function Weave(fixed: seq<string>, texts: seq<string>): string
    requires |fixed| == |texts| + 1
    decreases |texts|
  {
    if texts == [] then fixed[0] else fixed[0] + (Escape(texts[0]) + Weave(fixed[1..], texts[1..]))
  }

  /** Every text is followed by an angle bracket or a quote. */
  predicate Framed(fixed: seq<string>) {
    |fixed| >= 1 && forall i | 1 <= i < |fixed| :: fixed[i] != "" && IsMarkup(fixed[i][0])
  }

  lemma {:induction false} LeadOf(x: string, rest: string)
    requires (forall c <- x :: !IsMarkup(c)) && rest != "" && IsMarkup(rest[0])
    ensures Lead(x + rest) == x
  {
    if x == "" {
      assert x + rest == rest;
    } else {
      assert x[0] in x && (x + rest)[1..] == x[1..] + rest;
      LeadOf(x[1..], rest);
      assert x == [x[0]] + x[1..];
    }
  }

  lemma WeaveStarts(fixed: seq<string>, texts: seq<string>)
    requires |fixed| == |texts| + 1 && fixed[0] != ""
    ensures Weave(fixed, texts) != "" && Weave(fixed, texts)[0] == fixed[0][0]
  {
  }

  lemma EscapedLead(text: string, rest: string)
    requires rest != "" && IsMarkup(rest[0])
    ensures Lead(Escape(text) + rest) == Escape(text) && Unescape(Escape(text)) == text
  {
    EscapeRoundTrip(text);
    LeadOf(Escape(text), rest);
  }

  lemma {:induction false} WeaveReadsBack(fixed: seq<string>, texts: seq<string>)
    requires |fixed| == |texts| + 1 && Framed(fixed)
    ensures ReadTexts(fixed, Weave(fixed, texts)) == Some(texts)
    decreases |texts|
  {
    if texts == [] {
      ReadLast(fixed);
    } else {
      var tail := Weave(fixed[1..], texts[1..]);
      FramedTail(fixed);
      WeaveStarts(fixed[1..], texts[1..]);
      EscapedLead(texts[0], tail);
      WeaveReadsBack(fixed[1..], texts[1..]);
      ReadOne(fixed, Escape(texts[0]), tail);
      assert texts == [texts[0]] + texts[1..];
    }
  }

  lemma FramedTail(fixed: seq<string>)
    requires |fixed| >= 2 && Framed(fixed)
    ensures Framed(fixed[1..]) && fixed[1] != "" && IsMarkup(fixed[1][0])
  {
  }

  lemma ReadLast(fixed: seq<string>)
    requires |fixed| == 1
    ensures ReadTexts(fixed, fixed[0]) == Some([])
  {
    assert fixed[0][|fixed[0]|..] == "";
  }

  lemma ReadOne(fixed: seq<string>, escaped: string, tail: string)
    requires |fixed| >= 2 && Lead(escaped + tail) == escaped
    ensures var more, all := ReadTexts(fixed[1..], tail), ReadTexts(fixed, fixed[0] + (escaped + tail));
            more.Some? ==> all == Some([Unescape(escaped)] + more.value)
  {
    var html := fixed[0] + (escaped + tail);
    assert html[|fixed[0]|..] == escaped + tail;
    assert (escaped + tail)[|escaped|..] == tail;
  }

  lemma WeaveOne(a: string, x: string, b: string)
    ensures Weave([a, b], [x]) == a + Escape(x) + b
  {
    assert [a, b][1..] == [b] && [x][1..] == [];
    assert a + (Escape(x) + b) == a + Escape(x) + b;
  }

  lemma WeaveTwo(a: string, x: string, b: string, y: string, c: string)
    ensures Weave([a, b, c], [x, y]) == a + Escape(x) + b + Escape(y) + c
  {
    assert [a, b, c][1..] == [b, c] && [x, y][1..] == [y];
    WeaveOne(b, y, c);
    var e, f := Escape(x), Escape(y);
    assert a + (e + (b + f + c)) == a + e + b + f + c;
  }

  lemma WeaveThree(a: string, x: string, b: string, y: string, c: string, z: string, d: string)
    ensures Weave([a, b, c, d], [x, y, z]) == a + Escape(x) + b + Escape(y) + c + Escape(z) + d
  {
    assert [a, b, c, d][1..] == [b, c, d] && [x, y, z][1..] == [y, z];
    WeaveTwo(b, y, c, z, d);
    SevenTexts(a, Escape(x), b, Escape(y), c, Escape(z), d);
  }

  lemma SevenTexts(a: string, e: string, b: string, f: string, c: string, g: string, d: string)
    ensures a + (e + (b + f + c + g + d)) == a + e + b + f + c + g + d
  {
  }

  lemma WeaveFour(a: string, x: string, b: string, y: string, c: string, z: string, d: string, u: string, t: string)
    ensures Weave([a, b, c, d, t], [x, y, z, u])
         == a + Escape(x) + b + Escape(y) + c + Escape(z) + d + Escape(u) + t
  {
    assert [a, b, c, d, t][1..] == [b, c, d, t] && [x, y, z, u][1..] == [y, z, u];
    WeaveThree(b, y, c, z, d, u, t);
    NineTexts(a, Escape(x), b, Escape(y), c, Escape(z), d, Escape(u), t);
  }

  lemma NineTexts(a: string, e: string, b: string, f: string, c: string, g: string, d: string, h: string, t: string)
    ensures a + (e + (b + f + c + g + d + h + t)) == a + e + b + f + c + g + d + h + t
  {
  }

  // ---------------------------------------------------------------- the templates of the cards

  function PublicationTemplate(hasCover: bool): (fixed: seq<string>)
    ensures |fixed| == if hasCover then 5 else 3
  {
    if hasCover
    then ["<div class=\"embedded-publication\"><a href=\"/press/", "\"><img src=\"", "\" alt=\"",
          "\" loading=\"lazy\"><span>", "</span></a></div>"]
    else ["<div class=\"embedded-publication\"><a href=\"/press/", "\"><span>", "</span></a></div>"]
  }

  function ImageTemplate(hasCaption: bool): (fixed: seq<string>)
    ensures |fixed| == if hasCaption then 4 else 2
  {
    if hasCaption
    then ["<figure><img src=\"", "\" alt=\"", "\" loading=\"lazy\"><figcaption>", "</figcaption></figure>"]
    else ["<figure><img src=\"", "\" alt=\"\" loading=\"lazy\"></figure>"]
  }

  /** A video without caption repeats its URL as it is. */
  function VideoTemplate(url: string, hasCaption: bool): (fixed: seq<string>)
    ensures |fixed| == if hasCaption then 3 else 2
  {
    if hasCaption
    then ["<div class=\"video-embed\"><a href=\"", "\" target=\"_blank\" rel=\"noopener noreferrer\">", "</a></div>"]
    else ["<div class=\"video-embed\"><a href=\"",
          "\" target=\"_blank\" rel=\"noopener noreferrer\">" + url + "</a></div>"]
  }

  /** The fixed strings of a card's HTML. */
  function Template(pub: PublicationMap, data: CardData): (fixed: seq<string>)
    requires Built(pub, data)
    ensures |fixed| == |Texts(pub, data)| + 1
  {
    match data
    case QuoteData(_) => ["<blockquote><p>", "</p></blockquote>"]
    case PublicationData(id) => PublicationTemplate(Truthy(pub[id].coverImage))
    case ImageData(_, caption) => ImageTemplate(Truthy(caption))
    case VideoData(url, caption) => VideoTemplate(url, Truthy(caption))
  }

  /** The texts a reader finds in a card's HTML. */
  function Texts(pub: PublicationMap, data: CardData): seq<string>
    requires Built(pub, data)
  {
    match data
    case QuoteData(text) => [text]
    case PublicationData(id) =>
      if Truthy(pub[id].coverImage) then [pub[id].slug, pub[id].coverImage.value, pub[id].title, pub[id].title]
      else [pub[id].slug, pub[id].title]
    case ImageData(url, caption) => if Truthy(caption) then [url, caption.value, caption.value] else [url]
    case VideoData(url, caption) => if Truthy(caption) then [url, caption.value] else [url]
  }

  lemma QuoteWoven(text: string)
    ensures "<blockquote><p>" + Escape(text) + "</p></blockquote>" == Weave(["<blockquote><p>", "</p></blockquote>"], [text])
  {
    WeaveOne("<blockquote><p>", text, "</p></blockquote>");
  }

  lemma PublicationPieces(a: string, s: string, b: string, tag: string, c: string, t: string, d: string)
    ensures a + s + b + tag + c + t + d == a + s + (b + tag + c) + t + d
  {
  }

  lemma PublicationWoven(ref: Reference)
    requires !Truthy(ref.coverImage)
    ensures PublicationHtml(ref)
         == Weave(["<div class=\"embedded-publication\"><a href=\"/press/", "\"><span>", "</span></a></div>"],
                  [ref.slug, ref.title])
  {
    var a, d := "<div class=\"embedded-publication\"><a href=\"/press/", "</span></a></div>";
    PublicationPieces(a, Escape(ref.slug), "\">", "", "<span>", Escape(ref.title), d);
    assert "\">" + "" + "<span>" == "\"><span>";
    WeaveTwo(a, ref.slug, "\"><span>", ref.title, d);
  }

  lemma CoverPieces(a: string, s: string, b: string, i: string, cover: string, j: string, alt: string, k: string,
                    c: string, t: string, d: string)
    ensures a + s + b + (i + cover + j + alt + k) + c + t + d
         == a + s + (b + i) + cover + j + alt + (k + c) + t + d
  {
  }

  lemma CoverGlue()
    ensures "\">" + "<img src=\"" == "\"><img src=\""
    ensures "\" loading=\"lazy\">" + "<span>" == "\" loading=\"lazy\"><span>"
  {
  }

  lemma CoverWoven(ref: Reference)
    requires Truthy(ref.coverImage)
    ensures PublicationHtml(ref)
         == Weave(["<div class=\"embedded-publication\"><a href=\"/press/", "\"><img src=\"", "\" alt=\"",
                   "\" loading=\"lazy\"><span>", "</span></a></div>"],
                  [ref.slug, ref.coverImage.value, ref.title, ref.title])
  {
    var a, d := "<div class=\"embedded-publication\"><a href=\"/press/", "</span></a></div>";
    var cover := ref.coverImage.value;
    CoverPieces(a, Escape(ref.slug), "\">", "<img src=\"", Escape(cover), "\" alt=\"", Escape(ref.title),
                "\" loading=\"lazy\">", "<span>", Escape(ref.title), d);
    CoverGlue();
    WeaveFour(a, ref.slug, "\"><img src=\"", cover, "\" alt=\"", ref.title, "\" loading=\"lazy\"><span>", ref.title, d);
  }

  lemma ImagePieces(a: string, u: string, b: string, x: string, c: string, f: string, y: string, g: string, d: string)
    ensures a + u + b + x + c + (f + y + g) + d == a + u + b + x + (c + f) + y + (g + d)
    ensures a + u + b + "" + c + "" + d == a + u + (b + c + d)
  {
  }

  lemma ImageGlue()
    ensures "\" loading=\"lazy\">" + "<figcaption>" == "\" loading=\"lazy\"><figcaption>"
    ensures "</figcaption>" + "</figure>" == "</figcaption></figure>"
  {
  }

  lemma PlainImageGlue()
    ensures "\" alt=\"" + "\" loading=\"lazy\">" + "</figure>" == "\" alt=\"\" loading=\"lazy\"></figure>"
  {
  }

  lemma ImageWoven(url: string, caption: Option<string>)
    requires Truthy(caption)
    ensures ImageHtml(url, caption)
         == Weave(["<figure><img src=\"", "\" alt=\"", "\" loading=\"lazy\"><figcaption>", "</figcaption></figure>"],
                  [url, caption.value, caption.value])
  {
    var a, b, c := "<figure><img src=\"", "\" alt=\"", "\" loading=\"lazy\">";
    EscapeEmpty(caption.value);
    ImagePieces(a, Escape(url), b, Escape(caption.value), c, "<figcaption>", Escape(caption.value), "</figcaption>", "</figure>");
    ImageGlue();
    WeaveThree(a, url, b, caption.value, "\" loading=\"lazy\"><figcaption>", caption.value, "</figcaption></figure>");
  }

  lemma PlainImageWoven(url: string, caption: Option<string>)
    requires !Truthy(caption)
    ensures ImageHtml(url, caption) == Weave(["<figure><img src=\"", "\" alt=\"\" loading=\"lazy\"></figure>"], [url])
  {
    var a, b, c := "<figure><img src=\"", "\" alt=\"", "\" loading=\"lazy\">";
    ImagePieces(a, Escape(url), b, "", c, "", "", "", "</figure>");
    PlainImageGlue();
    WeaveOne(a, url, "\" alt=\"\" loading=\"lazy\"></figure>");
  }

  lemma VideoWoven(url: string, caption: Option<string>)
    requires Truthy(caption)
    ensures VideoHtml(url, caption)
         == Weave(["<div class=\"video-embed\"><a href=\"", "\" target=\"_blank\" rel=\"noopener noreferrer\">", "</a></div>"],
                  [url, caption.value])
  {
    EscapeEmpty(caption.value);
    WeaveTwo("<div class=\"video-embed\"><a href=\"", url, "\" target=\"_blank\" rel=\"noopener noreferrer\">",
             caption.value, "</a></div>");
  }

  lemma PlainVideoPieces(a: string, u: string, b: string, v: string, c: string)
    ensures a + u + b + v + c == a + u + (b + v + c)
  {
  }

  lemma PlainVideoWoven(url: string, caption: Option<string>)
    requires !Truthy(caption)
    ensures VideoHtml(url, caption)
         == Weave(["<div class=\"video-embed\"><a href=\"",
                   "\" target=\"_blank\" rel=\"noopener noreferrer\">" + url + "</a></div>"], [url])
  {
    var a, b, c := "<div class=\"video-embed\"><a href=\"", "\" target=\"_blank\" rel=\"noopener noreferrer\">", "</a></div>";
    PlainVideoPieces(a, Escape(url), b, url, c);
    WeaveOne(a, url, b + url + c);
  }

  lemma PublicationCardWoven(r: Renderer, pub: PublicationMap, data: CardData)
    requires Built(pub, data) && data.PublicationData?
    ensures Html(r, pub, data) == Weave(Template(pub, data), Texts(pub, data))
  {
    if Truthy(pub[data.articleId].coverImage) {
      CoverWoven(pub[data.articleId]);
    } else {
      PublicationWoven(pub[data.articleId]);
    }
  }

  lemma CardWoven(r: Renderer, pub: PublicationMap, data: CardData)
    requires Built(pub, data)
    ensures Html(r, pub, data) == Weave(Template(pub, data), Texts(pub, data))
  {
    match data
    case QuoteData(text) => QuoteWoven(text);
    case PublicationData(_) => PublicationCardWoven(r, pub, data);
    case ImageData(url, caption) =>
      if Truthy(caption) {
        ImageWoven(url, caption);
      } else {
        PlainImageWoven(url, caption);
      }
    case VideoData(url, caption) =>
      if Truthy(caption) {
        VideoWoven(url, caption);
      } else {
        PlainVideoWoven(url, caption);
      }
  }

  lemma TemplatesAreFramed(pub: PublicationMap, data: CardData)
    requires Built(pub, data)
    ensures Framed(Template(pub, data))
  {
    if data.VideoData? {
      StartsWithQuote("\" target=\"_blank\" rel=\"noopener noreferrer\">", data.url, "</a></div>");
    }
  }

  lemma StartsWithQuote(a: string, b: string, c: string)
    requires a != "" && IsMarkup(a[0])
    ensures a + b + c != "" && IsMarkup((a + b + c)[0])
  {
  }

  /**
   * A reader of a card's HTML who knows only the fixed strings gets the card's own texts: the quote; the
   * slug, the title and any cover image of the referenced article; the URL and any caption of an image
   * or a video. Nothing else is in it, save the URL that a video without caption repeats unescaped.
   */
  lemma CardReadsBack(r: Renderer, pub: PublicationMap, data: CardData)
    requires Built(pub, data)
    ensures ReadTexts(Template(pub, data), Html(r, pub, data)) == Some(Texts(pub, data))
  {
    CardWoven(r, pub, data);
    TemplatesAreFramed(pub, data);
    WeaveReadsBack(Template(pub, data), Texts(pub, data));
  }

  // ---------------------------------------------------------------- different texts, different HTML

  lemma WeaveHeads(f: seq<string>, x: seq<string>, g: seq<string>, y: seq<string>)
    requires |f| == |x| + 1 && |g| == |y| + 1 && Framed(f) && Framed(g) && |x| >= 1 && |y| >= 1
    requires f[0] == g[0] && Weave(f, x) == Weave(g, y)
    ensures x[0] == y[0] && Weave(f[1..], x[1..]) == Weave(g[1..], y[1..])
  {
    var s, t := Weave(f[1..], x[1..]), Weave(g[1..], y[1..]);
    WeaveStarts(f[1..], x[1..]);
    WeaveStarts(g[1..], y[1..]);
    EscapedLead(x[0], s);
    EscapedLead(y[0], t);
    CutHead(f[0], Escape(x[0]) + s, Escape(y[0]) + t);
    CutHead(Escape(x[0]), s, t);
  }

  lemma CutHead(a: string, x: string, y: string)
    requires a + x == a + y
    ensures x == y
  {
    assert (a + x)[|a|..] == x && (a + y)[|a|..] == y;
  }

  lemma TextFollows(fixed: seq<string>, text: string)
    requires |fixed| == 3 && |fixed[0]| == 7 && text != ""
    ensures var html := Weave(fixed, [text, text]);
            |html| > 7 && html[7] != '"'
  {
    EscapeEmpty(text);
    EscapeRoundTrip(text);
    assert Escape(text)[0] in Escape(text);
    assert Weave(fixed, [text, text])[7] == Escape(text)[0];
  }

  /** The place of the alternative text tells an image with caption from one without. */
  lemma CaptionTells(url: string, caption: string, url': string)
    requires caption != ""
    ensures Weave(["<figure><img src=\"", "\" alt=\"", "\" loading=\"lazy\"><figcaption>", "</figcaption></figure>"],
                  [url, caption, caption])
         != Weave(["<figure><img src=\"", "\" alt=\"\" loading=\"lazy\"></figure>"], [url'])
  {
    var f := ["<figure><img src=\"", "\" alt=\"", "\" loading=\"lazy\"><figcaption>", "</figcaption></figure>"];
    var g := ["<figure><img src=\"", "\" alt=\"\" loading=\"lazy\"></figure>"];
    assert [url'][1..] == [] && [url, caption, caption][1..] == [caption, caption];
    TextFollows(f[1..], caption);
    assert Weave(g[1..], [])[7] == '"';
    if Weave(f, [url, caption, caption]) == Weave(g, [url']) {
      WeaveHeads(f, [url, caption, caption], g, [url']);
    }
  }

  lemma CoverTells(x: seq<string>, y: seq<string>)
    requires |x| == 4 && |y| == 2
    ensures Weave(["<div class=\"embedded-publication\"><a href=\"/press/", "\"><img src=\"", "\" alt=\"",
                   "\" loading=\"lazy\"><span>", "</span></a></div>"], x)
         != Weave(["<div class=\"embedded-publication\"><a href=\"/press/", "\"><span>", "</span></a></div>"], y)
  {
    var f := ["<div class=\"embedded-publication\"><a href=\"/press/", "\"><img src=\"", "\" alt=\"",
              "\" loading=\"lazy\"><span>", "</span></a></div>"];
    var g := ["<div class=\"embedded-publication\"><a href=\"/press/", "\"><span>", "</span></a></div>"];
    assert Weave(f[1..], x[1..])[3] == 'i';
    assert Weave(g[1..], y[1..])[3] == 's';
    if Weave(f, x) == Weave(g, y) {
      WeaveHeads(f, x, g, y);
    }
  }

  /**
   * Two cards of one type with the same HTML have the same texts. Videos are compared with a caption
   * both or without both, since the URL of one may be the caption of the other.
   */
  lemma SameHtmlSameTexts(r: Renderer, pub: PublicationMap, data: CardData, data': CardData)
    requires Built(pub, data) && Built(pub, data') && TypeOf(data) == TypeOf(data')
    requires data.VideoData? ==> (Truthy(data.caption) <==> Truthy(data'.caption))
    requires Html(r, pub, data) == Html(r, pub, data')
    ensures Texts(pub, data) == Texts(pub, data')
  {
    CardWoven(r, pub, data);
    CardWoven(r, pub, data');
    TellApart(pub, data, data');
    CardReadsBack(r, pub, data);
    CardReadsBack(r, pub, data');
    if data.VideoData? {
      TemplatesAreFramed(pub, data);
      TemplatesAreFramed(pub, data');
      WeaveHeads(Template(pub, data), Texts(pub, data), Template(pub, data'), Texts(pub, data'));
    }
  }

  lemma TellApart(pub: PublicationMap, data: CardData, data': CardData)
    requires Built(pub, data) && Built(pub, data') && TypeOf(data) == TypeOf(data')
    requires Weave(Template(pub, data), Texts(pub, data)) == Weave(Template(pub, data'), Texts(pub, data'))
    ensures !data.VideoData? ==> Template(pub, data) == Template(pub, data')
  {
    match data
    case QuoteData(_) =>
    case PublicationData(id) =>
      if Truthy(pub[id].coverImage) && !Truthy(pub[data'.articleId].coverImage) {
        CoverTells(Texts(pub, data), Texts(pub, data'));
      } else if !Truthy(pub[id].coverImage) && Truthy(pub[data'.articleId].coverImage) {
        CoverTells(Texts(pub, data'), Texts(pub, data));
      }
    case ImageData(url, caption) =>
      if Truthy(caption) && !Truthy(data'.caption) {
        CaptionTells(url, caption.value, data'.url);
      } else if !Truthy(caption) && Truthy(data'.caption) {
        CaptionTells(data'.url, data'.caption.value, url);
      }
    case VideoData(_, _) =>
  }

  // ---------------------------------------------------------------- the whole body

  /** The words a card adds to the plain text. */
  function Words(r: Renderer, pub: PublicationMap, data: CardData): Option<string> {
    match data
    case TextData(body) => Some(r.text(body))
    case QuoteData(text) => Some(text)
    case PublicationData(id) => if id in pub then Some(pub[id].title) else None
    case ImageData(_, caption) => if caption.Some? && caption.value != "" then caption else None
    case VideoData(_, caption) => if caption.Some? && caption.value != "" then caption else None
  }

  function Spoken(r: Renderer, pub: PublicationMap, cards: seq<CardData>): seq<string> {
    if cards == [] then []
    else
      var words := Words(r, pub, cards[0]);
      (if words.Some? then [words.value] else []) + Spoken(r, pub, cards[1..])
  }

  /** The top-level nodes of the text cards. */
  function Nodes(cards: seq<CardData>): seq<string> {
    if cards == [] then []
    else if cards[0].TextData? && cards[0].body.content.Some? then cards[0].body.content.value + Nodes(cards[1..])
    else Nodes(cards[1..])
  }

  lemma CardSays(r: Renderer, pub: PublicationMap, data: CardData)
    ensures CardParts(r, pub, data).text == (if Words(r, pub, data).Some? then [Words(r, pub, data).value] else [])
    ensures CardParts(r, pub, data).nodes == if data.TextData? then data.body.content.GetOr([]) else []
  {
  }

  lemma {:induction false} CardsSay(r: Renderer, pub: PublicationMap, cards: seq<CardData>)
    ensures AllParts(r, pub, cards).text == Spoken(r, pub, cards) && AllParts(r, pub, cards).nodes == Nodes(cards)
  {
    if cards != [] {
      CardSays(r, pub, cards[0]);
      CardsSay(r, pub, cards[1..]);
    }
  }

  /** One card's HTML says what the card says. */
  predicate Shows(r: Renderer, pub: PublicationMap, data: CardData, html: string) {
    if data.TextData? then html == r.html(data.body)
    else Built(pub, data) && ReadTexts(Template(pub, data), html) == Some(Texts(pub, data))
  }

  /** A body made of one readable part per card, the words of the cards, and the nodes of the text cards. */
  ghost predicate BodyShows(r: Renderer, pub: PublicationMap, cards: seq<CardData>, body: CompiledBody) {
    && body.bodyText == Text.Join(Spoken(r, pub, cards), "\n\n")
    && body.tiptapBody == Nodes(cards)
    && exists parts: seq<string> | |parts| == |cards| ::
         && body.bodyHtml == Text.Join(parts, "\n")
         && forall i :: 0 <= i < |cards| ==> Shows(r, pub, cards[i], parts[i])
  }

  /** With a complete map, all that the cards say can be read in the compiled body. */
  lemma CompiledBodyShows(r: Renderer, pub: PublicationMap, cards: seq<CardData>)
    requires References(cards) <= pub.Keys
    ensures BodyShows(r, pub, cards, Compile(r, pub, cards))
  {
    CardsSay(r, pub, cards);
    OnePartPerCard(r, pub, cards);
    var parts := AllParts(r, pub, cards).html;
    forall i | 0 <= i < |cards| ensures Shows(r, pub, cards[i], parts[i]) {
      PartShows(r, pub, cards, cards[i], parts[i]);
    }
  }

  lemma PartShows(r: Renderer, pub: PublicationMap, cards: seq<CardData>, data: CardData, part: string)
    requires References(cards) <= pub.Keys && data in cards && CardParts(r, pub, data).html == [part]
    ensures Shows(r, pub, data, part)
  {
    if !data.TextData? {
      assert data.PublicationData? ==> data.articleId in References(cards);
      CardReadsBack(r, pub, data);
    }
  }

  /** Over every run, the body of a published article shows what its cards say now. */
  lemma PublishedBodyShows(env: Env, w: World, ops: seq<Op>, id: string)
    requires BodiesWell(env, w) && FreshRun(env, w.db, ops)
    requires id in RunWorld(env, w, ops).db.articles && RunWorld(env, w, ops).db.articles[id].status == PUBLISHED
    ensures var w' := RunWorld(env, w, ops);
            && id in w'.captured && w'.db.articles[id].body.Some?
            && BodyShows(env.renderer, w'.captured[id], Payloads(w'.db.cards, id), w'.db.articles[id].body.value)
  {
    PublishedBodiesMatchCards(env, w, ops);
    var w' := RunWorld(env, w, ops);
    assert BodyWell(env, w', id);
    CompiledBodyShows(env.renderer, w'.captured[id], Payloads(w'.db.cards, id));
  }
}
