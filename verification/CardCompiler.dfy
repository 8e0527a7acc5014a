/** Compiling cards into an article body (`compileCards`, `buildPublicationMap` in src/modules/news/news.service.ts). */
module CardCompiler {
  import opened Common
  import opened Content
  import opened EscapeHtml
  import Text

  /** Tiptap rendering, from outside: a document's sanitized HTML and its plain text. */
  datatype Renderer = Renderer(html: Doc -> string, text: Doc -> string)

  datatype Reference = Reference(title: string, coverImage: Option<string>, slug: string)

  type PublicationMap = map<string, Reference>

  predicate Truthy(s: Option<string>) {
    s.Some? && s.value != ""
  }

  function EscapedOr(s: Option<string>): string {
    if Truthy(s) then Escape(s.value) else ""
  }

  function PublicationHtml(ref: Reference): string {
    var imgTag := if Truthy(ref.coverImage)
                  then "<img src=\"" + Escape(ref.coverImage.value) + "\" alt=\"" + Escape(ref.title) + "\" loading=\"lazy\">"
                  else "";
    "<div class=\"embedded-publication\"><a href=\"/press/" + Escape(ref.slug) + "\">" + imgTag
    + "<span>" + Escape(ref.title) + "</span></a></div>"
  }

  function ImageHtml(url: string, caption: Option<string>): string {
    var escaped := EscapedOr(caption);
    "<figure><img src=\"" + Escape(url) + "\" alt=\"" + escaped + "\" loading=\"lazy\">"
    + (if escaped != "" then "<figcaption>" + escaped + "</figcaption>" else "") + "</figure>"
  }

  function VideoHtml(url: string, caption: Option<string>): string {
    var escaped := EscapedOr(caption);
    "<div class=\"video-embed\"><a href=\"" + Escape(url) + "\" target=\"_blank\" rel=\"noopener noreferrer\">"
    + (if escaped != "" then escaped else url) + "</a></div>"
  }

  /** The HTML parts, text parts and Tiptap nodes one card contributes. */
  datatype Parts = Parts(html: seq<string>, text: seq<string>, nodes: seq<string>)

  const NO_PARTS: Parts := Parts([], [], [])

  function CardParts(r: Renderer, pub: PublicationMap, data: CardData): Parts {
    match data
    case TextData(body) => Parts([r.html(body)], [r.text(body)], body.content.GetOr([]))
    case QuoteData(text) => Parts(["<blockquote><p>" + Escape(text) + "</p></blockquote>"], [text], [])
    case PublicationData(id) =>
      if id in pub then Parts([PublicationHtml(pub[id])], [pub[id].title], []) else NO_PARTS
    case ImageData(url, caption) =>
      Parts([ImageHtml(url, caption)], if Truthy(caption) then [caption.value] else [], [])
    case VideoData(url, caption) =>
      Parts([VideoHtml(url, caption)], if Truthy(caption) then [caption.value] else [], [])
  }

  function Append(a: Parts, b: Parts): Parts {
    Parts(a.html + b.html, a.text + b.text, a.nodes + b.nodes)
  }

  function AllParts(r: Renderer, pub: PublicationMap, cards: seq<CardData>): Parts {
    if cards == [] then NO_PARTS
    else Append(CardParts(r, pub, cards[0]), AllParts(r, pub, cards[1..]))
  }

  function Compile(r: Renderer, pub: PublicationMap, cards: seq<CardData>): CompiledBody {
    var parts := AllParts(r, pub, cards);
    CompiledBody(Text.Join(parts.html, "\n"), Text.Join(parts.text, "\n\n"), parts.nodes)
  }

  method CompileCards(r: Renderer, pub: PublicationMap, cards: seq<CardData>) returns (body: CompiledBody)
    ensures body == Compile(r, pub, cards)
  {
    var htmlParts, textParts, tiptapContent := [], [], [];
    for i := 0 to |cards|
      invariant Parts(htmlParts, textParts, tiptapContent) == AllParts(r, pub, cards[..i])
    {
      AllPartsSnoc(r, pub, cards, i);
      match cards[i] {
        case TextData(doc) =>
          htmlParts := htmlParts + [r.html(doc)];
          textParts := textParts + [r.text(doc)];
          if doc.content.Some? {
            tiptapContent := tiptapContent + doc.content.value;
          }
        case QuoteData(text) =>
          htmlParts := htmlParts + ["<blockquote><p>" + Escape(text) + "</p></blockquote>"];
          textParts := textParts + [text];
        case PublicationData(id) =>
          if id in pub {
            htmlParts := htmlParts + [PublicationHtml(pub[id])];
            textParts := textParts + [pub[id].title];
          }
        case ImageData(url, caption) =>
          htmlParts := htmlParts + [ImageHtml(url, caption)];
          if Truthy(caption) {
            textParts := textParts + [caption.value];
          }
        case VideoData(url, caption) =>
          htmlParts := htmlParts + [VideoHtml(url, caption)];
          if Truthy(caption) {
            textParts := textParts + [caption.value];
          }
      }
    }
    assert cards[..|cards|] == cards;
    body := CompiledBody(Text.Join(htmlParts, "\n"), Text.Join(textParts, "\n\n"), tiptapContent);
  }

  lemma AppendAssociative(a: Parts, b: Parts, c: Parts)
    ensures Append(Append(a, b), c) == Append(a, Append(b, c))
  {
  }

  lemma AllPartsCons(r: Renderer, pub: PublicationMap, card: CardData, rest: seq<CardData>)
    ensures AllParts(r, pub, [card] + rest) == Append(CardParts(r, pub, card), AllParts(r, pub, rest))
  {
    assert ([card] + rest)[1..] == rest;
  }

  /** The parts of a concatenation are the concatenated parts: compilation looks at one card at a time. */
  lemma {:induction false} AllPartsConcat(r: Renderer, pub: PublicationMap, a: seq<CardData>, b: seq<CardData>)
    ensures AllParts(r, pub, a + b) == Append(AllParts(r, pub, a), AllParts(r, pub, b))
  {
    var pa, pb := AllParts(r, pub, a), AllParts(r, pub, b);
    if a == [] {
      assert a + b == b;
      assert Append(pa, pb) == pb;
    } else {
      var first, rest := CardParts(r, pub, a[0]), AllParts(r, pub, a[1..]);
      assert a == [a[0]] + a[1..];
      assert a + b == [a[0]] + (a[1..] + b);
      AllPartsCons(r, pub, a[0], a[1..]);
      AllPartsCons(r, pub, a[0], a[1..] + b);
      AllPartsConcat(r, pub, a[1..], b);
      AppendAssociative(first, rest, pb);
    }
  }

  lemma AllPartsSnoc(r: Renderer, pub: PublicationMap, cards: seq<CardData>, i: nat)
    requires i < |cards|
    ensures AllParts(r, pub, cards[..i + 1]) == Append(AllParts(r, pub, cards[..i]), CardParts(r, pub, cards[i]))
  {
    assert cards[..i + 1] == cards[..i] + [cards[i]];
    AllPartsConcat(r, pub, cards[..i], [cards[i]]);
    assert [cards[i]][1..] == [];
    assert AllParts(r, pub, [cards[i]]) == Append(CardParts(r, pub, cards[i]), NO_PARTS);
  }

  // ---------------------------------------------------------------- publication references

  function References(cards: seq<CardData>): set<string> {
    set c | c in cards && c.PublicationData? :: c.articleId
  }

  /** The query behind the map: referenced articles that are published and not deleted. */
  function Available(articles: Articles, ids: set<string>): set<string> {
    set id | id in ids && id in articles && Public(articles[id])
  }

  function ReferenceTo(a: Article): Reference {
    Reference(a.fields.title, a.fields.coverImage, a.slug)
  }

  /** `buildPublicationMap`; the error carries the ids that were not found. */
  function BuildPublicationMap(articles: Articles, cards: seq<CardData>): Result<PublicationMap, set<string>> {
    var ids := References(cards);
    var found := Available(articles, ids);
    if |found| != |ids| then Err(ids - found)
    else Ok(map id | id in found :: ReferenceTo(articles[id]))
  }

  /**
   * The length comparison succeeds exactly when every referenced article is published and undeleted;
   * the map then covers all references, and otherwise the error names precisely the missing ones.
   */
  lemma PublicationMapComplete(articles: Articles, cards: seq<CardData>)
    ensures var r := BuildPublicationMap(articles, cards);
            && (r.Ok? <==> forall id <- References(cards) :: id in articles && Public(articles[id]))
            && (r.Ok? ==> r.value.Keys == References(cards)
                          && forall id <- r.value ::
                               && r.value[id].title == articles[id].fields.title
                               && r.value[id].coverImage == articles[id].fields.coverImage
                               && r.value[id].slug == articles[id].slug)
            && (r.Err? ==> r.error != {}
                           && forall id :: id in r.error <==>
                                id in References(cards) && !(id in articles && Public(articles[id])))
  {
    var ids := References(cards);
    var found := Available(articles, ids);
    assert |ids| == |found| + |ids - found| by {
      assert ids == found + (ids - found);
    }
    if |found| == |ids| {
      assert ids - found == {};
      assert forall id <- ids :: id in found;
    }
  }

  lemma OnePart(r: Renderer, pub: PublicationMap, card: CardData)
    requires card.PublicationData? ==> card.articleId in pub
    ensures |CardParts(r, pub, card).html| == 1
  {
  }

  /** With a complete map every card yields exactly one HTML part, in order. */
  lemma {:induction false} OnePartPerCard(r: Renderer, pub: PublicationMap, cards: seq<CardData>)
    requires References(cards) <= pub.Keys
    ensures |AllParts(r, pub, cards).html| == |cards|
    ensures forall i :: 0 <= i < |cards| ==> CardParts(r, pub, cards[i]).html == [AllParts(r, pub, cards).html[i]]
  {
    if cards != [] {
      assert cards[0].PublicationData? ==> cards[0].articleId in References(cards);
      assert References(cards[1..]) <= References(cards);
      OnePartPerCard(r, pub, cards[1..]);
      OnePart(r, pub, cards[0]);
      var rest := AllParts(r, pub, cards[1..]).html;
      assert AllParts(r, pub, cards).html == CardParts(r, pub, cards[0]).html + rest;
      assert forall i | 0 < i < |cards| :: cards[i] == cards[1..][i - 1];
    }
  }
}
