/** The content tables: articles, their cards, and pages (prisma/schema.prisma). */
module Content {
  import opened CacheKeys
  import opened Common

  datatype ContentStatus = DRAFT | PUBLISHED | ARCHIVED

  /** A Tiptap document: its top-level nodes, when the `content` array is present, and the rest. */
  datatype Doc = Doc(content: Option<seq<string>>, rest: string)

  datatype CardType = TEXT | QUOTE | PUBLICATION | IMAGE | VIDEO

  /** The payload of a card, already validated for its type. */
  datatype CardData =
    | TextData(body: Doc)
    | QuoteData(text: string)
    | PublicationData(articleId: string)
    | ImageData(url: string, caption: Option<string>)
    | VideoData(url: string, caption: Option<string>)

  function TypeOf(data: CardData): CardType {
    match data
    case TextData(_) => TEXT
    case QuoteData(_) => QUOTE
    case PublicationData(_) => PUBLICATION
    case ImageData(_, _) => IMAGE
    case VideoData(_, _) => VIDEO
  }

  datatype Card = Card(articleId: string, order: nat, data: CardData)

  type Cards = map<string, Card>

  /** What publishing stores: `bodyHtml`, `bodyText` and the nodes of `body`. */
  datatype CompiledBody = CompiledBody(bodyHtml: string, bodyText: string, tiptapBody: seq<string>)

  /** The columns that an update passes through; `rest` stands for excerpts, social data and the like. */
  datatype Fields = Fields(
    title: string, articleType: ArticleType, rubricId: Option<string>, coverImage: Option<string>,
    publicationIndex: int, rest: string)

  datatype Article = Article(
    slug: string, fields: Fields, status: ContentStatus, publishedAt: Option<nat>, deletedAt: Option<nat>,
    body: Option<CompiledBody>, adBannerCode: Option<string>)

  type Articles = map<string, Article>

  datatype Section = Section(kind: string, order: nat, data: string)

  /** A page row with its sections, read in ascending order of `order`. */
  datatype PageRow = PageRow(
    id: string, name: string, status: ContentStatus, publishedAt: Option<nat>, sections: seq<Section>)

  /** Pages by slug, which is unique and never changes. */
  type Pages = map<string, PageRow>

  /** A published, undeleted article. */
  predicate Public(a: Article) {
    a.status == PUBLISHED && a.deletedAt.None?
  }

  /** Slugs of articles are unique. */
  predicate UniqueSlugs(articles: Articles) {
    forall i, j | i in articles && j in articles && articles[i].slug == articles[j].slug :: i == j
  }
}
