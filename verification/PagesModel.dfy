/** What each operation of src/modules/pages/pages.service.ts does to the pages table when it runs whole. */
module PagesModel {
  import opened Common
  import opened Content

  datatype PageOp =
    | CreatePage(slug: string, id: string, name: string)
    | UpdateName(slug: string, name: string)
    | ReplaceSections(slug: string, sections: seq<Section>)
    | PublishPage(slug: string, now: nat)
    | ArchivePage(slug: string)

  datatype PageError =
    | PageNotFound | PageSlugInUse | DuplicateOrders | InvalidSections(indices: seq<nat>)
    | PageAlreadyPublished | DraftNotArchivable | PageAlreadyArchived
    | SerializationConflict   // every attempt of a transaction was aborted

  function Orders(sections: seq<Section>): set<nat> {
    set s | s in sections :: s.order
  }

  /** The positions of the sections whose payload is refused. */
  function Rejected(accepts: Section -> bool, sections: seq<Section>): seq<nat> {
    if sections == [] then []
    else
      var rest := Rejected(accepts, sections[..|sections| - 1]);
      if accepts(sections[|sections| - 1]) then rest else rest + [|sections| - 1]
  }

  function SectionFailure(accepts: Section -> bool, sections: seq<Section>): Option<PageError> {
    if |sections| > 1 && |Orders(sections)| != |sections| then Some(DuplicateOrders)
    else if Rejected(accepts, sections) != [] then Some(InvalidSections(Rejected(accepts, sections)))
    else None
  }

  lemma {:induction false} RejectedExact(accepts: Section -> bool, sections: seq<Section>)
    ensures forall i: nat :: i in Rejected(accepts, sections) <==> i < |sections| && !accepts(sections[i])
  {
    if sections != [] {
      RejectedExact(accepts, sections[..|sections| - 1]);
    }
  }

  predicate DistinctOrders(sections: seq<Section>) {
    forall i, j | 0 <= i < j < |sections| :: sections[i].order != sections[j].order
  }

  lemma {:induction false} OrdersSize(sections: seq<Section>)
    ensures |Orders(sections)| <= |sections|
    ensures |Orders(sections)| == |sections| <==> DistinctOrders(sections)
  {
    if sections != [] {
      var init, last := sections[..|sections| - 1], sections[|sections| - 1];
      OrdersSize(init);
      assert sections == init + [last];
      OrdersAppend(init, last);
    }
  }

  lemma OrdersAppend(init: seq<Section>, last: Section)
    ensures Orders(init + [last]) == Orders(init) + {last.order}
    ensures DistinctOrders(init + [last]) <==> DistinctOrders(init) && last.order !in Orders(init)
  {
    var all := init + [last];
    assert forall s :: s in all <==> s in init || s == last;
    assert forall i | 0 <= i < |init| :: all[i] == init[i] && init[i].order in Orders(init);
    if last.order in Orders(init) {
      var s :| s in init && s.order == last.order;
      var i :| 0 <= i < |init| && init[i] == s;
      assert all[i].order == all[|init|].order;
    }
  }

  /**
   * A section list passes validation exactly when no two sections share an order and every payload is
   * accepted; otherwise a duplicate order is reported first, and then precisely the refused positions.
   */
  lemma SectionsValidated(accepts: Section -> bool, sections: seq<Section>)
    ensures SectionFailure(accepts, sections).None? <==> DistinctOrders(sections) && forall s <- sections :: accepts(s)
    ensures SectionFailure(accepts, sections) == Some(DuplicateOrders) <==> !DistinctOrders(sections)
    ensures forall indices :: SectionFailure(accepts, sections) == Some(InvalidSections(indices)) ==>
              forall i: nat :: i in indices <==> i < |sections| && !accepts(sections[i])
  {
    OrdersSize(sections);
    RejectedExact(accepts, sections);
    if Rejected(accepts, sections) != [] {
      assert Rejected(accepts, sections)[0] in Rejected(accepts, sections);
    }
  }

  /** The error an operation ends with, if any; `accepts` is the payload validation. */
  function PageFailure(accepts: Section -> bool, pages: Pages, op: PageOp): Option<PageError> {
    match op
    case CreatePage(slug, _, _) => if slug in pages then Some(PageSlugInUse) else None
    case UpdateName(slug, _) => if slug in pages then None else Some(PageNotFound)
    case ReplaceSections(slug, sections) =>
      if SectionFailure(accepts, sections).Some? then SectionFailure(accepts, sections)
      else if slug in pages then None else Some(PageNotFound)
    case PublishPage(slug, _) =>
      if slug !in pages then Some(PageNotFound)
      else if pages[slug].status == PUBLISHED then Some(PageAlreadyPublished) else None
    case ArchivePage(slug) =>
      if slug !in pages then Some(PageNotFound)
      else match pages[slug].status
           case PUBLISHED => None
           case DRAFT => Some(DraftNotArchivable)
           case ARCHIVED => Some(PageAlreadyArchived)
  }

  function PageAfter(accepts: Section -> bool, pages: Pages, op: PageOp): PageRow
    requires PageFailure(accepts, pages, op).None?
  {
    match op
    case CreatePage(_, id, name) => PageRow(id, name, DRAFT, None, [])
    case UpdateName(slug, name) => pages[slug].(name := name)
    case ReplaceSections(slug, sections) => pages[slug].(sections := sections)
    case PublishPage(slug, now) => pages[slug].(status := PUBLISHED, publishedAt := Some(now))
    case ArchivePage(slug) => pages[slug].(status := ARCHIVED)
  }

  function PagesAfter(accepts: Section -> bool, pages: Pages, op: PageOp): Pages {
    if PageFailure(accepts, pages, op).Some? then pages else pages[op.slug := PageAfter(accepts, pages, op)]
  }

  // ---------------------------------------------------------------- serializable transactions

  const SERIALIZABLE_RETRY_LIMIT: nat := 5

  /** One attempt: what other transactions commit before it ends, and whether it is aborted. */
  datatype Attempt = Attempt(others: Pages -> Pages, conflict: bool)

  /** The table after what others commit during the first `n` attempts. */
  function Seen(pages: Pages, schedule: seq<Attempt>, n: nat): Pages
    requires n <= |schedule|
  {
    if n == 0 then pages else schedule[n - 1].others(Seen(pages, schedule, n - 1))
  }

  /** Attempt `k` is the first that is not aborted. */
  predicate Commits(schedule: seq<Attempt>, k: nat) {
    k < |schedule| && !schedule[k].conflict && forall i :: 0 <= i < k ==> schedule[i].conflict
  }

  /** Whether the page's cache entry is deleted: after every change a reader could see. */
  predicate InvalidatesPage(accepts: Section -> bool, pages: Pages, op: PageOp) {
    && PageFailure(accepts, pages, op).None?
    && match op
       case CreatePage(_, _, _) => false
       case UpdateName(slug, _) => pages[slug].status == PUBLISHED
       case ReplaceSections(slug, _) => pages[slug].status == PUBLISHED
       case PublishPage(_, _) => true
       case ArchivePage(_) => true
  }

  // ---------------------------------------------------------------- columns

  predicate OthersSame(pages: Pages, pages': Pages, slug: string) {
    pages'.Keys == pages.Keys + {slug} && forall s <- pages :: s != slug ==> pages'[s] == pages[s]
  }

  /** The row an operation leaves, column by column. */
  predicate Left(pages: Pages, row': PageRow, op: PageOp) {
    match op
    case CreatePage(_, id, name) =>
      row'.id == id && row'.name == name && row'.status == DRAFT && row'.publishedAt.None? && row'.sections == []
    case UpdateName(slug, name) =>
      && slug in pages && row'.name == name && row'.id == pages[slug].id && row'.status == pages[slug].status
      && row'.publishedAt == pages[slug].publishedAt && row'.sections == pages[slug].sections
    case ReplaceSections(slug, sections) =>
      && slug in pages && row'.sections == sections && row'.id == pages[slug].id && row'.name == pages[slug].name
      && row'.status == pages[slug].status && row'.publishedAt == pages[slug].publishedAt
    case PublishPage(slug, now) =>
      && slug in pages && row'.status == PUBLISHED && row'.publishedAt == Some(now)
      && row'.id == pages[slug].id && row'.name == pages[slug].name && row'.sections == pages[slug].sections
    case ArchivePage(slug) =>
      && slug in pages && row'.status == ARCHIVED && row'.publishedAt == pages[slug].publishedAt
      && row'.id == pages[slug].id && row'.name == pages[slug].name && row'.sections == pages[slug].sections
  }

  /** When exactly an operation succeeds. */
  predicate Possible(accepts: Section -> bool, pages: Pages, op: PageOp) {
    match op
    case CreatePage(slug, _, _) => slug !in pages
    case UpdateName(slug, _) => slug in pages
    case ReplaceSections(slug, sections) => slug in pages && DistinctOrders(sections) && forall s <- sections :: accepts(s)
    case PublishPage(slug, _) => slug in pages && pages[slug].status != PUBLISHED
    case ArchivePage(slug) => slug in pages && pages[slug].status == PUBLISHED
  }

  /** The error tells which of the conditions fails. */
  ghost predicate Meant(accepts: Section -> bool, pages: Pages, op: PageOp, error: PageError) {
    match error
    case PageNotFound => op.slug !in pages && !op.CreatePage?
    case PageSlugInUse => op.slug in pages && op.CreatePage?
    case DuplicateOrders => op.ReplaceSections? && !DistinctOrders(op.sections)
    case InvalidSections(indices) =>
      && op.ReplaceSections? && indices != []
      && forall i: nat :: i in indices <==> i < |op.sections| && !accepts(op.sections[i])
    case PageAlreadyPublished => op.PublishPage? && op.slug in pages && pages[op.slug].status == PUBLISHED
    case DraftNotArchivable => op.ArchivePage? && op.slug in pages && pages[op.slug].status == DRAFT
    case PageAlreadyArchived => op.ArchivePage? && op.slug in pages && pages[op.slug].status == ARCHIVED
    case SerializationConflict => false
  }

  /**
   * A page operation succeeds exactly when it can, then writes its own columns of its own row, and drops
   * the cached page exactly if readers see the row before or after; otherwise its error is true and
   * nothing changes.
   */
  lemma PageAnswer(accepts: Section -> bool, pages: Pages, op: PageOp)
    ensures var error, pages' := PageFailure(accepts, pages, op), PagesAfter(accepts, pages, op);
            && (error.None? <==> Possible(accepts, pages, op))
            && (error.Some? ==> pages' == pages && Meant(accepts, pages, op, error.value)
                                && !InvalidatesPage(accepts, pages, op))
            && (error.None? ==>
                  && OthersSame(pages, pages', op.slug) && Left(pages, pages'[op.slug], op)
                  && (InvalidatesPage(accepts, pages, op) <==>
                        || (op.slug in pages && pages[op.slug].status == PUBLISHED) || pages'[op.slug].status == PUBLISHED))
  {
    if op.ReplaceSections? {
      SectionsValidated(accepts, op.sections);
      RejectedExact(accepts, op.sections);
    }
  }
}
