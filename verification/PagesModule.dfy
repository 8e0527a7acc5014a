/** Page editing and publishing (src/modules/pages/pages.service.ts). */
module PagesModule {
  import opened CacheKeys
  import opened Common
  import opened Content
  import opened PagesModel
  import opened PublicModel
  import opened PublicModule

  class PagesService {
    const db: Database
    const publicService: PublicService
    /** Whether a section's payload matches the schema of its type. */
    const accepts: Section -> bool

    constructor (db: Database, publicService: PublicService, accepts: Section -> bool)
      ensures this.db == db && this.publicService == publicService && this.accepts == accepts
    {
      this.db, this.publicService, this.accepts := db, publicService, accepts;
    }

    /** The operation's error, its effect on the table, and the one cache entry it may delete. */
    ghost predicate Performed(op: PageOp, error: Option<PageError>, pages: Pages, pages': Pages, redis: Store, redis': Store) {
      && error == PageFailure(accepts, pages, op)
      && pages' == PagesAfter(accepts, pages, op)
      && redis' == if InvalidatesPage(accepts, pages, op) then redis - {PageKey(op.slug)} else redis
    }

    method Create(slug: string, id: string, name: string) returns (error: Option<PageError>)
      modifies db`pages
      ensures Performed(CreatePage(slug, id, name), error, old(db.pages), db.pages, old(publicService.redis), publicService.redis)
    {
      if slug in db.pages {
        return Some(PageSlugInUse);
      }
      db.pages := db.pages[slug := PageRow(id, name, DRAFT, None, [])];
      error := None;
    }

    method UpdateName(slug: string, name: string) returns (error: Option<PageError>)
      modifies db`pages, publicService
      ensures Performed(PageOp.UpdateName(slug, name), error, old(db.pages), db.pages, old(publicService.redis), publicService.redis)
    {
      if slug !in db.pages {
        return Some(PageNotFound);
      }
      var existing := db.pages[slug];
      db.pages := db.pages[slug := existing.(name := name)];
      if existing.status == PUBLISHED {
        publicService.InvalidatePage(slug);
      }
      error := None;
    }

    /** The first of the two checks that fails, with the positions of all refused payloads. */
    method ValidateSectionData(sections: seq<Section>) returns (error: Option<PageError>)
      ensures error == SectionFailure(accepts, sections)
    {
      if |sections| > 1 && |Orders(sections)| != |sections| {
        return Some(DuplicateOrders);
      }
      var errors := [];
      for i := 0 to |sections|
        invariant errors == Rejected(accepts, sections[..i])
      {
        assert sections[..i + 1][..i] == sections[..i];
        if !accepts(sections[i]) {
          errors := errors + [i];
        }
      }
      assert sections[..|sections|] == sections;
      error := if |errors| > 0 then Some(InvalidSections(errors)) else None;
    }

    /** The transaction of a replacement, on the rows as they are when it commits, and the invalidation. */
    method ReplaceAll(slug: string, sections: seq<Section>) returns (error: Option<PageError>)
      requires SectionFailure(accepts, sections).None?
      modifies db`pages, publicService
      ensures Performed(PageOp.ReplaceSections(slug, sections), error, old(db.pages), db.pages,
                        old(publicService.redis), publicService.redis)
    {
      if slug !in db.pages {
        return Some(PageNotFound);
      }
      var existingPage := db.pages[slug];
      db.pages := db.pages[slug := existingPage.(sections := [])];
      if |sections| > 0 {
        db.pages := db.pages[slug := db.pages[slug].(sections := sections)];
      }
      if existingPage.status == PUBLISHED {
        publicService.InvalidatePage(slug);
      }
      error := None;
    }

    /**
     * Replaces all sections, in at most five attempts against any schedule of other transactions and
     * aborts. Refused payloads never reach the table; otherwise the operation takes effect once, on
     * the rows the first attempt that is not aborted sees, or never.
     */
    method ReplaceSections(slug: string, sections: seq<Section>, schedule: seq<Attempt>) returns (error: Option<PageError>)
      requires |schedule| == SERIALIZABLE_RETRY_LIMIT
      modifies db`pages, publicService
      ensures SectionFailure(accepts, sections).Some? ==>
                error == SectionFailure(accepts, sections)
                && db.pages == old(db.pages) && publicService.redis == old(publicService.redis)
      ensures SectionFailure(accepts, sections).None? ==>
                forall k: nat :: Commits(schedule, k) ==>
                  Performed(PageOp.ReplaceSections(slug, sections), error, Seen(old(db.pages), schedule, k + 1), db.pages,
                            old(publicService.redis), publicService.redis)
      ensures SectionFailure(accepts, sections).None? && (forall k: nat :: !Commits(schedule, k)) ==>
                error == Some(SerializationConflict) && db.pages == Seen(old(db.pages), schedule, |schedule|)
                && publicService.redis == old(publicService.redis)
    {
      error := ValidateSectionData(sections);
      if error.Some? {
        return;
      }
      var attempt := 1;
      while attempt <= SERIALIZABLE_RETRY_LIMIT
        invariant 1 <= attempt <= SERIALIZABLE_RETRY_LIMIT + 1
        invariant forall i :: 0 <= i < attempt - 1 ==> schedule[i].conflict
        invariant db.pages == Seen(old(db.pages), schedule, attempt - 1)
        invariant publicService.redis == old(publicService.redis)
      {
        db.pages := schedule[attempt - 1].others(db.pages);
        if !schedule[attempt - 1].conflict {
          assert Commits(schedule, attempt - 1);
          error := ReplaceAll(slug, sections);
          return;
        }
        attempt := attempt + 1;
      }
      error := Some(SerializationConflict);
    }

    method Publish(slug: string, now: nat) returns (error: Option<PageError>)
      modifies db`pages, publicService
      ensures Performed(PublishPage(slug, now), error, old(db.pages), db.pages, old(publicService.redis), publicService.redis)
    {
      if slug !in db.pages {
        return Some(PageNotFound);
      }
      if db.pages[slug].status == PUBLISHED {
        return Some(PageAlreadyPublished);
      }
      db.pages := db.pages[slug := db.pages[slug].(status := PUBLISHED, publishedAt := Some(now))];
      publicService.InvalidatePage(slug);
      error := None;
    }

    method Archive(slug: string) returns (error: Option<PageError>)
      modifies db`pages, publicService
      ensures Performed(ArchivePage(slug), error, old(db.pages), db.pages, old(publicService.redis), publicService.redis)
    {
      if slug !in db.pages {
        return Some(PageNotFound);
      }
      if db.pages[slug].status != PUBLISHED {
        return Some(if db.pages[slug].status == DRAFT then DraftNotArchivable else PageAlreadyArchived);
      }
      db.pages := db.pages[slug := db.pages[slug].(status := ARCHIVED)];
      publicService.InvalidatePage(slug);
      error := None;
    }
  }
}
