# Verification of the content backend's stateful protocols

A Dafny model of the parts of the backend whose correctness depends on state that several requests share:
the Redis cache of the public API, refresh-token families, the rate limiter, article cards and the content
lifecycle, and the rule that a super admin always remains. To check all files, use `dafny verify dfyconfig.toml`.

## How the system is modelled

**Time and Redis.** One clock in milliseconds; a key is gone as soon as the clock reaches its expiry
(`Redis.dfy`). Keyspaces are maps indexed by what a key stands for; that two different meanings never render to
the same string is proved (`CacheKeys.RenderInjective`, `TokenKeys.KeysInjective`). The rate limiter keeps real
key strings.

**Two granularities.** Whole operations as steps: `TokenService`, `NewsModel` and `NewsRuns`, `CacheAgreement`,
`NullDates`, `Users`, `Throttler` (its Lua script is atomic by itself). One Redis command or SQL statement as a step, in any
interleaving: `ListFreshness`, `Staleness`, `TokenInterleaving` and `FamilyCoverage`, `Lifecycle`; publishes step by
step among whole operations: `PublishRace`.

**Objects.** The source's services are classes whose methods change fields step by step: `PublicService` with
`Database` (`PublicModule.dfy`), `NewsService`, `PagesService`, `TokenService` and `AuthService`, `UsersService`,
`RedisThrottlerStorage`. Each method is proved equal to a function of the old state (`FindPage`, `Perform`,
`PagesAfter`, `Rotated`, `Apply`, `Eval`, ...), and the theorems are about runs of those functions.

**What a caller sees.** Those functions are in turn measured against statements that use none of them: the columns
of the tables, the calls made so far, or the text of the answer. `ListPages` says which articles a list page holds,
`ReadAnswers` what the other reads answer and how long they keep it, `NewsAnswers`, `PagesModel.PageAnswer` and the
row lemmas of `Users` when exactly an operation succeeds, what it writes and what its error means,
`ThrottlerAnswers` what the rate limiter replies, `CardContents` what the cards hold after any run, `CardReading`
what can be read back from a published body, and `SlugWords` of which words a slug is made.

**The database.** Committed serializable transactions are taken to have a serial order; a guarded single-row
UPDATE is one atomic step. The bulk UPDATE of card orders assigns all rows at once and is checked against the
unique index on (articleId, order) in its final state.

**From outside.** Payload validation, Tiptap rendering, `toLowerCase`, generated ids, random suffixes, the time,
the order of a list query, and whether a transaction is aborted are parameters of the theorems. `ListPages` needs of
the order only that it lists every row once and, for `PagesAreOrdered`, that it obeys the ORDER BY.

## Where the code and its documentation or comments differ

The model follows the code.

- Generated and given slugs may have up to 200 characters, but the public route accepts at most 100
  (`src/common/pipes/parse-slug.pipe.ts:4`): an article can be fetched by its slug exactly when the slug it is
  stored under, numbered or suffixed if taken, has at most 100 characters (`Slugify.StoredSlugReachable`; failing
  inputs in `Slugify.LongTitleIsUnreachable` and `Slugify.TakenSlugIsUnreachable`).
- After a rename of a published article the new slug needs "no extra invalidation"
  (`src/modules/news/news.service.ts:544`): cached and uncached detail reads differ exactly while a not-found mark
  is cached that such a rename has overtaken (`CacheAgreement.CachedDetailsAgree`); left alone, it lasts from the
  rename until the mark's 30 s are over (`CacheAgreement.RenameCanLag`).
- A page archive that is refused says "already archived" from a second read: the answer is wrong exactly when the
  page was an undated draft and a publish of it was committed in between (`Lifecycle.ArchiveAnswerExact`; a failing
  run in `Lifecycle.ArchiveErrorCanMislead`).
- Row mappers call `toISOString` on a publication date they take to be set
  (`src/modules/public/public.service.ts:143-144`); `update` can set it to null on a published article
  (`src/modules/news/news.service.ts:513-515`). A published article lacks a date exactly when its last dating
  operation was such an update (`NullDates.NullDateExactly`); its detail and every list page it falls on then
  throw, cached or not (`NullDates.DetailCrashExactly`, `NullDates.ListCrashExactly`); pages never do.
- Deleting a page's or an article's cache key does not by itself make later reads fresh: they all answer from table
  state `n` or a later one if and only if, at the deletion, no reader that queried an earlier state can still fill
  the cache (`Staleness.FreshAfterInvalidation`). Otherwise an old answer can be given for the reader's delay plus
  the entry's life, and never longer (`Staleness.BoundedStaleness`, sharp by `Staleness.SlowReaderRefills`).
- `revokeFamily` is described as revoking all active tokens of a family. Undisturbed, it deletes exactly the tokens
  listed in the active set (`FamilyCoverage.RevocationExact`); a live token is listed unless the set was deleted or
  expired since it was told of it (`FamilyCoverage.ListedExactly`). A rotation between a revocation's read and its
  deletions leaves a live, unlisted token with nothing in flight (`FamilyCoverage.RevocationMisses`).
- The link text of a video without caption is its URL unescaped (`src/modules/news/news.service.ts:349`), although
  the compiler escapes all other text: it equals the escaped text exactly for URLs without `&`, quotes and angle
  brackets (`CardEscaping.VideoTextEscaped`).
- A window and block of 0 seconds end the rate limiter's script in an error once the limit is exceeded
  (`src/common/throttler-storage.ts:45-47`; `Throttler.ZeroWindowFails`). The application configures positive windows
  only (`src/app.module.ts:94-97`), with which it never fails (`Throttler.PositiveWindowNeverFails`), so only a
  direct call of `increment` reaches this.

## Model

| member | source | states |
|---|---|---|
| ListFreshness.FreshAfterIncrement | src/modules/public/public.service.ts:224-277 | Under every interleaving of readers, writers and other cache traffic, a reader that reads the version counter after a writer's INCR answers with rows and a total each read from a table state at or after that writer's write; never not-found, never a value of another kind |
| ListFreshness.StepKeepsInv | src/modules/public/public.service.ts:229-273 | Every single command keeps: an entry stored under version v was computed from database reads made after the counter reached v |
| ListFreshness.AfterReadingVersion | src/modules/public/public.service.ts:229-276 | Whatever a reader answers, hit or miss, dates from reads made no earlier than the moment the counter reached the version it read |
| ListFreshness.TooEarlyIsStale | src/modules/public/public.service.ts:338-357 | Reading the counter after the write but before the INCR is not enough: for any two contents of which the first yields a list without error, a run exists in which such a reader gets the old list |
| CacheAgreement.CachedPagesAgree | src/modules/public/public.service.ts:181-220 | After any run of whole operations, at any later moment, a cached page read equals the uncached query, not-found and errors included |
| CacheAgreement.CachedListsAgree | src/modules/public/public.service.ts:224-277 | After any run a cached list read equals the uncached query, for every query |
| CacheAgreement.CachedDetailsAgree | src/modules/public/public.service.ts:281-320 | After any run a cached detail read equals the uncached query if and only if no live not-found mark is cached that a rename to its slug has overtaken (and no invalidation of the slug removed); while one is, the answer is not-found, less than 30 s after the rename |
| CacheAgreement.RenameCanLag | src/modules/news/news.service.ts:539-545 | For every published article, unused slug, and times: after a failed lookup and a later rename to that slug, reads answer not-found exactly until the lookup's 30 s are over and then as the query, which finds the article throughout |
| CacheAgreement.StepKeepsInv | src/modules/public/public.service.ts:328-357 | Every read, news or page operation, damaged entry and passing of time keeps each live cache entry equal to what the query returns now, apart from lagging not-found marks |
| CacheKeys.RenderInjective | src/modules/public/public.service.ts:28-42 | Rendered cache keys are equal only for the same kind of key with the same slug or the same version, page, page size, type and rubric |
| CacheKeys.ListKeyInjective | src/modules/public/public.service.ts:33-42 | Two list keys are equal if and only if version and defaulted query are |
| CacheKeys.ListKeyIsApart | src/modules/public/public.service.ts:28-42 | A list key is never the version key, an article key or a page key |
| CacheKeys.RenderedSegments | src/modules/public/public.service.ts:28-42 | Splitting a rendered key at colons gives back its parts |
| ListPages.EveryArticleOnce | src/modules/public/public.service.ts:242-268 | For any table whose published, undeleted articles of the given type and rubric have dates, and any sort that lists rows once, each of those articles stands at exactly one index of exactly one page, among the pages counted |
| ListPages.PagesFollowSort | src/modules/public/public.service.ts:252-260 | An article comes before another in the sort if and only if it is on an earlier page or earlier on the same page |
| ListPages.PagesAreOrdered | src/modules/public/public.service.ts:256 | With the ORDER BY, articles on later pages or later on a page never have a smaller publication index, nor, for the same index, a later date |
| ListPages.FullPages | src/modules/public/public.service.ts:257-268 | Every page before the last holds as many articles as asked for |
| ListPages.PageHolds | src/modules/public/public.service.ts:242-268 | A page answers, with their own columns, exactly the wanted articles that come after the earlier pages in the sort, in that order; the total is the number of wanted articles, and the page count is the least whose pages hold them; it throws if and only if one of the page has no date |
| ReadAnswers.PageAnswered | src/modules/public/public.service.ts:196-214 | A page is found if and only if it is published and dated, with its id, name, date and all its sections in ascending order; it is missing if and only if no page with the slug is published |
| ReadAnswers.DetailAnswered | src/modules/public/public.service.ts:295-314 | The article with the slug is answered, every column and the stored HTML its own, if and only if it is published, undeleted and dated; without a date the read throws, otherwise it is missing |
| ReadAnswers.PageKept | src/modules/public/public.service.ts:202-217 | A page read without a usable entry keeps a found page for exactly 300 s and an absence for exactly 30 s, and touches no other key |
| ReadAnswers.DetailKept | src/modules/public/public.service.ts:302-317 | The same of an article read |
| ReadAnswers.ListKept | src/modules/public/public.service.ts:229-274 | A list read keeps its page for exactly 300 s under the version it has read |
| PublicModule.PublicService.FindPublishedPage | src/modules/public/public.service.ts:181-220 | Answer and cache afterwards are those of `FindPage`: hit, cached not-found, corrupt entry deleted, fill with 300 s or 30 s |
| PublicModule.PublicService.FindPublishedNewsList | src/modules/public/public.service.ts:224-277 | Answer and cache afterwards are those of `FindList`, under the current version's key; what `FindList` answers without an entry is the subject of `ListPages`, and what it keeps that of `ReadAnswers.ListKept` |
| PublicModule.PublicService.FindPublishedNewsBySlug | src/modules/public/public.service.ts:281-320 | Answer and cache afterwards are those of `FindDetail` |
| PublicModule.PublicService.InvalidateNewsArticle | src/modules/public/public.service.ts:338-346 | Deletes the article's entry, raises the list version by exactly one, keeps every other entry and adds none |
| PublicModel.SectionsSorted | src/modules/public/public.service.ts:51-59 | A page's sections are returned in ascending order, none lost or added |
| PublicModel.KeyKeepsQuery | src/modules/public/public.service.ts:242-260 | A query and the key built from it, defaults filled in, ask for the same rows and total |
| Staleness.BoundedStaleness | src/modules/public/public.service.ts:181-220 | Under every interleaving of the readers, writers and invalidations of one page or article key, an answer is the query's on a table state current less than a reader's delay plus 300 s (30 s for not-found) before, so it includes every older write |
| Staleness.FreshAfterInvalidation | src/modules/public/public.service.ts:328-341 | From any state, after an invalidation every reader that begins later, in every continuation, answers from table state n or a later one if and only if no reader that queried an earlier state can still fill the cache at that moment |
| Staleness.SlowReaderRefills | src/modules/public/public.service.ts:328-341 | The bound is sharp: for any two states of which the first answers without error, a run exists in which a read that begins after a write and its invalidation gets the old answer at every moment less than the delay plus the entry's life after the query, and no longer at that moment |
| Staleness.PagesCatchUp | src/modules/public/public.service.ts:181-220 | The bound for page reads |
| Staleness.ArticlesCatchUp | src/modules/public/public.service.ts:281-320 | The bound for article reads |
| NullDates.NullDateExactly | src/modules/news/news.service.ts:513-515 | After any run a published article has no publication date if and only if, of its publishes and its updates carrying a date, the last to succeed was an update carrying null |
| NullDates.DetailCrashExactly | src/modules/public/public.service.ts:136-158 | After any run a detail read throws if and only if the article public at the slug was last dated by an update carrying null and no overtaken not-found mark answers instead |
| NullDates.ListCrashExactly | src/modules/public/public.service.ts:252-268 | After any run a list read throws, cached or not, if and only if an article on the requested page was last dated by an update carrying null |
| NullDates.PagesNeverCrash | src/modules/public/public.service.ts:125-134 | No page read ever throws, cached or not |
| NullDates.ClearingCrashes | src/modules/news/news.service.ts:489-545 | For any public article an update carrying null is possible and leaves its slug answering with the error |
| PublicModel.DetailCrashes | src/modules/public/public.service.ts:136-158 | The detail query throws if and only if the public article with the slug has no date |
| PublicModel.ListCrashes | src/modules/public/public.service.ts:252-268 | The list query throws if and only if a row of the requested page has no date |
| TokenInterleaving.OneTokenPerFamily | src/modules/auth/token.service.ts:100-144 | Under every interleaving of single commands and expiries, a family's live tokens and pending token writes number at most one; its tokens form one chain, each replacing the one before, and no token is replaced twice |
| TokenInterleaving.StepKeepsInv | src/modules/auth/token.service.ts:108-138 | Every command of issue, rotate, logout and revoke keeps that resource invariant |
| TokenInterleaving.SpentForever | src/modules/auth/token.service.ts:185-201 | A family with no live token and none being written never has one again, whatever is interleaved |
| FamilyCoverage.ListedExactly | src/modules/auth/token.service.ts:132-138 | After any interleaving, a live token whose pipeline has told the family's active set of it is in the set if and only if the set was neither deleted nor expired since |
| FamilyCoverage.RevocationExact | src/modules/auth/token.service.ts:185-201 | An undisturbed revocation leaves exactly the live tokens that the active set does not list; with no token being written, it leaves the family without a live token for good if and only if the set lists the live one |
| FamilyCoverage.RevocationMisses | src/modules/auth/token.service.ts:185-201 | For any ids, a run exists in which a revocation overlapping a rotation ends with nothing in flight, the successor live, and the active set gone |
| FamilyCoverage.StepKeepsCovered | src/modules/auth/token.service.ts:108-138 | Every command keeps: sets follow their trail, live tokens are or will be announced to them, and only tokens gone for good are dropped from them |
| TokenService.ReplayKillsFamily | src/modules/auth/token.service.ts:110-121 | After any run, presenting an exchanged token whose JWT is unexpired finds the consumed marker, is refused, and leaves the family without a live token for every later run |
| TokenService.ActiveSetsComplete | src/modules/auth/token.service.ts:123-138 | A live token is in its family's active set, which outlives it, so revoking the family leaves none live; a token with a marker is not live; the stored value splits into exactly the payload's user and family |
| TokenService.DeadForever | src/modules/auth/token.service.ts:185-198 | No later sequence of whole operations revives a family that has no live token |
| TokenService.SignedTokenMatches | src/modules/auth/token.service.ts:123-128 | For every signed token still on the allowlist the mismatch branch cannot be taken |
| TokenService.TokenService.IssueTokens | src/modules/auth/token.service.ts:223-236 | The keys afterwards are `Issued`; entry and active set live for exactly the refresh lifetime, which is also the token's; both tokens carry the user, their own ids, the family or role, and their own lifetimes |
| TokenService.TokenService.RotateRefreshToken | src/modules/auth/token.service.ts:100-144 | The keys afterwards are `Rotated`; it succeeds if and only if a matching entry was live, and only then signs a refresh and an access token with the same user, their own ids and their own lifetimes; the old entry is gone in any case |
| TokenService.RotationLasts | src/modules/auth/token.service.ts:130-138 | After a rotation the new entry, the active set and the consumed marker all last for a full refresh lifetime |
| TokenService.TokenService.RevokeRefreshToken | src/modules/auth/token.service.ts:174-179 | Removes the entry and the active-set membership of the token and nothing else |
| TokenService.TokenService.RevokeFamily | src/modules/auth/token.service.ts:185-201 | The loop removes exactly the entries of the active members, then the set |
| TokenService.AuthService.Refresh | src/modules/auth/auth.service.ts:84-100 | An unverified token changes nothing. For an account that is absent, deactivated or deleted the answer is an error and, in every state that operations can lead to, no token of the family is live afterwards. In such a state an active, undeleted account gets new tokens if and only if the presented one is live; they carry its id, family and present role, the old token is gone and the new one live for its lifetime |
| TokenService.AuthService.Logout | src/modules/auth/auth.service.ts:109-122 | A token that verifies leaves the allowlist and its active set; no other token is affected; an unverified one changes nothing |
| TokenKeys.KeysInjective | src/modules/auth/token.service.ts:33-41 | The three kinds of token keys never coincide and each determines its ids |
| TokenKeys.EntryValueMatches | src/modules/auth/token.service.ts:123-125 | A stored `user:family` value matches exactly its own user and family |
| TokenKeys.DurationExact | src/modules/auth/token.service.ts:14-30 | A string is accepted as a number of seconds if and only if it is a number, with any leading zeros, followed by s, m, h or d, of that many seconds |
| TokenKeys.DurationRoundTrip | src/modules/auth/token.service.ts:14-30 | A rendered number followed by s, m, h or d parses to that many seconds; followed by any other character it is refused |
| Throttler.AdmissionBound | src/common/throttler-storage.ts:26-51 | For one tracker with a fixed window and limit, over every timed run mixed with other trackers, the calls admitted in any interval of length L number at most limit x (ceil(L / window) + 1), for any block durations |
| Throttler.AtMostTwiceTheLimit | src/common/throttler-storage.ts:26-51 | Hence at most twice the limit in any interval as long as the window |
| Throttler.BlockHonoured | src/common/throttler-storage.ts:33-49 | A block refuses every call until it ends and freezes the tracker; the next call is admitted exactly when the counter has expired too, which a default block or one of at least the window guarantees, with totalHits 1 |
| Throttler.HeldWhileBlocked | src/common/throttler-storage.ts:33-37 | While the flag is alive no call of the tracker is admitted or changes its state |
| Throttler.TrackerStep | src/common/throttler-storage.ts:78-79 | A call changes its own tracker's two keys as `After` says and no other tracker's |
| ThrottlerAnswers.AnswersFromCalls | src/common/throttler-storage.ts:26-99 | Over every timed run from an empty store, mixed with other trackers and any windows, limits and block durations, told from the calls alone: during a block the answer is refused, with the rest of that block to the nearest second, one whole window, and the hits of a window still open; any other answer has the calls counted since its window was opened, the rest of the window to the nearest second, is refused if and only if they exceed the limit, and then gives the length of the block it begins; it fails if and only if that is 0 |
| ThrottlerAnswers.TallyCounts | src/common/throttler-storage.ts:39-43 | The hits are the number of calls of the tracker that met no block since the latest window was opened |
| Throttler.RedisThrottlerStorage.Increment | src/common/throttler-storage.ts:27-99 | The script's commands leave the store of `Eval` and return the record of `Reply`, whose four fields are those of `ThrottlerAnswers.AnswersFromCalls`, or fail exactly when a block of 0 seconds would have to be set |
| Throttler.ZeroWindowFails | src/common/throttler-storage.ts:45-47 | A direct call with a window and a block of 0 fails |
| Throttler.PositiveWindowNeverFails | src/common/throttler-storage.ts:45-47 | With a positive window the script never fails |
| NewsRuns.CardsRefineLists | src/modules/news/news.service.ts:798-1100 | Over every run of all article and card operations, each article's orders are exactly 0 .. n-1, and its cards read in order are what insert, move, delete and permute on a plain list give |
| NewsRuns.StepRefinesEdit | src/modules/news/news.service.ts:1199-1223 | One operation performs one list edit on its own article and none on any other |
| NewsRuns.TemporaryOrderIsFree | src/modules/news/news.service.ts:840-850 | The temporary order of a new card collides with no order in use |
| NewsRuns.ReorderReadsBack | src/modules/news/news.service.ts:1051-1082 | On an editable article a reorder succeeds if and only if the list is a permutation of its card ids, and reading back then gives exactly that list |
| NewsRuns.PublishedBodiesMatchCards | src/modules/news/news.service.ts:597-623 | Over every run, while an article is published its stored HTML, text and nodes are the compilation of its current cards with the publication map read at publish |
| CardContents.PayloadsAsWritten | src/modules/news/news.service.ts:798-1100 | Over every run, the payloads that publishing reads for an article are those last written to its cards, in the order to which the list edits have brought them, and no card of the article is left out |
| CardContents.StepWrites | src/modules/news/news.service.ts:798-1100 | An operation writes the payload it is given to the card it names, exactly if it succeeds, and changes no other card's payload or article |
| CardContents.TypesNeverChange | src/modules/news/news.service.ts:899-916 | If validation returns payloads of the type asked for, no run changes the type or the article of a card that exists |
| NewsModel.StepKeepsUniqueSlugs | src/modules/news/news.service.ts:1146-1154 | Every operation keeps article slugs unique |
| CardOrder.MoveFacts | src/modules/news/news.service.ts:936-940 | A moved card lands on the requested index; all other cards keep their relative order |
| CardOrder.SplicedMove | src/modules/news/news.service.ts:936-939 | The two splices of `updateCard` are that move |
| CardOrder.RenumberLists | src/modules/news/news.service.ts:1199-1223 | The bulk update puts exactly the listed cards in exactly that order and leaves other articles' cards and all payloads alone |
| CardOrder.ReorderAcceptsPermutations | src/modules/news/news.service.ts:1057-1072 | The three checks accept exactly the duplicate-free lists of all card ids |
| NewsAnswers.CreateAnswer | src/modules/news/news.service.ts:389-422 | A draft with the given columns is added if and only if the banner code is accepted and no article, deleted or not, has the slug |
| NewsAnswers.UpdateAnswer | src/modules/news/news.service.ts:489-545 | An update succeeds if and only if the article is there, no other has the new slug and the banner code is accepted; it writes exactly the given columns and drops the cache of the old slug if and only if the article is published |
| NewsAnswers.DeleteAnswer | src/modules/news/news.service.ts:565-577 | Deleting needs an undeleted article, writes the time of deletion only, and drops the cache of a published one |
| NewsAnswers.WithdrawAnswer | src/modules/news/news.service.ts:658-730 | Reverting and archiving need a published, undeleted article, change its status only, and drop its cache |
| NewsAnswers.PublishAnswer | src/modules/news/news.service.ts:597-638 | An article is published if and only if it is there, is not published, and every article its cards refer to is published and undeleted; the date is the earlier one or now, the body shows its cards with the references' titles, covers and slugs, and nothing else changes |
| NewsAnswers.CreateCardAnswer | src/modules/news/news.service.ts:798-840 | A card is created if and only if its payload is valid and refers to no article but another, published, undeleted one, its article is there and not published, and the order is within 0 .. n |
| NewsAnswers.UpdateCardAnswer | src/modules/news/news.service.ts:882-935 | A card is updated if and only if its article is there and not published, it is a card of it, any new payload is valid and refers as it may, and a new order is within 0 .. n-1 |
| NewsAnswers.DeleteCardAnswer | src/modules/news/news.service.ts:970-995 | A card is deleted if and only if its article is there and not published and it is a card of it |
| NewsAnswers.ErrorsAreTruthful | src/modules/news/news.service.ts:489-1100 | Whatever operation fails, what its error says holds of the tables it has met; missing references are named exactly |
| NewsModule.NewsService.Create | src/modules/news/news.service.ts:384-422 | Creates a draft under the given slug or else that of the title, if free, else the first free of those numbered 2 to 20, else with the random suffix; if one of the candidates is free it fails if and only if the banner code is refused; the public route serves the slug if and only if it has at most 100 characters |
| NewsModule.NewsService.Update | src/modules/news/news.service.ts:489-545 | Error, row and invalidation as `Performed` says, which `NewsAnswers.UpdateAnswer` and `NewsAnswers.ErrorsAreTruthful` spell out; slugs stay unique |
| NewsModule.NewsService.SoftDelete | src/modules/news/news.service.ts:565-577 | Marks the row and invalidates only if it was published |
| NewsModule.NewsService.Publish | src/modules/news/news.service.ts:597-638 | Error, row and invalidation as `Performed` says, which `NewsAnswers.PublishAnswer` spells out: the stored body shows the cards |
| NewsModule.NewsService.RevertToDraft | src/modules/news/news.service.ts:658-685 | Only a published article becomes a draft, with invalidation |
| NewsModule.NewsService.Archive | src/modules/news/news.service.ts:705-730 | Only a published article becomes archived, with invalidation |
| NewsModule.NewsService.PersistCardOrder | src/modules/news/news.service.ts:1199-1223 | The bulk update succeeds if and only if its final state respects the unique index |
| NewsModule.NewsService.CreateCard | src/modules/news/news.service.ts:798-865 | The checks in the source's order, then an insertion at the requested index, by default the end, with the validated payload; no other card changes its payload; the final state of each of the two writes respects the unique index |
| NewsModule.NewsService.UpdateCard | src/modules/news/news.service.ts:882-953 | The card says the new payload, validated for its type, if one is given, and otherwise what it said, and ends at the requested index; no other card changes its payload; an out-of-range move after the payload write is rolled back |
| NewsModule.NewsService.DeleteCard | src/modules/news/news.service.ts:970-1010 | Removes the card and closes the gap; every other card keeps its payload |
| NewsModule.NewsService.ReorderCards | src/modules/news/news.service.ts:1030-1085 | On success the cards read back are exactly the submitted list, all payloads as before; otherwise nothing changes |
| NewsModule.NewsService.CheckReorder | src/modules/news/news.service.ts:1057-1072 | Accepts exactly the permutations of the ids read |
| CardCompiler.CompileCards | src/modules/news/news.service.ts:287-362 | The loop over the cards computes `Compile`, whose body `CardReading.CompiledBodyShows` reads back |
| CardReading.CardReadsBack | src/modules/news/news.service.ts:313-352 | A reader who knows only a template's fixed strings gets the unescaped texts back: the quote; slug, title and any cover image of the referenced article; URL and any caption of an image or video; a video without caption repeats its raw URL |
| CardReading.SameHtmlSameTexts | src/modules/news/news.service.ts:313-352 | Two cards of a type with the same HTML have the same texts (videos with a caption both, or both without) |
| CardReading.CompiledBodyShows | src/modules/news/news.service.ts:287-362 | With a complete map the body is one readable part per card, joined by newlines; the plain text is the texts, quotes, titles and non-empty captions of the cards in order, joined by blank lines; the nodes are those of the text cards |
| CardReading.PublishedBodyShows | src/modules/news/news.service.ts:597-623 | Over every run the body of a published article shows what its cards say now |
| CardCompiler.AllPartsConcat | src/modules/news/news.service.ts:287-362 | HTML parts, texts and nodes of a concatenation are the concatenations |
| CardCompiler.OnePartPerCard | src/modules/news/news.service.ts:287-362 | With a complete map every card yields exactly one HTML part, in order |
| PublishRace.BodiesUnderRaces | src/modules/news/news.service.ts:597-623 | With the reads of article, cards and references and the guarded update as separate steps among all other operations, a published body is the compilation of the cards its publish read, and of the cards the article has now if no edit of them was committed between read and update |
| PublishRace.EditLosesRace | src/modules/news/news.service.ts:601-623 | From any reachable state, a card edit committed just before the update does not stop it; the published body then matches the current cards if and only if the edit makes no difference to the compilation |
| NewsRuns.EveryCardIsShown | src/modules/news/news.service.ts:597-623 | Over every run a published article's HTML is exactly one part for each of its current cards, in order, joined by newlines |
| CardCompiler.PublicationMapComplete | src/modules/news/news.service.ts:1411-1445 | The length comparison passes if and only if every referenced article is published and undeleted, and the map then holds exactly their titles, covers and slugs; otherwise the error names exactly the missing ones |
| EscapeHtml.EscapeIsSubstitution | src/modules/news/news.service.ts:253-260 | The five successive replacements equal one per-character substitution on every string |
| EscapeHtml.EscapeRoundTrip | src/modules/news/news.service.ts:253-260 | Unescaping recovers the text, and the result has no raw angle bracket or quote |
| EscapeHtml.EscapeInjective | src/modules/news/news.service.ts:253-260 | Different texts escape differently |
| CardEscaping.CardTextIsInert | src/modules/news/news.service.ts:305-352 | The angle brackets and quotes in a compiled quote, publication, image or video card are those of its template, whatever its texts, if and only if it is not a video without caption whose URL contains one |
| CardEscaping.VideoTextEscaped | src/modules/news/news.service.ts:345-352 | The text of a video link is escaped if and only if there is a caption or the URL has no character that escaping changes |
| CardEscaping.BracketedUrl | src/modules/news/news.service.ts:345-352 | A concrete URL whose brackets become markup |
| Slugify.SlugShape | src/modules/news/news.service.ts:93-104 | 1 to 200 characters of a-z, 0-9 and single hyphens, starting with a letter or digit; a trailing hyphen only at length 200 |
| SlugWords.SlugIsItsWords | src/modules/news/news.service.ts:93-104 | A slug is the runs of letters and digits of the transliterated, lower-case text, joined by hyphens and cut at 200 characters, or "article" if there are none |
| SlugWords.LettersSpelled | src/modules/news/news.service.ts:57-91 | Each Russian letter is spelled by its place in the alphabet, and every other character stays |
| Slugify.SlugFixedPoint | src/modules/news/news.service.ts:93-104 | A generated slug is its own slug if and only if it does not end in a hyphen |
| Slugify.StoredSlugReachable | src/common/pipes/parse-slug.pipe.ts:4-16 | The slug an article is stored under, from a given slug or the title, numbered or suffixed if taken, passes the route's check if and only if it has at most 100 characters |
| Slugify.TakenSlugIsUnreachable | src/modules/news/news.service.ts:1133-1144 | A slug of 100 characters passes, but the next article with the same base gets one that is refused |
| Slugify.LongTitleIsUnreachable | src/common/pipes/parse-slug.pipe.ts:4-16 | A title of 101 letters yields a slug the route refuses |
| Slugify.EnsureUniqueSlug | src/modules/news/news.service.ts:1133-1144 | Returns the base if it is free, else the first free of the base numbered 2 to 20, else the base with the random suffix |
| Slugify.CandidatesDiffer | src/modules/news/news.service.ts:1135 | No candidate is tried twice |
| Slugify.SomeCandidateIsFree | src/modules/news/news.service.ts:1133-1144 | With fewer than 20 slugs in use a candidate is free |
| Lifecycle.PublishingAlternates | src/modules/news/news.service.ts:612-634 | Over all interleavings of callers, an item's committed transitions alternate from a publish, successful publishes exceed archives plus reverts by one exactly while it is published, and a page is a draft exactly when it has no publication date |
| Lifecycle.ArchiveAnswerExact | src/modules/pages/pages.service.ts:435-456 | Over all interleavings, the answer to a refused page archive describes the refused row if and only if that row was not a draft that had ceased to be one at the second read; with a publication date it is always "already archived" and right, without one it is wrong if and only if a publish of the page was committed between the two |
| Lifecycle.PublishAnswerExact | src/modules/news/news.service.ts:612-634 | A refused publish answers not-found if and only if the article was deleted at the second read, and "already published" otherwise, which is always right; a not-found about a row not yet deleted hides a published one |
| Lifecycle.AnswersAreTruthful | src/modules/pages/pages.service.ts:384-456 | What every answer of every caller says about the row its update met and the last row it read, not-found included |
| Lifecycle.ArchiveErrorCanMislead | src/modules/pages/pages.service.ts:441-453 | For every page a run exists in which "already archived" is reported of a page never archived |
| PagesModel.PageAnswer | src/modules/pages/pages.service.ts:163-462 | Each operation succeeds exactly when its condition on the table holds, then writes its own columns of its own row and drops the cached page if and only if readers see the row before or after; otherwise its error is true and nothing changes |
| PagesModule.PagesService.Create | src/modules/pages/pages.service.ts:163-179 | Adds an empty draft unless the slug is in use |
| PagesModule.PagesService.UpdateName | src/modules/pages/pages.service.ts:239-264 | Renames the page and deletes its cache entry only if it is published |
| PagesModule.PagesService.ValidateSectionData | src/modules/pages/pages.service.ts:532-565 | Reports a duplicate order first, otherwise the positions of all refused payloads |
| PagesModel.SectionsValidated | src/modules/pages/pages.service.ts:532-565 | A list passes if and only if its orders are distinct and every payload is accepted; otherwise exactly the refused positions are named |
| PagesModule.PagesService.ReplaceSections | src/modules/pages/pages.service.ts:289-351 | Refused payloads touch nothing; otherwise, against any schedule of other transactions and aborts, the replacement takes effect once, on the rows the first unaborted attempt sees, or never |
| PagesModule.PagesService.Publish | src/modules/pages/pages.service.ts:377-409 | Publishes and dates a page that is not published, and deletes its cache entry |
| PagesModule.PagesService.Archive | src/modules/pages/pages.service.ts:427-462 | Archives a published page; the error tells a draft from an archived page |
| Users.CreatedRow | src/modules/users/users.service.ts:132-150 | An active account with the given address, hash and role is added if and only if no account has the address |
| Users.UpdatedRow | src/modules/users/users.service.ts:171-219 | An update writes exactly the given columns; it succeeds if and only if the account exists, no given value is null, and another active super admin remains if it takes the role or the activity of one |
| Users.RemovedRow | src/modules/users/users.service.ts:267-285 | Removing marks and deactivates the account and keeps its other columns, if and only if it exists and is not the last active super admin |
| Users.RestoredRow | src/modules/users/users.service.ts:314-332 | Restoring needs a removed account, reactivates it and keeps its other columns |
| Users.RestoreUndoesRemove | src/modules/users/users.service.ts:267-332 | Removing and restoring an active account leaves the table as it was |
| Users.EmailsStayUnique | src/modules/users/users.service.ts:446-463 | Over every serial history no two accounts share an address |
| Users.RunRetains | src/modules/users/users.service.ts:398-429 | Over every serial history of create, update, remove and restore an active super admin remains |
| Users.GuardIsExact | src/modules/users/users.service.ts:398-429 | The guard refuses exactly the changes that would leave no active super admin |
| Users.StaleReadsLoseTheLastAdmin | src/modules/users/users.service.ts:185-219 | Were two updates to decide on the same earlier rows, both last super admins could be demoted; run serially one remains |
| Users.History | src/modules/users/users.service.ts:352-370 | The call adds its own transaction to the committed history at most once |
| Users.UsersService.WithSerializableTransaction | src/modules/users/users.service.ts:352-370 | Against any schedule of other transactions and aborts the loop commits at most once in three attempts and decides on the rows that attempt reads |
| Users.UsersService.Transact | src/modules/users/users.service.ts:132-348 | Each transaction body has the result and effect of `Outcome` and `Apply`, which the row lemmas spell out column by column |
| Users.UsersService.EnsureSuperAdminRetention | src/modules/users/users.service.ts:398-429 | Throws exactly when `BlocksRetention` holds |

## Left out

- Controllers, guards, DTO decorators, audit logging, permission and session caches, object storage, health checks: wiring or smaller versions of the same ideas.
- Failing or lossy Redis: commands are reliable here. The source swallows invalidation errors by design.
- Strict freshness of the page and detail caches under interleaving: DEL-based invalidation does not give it. They are covered exactly for whole operations, and with a bound under interleaving.
- Full revocation of a family is claimed only for a revocation that runs undisturbed and an active set that lists the live token; how either can fail is proved, not excluded.
- Publishing is not one transaction with reading the cards: bodies and current cards are claimed equal for whole operations, and for interleaved ones without an edit in between.
- The retry loop of card operations: the loop of `PagesService.ReplaceSections`, again with five attempts; an aborted attempt changes nothing.
- List order within equal sort keys: the sort is an arbitrary function of the published rows. That articles of the same table are asked for on every page is taken for granted by `ListPages.EveryArticleOnce`; a write between two page reads can move articles across pages.
- Full-text search, previews, admin listings: reads without shared state.
- The marker symbol on paginated results: JSON drops it, so only data and meta are compared.
- Numbers beyond 2^53, which JavaScript rounds, and beyond 10^21, which it renders in exponent form.
- TokenService.TokenService.IssueTokens: the JWT encoding is not modelled; verification accepts exactly the signed tokens until they expire.
- NewsModule.NewsService.CreateCard: the same holds of its bulk UPDATE, and of those of UpdateCard, DeleteCard and ReorderCards.
- NewsModule.NewsService.Create: the author and feed columns are part of one opaque field; which banner codes are refused comes from outside.
- NewsModule.NewsService.PersistCardOrder: PostgreSQL checks a plain unique index row by row, so the UPDATE may be refused on the way to a final state that respects it; nothing is claimed about that. Database clients and transactions are one object; rolling back restores the saved table.
- Users.UsersService.Transact: password hashing, e-mail normalisation and the check that a missing user skips hashing happen before it.
