# indiegala-automation, modelled in Dafny

This project models the decision core of the IndieGala giveaway bot:

- **The datastore** (`model.js`). It has three SQLite tables: `giveaways`, `games` and `games_owned`. Each table is a keyed map, held by the class `Model.Store`. Inserts are insert-if-absent, because UNIQUE violations are swallowed. `markAsEntered` only ever writes 1. `getNewGamesToDetail` is a set-difference query.
- **The prioritizer** (`lib/enter-giveaways.js`, and its earlier version in `enter-giveaways.js`). It is a SELECT that joins, filters, orders by end date and limits. The `rows.map` that follows turns each row into a detail URL and an id. The table's scan order is left open.
- **The entry batch** (`indiegala.js`). The steps are:
  - `shouldRetryGiveaway` classifies the record read back from a giveaway page.
  - `enterGiveaways` visits the candidates strictly in order and retries an unrecognised record once.
  - A giveaway whose page shows it entered, or whose entry button is missing, is marked in the datastore.
  - The batch ends on "no coins left" or on any other rejection.
  - The browser is an oracle: for each giveaway it returns the outcome of the first visit and of the second.
- **The older entry loop** of `enter-giveaways.js`. It stops at the first failed click and writes nothing.
- **Small helpers** of `indiegala.js`:
  - Steam link trimming and Steam id extraction.
  - Enumeration of listing-page URLs, with the series stopping at a failing page.
  - The bounds of `rndDelay`.

SQLite's value rules are modelled where the queries depend on them:

- Text written to an INTEGER or NUMERIC column becomes an integer when it is an integer literal, and stays TEXT when it does not read as a number.
- A TEXT value compares greater than every number.
- A comparison with NULL is not true.
- `LIKE '%Positive'` ignores ASCII case.

Two facts about the entry batch shape the model:

- In `enterGiveaways` (indiegala.js:385-394), any rejection other than the missing entry button ends the whole batch. It does not just skip that giveaway.
- The batch's promise resolves even when coins run out (indiegala.js:395-403). The reason is only logged, and the model returns it as `logged`.

## Model

| member | source | states |
|---|---|---|
| Text.IntegerAffinity | model.js:31-42 | Text stored in an INTEGER/NUMERIC column becomes an integer iff it is an integer literal, with the literal's value, sign included; any other text is kept as that text |
| Model.WithGiveaway | model.js:99-116 | The giveaways table after `insertGiveaway` (its properties are the two rows below) |
| Model.WithEntered | model.js:72 | The giveaways table after `markAsEntered` (see Model.MarkAsEnteredEffect) |
| Model.WithGame | model.js:119-139 | The games table after `insertGame` (see Model.DuplicateGameIgnored) |
| Model.WithOwned | model.js:142-154 | The games_owned table after `insertOwnedGame` (see Model.DuplicateGameIgnored) |
| Model.NewGamesToDetail | model.js:53-58 | The pairs `getNewGamesToDetail` returns (see Model.NewGamesToDetailMembers) |
| Model.NewGiveawayStored | model.js:99-116 | Inserting a new id adds exactly that row, with only the six inserted columns, converted by column affinity, and `entered` = 0; other rows unchanged |
| Model.DuplicateGiveawayIgnored | model.js:99-116 | Inserting an id already stored leaves the giveaways table unchanged (the UNIQUE failure is swallowed) |
| Model.MarkAsEnteredEffect | model.js:87-96 | `markAsEntered(id)` sets `entered` on that row only, keeps the key set, and is a no-op for an absent id |
| Model.MarkAsEnteredIdempotent | model.js:72 | Marking twice equals marking once |
| Model.DuplicateGameIgnored | model.js:119-154 | `insertGame` and `insertOwnedGame` with a stored Steam id change nothing; inserting a game twice equals inserting it once |
| Model.NewGamesToDetailMembers | model.js:53-58 | A (steamUrl, steamId) pair is returned iff some giveaway carries it with a non-null steamId that no game row has |
| Model.InsertGameDetailsIt | model.js:53-58 | Storing a game removes exactly the pairs with its Steam id from the games still to detail |
| Model.ApplyGrows | model.js:68-78 | Every statement keeps both tables keyed by their primary key, never removes a row, never changes a stored game, and changes a stored giveaway at most by setting `entered` |
| Model.EnteredNeverReset | model.js:68-78 | Over any sequence of statements, no row disappears and no `entered` flag goes back to 0 |
| Model.Store.constructor | model.js:60-63 | A fresh database has three empty tables |
| Model.Store.InsertGiveaway | model.js:99-116 | The store's new state is the old one after insert-if-absent of the giveaway; the tables stay keyed |
| Model.Store.MarkAsEntered | model.js:87-96 | The store's new state is the old one with that row's flag set; the tables stay keyed |
| Model.Store.InsertGame | model.js:119-139 | The store's new state is the old one after insert-if-absent of the game |
| Model.Store.InsertOwnedGame | model.js:142-154 | The store's new state has the Steam id added to `games_owned` |
| Model.Store.GetNewGamesToDetail | model.js:157-168 | Returns exactly the distinct pairs of undetailed, non-null Steam ids, and changes nothing |
| Scrape.LastIndexOf | indiegala.js:83 | The last position of the character, or -1 when it does not occur |
| Scrape.TrimTrailingSlash | indiegala.js:79-81 | The link minus at most one trailing '/', unchanged iff it has none |
| Scrape.SteamIdText | indiegala.js:83 | The suffix after the last '/', which contains no '/'; the whole string when there is no '/' |
| Scrape.GiveawayFromPage | indiegala.js:70-93 | The record has the page's id, name, price text and level, the link minus one trailing '/', the '/'-free Steam id after its last '/', and end date -1 exactly when no date was found |
| Scrape.SteamIdEndsLink | indiegala.js:78-83 | The trimmed link is a prefix of the scraped one, and ends with '/' followed by the Steam id |
| Scrape.ListingUrl | indiegala.js:154 | The URL of listing page n (see Scrape.ListingUrlInjective) |
| Scrape.ListingPages | indiegala.js:147-154 | The URLs of pages 1..k in order (see Scrape.ListingPagesAt) |
| Scrape.ListingUrlInjective | indiegala.js:154 | Different page numbers give different listing URLs |
| Scrape.ListingPagesAt | indiegala.js:147-154 | The page list has page j+1's URL at position j |
| Scrape.ParseGiveawaysList | indiegala.js:141-190 | Visits listing pages 1, 2, … in order (page 0 skipped); page 1 is always loaded when there is a page to load; stops at the first failing page, which it has loaded, and then never resolves; resolves iff all `pagesToParse` pages loaded |
| Delay.OrDefault | indiegala.js:283-284 | `x \|\| fallback`: an absent or zero bound falls back to the default |
| Delay.RndDelay | indiegala.js:282-287 | The delay lies in [low, high] when low ≤ high, and in (high, low] otherwise |
| Delay.DelayBounds | indiegala.js:286 | `floor(random*(high-low+1)+low)` stays within the bounds for every random value in [0, 1) |
| Delay.EveryDelayReachable | indiegala.js:286 | Every whole number between the bounds is drawn by some random value in [0, 1) |
| Browser.FailureText | enter-giveaways.js:128 | `'' + err`: a string as it is, an Error as "Error: message", or "Error" when its message is empty |
| Browser.FailureMessage | indiegala.js:392 | `err.message`: the message of an Error, "undefined" for a bare string |
| Clauses.EligibleAsWritten | lib/enter-giveaways.js:31-38 | The WHERE clause with the join, as SQLite evaluates it |
| Clauses.Eligible | lib/enter-giveaways.js:31-38 | The same clause with the metascore test applied to numeric scores only |
| Clauses.EligibleLegacy | enter-giveaways.js:91-94 | The older clause: joined, open, review ending in "Positive" |
| Clauses.EligibleNarrowsAsWritten | lib/enter-giveaways.js:31-38 | The corrected clause admits only giveaways the clause as written admits; they differ only on games with a text metascore and no "Positive" review |
| Query.DetailUrl | lib/enter-giveaways.js:51 | The detail prefix followed by the id (see Query.DetailUrlRoundTrip) |
| Query.DetailUrlRoundTrip | lib/enter-giveaways.js:49-54 | The id can be read back from the detail URL built for it |
| Query.TableRowsSound | lib/enter-giveaways.js:30 | A scan returns only rows stored under their own id |
| Query.TableRowsCover | lib/enter-giveaways.js:30 | A scan returns every stored row |
| Query.TableRowsDistinct | lib/enter-giveaways.js:30 | A scan returns no id twice |
| Query.Filter | lib/enter-giveaways.js:32-38 | Keeps exactly the rows the WHERE clause admits, each at most as often as it occurs |
| Query.InsertByEndDate | lib/enter-giveaways.js:39 | Inserting into a sorted list keeps it sorted and adds exactly that row |
| Query.SortByEndDate | lib/enter-giveaways.js:39 | `ORDER BY endDate ASC`: sorted, and a permutation of the input |
| Query.ToCandidates | lib/enter-giveaways.js:49-54 | One `{url, id}` per row, in the same order, with url = detail prefix + id |
| Query.Limited | lib/enter-giveaways.js:40 | `LIMIT n` keeps a prefix of length min(n, rows); no LIMIT keeps all rows |
| Query.RankedSound | lib/enter-giveaways.js:29-39 | Every ordered row is a stored row the clause admits |
| Query.RankedDistinct | lib/enter-giveaways.js:29-39 | No row is ordered twice |
| Query.RankedComplete | lib/enter-giveaways.js:29-39 | Every stored row the clause admits is ordered |
| Query.Select | lib/enter-giveaways.js:29-54 | Scan, filter, order by end date, cut to the limit, map to `{url, id}` (see the three rows below) |
| Query.SelectSound | lib/enter-giveaways.js:29-54 | At most `limit` candidates, each an admitted stored giveaway whose URL reads back to its id |
| Query.SelectOrdered | lib/enter-giveaways.js:39-54 | Candidates have distinct ids and come soonest-ending first |
| Query.SelectComplete | lib/enter-giveaways.js:39-40 | Each admitted giveaway is a candidate, unless `limit` candidates were returned that all end no later than it |
| Query.CutAfter | lib/enter-giveaways.js:40 | A sorted list cut before a row keeps `limit` rows that all end no later than that row |
| Prioritizer.PrioritizeGiveawaysAsWritten | lib/enter-giveaways.js:24-60 | The list the query resolves with, as SQLite evaluates it |
| Prioritizer.PrioritizeGiveaways | lib/enter-giveaways.js:24-60 | The list the corrected query (numeric metascores only) resolves with |
| Prioritizer.PrioritizeGiveawaysAsWrittenSound | lib/enter-giveaways.js:24-60 | Query as written: at most 30 candidates; each is a stored giveaway the clause as SQLite evaluates it admits (unentered, unexpired, joined, review or metascore test, price at most 20, not "Particula"); each URL names its id |
| Prioritizer.PrioritizeGiveawaysAsWrittenOrdered | lib/enter-giveaways.js:39 | Query as written: no giveaway offered twice; ascending end date |
| Prioritizer.PrioritizeGiveawaysAsWrittenComplete | lib/enter-giveaways.js:32-40 | Query as written: no admitted giveaway is passed over for one that ends later |
| Prioritizer.EnteredNotPrioritizedAsWritten | lib/enter-giveaways.js:32 | Query as written: a giveaway marked as entered is never offered again |
| Prioritizer.PrioritizeGiveawaysSound | lib/enter-giveaways.js:24-60 | Corrected query: at most 30 candidates; each is unentered, unexpired, joined to a game, well reviewed, priced at most 20 and not "Particula"; each URL names its id |
| Prioritizer.PrioritizeGiveawaysOrdered | lib/enter-giveaways.js:39 | Corrected query: no giveaway is offered twice; candidates come in ascending end date |
| Prioritizer.PrioritizeGiveawaysComplete | lib/enter-giveaways.js:32-40 | Corrected query: no eligible giveaway is passed over for one that ends later |
| Prioritizer.EnteredNotPrioritized | lib/enter-giveaways.js:32 | Corrected query: a giveaway marked as entered is never offered again |
| Prioritizer.UnscoredGameAdmittedAsWritten | lib/enter-giveaways.js:35 | With a metascore stored as empty text, the query as written offers a giveaway whose game has no positive review; the corrected query does not |
| Legacy.PrioritizeGiveawaysLegacy | enter-giveaways.js:86-113 | The list the older query resolves with, no LIMIT |
| Legacy.PrioritizeGiveawaysLegacySound | enter-giveaways.js:86-113 | Each candidate is unentered, unexpired, joined, and has a review ending in "Positive"; URLs name their ids; distinct ids, ascending end date |
| Legacy.PrioritizeGiveawaysLegacyComplete | enter-giveaways.js:90-95 | With no LIMIT, every eligible giveaway is a candidate |
| Legacy.FirstFailure | enter-giveaways.js:120-131 | The index of the first failed click: all earlier clicks succeeded, and the one there failed |
| Legacy.FirstFailureAt | enter-giveaways.js:120-131 | The first failure is at i when all clicks before i succeeded and click i failed (or i is the end) |
| Legacy.EnterGiveawaysLegacy | enter-giveaways.js:119-138 | Visits the giveaways in list order up to and including the first failed click; logs that failure's text, and nothing iff none failed |
| Entry.Classify | indiegala.js:308-340 | Entered iff the record shows no entry button; otherwise out of coins iff the balance is "0 Indiegala Coins"; otherwise ineligible iff one of the two refusals; otherwise ambiguous |
| Entry.Handle | indiegala.js:372-394 | Retry iff a first record is ambiguous; marked iff entered or the button is missing; stop iff out of coins or another rejection; the reason is "No More Coins" exactly when out of coins, and the abort prefix plus `err.message` for another rejection |
| Entry.VisitOf | indiegala.js:371-394 | One or two visits per giveaway, two iff the first record was ambiguous |
| Entry.VisitVerdicts | indiegala.js:308-394 | A giveaway is marked iff its responses confirm entry, and stops the batch iff they show exhaustion or a rejection; never both |
| Entry.Batch | indiegala.js:369-403 | The visits of a batch up to and including the one that stops it (see the rows below) |
| Entry.BatchShape | indiegala.js:369-403 | Visits follow list order; only the last visit can stop the batch; the batch ends early only on a stopping visit |
| Entry.BatchEndsAtFirstStop | indiegala.js:369-394 | The batch runs through the first giveaway whose responses stop it, and no further; through the whole list when none does |
| Entry.MarkedIdsMembers | indiegala.js:311-316 | The ids marked are exactly those of the visits with verdict Marked |
| Entry.MarkAllEffect | indiegala.js:312 | Marking a list of ids sets the flag of exactly the stored rows it names and changes nothing else |
| Entry.BatchMarksEntered | indiegala.js:369-394 | After the batch, a stored giveaway is entered iff it already was, or it was visited and its responses confirmed entry |
| Entry.EnterOne | indiegala.js:370-394 | One giveaway's visits as `VisitOf` says; its row is marked iff the verdict is Marked; games and owned untouched |
| Entry.EnterGiveaways | indiegala.js:364-406 | The visits are exactly the batch; the reason is logged iff the last visit stopped it; the giveaways table is the old one with the marked ids set; nothing else changes |

## Left out

- The browser (Nightmare/Electron `goto`, `wait`, `click`, `evaluate`, `use`) is not modelled. Each visit's result is passed in as an outcome. The DOM code of `getDataFromGiveaway` and `parseGameLinks` is reduced to the shape of its record.
- Login, cookies and file I/O (indiegala.js:197-275, enter-giveaways.js:46-78) are not modelled: they are captcha and filesystem glue.
- Cheerio scraping of giveaway pages and Steam pages (`processGiveawayPages`, steam.js, giveaways.js) is left out. Its selectors' results are inputs to `Scrape.GiveawayFromPage`. steam.js is not part of this model.
- The end date's `new Function` evaluation and `Math.round(ms / 1000)` (indiegala.js:70-75) are left out. Only the -1 sentinel for a missing date is kept: this is dynamic code and floating point.
- Delay.RndDelay: `Math.random()` is a parameter in [0, 1), computed with exact reals rather than doubles. The `setTimeout` and `wait` delays themselves are left out.
- SQLite's asynchrony, prepared statements, and write-error logging are left out. Writes are synchronous map updates. After a failed prioritizing query the source still runs `rows.map` on an undefined `rows`, and that error path is not modelled either.
- Concurrency is left out: the parallel `async.each` in `processGiveawayPages`, the per-row Steam requests, and the two workflows index.js starts together. Inserts made while the listing pages load are not tied to `Scrape.ParseGiveawaysList`.
- config.js and index.js (configuration and orchestration) are left out, and so are `checkWins`/`clickAllCheckForWinButtons`, which only click buttons.
- Ids and Steam ids are integers. Real values stored in NUMERIC columns, whitespace around integer text, and JavaScript number precision are left out.
- Text.IntegerAffinity: text that SQLite reads as a number with an integral value but that is not an integer literal, such as "85.0" or "1e2", is stored by SQLite as an integer; the model keeps it as text.
- Scrape.GiveawayFromPage: a detail page without a Steam link gives an `undefined` link, and `steamUrl.endsWith` then throws inside the request callback (indiegala.js:78-79). That crashes the whole process, entry batch included; the model takes the link as a string and does not capture the crash.
- The order of giveaways with equal end dates is not stated, since `ORDER BY endDate` leaves ties open. The properties hold for every order.
- Prioritizer.PrioritizeGiveaways and Legacy.PrioritizeGiveawaysLegacy are ghost functions of the table value rather than methods on `Model.Store`, because the table scan order is unspecified. The clock is the parameter `now`.
- Legacy.EnterGiveawaysLegacy requires one click outcome per giveaway; the outcomes after the first failure are never read.
- Entry.EnterGiveaways and Entry.Handle return the logged reason rather than printing it. Console output is left out everywhere.

## Findings

| source | as written | input that shows it | evidently intended | confidence | as-written member | corrected member |
|---|---|---|---|---|---|---|
| lib/enter-giveaways.js:35 | `metascore >= 70` on an INTEGER column. A Steam page without a metascore stores the empty text scraped for it, and SQLite ranks TEXT above every number, so the test is true | A game with review text "Mixed" and metascore '' (stored as text), and a giveaway for it priced 5, unentered and unexpired: the query offers it | Only a numeric metascore of at least 70 recommends a game | not executed | Prioritizer.UnscoredGameAdmittedAsWritten | Prioritizer.PrioritizeGiveawaysSound |
