# Parliament absence scraper — a Dafny model

The system scrapes the plenary sessions of the Austrian Nationalrat. For
each session it finds the stenographic protocol, or its "Präsidium"
sections, and reads every paragraph that reports members as "verhindert
gemeldet" (excused). It resolves each named member to a profile URL and a
parliamentary club, and records the absences. A second program,
`generate-html.js`, folds the recorded sessions into per-person, per-party
and per-session statistics and renders them as an HTML report.

This project models the logic of both programs as pure Dafny functions
over immutable data:

- the name parsers, title stripping and club normalisation (`Text`, `Titles`, `Names`, `Clubs`);
- the person cache and name index (`Resolver`);
- retry with backoff (`Fetch`);
- the protocol locator (`Locator`);
- the paragraph scan and its sentinel (`Extractor`);
- the member-count pagination (`Members`);
- the session loop and the backfill (`Orchestrator`);
- the statistics (`Tallies`, `People`, `Parties`, `Sorting`, `Aggregate`);
- the person timeline and party colours (`Report`).

I/O is turned into parameters:

- **The network.** A request is a function `nat -> Attempt<T>`: the
  reply to attempt number r, either `Ok(body)` or `Err(message)`.
  - The session pages are a sequence, one request per session number
    from 0. Any session outside it fails, which is how the site's end is
    modelled.
  - Protocol documents are a function from URL to request.
  - The member API is a sequence of page requests.
- **Profile lookups.** `fetchClubInfo` is an oracle `clubOf: string -> string`
  from profile URL to club. This is what makes "at most one lookup per
  profile" a statement about the model: every consultation of the oracle
  is logged in `Memo.lookups`.
- **The DOM.** Documents are reduced to what the code reads from them:
  - paragraphs are (text, links);
  - session pages are anchors with their ancestors' texts, scripts with
    their already parsed `progress` arrays, and `<p>` elements with their
    container's links;
  - profile pages are their mandate lists and the label fallbacks.
- **The scraper instance's mutable state.** The person cache, the name
  index and the results list become an explicit `Memo` and `Run` record,
  threaded through every call.

All of `Common`, `Records` and the modules above are declared in the `.dfy`
files of this directory and verify together.

## Model

| member | source | states |
|---|---|---|
| Text.NormalizeWhitespace | scraper.js:220 | the statement text after NBSP replacement, `\s+` collapse and trim is exactly the text's words (non-breaking spaces counting as white space) joined by single blanks: trimmed, single-blanked, every visible character kept in order |
| Text.JoinOfWords | scraper.js:220 | a trimmed, single-blanked text is its own words joined by blanks, so normalising it changes nothing |
| Text.Trim | scraper.js:249 | `trim()` removes exactly the leading and trailing white space (the JS white-space set), keeps the visible characters and leaves trimmed text unchanged |
| Text.ContainsIff | scraper.js:237 | `includes` holds iff the needle occurs at some position |
| Text.LastToken | scraper.js:292 | `split(' ').pop()` is the suffix after the last blank, itself blank-free |
| Titles.FirstTitleAt | scraper.js:445 | the alternation of dotted titles matches at a position iff one of the titles is a prefix there, taking the first alternative in list order |
| Titles.TitleWithBoundary | scraper.js:446 | a trailing title (optionally dotted) matches at a position iff one of the titles fits there followed by a word boundary `\b`; the first fitting title in list order decides where the match ends |
| Titles.StripDottedIdentity | scraper.js:445 | text with no dotted title at any word boundary passes the first replace unchanged |
| Titles.StripTrailingIdentity | scraper.js:446 | text with no blank-led trailing title passes the second replace unchanged |
| Titles.StripTrailingComma | scraper.js:257 | `replace(/,\s*$/, '')` either leaves the text alone or cuts it just before a comma followed only by white space; a final comma is always removed |
| Titles.CleanLinkName | scraper.js:255-258 | the cleaned link name is trimmed (its partners: `Titles.CleanLinkNameIdentity`, `Titles.CleanLinkNameLeading`, `Titles.CleanLinkNameChars`, `TitleExamples.CleanLinkNameExample`) |
| Titles.CleanLinkNameIdentity | scraper.js:255-258 | a trimmed link text with no title anywhere and no final comma is kept as it is |
| Titles.CleanLinkNameLeading | scraper.js:255-258 | a dotted title at the start of the link text is removed together with the blanks after it, leaving the name behind it when that holds no further title and no final comma |
| TitleExamples.CleanLinkNameExample | scraper.js:255-258 | "Dr. Eva Ott" and "Eva Ott, BA" both clean to "Eva Ott" |
| Titles.StripDottedKeep | scraper.js:445 | the first replace keeps every stretch where no dotted title starts |
| Titles.StripTrailingKeep | scraper.js:446 | the second replace keeps every stretch where no trailing title starts |
| Titles.CleanLinkNameChars | scraper.js:255-258 | cleaning only deletes characters: the result's multiset is within the raw text's |
| Names.MatchFrom | scraper.js:433-440 | the template matches iff it matches at some position; the group is the one at the leftmost matching position, non-empty and without line terminators; for the plural template "…Abgeordneten <group>." occurs in the text |
| Names.Split | scraper.js:449 | splitting on `,\s*` and `\s+und\s+` yields at least one piece, none containing a comma or " und " |
| Names.SplitRebuilds | scraper.js:449 | the pieces glued back with the separators they were cut at give the text back, each separator a whole `,\s*` or `\s+und\s+` match |
| Names.NoSeparatorSlice | scraper.js:449 | a stretch of text with no separator position contains neither a comma nor " und ", so every piece between separators is free of both |
| Names.KeepNames | scraper.js:452-454 | the kept names are exactly the trimmed pieces that are non-empty and not a bare title, in order |
| Names.ParseNames | scraper.js:426-457 | [] for the "niemand als verhindert gemeldet" phrase and when neither template matches; otherwise the plural match (else the singular one), titles stripped, split, trimmed and filtered; every name is trimmed, non-empty, not a bare title and free of separators |
| Names.PluralSentence | scraper.js:433-457 | a one-line plural sentence "…Abgeordneten <g>." matches with group g, whatever periods g holds, and its names are those of g |
| NameExamples.ParseNamesExample | scraper.js:426-457 | a plural sentence listing two titled names joined by "und" gives the two names, titles dropped, in order |
| Clubs.NormalizeClubName | scraper.js:316-342 | the result is FPÖ, SPÖ, ÖVP, NEOS or Grüne exactly when that club's keywords occur in the lower-cased label and no earlier club's do; otherwise the label unchanged |
| Clubs.FreiheitlichWins | scraper.js:319-321 | a label containing "freiheitlich" is FPÖ whatever else it contains (e.g. also "spö") |
| Clubs.NormalizeIdempotent | scraper.js:316-342 | normalising a normalised label changes nothing |
| Clubs.ClubFromProfile | scraper.js:344-424 | a failed profile fetch gives "Unbekannt"; otherwise the first mandate label, else the "Klub:" label, else the function-list party, normalised, else "Unbekannt"; the result is "Unbekannt", a canonical club, or a label read from the profile |
| Clubs.ActiveMandatePreferred | scraper.js:364-368 | the first active Nationalrat mandate with a club decides, before the inactive and electoral-party passes |
| Clubs.FirstMandateLabelFrom | scraper.js:362-381 | a label found in the mandate lists is the club or electoral party of one of their mandates |
| Clubs.MandateLabel | scraper.js:362-381 | the first active chamber mandate with a club decides, else the first chamber mandate with a club, else the first one's electoral party; none iff no mandate has either |
| Clubs.FirstMandateLabel | scraper.js:362-381 | the label of the first mandate list that yields one; none iff no list yields one |
| Clubs.MandateLabelFrom | scraper.js:362-381 | a label found in a mandate list is the club or electoral party of one of its mandates |
| Resolver.ProfileUrl | scraper.js:252 | absolute hrefs are kept, relative ones get the site's base URL |
| Resolver.ProfileUrlAbsolute | scraper.js:252 | a profile URL starts with "http", ends with the link's href, and making it absolute again changes nothing |
| Resolver.FamilyKey | scraper.js:292-295 | the family-name key is the non-empty blank-free text after the name's last blank; there is none exactly when the name is empty, ends in a blank or has no blank |
| Resolver.Index | scraper.js:287-295 | the new mention is indexed under its full name and, when it has one, under its family-name key; no other key is added or changed |
| Resolver.Remember | scraper.js:280-295 | a cache miss logs one lookup, caches the mention under its URL, indexes it under its name and under its family key, and changes no other entry |
| Resolver.ResolveLink | scraper.js:247-298 | an unusable link (empty href or text) adds nothing; a usable one yields one mention with its profile URL, taking the club from the cache on a hit and from the oracle on a miss |
| Resolver.ResolveLinkKeeps | scraper.js:260-298 | one link keeps the cache consistent (one log entry per cached URL, each entry under its own URL) and faithful to the oracle |
| Resolver.ResolveLinks | scraper.js:245-299 | k usable links give exactly k mentions, in order, each with its profile URL and the oracle's club; only uncached URLs are looked up; cached entries never change |
| Resolver.TextMentions | scraper.js:302-310 | without links every mention has no profile URL and the club "Unbekannt" |
| Resolver.ParseNamesWithLinks | scraper.js:235-313 | [] and no state change for the "niemand" phrase; with person links one mention per usable link; with none, the `parseNames` names with no profile and club "Unbekannt" |
| Resolver.AtMostOneLookup | scraper.js:260-298 | in every reachable state each profile URL was looked up at most once, exactly when it is cached |
| Resolver.SameProfileTwice | scraper.js:260-268 | two links to one profile cost one lookup and give both mentions the same club |
| Fetch.RetryFrom | scraper.js:43-51 | at most `maxRetries + 1` = 4 attempts; every attempt before the last failed; the delay before retry r+1 is 1000·2^r; a failure is returned only after the last attempt |
| Fetch.FetchOkIff | scraper.js:22-52 | the fetch succeeds iff one of the 4 attempts succeeds, and then returns the first success |
| Fetch.AllFail | scraper.js:43-51 | when every attempt fails the 4th error is rethrown after delays 1000, 2000, 4000 |
| Fetch.FetchLoop | scraper.js:22-52 | the iterative retry loop computes the same outcome as the recursive definition |
| Locator.FullStrategy | scraper.js:114-133 | a full protocol is found iff some `.html` anchor has "Stenographisches Protokoll" within 5 ancestor levels; the first such anchor gives the URL |
| Locator.HtmlDocs | scraper.js:151-158 | at most one URL per document, each the base URL plus the link of an HTML document with a link |
| Locator.HtmlDocsFilterMap | scraper.js:151-158 | the URLs collected are exactly the HTML documents with a link, in their order, each prefixed with the base URL |
| Locator.Locate | scraper.js:109-206 | full protocol first, then the JSON Präsidium sections, then the HTML ones, else none; a section list is never empty |
| Locator.LocateIsFirstSuccess | scraper.js:109-206 | the locator equals the first success of the three strategies in order |
| Locator.FirstSome | scraper.js:113-205 | the first present strategy answer, and none only when every strategy found nothing |
| Locator.LocatedUrlsAbsolute | scraper.js:128-189 | every located URL starts with the site's base URL |
| Locator.PresidiumJsonExample | scraper.js:136-173 | a page with one Präsidium progress item and no full protocol yields that item's HTML section |
| Extractor.ScanFrom | scraper.js:213-230 | one statement per paragraph containing "verhindert gemeldet", in order, with its normalised text; cached people are never altered |
| Extractor.ScanFromThreaded | scraper.js:213-230 | the names of each statement are those `parseNamesWithLinks` resolves for its paragraph, the memo threaded from one absence paragraph to the next |
| Extractor.ExtractAbsentMembers | scraper.js:208-233 | never empty: without matching paragraphs the single sentinel "No absence information found" and no state change; otherwise one statement per matching paragraph, in order, with the paragraph's normalised text and the names `parseNamesWithLinks` resolves for it, the memo threaded from paragraph to paragraph; cached people are never altered |
| Extractor.Attach | scraper.js:483-491 | the sentinel is dropped, every kept statement is attached to its protocol URL, order preserved |
| Extractor.NothingFoundContributesNothing | scraper.js:483-491 | a document without absence paragraphs yields only the placeholder, which the filter drops, so it contributes no absence entries |
| Members.Count | scraper.js:692-695 | counting a member increments its party's count (from 0), the total, and nothing else, and keeps the counts summing to the total |
| Members.PartyOf | scraper.js:681-692 | a row is counted iff it has at least two cells and its second cell is non-empty markup with a span; it is counted under the span's trimmed text, normalised |
| Members.TallyRows | scraper.js:679-699 | a page adds one to the total per countable row; the counts keep summing to the total and carry only normalised labels |
| Members.TallyParties | scraper.js:679-699 | a page adds to each party the rows counted for it, and a party has a key iff it had one or got a row |
| Members.Paginate | scraper.js:641-718 | pages are requested in order up to and including the first reply that failed, has no `rows`, or has fewer than 50 rows; the total grows by the countable rows of those pages, and the counts keep summing to it |
| Members.PaginateParties | scraper.js:641-718 | each party's count grows by that party's members on the pages read, and a party has a key iff it had one or such a member was read |
| Members.ActiveMemberCount | scraper.js:631-733 | success iff at least one member was counted; then each party's count is the number of its members on the pages read, only parties with members are keys, and the counts sum to the members counted; otherwise the error "Failed to fetch active member count: No members found in API response" |
| Members.ActiveMembersOrNull | scraper.js:574-579 | the scraper keeps the map on success and null on failure |
| Members.FullThenShort | scraper.js:701-707 | a full first page and a short second page stop the loop after exactly two requests, counting the countable rows of both |
| Members.TwoPages | scraper.js:701-707 | 50 member rows then 12 give two requests and 62 members |
| Members.SixtyTwoMembers | scraper.js:701-707 | a full page of 50 then a page of 12 stops after two pages with 62 members |
| Orchestrator.ScrapeSession | scraper.js:459-536 | null and no state change when the session page cannot be fetched or no protocol is located; a record exists only for a fetched page with a located protocol and carries the session number, its URL and the clock time |
| Orchestrator.ScrapeSessionCases | scraper.js:477-523 | a full protocol gives null when its document cannot be fetched, else a `full` record with that document's entries and the scan's memo; a section list gives a `sections` record with the sections' entries iff every section can be fetched, and the sections loop's memo |
| Orchestrator.FullRecord | scraper.js:477-491 | a full protocol whose document cannot be fetched gives null and no state change; otherwise a `full` record with the document's entries and the scan's memo |
| Orchestrator.SectionsRecord | scraper.js:493-523 | a sections record exists iff every section can be fetched, and then carries the sections' entries; the memo is the sections loop's |
| Orchestrator.ScanDocument | scraper.js:478-491 | the entries are the statements `extractAbsentMembers` finds, placeholder dropped, each attached to the protocol URL, and the memo is the extractor's; a document without absence paragraphs contributes nothing and changes nothing |
| Orchestrator.OutsideFails | scraper.js:463-464 | a session number the site does not have yields no result |
| Orchestrator.ScrapeSections | scraper.js:493-514 | the session fails iff one section fetch fails; otherwise the entries are the scans of the sections concatenated in order, the memo threaded from each section to the next, each entry carrying its section's URL |
| Orchestrator.SectionsCons | scraper.js:496-512 | scanning the first section and then the rest concatenates their entries, the memo passed on from the first section |
| Orchestrator.Sessions | scraper.js:541-566 | the run from `startSession` tries consecutive sessions, each outcome being `scrapeSession` from the memo the previous attempts left, keeps the failure counter equal to the trailing failures, and stops after 3 consecutive failures or at the end bound |
| Orchestrator.OutcomesAreScrapes | scraper.js:541-566 | each outcome is exactly `scrapeSession` of the session tried, from the memo the earlier attempts left, starting with the empty memo; the final memo is the last attempt's |
| Orchestrator.Iterate | scraper.js:545-558 | one turn records the attempt; a success resets the failure counter to 0, a failure adds one |
| Orchestrator.ConsecutiveSessions | scraper.js:541-566 | the sessions tried are start, start+1, … with no gap, at least one |
| Orchestrator.StopsExactly | scraper.js:547-563 | the loop stops at the first session where 3 consecutive failures are reached or the end bound is met, and not before |
| Orchestrator.EndAtStart | scraper.js:561-563 | with `endSession == startSession` exactly one session is tried |
| Orchestrator.ResultsAreSuccesses | scraper.js:545-558 | the results are the successful sessions in order, each with its own session number |
| Orchestrator.RecordedSessions | scraper.js:545-558 | when outcome i is for session start+i, the records come in strictly ascending session order within the sessions tried |
| Orchestrator.Backfill | scraper.js:584-607 | backfill keeps the session, absence and name lists with all other fields and rewrites only the person entries |
| Orchestrator.BackfillOnlyTouchesEligible | scraper.js:590-603 | an entry changes only if it is eligible and indexed, and then it equals the index entry |
| Orchestrator.BackfillGivesProfile | scraper.js:594-597 | a backfilled entry has a profile URL |
| Orchestrator.ScrapeAllSessions | scraper.js:538-582 | the scrape is the loop's results, backfilled through the final index, in strictly ascending session order from `startSession` on, with the member map kept iff the count succeeded |
| Tallies.ClubLabel | generate-html.js:666 | a missing (empty) club becomes "Unknown", any other is kept |
| Tallies.Sightings | generate-html.js:657-664 | the pass visits one person per name of every absence entry, so its length is the number of names over all sessions |
| Tallies.HasAbsencesIff | generate-html.js:658-662 | a session counts as having absences iff it contributes at least one name |
| People.Step | generate-html.js:669-685 | one turn of the inner loop keeps the person map an exact description of the sightings so far: distinct names, tracked visits, first-sighting club and profile, order and total |
| People.AddPerson | generate-html.js:669-685 | afterwards the name has an entry: a new name gets a fresh entry at the end, a known name's entry gets one more visit and one more absence; every other entry is untouched and the names stay distinct |
| People.Persons | generate-html.js:657-685 | the person map has one entry per name, in first-sighting order, each listing the person's visits in order with total = their number, club and profile from the first sighting; the totals sum to the number of sightings |
| Parties.Bump | generate-html.js:697-704 | the member is then listed, once if the members were distinct; the party total and the member's count (from 0) go up by one; every other member keeps its count |
| Parties.MemberSumBump | generate-html.js:701-704 | incrementing one member's count adds one to the sum of the counts |
| Parties.AddParty | generate-html.js:688-704 | afterwards the club label has an entry: a new label gets a fresh entry at the end, a known one is bumped; every other entry is untouched and the labels stay distinct |
| Parties.PartyMap | generate-html.js:657-707 | one entry per club label; its members are distinct and exactly the names seen under it; the per-member counts have exactly the members as keys, count their sightings and sum to the total, which counts the label's sightings; the totals sum to the number of sightings |
| Sorting.SortDescending | generate-html.js:717-718 | the stable sort by descending total: a rearrangement (same multiset and key sum) that is non-increasing and keeps equal keys in their original order |
| Sorting.SortExample | generate-html.js:717-718 | keys 1, 2, 2 sort to 2, 2, 1 with the two 2s in their original order |
| Sorting.InsertOrdered | generate-html.js:717-718 | inserting a new position at its slot keeps a sequence of positions strictly ordered by descending key, ties by position |
| Sorting.PickSorted | generate-html.js:717-718 | the sorted positions of the first n items pick a rearrangement of exactly those items |
| Sorting.PickSortedSum | generate-html.js:717-718 | that rearrangement has the same sum of keys as the first n items |
| Sorting.OrderInjective | generate-html.js:717-718 | no two places of the sorted result come from the same item |
| Sorting.SortCovers | generate-html.js:717-718 | every entry of the unsorted list appears in the sorted one |
| Aggregate.ToRow | generate-html.js:720-733 | `memberCount` is the number of distinct members; the percentage is 0 without sitting members and absent/sitting·100 otherwise; the average times the member count is the total |
| Aggregate.Rows | generate-html.js:720-734 | one row per party entry, in party-map order, with the party totals summing to the number of sightings |
| Aggregate.ProcessData | generate-html.js:650-744 | the person and party lists are the maps sorted by descending total; sessions with absences ≤ total sessions, and none has any iff no name was sighted; `totalAbsences` is the number of names over all statements, and the person totals and the party totals each add up to it |
| Aggregate.PersonOrder | generate-html.js:717-718 | the person list is non-increasing in total, and people with equal totals appear in order of their first sighting |
| Aggregate.PersonCoverage | generate-html.js:669-718 | every person sighted is listed, and no name twice |
| Aggregate.PersonEntries | generate-html.js:666-685 | each listed person's visits are their sightings in order, the total is their number, club and profile come from the first sighting |
| Aggregate.PartyOrder | generate-html.js:735 | the party list is non-increasing in total and lists each club once |
| Aggregate.PartyCoverage | generate-html.js:688-695 | every club label under which somebody was sighted has a party row |
| Aggregate.PartyEntries | generate-html.js:688-733 | each party row's members and per-member counts are faithful to the sightings, `memberCount` is their number, the counts sum to the total, and the percentage is 0 without sitting members |
| Report.MaxOf | generate-html.js:749 | `Math.max(...xs, 1)` is at least 1, bounds every element and is 1 or one of them |
| Report.MaxSession | generate-html.js:748-749 | the timeline length is at least 1 and no absence's session exceeds it |
| Report.FindVisit | generate-html.js:758 | `find` returns the first visit of the session, or none when no visit has it |
| Report.MakeDot | generate-html.js:757-765 | the dot of session i is absent iff some visit is of session i, and links to the first such visit's protocol exactly when that URL is non-empty |
| Report.Timeline | generate-html.js:755-766 | exactly `maxSession` dots numbered 1..`maxSession`, each absent iff the person has an absence in that session |
| Report.TimelineComplete | generate-html.js:748-766 | with the shared `maxSession`, every absence at a positive session number falls inside the timeline and shows as an absent dot |
| Report.PartyColors | generate-html.js:844-855 | every colour is a `#rrggbb` value; "Unknown" and "Unbekannt" are gray; the five clubs get five distinct non-gray colours |

## Left out

- HTTP transport, timeouts, request headers and the `sleep` delays: requests are abstract reply sequences, and the delays are returned as numbers rather than waited for.
- `fetchPage` and `fetchApiPage` have the same retry logic and share one model, `Fetch.RetryFrom`.
- JSDOM parsing, CSS selectors, ancestor walking and the `JSON.parse` of embedded `props` scripts. Documents arrive already reduced to the values the code reads from them.
- The regular expressions of `fetchClubInfo`'s HTML fallbacks (`Klub:\s*(.+)` and the "Abgeordneter zum Nationalrat" item). Their captured labels are inputs of `Clubs.ClubFromProfile`.
- Console logging, `saveResults`, `saveIntermediateResults`, `generateReport` and the file writes of the HTML generator.
- The `scrapedAt` timestamp is an input of the session record: it comes from the clock.
- The HTML/CSS template, the in-page script, and the string rendering of the person, party and chart lists. The timeline is modelled as dots, not markup.
- Aggregate.ToRow: the percentage and the average are exact rationals, not IEEE doubles. Their rounding is not modelled.
- Report.MaxOf: `Math.max` over a spread argument list can exceed the engine's argument limit for very many absences. This is not modelled.
- Text.ToLower: lower-casing covers ASCII and Ä, Ö, Ü only. These are the characters the club keywords involve, not full Unicode case mapping.
- Report.PartyColor: a party named like an `Object.prototype` member (for example "constructor") reads an inherited property in JavaScript. The model treats every unlisted name as missing.
- Mutations through shared references:
  - on a cache miss, one object is stored in the cache, in the index and in the statement;
  - so when backfill rewrites a mention, it also rewrites the cache and index entries that are that same object.
  The model keeps values separate and backfills through the index as it stands after the loop.
- Members.Paginate: the API is a finite sequence of page replies, and a page past its end fails with "HTTP 404". The real API is not known to answer that way. The finite sequence is what makes the modelled loop end; the source loops as long as the API keeps serving full pages.
- Members.ActiveMemberCount: a reply that `JSON.parse` rejects is folded into the failed request (`Err`) of that page. It ends the loop exactly like a network error.
- cli.js (argument handling, exit codes, opening a browser) and test.js (a live smoke test) are not part of this model.

## Behaviour that follows the code

- **Title stripping is not idempotent.**
  - The dotted-title pass removes a title wherever it starts at a word boundary, so removing one can bring two pieces of text together into another title.
  - For example, "LL.Dr.M." becomes "LL.M." on the first pass and "" on a second.
  - The model therefore proves that title-free text is left unchanged (`Titles.StripDottedIdentity`, `Titles.StripTrailingIdentity`), not that stripping twice equals stripping once.
- **Backfill looks up the mention's own name only.**
  - It never retries with a surname. Family-name keys in the index help only when a plain-text mention consists of the surname alone.
  - Backfill fires for a missing profile URL or for the club "Unknown". It does not fire for "Unbekannt", which is what text-only mentions carry.
- **`endSession` is tested for truthiness.** An end of 0 means "no end", as in `Orchestrator.EndReached`.
