/** The scraper's driver: `scrapeSession` (scraper.js:459-536), the session
    loop of `scrapeAllSessions` (scraper.js:538-582) and `backfillPersonInfo`
    (scraper.js:584-607).  The scraper instance's mutable state (person
    cache, name index, result list) is the explicit `Run` record threaded
    through the loop. */
module Orchestrator {
  import opened Common
  import opened Text
  import opened Records
  import opened Resolver
  import opened Locator
  import opened Extractor
  import Fetch
  import Members

  const SessionPrefix: string := "/gegenstand/XXVIII/NRSITZ/"
  const SessionSuffix: string := "?selectedStage=111"
  const MaxFailures: nat := 3

  /** The site, as the scraper sees it.  `sessionPages[n]` answers the
      requests for session `n` attempt by attempt; the site has no other
      sessions, and asking for one fails.  `documents(url)` answers the
      requests for a protocol document.  `clubOf` is `fetchClubInfo` and
      `clock(n)` the timestamp taken when session `n` is recorded. */
  datatype Net = Net(sessionPages: seq<nat -> Attempt<SessionPage>>,
                     documents: string -> (nat -> Attempt<Document>),
                     clubOf: string -> string,
                     clock: int -> string,
                     api: Members.Api)

  function SessionUrl(n: int): string {
    BaseUrl + SessionPrefix + IntToString(n) + SessionSuffix
  }

  function SessionReply(net: Net, n: int): Attempt<SessionPage> {
    if 0 <= n < |net.sessionPages| then Fetch.Fetch(net.sessionPages[n]).result
    else Err("HTTP 404: " + SessionUrl(n))
  }

  function DocumentReply(net: Net, url: string): Attempt<Document> {
    Fetch.Fetch(net.documents(url)).result
  }

  /** The memo after a step, and what the step produced (`null` when it
      failed). */
  datatype Step<T> = Step(memo: Memo, value: Option<T>)

  /** One protocol document: the statements `extractAbsentMembers` finds in
      it, placeholder dropped, each attached to the document's URL; a
      document without absence paragraphs contributes nothing and leaves
      the memo alone. */
  function ScanDocument(net: Net, m: Memo, doc: Document, url: string): (r: Step<seq<Absence>>)
    requires Valid(m) && Faithful(m, net.clubOf)
    ensures Valid(r.memo) && Faithful(r.memo, net.clubOf)
    ensures r.value.Some?
    ensures r.memo == ExtractAbsentMembers(m, doc, net.clubOf).memo
    ensures r.value.value == AttachAll(Filter(ExtractAbsentMembers(m, doc, net.clubOf).statements, Kept), url)
    ensures forall i :: 0 <= i < |r.value.value| ==> r.value.value[i].protocolUrl == url
    ensures |Filter(doc.paragraphs, IsAbsenceParagraph)| == 0 ==> r == Step(m, Some([]))
  {
    var s := ExtractAbsentMembers(m, doc, net.clubOf);
    assert |Filter(doc.paragraphs, IsAbsenceParagraph)| == 0 ==> Attach(s.statements, url) == [] by {
      if |Filter(doc.paragraphs, IsAbsenceParagraph)| == 0 {
        NothingFoundContributesNothing(m, doc, net.clubOf, url);
      }
    }
    Step(s.memo, Some(Attach(s.statements, url)))
  }

  /** The parts one after another. */
  function Flatten(parts: seq<seq<Absence>>): seq<Absence>
    decreases |parts|
  {
    if |parts| == 0 then [] else parts[0] + Flatten(parts[1..])
  }

  /** Section `u` is fetched and scanned from memo `a`, leaving memo `b`
      and the entries `part`. */
  ghost predicate SectionScanned(net: Net, a: Memo, u: string, b: Memo, part: seq<Absence>) {
    && Valid(a) && Faithful(a, net.clubOf) && DocumentReply(net, u).Ok?
    && ScanDocument(net, a, DocumentReply(net, u).body, u) == Step(b, Some(part))
  }

  ghost function SectionScan(net: Net): (Memo, string, Memo, seq<Absence>) -> bool {
    (a, u, b, part) => SectionScanned(net, a, u, b, part)
  }

  /** A successful sections step from memo `m` is the concatenation, in
      order, of the scans of every section, the memo threaded from each
      section to the next. */
  ghost predicate SectionsScanned(net: Net, m: Memo, urls: seq<string>, r: Step<seq<Absence>>) {
    r.value.Some? ==>
      exists ms, parts :: && Chained(ms, urls, parts, SectionScan(net))
                          && ms[0] == m && ms[|ms| - 1] == r.memo && r.value.value == Flatten(parts)
  }

  lemma SectionsWitness(net: Net, m: Memo, urls: seq<string>, r: Step<seq<Absence>>,
                        ms: seq<Memo>, parts: seq<seq<Absence>>)
    requires Chained(ms, urls, parts, SectionScan(net)) && ms[0] == m && ms[|ms| - 1] == r.memo
    requires r.value.Some? && r.value.value == Flatten(parts)
    ensures SectionsScanned(net, m, urls, r)
  {
  }

  lemma SectionsEmpty(net: Net, m: Memo)
    ensures SectionsScanned(net, m, [], Step(m, Some([])))
  {
    assert Chained([m], [], [], SectionScan(net));
    SectionsWitness(net, m, [], Step(m, Some([])), [m], []);
  }

  lemma SectionsCons(net: Net, m: Memo, urls: seq<string>, b: Memo, part: seq<Absence>, rest: Step<seq<Absence>>)
    requires |urls| > 0 && SectionScanned(net, m, urls[0], b, part)
    requires SectionsScanned(net, b, urls[1..], rest) && rest.value.Some?
    ensures SectionsScanned(net, m, urls, Step(rest.memo, Some(part + rest.value.value)))
  {
    var ms, parts :| && Chained(ms, urls[1..], parts, SectionScan(net))
                     && ms[0] == b && ms[|ms| - 1] == rest.memo && rest.value.value == Flatten(parts);
    assert SectionScan(net)(m, urls[0], b, part);
    ChainedCons(m, urls[0], part, ms, urls[1..], parts, SectionScan(net));
    assert ([part] + parts)[1..] == parts;
    HeadTail(urls);
    SectionsWitness(net, m, urls, Step(rest.memo, Some(part + rest.value.value)), [m] + ms, [part] + parts);
  }

  /** The sections loop: each section document is fetched and scanned in
      order; a fetch that fails makes the whole session fail, but what was
      already written to the cache and index stays.  When every fetch
      succeeds, the entries are those of the sections, concatenated in
      order. */
  function ScrapeSections(net: Net, m: Memo, urls: seq<string>): (r: Step<seq<Absence>>)
    requires Valid(m) && Faithful(m, net.clubOf)
    ensures Valid(r.memo) && Faithful(r.memo, net.clubOf)
    ensures r.value.Some? ==> forall i :: 0 <= i < |r.value.value| ==> r.value.value[i].protocolUrl in urls
    ensures r.value.None? <==> exists i :: 0 <= i < |urls| && DocumentReply(net, urls[i]).Err?
    ensures SectionsScanned(net, m, urls, r)
    decreases |urls|
  {
    if |urls| == 0 then
      SectionsEmpty(net, m);
      Step(m, Some([]))
    else
      match DocumentReply(net, urls[0])
      case Err(_) => Step(m, None)
      case Ok(doc) =>
        var here := ScanDocument(net, m, doc, urls[0]);
        var rest := ScrapeSections(net, here.memo, urls[1..]);
        SectionsStep(net, urls, here.value.value, rest.value);
        if rest.value.None? then Step(rest.memo, None)
        else
          SectionsCons(net, m, urls, here.memo, here.value.value, rest);
          Step(rest.memo, Some(here.value.value + rest.value.value))
  }

  lemma SectionsStep(net: Net, urls: seq<string>, here: seq<Absence>, rest: Option<seq<Absence>>)
    requires |urls| > 0 && DocumentReply(net, urls[0]).Ok?
    requires forall i :: 0 <= i < |here| ==> here[i].protocolUrl == urls[0]
    requires rest.Some? ==> forall i :: 0 <= i < |rest.value| ==> rest.value[i].protocolUrl in urls[1..]
    requires rest.None? <==> exists i :: 0 <= i < |urls[1..]| && DocumentReply(net, urls[1..][i]).Err?
    ensures rest.Some? ==> forall i :: 0 <= i < |here + rest.value| ==> (here + rest.value)[i].protocolUrl in urls
    ensures rest.None? <==> exists i :: 0 <= i < |urls| && DocumentReply(net, urls[i]).Err?
  {
    assert forall i :: 1 <= i < |urls| ==> urls[i] == urls[1..][i - 1];
    if rest.Some? {
      forall i | 0 <= i < |here + rest.value| ensures (here + rest.value)[i].protocolUrl in urls {
        if i >= |here| {
          assert (here + rest.value)[i] == rest.value[i - |here|];
          assert forall u :: u in urls[1..] ==> u in urls;
        }
      }
    }
  }

  /** Where the protocol of session `n` was located, if its page could be
      fetched. */
  function Located(net: Net, n: int): Option<ProtocolInfo> {
    if SessionReply(net, n).Ok? then Locate(SessionReply(net, n).body) else None
  }

  /** `scrapeSession(n)`: the session's record, or `null` when its page
      cannot be fetched, no protocol is located, or a protocol document
      cannot be fetched.  A full protocol gives a `full` record with the
      entries of that document; a list of sections gives a `sections`
      record with the entries of all sections, and only when every section
      could be fetched (`ScrapeSessionCases`). */
  function ScrapeSession(net: Net, m: Memo, n: int): (r: Step<SessionRecord>)
    requires Valid(m) && Faithful(m, net.clubOf)
    ensures Valid(r.memo) && Faithful(r.memo, net.clubOf)
    ensures r.value.Some? ==> r.value.value.session == n && r.value.value.url == SessionUrl(n)
    ensures r.value.Some? ==> r.value.value.scrapedAt == net.clock(n)
    ensures SessionReply(net, n).Err? ==> r == Step(m, None)
    ensures SessionReply(net, n).Ok? && Locate(SessionReply(net, n).body).None? ==> r == Step(m, None)
    ensures r.value.Some? ==> SessionReply(net, n).Ok? && Locate(SessionReply(net, n).body).Some?
  {
    match SessionReply(net, n)
    case Err(_) => Step(m, None)
    case Ok(page) =>
      match Locate(page)
      case None => Step(m, None)
      case Some(FullProtocol(u)) => FullRecord(net, m, n, u)
      case Some(SectionList(urls)) => SectionsRecord(net, m, n, urls)
  }

  /** What the located protocol makes of the session: a full protocol
      gives `null` when its document cannot be fetched, else a `full` record
      with that document's entries; a section list gives a `sections` record
      with the entries of all sections, exactly when every section can be
      fetched. */
  lemma ScrapeSessionCases(net: Net, m: Memo, n: int)
    requires Valid(m) && Faithful(m, net.clubOf)
    ensures Located(net, n).Some? && Located(net, n).value.FullProtocol? ==>
              var r := ScrapeSession(net, m, n);
              var u := Located(net, n).value.url;
              && (DocumentReply(net, u).Err? ==> r == Step(m, None))
              && (DocumentReply(net, u).Ok? ==>
                    var s := ScanDocument(net, m, DocumentReply(net, u).body, u);
                    && r.memo == s.memo && r.value.Some? && r.value.value.protocolType == Full
                    && r.value.value.absentMembers == s.value.value)
    ensures Located(net, n).Some? && Located(net, n).value.SectionList? ==>
              var r := ScrapeSession(net, m, n);
              var urls := Located(net, n).value.urls;
              var s := ScrapeSections(net, m, urls);
              && r.memo == s.memo
              && (r.value.Some? <==> forall i :: 0 <= i < |urls| ==> DocumentReply(net, urls[i]).Ok?)
              && (r.value.Some? ==> r.value.value.protocolType == Sections && r.value.value.absentMembers == s.value.value)
  {
  }

  /** The record of session `n` from its full protocol at `u`. */
  function FullRecord(net: Net, m: Memo, n: int, u: string): (r: Step<SessionRecord>)
    requires Valid(m) && Faithful(m, net.clubOf)
    ensures Valid(r.memo) && Faithful(r.memo, net.clubOf)
    ensures DocumentReply(net, u).Err? ==> r == Step(m, None)
    ensures DocumentReply(net, u).Ok? ==>
              var s := ScanDocument(net, m, DocumentReply(net, u).body, u);
              r == Step(s.memo, Some(SessionRecord(n, SessionUrl(n), Full, s.value.value, net.clock(n))))
  {
    match DocumentReply(net, u)
    case Err(_) => Step(m, None)
    case Ok(doc) =>
      var s := ScanDocument(net, m, doc, u);
      Step(s.memo, Some(SessionRecord(n, SessionUrl(n), Full, s.value.value, net.clock(n))))
  }

  /** The record of session `n` from its protocol sections `urls`. */
  function SectionsRecord(net: Net, m: Memo, n: int, urls: seq<string>): (r: Step<SessionRecord>)
    requires Valid(m) && Faithful(m, net.clubOf)
    ensures Valid(r.memo) && Faithful(r.memo, net.clubOf)
    ensures var s := ScrapeSections(net, m, urls);
      && r.memo == s.memo
      && (r.value.Some? <==> forall i :: 0 <= i < |urls| ==> DocumentReply(net, urls[i]).Ok?)
      && (r.value.Some? ==> r.value.value == SessionRecord(n, SessionUrl(n), Sections, s.value.value, net.clock(n)))
  {
    var s := ScrapeSections(net, m, urls);
    if s.value.None? then Step(s.memo, None)
    else Step(s.memo, Some(SessionRecord(n, SessionUrl(n), Sections, s.value.value, net.clock(n))))
  }

  /** The scraper's state during the loop.  `attempted` and `outcomes` record
      which sessions were tried and what each gave, `memos` the memo before
      each attempt and after the last; `failures` is `consecutiveFailures`. */
  datatype Run = Run(memo: Memo, memos: seq<Memo>, results: seq<SessionRecord>, attempted: seq<int>,
                     outcomes: seq<Option<SessionRecord>>, failures: nat)

  /** Scraping session `n` from memo `a` leaves memo `b` and gives `o`. */
  ghost predicate SessionScraped(net: Net, a: Memo, n: int, b: Memo, o: Option<SessionRecord>) {
    Valid(a) && Faithful(a, net.clubOf) && ScrapeSession(net, a, n) == Step(b, o)
  }

  ghost function SessionScrape(net: Net): (Memo, int, Memo, Option<SessionRecord>) -> bool {
    (a, n, b, o) => SessionScraped(net, a, n, b, o)
  }

  /** The number of failures at the end of an outcome list, that is the
      failures since the last success. */
  function TrailingFailures(o: seq<Option<SessionRecord>>): nat
    decreases |o|
  {
    if |o| == 0 || o[|o| - 1].Some? then 0 else 1 + TrailingFailures(o[..|o| - 1])
  }

  /** The records among the outcomes, in order. */
  function Recorded(o: seq<Option<SessionRecord>>): seq<SessionRecord>
    decreases |o|
  {
    if |o| == 0 then [] else Recorded(o[..|o| - 1]) + (if o[|o| - 1].Some? then [o[|o| - 1].value] else [])
  }

  lemma {:induction false} RecordedAppend(a: seq<Option<SessionRecord>>, b: seq<Option<SessionRecord>>)
    ensures Recorded(a + b) == Recorded(a) + Recorded(b)
    decreases |b|
  {
    if |b| > 0 {
      assert (a + b)[..|a + b| - 1] == a + b[..|b| - 1];
      RecordedAppend(a, b[..|b| - 1]);
    } else {
      assert a + b == a;
    }
  }

  /** `if (endSession && session >= endSession) break`: an end of 0 is no
      end, as JavaScript treats 0 as false. */
  predicate EndReached(end: Option<int>, session: int) {
    end.Some? && end.value != 0 && session >= end.value
  }

  /** The state the loop keeps consistent. */
  ghost predicate Coherent(net: Net, st: Run) {
    && Valid(st.memo) && Faithful(st.memo, net.clubOf)
    && |st.outcomes| == |st.attempted|
    && Chained(st.memos, st.attempted, st.outcomes, SessionScrape(net))
    && st.memos[|st.memos| - 1] == st.memo
    && st.failures == TrailingFailures(st.outcomes)
    && st.results == Recorded(st.outcomes)
    && forall i :: 0 <= i < |st.outcomes| && st.outcomes[i].Some? ==>
         st.outcomes[i].value.session == st.attempted[i]
  }

  /** One iteration: scrape the session, keep its record, update the
      failure counter (a success resets it). */
  function Iterate(net: Net, st: Run, session: int): (r: Run)
    requires Coherent(net, st)
    ensures Coherent(net, r)
    ensures r.attempted == st.attempted + [session]
    ensures r.memos == st.memos + [r.memo]
    ensures |r.outcomes| == |st.outcomes| + 1 && r.outcomes[..|st.outcomes|] == st.outcomes
    ensures r.outcomes[|st.outcomes|] == ScrapeSession(net, st.memo, session).value
    ensures r.outcomes[|st.outcomes|].Some? ==> r.failures == 0
    ensures r.outcomes[|st.outcomes|].None? ==> r.failures == st.failures + 1
  {
    var s := ScrapeSession(net, st.memo, session);
    var outcomes := st.outcomes + [s.value];
    assert outcomes[..|outcomes| - 1] == st.outcomes;
    assert SessionScrape(net)(st.memos[|st.memos| - 1], session, s.memo, s.value);
    ChainedSnoc(st.memos, st.attempted, st.outcomes, SessionScrape(net), session, s.memo, s.value);
    Run(s.memo,
        st.memos + [s.memo],
        st.results + (if s.value.Some? then [s.value.value] else []),
        st.attempted + [session],
        outcomes,
        if s.value.Some? then 0 else st.failures + 1)
  }

  /** Sessions the site does not have fail. */
  lemma OutsideFails(net: Net, m: Memo, session: int)
    requires Valid(m) && Faithful(m, net.clubOf)
    ensures !(0 <= session < |net.sessionPages|) ==> ScrapeSession(net, m, session).value.None?
  {
  }

  /** The failure counter right after the `i`-th attempt. */
  function FailuresAt(o: seq<Option<SessionRecord>>, i: nat): nat
    requires i < |o|
  {
    TrailingFailures(o[..i + 1])
  }

  /** `r` continues `st` by the attempts `session`, `session + 1`, …: it
      keeps what `st` recorded, stops at three failures in a row or once the
      end is reached, and at no attempt before its last. */
  ghost predicate Continues(st: Run, r: Run, session: int, end: Option<int>)
    requires |r.outcomes| == |r.attempted|
  {
    && |r.attempted| > |st.attempted| && |st.outcomes| <= |r.outcomes| && |st.memos| <= |r.memos|
    && r.attempted[..|st.attempted|] == st.attempted
    && r.memos[..|st.memos|] == st.memos
    && r.outcomes[..|st.outcomes|] == st.outcomes
    && (forall i :: |st.attempted| <= i < |r.attempted| ==> r.attempted[i] == session + (i - |st.attempted|))
    && (r.failures >= MaxFailures || EndReached(end, r.attempted[|r.attempted| - 1]))
    && (forall i :: |st.attempted| <= i < |r.attempted| - 1 ==>
          FailuresAt(r.outcomes, i) < MaxFailures && !EndReached(end, r.attempted[i]))
  }

  /** `while (true)` from session `session` on.  It ends, because past the
      site's last session every attempt fails. */
  function Loop(net: Net, st: Run, session: int, end: Option<int>): (r: Run)
    requires Coherent(net, st) && st.failures < MaxFailures
    ensures Coherent(net, r) && Continues(st, r, session, end)
    decreases if session < |net.sessionPages| then |net.sessionPages| - session else 0, MaxFailures - st.failures
  {
    var st' := Iterate(net, st, session);
    OutsideFails(net, st.memo, session);
    if st'.failures >= MaxFailures || EndReached(end, session) then
      LastStep(net, st, st', session, end);
      st'
    else
      var r := Loop(net, st', session + 1, end);
      NextStep(net, st, st', r, session, end);
      r
  }

  /** The lengths a coherent run keeps in step. */
  predicate Shaped(st: Run) {
    |st.outcomes| == |st.attempted| && |st.memos| == |st.attempted| + 1
  }

  lemma LastStep(net: Net, st: Run, st': Run, session: int, end: Option<int>)
    requires Shaped(st) && Shaped(st') && st'.failures == TrailingFailures(st'.outcomes)
    requires st'.attempted == st.attempted + [session]
    requires st'.memos == st.memos + [st'.memo]
    requires |st'.outcomes| == |st.outcomes| + 1 && st'.outcomes[..|st.outcomes|] == st.outcomes
    requires st'.failures >= MaxFailures || EndReached(end, session)
    ensures Continues(st, st', session, end)
  {
    assert st'.memos[..|st.memos|] == st.memos;
  }

  lemma NextStep(net: Net, st: Run, st': Run, r: Run, session: int, end: Option<int>)
    requires Shaped(st) && Shaped(st') && Shaped(r) && st'.failures == TrailingFailures(st'.outcomes)
    requires st'.attempted == st.attempted + [session]
    requires st'.memos == st.memos + [st'.memo]
    requires |st'.outcomes| == |st.outcomes| + 1 && st'.outcomes[..|st.outcomes|] == st.outcomes
    requires st'.failures < MaxFailures && !EndReached(end, session)
    requires Continues(st', r, session + 1, end)
    ensures Continues(st, r, session, end)
  {
    var n := |st.attempted|;
    assert r.outcomes[..n] == r.outcomes[..n + 1][..n];
    assert r.attempted[..n] == r.attempted[..n + 1][..n];
    assert r.attempted[n] == st'.attempted[n] == session;
    assert r.outcomes[..n + 1] == st'.outcomes;
    assert FailuresAt(r.outcomes, n) == st'.failures;
    var k := |st.memos|;
    assert r.memos[..k] == r.memos[..k + 1][..k] == st'.memos[..k] == st.memos;
  }

  const Start: Run := Run(EmptyMemo, [EmptyMemo], [], [], [], 0)

  /** `scrapeAllSessions(start, end)` up to the end of the loop. */
  function Sessions(net: Net, start: int, end: Option<int>): (r: Run)
    ensures Coherent(net, r) && Continues(Start, r, start, end)
  {
    EmptyMemoValid(net.clubOf);
    Loop(net, Start, start, end)
  }

  /** Each outcome is what `scrapeSession` gives for the session tried,
      from the memo the earlier attempts left, starting with the empty
      memo; the final memo is the one the last attempt left. */
  lemma OutcomesAreScrapes(net: Net, start: int, end: Option<int>)
    ensures var r := Sessions(net, start, end);
      && |r.memos| == |r.attempted| + 1 && |r.outcomes| == |r.attempted|
      && r.memos[0] == EmptyMemo && r.memos[|r.memos| - 1] == r.memo
      && forall i :: 0 <= i < |r.attempted| ==>
           && Valid(r.memos[i]) && Faithful(r.memos[i], net.clubOf)
           && ScrapeSession(net, r.memos[i], r.attempted[i]) == Step(r.memos[i + 1], r.outcomes[i])
  {
    var r := Sessions(net, start, end);
    assert Continues(Start, r, start, end);
    assert r.memos[0] == r.memos[..1][0] == EmptyMemo;
    forall i | 0 <= i < |r.attempted|
      ensures && Valid(r.memos[i]) && Faithful(r.memos[i], net.clubOf)
              && ScrapeSession(net, r.memos[i], r.attempted[i]) == Step(r.memos[i + 1], r.outcomes[i])
    {
      assert SessionScrape(net)(r.memos[i], r.attempted[i], r.memos[i + 1], r.outcomes[i]);
    }
  }

  /** Sessions are tried one after another from `start`, and at least one
      is tried. */
  lemma ConsecutiveSessions(net: Net, start: int, end: Option<int>)
    ensures var r := Sessions(net, start, end);
      && |r.attempted| >= 1
      && forall i :: 0 <= i < |r.attempted| ==> r.attempted[i] == start + i
  {
    var r := Sessions(net, start, end);
    assert Continues(Start, r, start, end);
  }

  /** The loop stops at three failures in a row or once the end is reached,
      and not before: every earlier session left fewer than three trailing
      failures and was below the end. */
  lemma StopsExactly(net: Net, start: int, end: Option<int>)
    ensures var r := Sessions(net, start, end);
      && var last := |r.attempted| - 1;
      && (TrailingFailures(r.outcomes) >= MaxFailures || EndReached(end, r.attempted[last]))
      && forall i :: 0 <= i < last ==>
           FailuresAt(r.outcomes, i) < MaxFailures && !EndReached(end, r.attempted[i])
  {
    var r := Sessions(net, start, end);
    assert Continues(Start, r, start, end);
  }

  /** With `end == start` exactly one session is tried. */
  lemma EndAtStart(net: Net, start: int)
    requires start != 0
    ensures |Sessions(net, start, Some(start)).attempted| == 1
  {
    EmptyMemoValid(net.clubOf);
    var r := Sessions(net, start, Some(start));
    assert EndReached(Some(start), r.attempted[0]);
  }

  /** The recorded results are the records of the successful sessions, in
      the order tried. */
  lemma ResultsAreSuccesses(net: Net, start: int, end: Option<int>)
    ensures var r := Sessions(net, start, end);
      && r.results == Recorded(r.outcomes)
      && forall i :: 0 <= i < |r.outcomes| && r.outcomes[i].Some? ==> r.outcomes[i].value.session == start + i
  {
    var r := Sessions(net, start, end);
    assert Continues(Start, r, start, end);
  }

  /** When outcome `i` is for session `start + i`, the records come in
      strictly ascending session order, all in `start .. start + |o| - 1`. */
  lemma {:induction false} RecordedSessions(o: seq<Option<SessionRecord>>, start: int)
    requires forall i :: 0 <= i < |o| && o[i].Some? ==> o[i].value.session == start + i
    ensures forall k :: 0 <= k < |Recorded(o)| ==> start <= Recorded(o)[k].session < start + |o|
    ensures forall a, b :: 0 <= a < b < |Recorded(o)| ==> Recorded(o)[a].session < Recorded(o)[b].session
    decreases |o|
  {
    if |o| > 0 {
      var init := o[..|o| - 1];
      assert forall i :: 0 <= i < |init| ==> init[i] == o[i];
      RecordedSessions(init, start);
      var last := if o[|o| - 1].Some? then [o[|o| - 1].value] else [];
      assert Recorded(o) == Recorded(init) + last;
    }
  }

  /** Backfill eligibility: no profile, or the club `'Unknown'`. */
  predicate NeedsBackfill(p: Mention) {
    p.profileUrl.None? || p.profileUrl == Some("") || p.club == "Unknown"
  }

  /** `backfillPersonInfo` on one person entry. */
  function BackfillMention(index: map<string, Mention>, p: Mention): (r: Mention)
    ensures NeedsBackfill(p) && p.name in index ==> r == index[p.name]
    ensures !(NeedsBackfill(p) && p.name in index) ==> r == p
  {
    if NeedsBackfill(p) && p.name in index then index[p.name] else p
  }

  function BackfillAbsence(index: map<string, Mention>, a: Absence): (r: Absence)
    ensures r.text == a.text && r.protocolUrl == a.protocolUrl && |r.names| == |a.names|
    ensures forall i :: 0 <= i < |a.names| ==> r.names[i] == BackfillMention(index, a.names[i])
  {
    Absence(a.text, seq(|a.names|, i requires 0 <= i < |a.names| => BackfillMention(index, a.names[i])), a.protocolUrl)
  }

  function BackfillSession(index: map<string, Mention>, s: SessionRecord): (r: SessionRecord)
    ensures r.session == s.session && r.url == s.url && r.protocolType == s.protocolType
    ensures r.scrapedAt == s.scrapedAt && |r.absentMembers| == |s.absentMembers|
    ensures forall i :: 0 <= i < |s.absentMembers| ==>
              r.absentMembers[i] == BackfillAbsence(index, s.absentMembers[i])
  {
    s.(absentMembers := seq(|s.absentMembers|, i requires 0 <= i < |s.absentMembers| =>
                              BackfillAbsence(index, s.absentMembers[i])))
  }

  /** `backfillPersonInfo()` over the whole result list, through the name
      index as it stands after the loop. */
  function Backfill(index: map<string, Mention>, results: seq<SessionRecord>): (r: seq<SessionRecord>)
    ensures |r| == |results|
    ensures forall i :: 0 <= i < |r| ==> r[i] == BackfillSession(index, results[i])
  {
    seq(|results|, i requires 0 <= i < |results| => BackfillSession(index, results[i]))
  }

  /** Session records in strictly ascending order of their number, none
      before `start`. */
  ghost predicate Ascending(rs: seq<SessionRecord>, start: int) {
    && (forall i, j :: 0 <= i < j < |rs| ==> rs[i].session < rs[j].session)
    && (forall i :: 0 <= i < |rs| ==> start <= rs[i].session)
  }

  /** Backfilling keeps the records of consecutive attempts from `start` in
      ascending session order. */
  lemma BackfillAscending(index: map<string, Mention>, o: seq<Option<SessionRecord>>, start: int)
    requires forall i :: 0 <= i < |o| && o[i].Some? ==> o[i].value.session == start + i
    ensures Ascending(Backfill(index, Recorded(o)), start)
  {
    RecordedSessions(o, start);
  }

  /** Backfill changes only eligible entries with an index hit, and those
      become the indexed person; the session, absence and name lists keep
      their shape and every other field. */
  lemma BackfillOnlyTouchesEligible(index: map<string, Mention>, results: seq<SessionRecord>,
                                    i: nat, j: nat, k: nat)
    requires i < |results| && j < |results[i].absentMembers| && k < |results[i].absentMembers[j].names|
    ensures var p := results[i].absentMembers[j].names[k];
      var q := Backfill(index, results)[i].absentMembers[j].names[k];
      && (q != p ==> NeedsBackfill(p) && p.name in index && q == index[p.name])
      && (NeedsBackfill(p) && p.name in index ==> q == index[p.name])
  {
  }

  /** With a valid memo, every entry backfilled from the index gains a
      profile. */
  lemma BackfillGivesProfile(m: Memo, p: Mention)
    requires Valid(m) && NeedsBackfill(p) && p.name in m.index
    ensures BackfillMention(m.index, p).profileUrl.Some?
  {
  }

  /** The whole of `scrapeAllSessions`: the loop, the backfill, and the
      active-member counts (`null` when fetching them fails). */
  datatype Scraped = Scraped(memo: Memo, sessions: seq<SessionRecord>,
                             activeMembers: Option<map<string, nat>>)

  /** The sessions come out in strictly ascending order of their number,
      none before `start`; each is a successful session's record with its
      person entries backfilled through the final name index. */
  function ScrapeAllSessions(net: Net, start: int, end: Option<int>): (r: Scraped)
    ensures var loop := Sessions(net, start, end);
      && r.memo == loop.memo
      && r.sessions == Backfill(loop.memo.index, loop.results)
      && (r.activeMembers.Some? <==> Members.ActiveMemberCount(net.api).Ok?)
    ensures Ascending(r.sessions, start)
  {
    var loop := Sessions(net, start, end);
    ResultsAreSuccesses(net, start, end);
    BackfillAscending(loop.memo.index, loop.outcomes, start);
    Scraped(loop.memo, Backfill(loop.memo.index, loop.results), Members.ActiveMembersOrNull(net.api))
  }
}
