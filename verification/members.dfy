/** `fetchActiveMemberCount` (scraper.js:631-733): the number of sitting
    members per party, read from the parliament's paginated member API.
    Each page request goes through the retry of `fetchApiPage`; the reply is
    abstracted to its parsed `rows`. */
module Members {
  import opened Common
  import opened Text
  import Fetch
  import Clubs

  const PageSize: nat := 50

  /** One API row: a JSON array of cells (only string cells are modelled),
      or anything else. */
  datatype Row = Cells(cells: seq<string>) | NotAList

  /** A parsed reply: `data.rows` present, or not. */
  datatype ApiPage = Rows(rows: seq<Row>) | NoRows

  /** The API's replies: `pages[k]` answers the requests for page `k + 1`
      (attempt by attempt); a page beyond the list fails. A reply that does
      not parse as JSON is an `Err` as well, since `JSON.parse` throws
      inside the same `try`. */
  datatype Api = Api(pages: seq<nat -> Attempt<ApiPage>>, spanText: string -> Option<string>)

  /** What the pagination loop sees: the reply to each page request after
      the retries of `fetchApiPage`, and the span reader. */
  datatype Feed = Feed(replies: seq<Attempt<ApiPage>>, spanText: string -> Option<string>)

  function FeedOf(api: Api): (f: Feed)
    ensures f.spanText == api.spanText
    ensures |f.replies| == |api.pages| &&
            forall k :: 0 <= k < |api.pages| ==> f.replies[k] == Fetch.Fetch(api.pages[k]).result
  {
    Feed(seq(|api.pages|, k requires 0 <= k < |api.pages| => Fetch.Fetch(api.pages[k]).result), api.spanText)
  }

  /** The reply to page index `k`; a page beyond the list fails. */
  function PageReply(f: Feed, k: nat): Attempt<ApiPage> {
    if k < |f.replies| then f.replies[k] else Err("HTTP 404")
  }

  /** The party of a row, when the row is counted at all: an array of at
      least two cells whose second cell is non-empty markup containing a
      `span`; the label is the span's trimmed text, normalised.
      `spanText` stands for parsing the markup and reading the first
      `span`'s text content. */
  function PartyOf(f: Feed, row: Row): (r: Option<string>)
    ensures r.Some? <==> row.Cells? && |row.cells| > 1 && row.cells[1] != "" && f.spanText(row.cells[1]).Some?
    ensures r.Some? ==> r.value == Clubs.NormalizeClubName(Trim(f.spanText(row.cells[1]).value))
    ensures r.Some? ==> Normalised(r.value)
  {
    match row
    case NotAList => None
    case Cells(c) =>
      if |c| > 1 && c[1] != "" then
        match f.spanText(c[1])
        case Some(t) =>
          Clubs.NormalizeIdempotent(Trim(t));
          Some(Clubs.NormalizeClubName(Trim(t)))
        case None => None
      else None
  }

  /** A label that the normalisation leaves as it is. */
  predicate Normalised(k: string) {
    Clubs.NormalizeClubName(k) == k
  }

  /** Per-party counts, with the total number of counted members. */
  datatype Tally = Tally(counts: map<string, nat>, total: nat)

  /** Sum of the counts of a map. */
  ghost function MapSum(m: map<string, nat>): nat
    decreases |m|
  {
    if |m| == 0 then 0
    else
      var k := PickKey(m);
      m[k] + MapSum(m - {k})
  }

  ghost function PickKey(m: map<string, nat>): (k: string)
    requires |m| > 0
    ensures k in m
  {
    assert exists k :: k in m by {
      var k :| k in m.Keys;
    }
    var k :| k in m; k
  }

  /** Adding one to the count of `k` adds one to the sum. */
  lemma {:induction false} MapSumIncrement(m: map<string, nat>, k: string)
    ensures MapSum(m[k := if k in m then m[k] + 1 else 1]) == MapSum(m) + 1
    decreases |m|
  {
    var m' := m[k := if k in m then m[k] + 1 else 1];
    if k in m {
      MapSumRemove(m', k);
      MapSumRemove(m, k);
      assert m' - {k} == m - {k};
    } else {
      MapSumRemove(m', k);
      assert m' - {k} == m;
    }
  }

  /** The sum does not depend on which key is taken first. */
  lemma {:induction false} MapSumRemove(m: map<string, nat>, k: string)
    requires k in m
    ensures MapSum(m) == m[k] + MapSum(m - {k})
    decreases |m|
  {
    var j := PickKey(m);
    if j != k {
      var mj := m - {j};
      var mk := m - {k};
      MapSumRemove(mj, k);
      MapSumRemove(mk, j);
      assert mj - {k} == mk - {j};
    }
  }

  /** `activeMembersByParty.set(p, (get(p) || 0) + 1)` and `totalMembers++`. */
  function Count(t: Tally, p: string): (r: Tally)
    ensures r.total == t.total + 1
    ensures r.counts.Keys == t.counts.Keys + {p}
    ensures r.counts[p] == (if p in t.counts then t.counts[p] + 1 else 1)
    ensures forall k :: k in t.counts && k != p ==> r.counts[k] == t.counts[k]
    ensures MapSum(t.counts) == t.total ==> MapSum(r.counts) == r.total
  {
    var c := t.counts[p := if p in t.counts then t.counts[p] + 1 else 1];
    assert c.Keys == t.counts.Keys + {p};
    MapSumIncrement(t.counts, p);
    Tally(c, t.total + 1)
  }

  /** The count of `p` in `m`, 0 when absent (`get(p) || 0`). */
  function Get(m: map<string, nat>, p: string): nat {
    if p in m then m[p] else 0
  }

  /** The rows of `rows` counted for party `p`. */
  function CountFor(f: Feed, rows: seq<Row>, p: string): nat
    decreases |rows|
  {
    if |rows| == 0 then 0 else (if PartyOf(f, rows[0]) == Some(p) then 1 else 0) + CountFor(f, rows[1..], p)
  }

  /** Every key of the counts is a normalised label. */
  predicate LabelsNormalised(counts: map<string, nat>) {
    forall k :: k in counts ==> Normalised(k)
  }

  /** The row loop of one page. */
  function TallyRows(f: Feed, t: Tally, rows: seq<Row>): (r: Tally)
    ensures r.total == t.total + Countable(f, rows)
    ensures MapSum(t.counts) == t.total ==> MapSum(r.counts) == r.total
    ensures LabelsNormalised(t.counts) ==> LabelsNormalised(r.counts)
    decreases |rows|
  {
    if |rows| == 0 then t
    else
      var t' := if PartyOf(f, rows[0]).Some? then Count(t, PartyOf(f, rows[0]).value) else t;
      TallyRows(f, t', rows[1..])
  }

  /** A page adds to each party the rows counted for it, and a party gets a
      key exactly when it had one or got a row. */
  lemma {:induction false} TallyParties(f: Feed, t: Tally, rows: seq<Row>)
    ensures forall p :: Get(TallyRows(f, t, rows).counts, p) == Get(t.counts, p) + CountFor(f, rows, p)
    ensures forall p :: p in TallyRows(f, t, rows).counts <==> p in t.counts || CountFor(f, rows, p) > 0
    decreases |rows|
  {
    if |rows| > 0 {
      var o := PartyOf(f, rows[0]);
      var t' := if o.Some? then Count(t, o.value) else t;
      if o.Some? {
        CountGet(t, o.value);
      }
      TallyParties(f, t', rows[1..]);
      assert TallyRows(f, t, rows) == TallyRows(f, t', rows[1..]);
      assert forall p :: CountFor(f, rows, p) == (if o == Some(p) then 1 else 0) + CountFor(f, rows[1..], p);
    }
  }

  /** Counting a member of `q` adds one to `q`'s count and to nothing else. */
  lemma CountGet(t: Tally, q: string)
    ensures forall p :: Get(Count(t, q).counts, p) == Get(t.counts, p) + (if p == q then 1 else 0)
    ensures forall p :: p in Count(t, q).counts <==> p in t.counts || p == q
  {
  }

  /** The number of counted rows. */
  function Countable(f: Feed, rows: seq<Row>): nat
    decreases |rows|
  {
    if |rows| == 0 then 0 else (if PartyOf(f, rows[0]).Some? then 1 else 0) + Countable(f, rows[1..])
  }

  /** A page after which the loop asks for the next one: it came back, has
      rows, and is full. */
  predicate Continues(reply: Attempt<ApiPage>) {
    reply.Ok? && reply.body.Rows? && |reply.body.rows| >= PageSize
  }

  /** The rows counted from a reply (none for a failed or row-less reply). */
  function ReplyRows(reply: Attempt<ApiPage>): seq<Row> {
    if reply.Ok? && reply.body.Rows? then reply.body.rows else []
  }

  /** The `while (hasMorePages)` loop from page index `k` on: the tally and
      the number of pages requested so far. */
  function Paginate(f: Feed, k: nat, t: Tally): (r: (Tally, nat))
    ensures r.1 > k
    ensures forall j :: k <= j < r.1 - 1 ==> Continues(PageReply(f, j))
    ensures !Continues(PageReply(f, r.1 - 1))
    ensures r.0.total == t.total + RowsRead(f, k, r.1)
    ensures MapSum(t.counts) == t.total ==> MapSum(r.0.counts) == r.0.total
    ensures LabelsNormalised(t.counts) ==> LabelsNormalised(r.0.counts)
    decreases |f.replies| + 1 - k
  {
    var reply := PageReply(f, k);
    var t' := TallyRows(f, t, ReplyRows(reply));
    if Continues(reply) then
      assert k < |f.replies|;
      var r := Paginate(f, k + 1, t');
      assert RowsRead(f, k, r.1) == Countable(f, ReplyRows(reply)) + RowsRead(f, k + 1, r.1);
      r
    else
      assert RowsRead(f, k, k + 1) == Countable(f, ReplyRows(reply));
      var r := (t', k + 1);
      assert PageReply(f, r.1 - 1) == reply;
      r
  }

  /** Each party's count grows by the members of that party on the pages
      the loop reads, and a party gets a key exactly when it had one or
      such a member was read. */
  lemma {:induction false} PaginateParties(f: Feed, k: nat, t: Tally)
    ensures PartiesRead(f, k, t, Paginate(f, k, t))
    decreases |f.replies| + 1 - k
  {
    if Continues(PageReply(f, k)) {
      assert k < |f.replies|;
      var t' := TallyRows(f, t, ReplyRows(PageReply(f, k)));
      PaginateParties(f, k + 1, t');
      PartiesGo(f, k, t, t');
    } else {
      PartiesStop(f, k, t);
    }
  }

  /** `r` adds to `t` the members of each party on pages `k` to `r.1 - 1`. */
  ghost predicate PartiesRead(f: Feed, k: nat, t: Tally, r: (Tally, nat)) {
    && k <= r.1
    && (forall p :: Get(r.0.counts, p) == Get(t.counts, p) + PartyRead(f, k, r.1, p))
    && (forall p :: p in r.0.counts <==> p in t.counts || PartyRead(f, k, r.1, p) > 0)
  }

  lemma PartiesGo(f: Feed, k: nat, t: Tally, t': Tally)
    requires Continues(PageReply(f, k)) && k < |f.replies|
    requires t' == TallyRows(f, t, ReplyRows(PageReply(f, k)))
    requires PartiesRead(f, k + 1, t', Paginate(f, k + 1, t'))
    ensures PartiesRead(f, k, t, Paginate(f, k, t))
  {
    var rows := ReplyRows(PageReply(f, k));
    var r := Paginate(f, k + 1, t');
    TallyParties(f, t, rows);
    assert Paginate(f, k, t) == r;
    assert forall p :: PartyRead(f, k, r.1, p) == CountFor(f, rows, p) + PartyRead(f, k + 1, r.1, p);
  }

  lemma PartiesStop(f: Feed, k: nat, t: Tally)
    requires !Continues(PageReply(f, k))
    ensures PartiesRead(f, k, t, Paginate(f, k, t))
  {
    var rows := ReplyRows(PageReply(f, k));
    TallyParties(f, t, rows);
    assert Paginate(f, k, t) == (TallyRows(f, t, rows), k + 1);
    assert forall p :: PartyRead(f, k, k + 1, p) == CountFor(f, rows, p);
  }

  /** The members counted from the pages with index `k` up to `n`. */
  function RowsRead(f: Feed, k: nat, n: nat): nat
    requires k <= n
    decreases n - k
  {
    if k == n then 0 else Countable(f, ReplyRows(PageReply(f, k))) + RowsRead(f, k + 1, n)
  }

  /** The members of party `p` counted from the pages with index `k` up to
      `n`. */
  function PartyRead(f: Feed, k: nat, n: nat, p: string): nat
    requires k <= n
    decreases n - k
  {
    if k == n then 0 else CountFor(f, ReplyRows(PageReply(f, k)), p) + PartyRead(f, k + 1, n, p)
  }

  const NoMembers: string := "No members found in API response"
  const FailurePrefix: string := "Failed to fetch active member count: "

  /** `fetchActiveMemberCount()`: the per-party counts when at least one
      member was counted, otherwise the error it throws.  The counts add up
      to the number of counted members, every key is a normalised party
      label, and the pages read are exactly those up to the first page that
      is missing, failed, empty or shorter than a full page. */
  function ActiveMemberCount(api: Api): (r: Attempt<map<string, nat>>)
    ensures var f := FeedOf(api);
      var (t, n) := Paginate(f, 0, Tally(map[], 0));
      && (r.Ok? <==> RowsRead(f, 0, n) > 0)
      && (r.Ok? ==> r.body == t.counts && MapSum(r.body) == RowsRead(f, 0, n)
                    && LabelsNormalised(r.body))
      && (r.Ok? ==> forall p :: && Get(r.body, p) == PartyRead(f, 0, n, p)
                                && (p in r.body <==> PartyRead(f, 0, n, p) > 0))
      && (r.Err? ==> r.message == FailurePrefix + NoMembers)
  {
    var (t, n) := Paginate(FeedOf(api), 0, Tally(map[], 0));
    PaginateParties(FeedOf(api), 0, Tally(map[], 0));
    if t.total > 0 then Ok(t.counts) else Err(FailurePrefix + NoMembers)
  }

  /** `scrapeAllSessions` swallows the error: the counts become `null`. */
  function ActiveMembersOrNull(api: Api): (r: Option<map<string, nat>>)
    ensures r.Some? <==> ActiveMemberCount(api).Ok?
  {
    match ActiveMemberCount(api)
    case Ok(c) => Some(c)
    case Err(_) => None
  }

  /** `n` rows of FPÖ members. */
  function MemberRows(n: nat): seq<Row> {
    seq(n, i => Cells(["name", "<span>FPÖ</span>"]))
  }

  /** A reply that succeeds at once with the given rows. */
  function Serve(rows: seq<Row>): nat -> Attempt<ApiPage> {
    _ => Ok(Rows(rows))
  }

  lemma {:induction false} CountableAll(f: Feed, rows: seq<Row>)
    requires forall i :: 0 <= i < |rows| ==> PartyOf(f, rows[i]).Some?
    ensures Countable(f, rows) == |rows|
    decreases |rows|
  {
    if |rows| > 0 {
      CountableAll(f, rows[1..]);
    }
  }

  /** Every row of `MemberRows(n)` is counted once its party span resolves. */
  lemma CountedMembers(f: Feed, n: nat)
    requires f.spanText("<span>FPÖ</span>").Some?
    ensures Countable(f, MemberRows(n)) == n
  {
    var row := Cells(["name", "<span>FPÖ</span>"]);
    assert PartyOf(f, row).Some?;
    forall i | 0 <= i < n
      ensures PartyOf(f, MemberRows(n)[i]).Some?
    {
      assert MemberRows(n)[i] == row;
    }
    CountableAll(f, MemberRows(n));
  }

  /** A page served at once comes back on the first attempt. */
  lemma ServedAtOnce(rows: seq<Row>)
    ensures Fetch.Fetch(Serve(rows)).result == Ok(Rows(rows))
  {
    assert Serve(rows)(0) == Ok(Rows(rows));
  }

  /** After a full page the loop asks for the next one. */
  lemma GoesOn(f: Feed, k: nat, t: Tally)
    requires Continues(PageReply(f, k))
    ensures Paginate(f, k, t) == Paginate(f, k + 1, TallyRows(f, t, ReplyRows(PageReply(f, k))))
  {
  }

  /** After any other page the loop stops. */
  lemma StopsAt(f: Feed, k: nat, t: Tally)
    requires !Continues(PageReply(f, k))
    ensures Paginate(f, k, t) == (TallyRows(f, t, ReplyRows(PageReply(f, k))), k + 1)
  {
  }

  /** A first page of fifty counted rows and a second of twelve: two pages
      are read and 62 members are counted. */
  lemma TwoPages(f: Feed)
    requires PageReply(f, 0) == Ok(Rows(MemberRows(50))) && PageReply(f, 1) == Ok(Rows(MemberRows(12)))
    requires f.spanText("<span>FPÖ</span>").Some?
    ensures Paginate(f, 0, Tally(map[], 0)).1 == 2 && Paginate(f, 0, Tally(map[], 0)).0.total == 62
  {
    CountedMembers(f, 50);
    CountedMembers(f, 12);
    FullThenShort(f, MemberRows(50), MemberRows(12));
  }

  /** A full page then a short one: two pages are read, and every counted
      row of both is counted. */
  lemma FullThenShort(f: Feed, a: seq<Row>, b: seq<Row>)
    requires PageReply(f, 0) == Ok(Rows(a)) && |a| >= PageSize
    requires PageReply(f, 1) == Ok(Rows(b)) && |b| < PageSize
    ensures Paginate(f, 0, Tally(map[], 0)).1 == 2
    ensures Paginate(f, 0, Tally(map[], 0)).0.total == Countable(f, a) + Countable(f, b)
  {
    var t0 := Tally(map[], 0);
    GoesOn(f, 0, t0);
    StopsAt(f, 1, TallyRows(f, t0, a));
  }

  /** Fifty members on page 1 and twelve on page 2, each page served at
      once: two pages are read and 62 members are counted. */
  lemma SixtyTwoMembers(spanText: string -> Option<string>)
    requires spanText("<span>FPÖ</span>").Some?
    ensures var f := FeedOf(Api([Serve(MemberRows(50)), Serve(MemberRows(12))], spanText));
      Paginate(f, 0, Tally(map[], 0)).1 == 2 &&
      Paginate(f, 0, Tally(map[], 0)).0.total == 62
  {
    var f := FeedOf(Api([Serve(MemberRows(50)), Serve(MemberRows(12))], spanText));
    ServedAtOnce(MemberRows(50));
    ServedAtOnce(MemberRows(12));
    TwoPages(f);
  }
}
