/** `parseNamesWithLinks` (scraper.js:235-313): the mentions of one absence
    paragraph, resolved through the person cache (`personCache`, keyed by
    profile URL) and recorded in the name index (`nameToPersonMap`).  The
    club lookup `fetchClubInfo` is the oracle `clubOf`; `lookups` logs every
    call made to it, in order. */
module Resolver {
  import opened Common
  import opened Text
  import opened Titles
  import opened Names
  import opened Records
  import Clubs

  /** The scraper's person memory: cache, name index and the log of club
      lookups performed so far. */
  datatype Memo = Memo(cache: map<string, Mention>, index: map<string, Mention>, lookups: seq<string>)

  const EmptyMemo: Memo := Memo(map[], map[], [])

  /** A memo as the resolver keeps it: every cached URL was looked up exactly
      once, nothing else was looked up, each entry carries its own URL, and
      every indexed person has a profile. */
  ghost predicate Valid(m: Memo) {
    && NoDup(m.lookups)
    && (forall u :: u in m.cache <==> u in m.lookups)
    && (forall u :: u in m.cache ==> m.cache[u].profileUrl == Some(u))
    && (forall k :: k in m.index ==> m.index[k].profileUrl.Some?)
  }

  /** Every cached club is what the lookup answers for that URL. */
  ghost predicate Faithful(m: Memo, clubOf: string -> string) {
    forall u :: u in m.cache ==> m.cache[u].club == clubOf(u)
  }

  lemma EmptyMemoValid(clubOf: string -> string)
    ensures Valid(EmptyMemo) && Faithful(EmptyMemo, clubOf)
  {
  }

  /** The selector `a[href*="/person/"]`. */
  predicate IsPersonLink(l: Link) {
    Contains(l.href, "/person/")
  }

  /** The `href && rawName` guard. */
  predicate Usable(l: Link) {
    l.href != "" && Trim(l.text) != ""
  }

  function PersonLinks(p: Paragraph): seq<Link> {
    Filter(p.links, IsPersonLink)
  }

  /** Absolute URLs are kept, site-relative ones get the site's origin. */
  function ProfileUrl(href: string): (u: string)
    ensures StartsWith(href, "http") ==> u == href
    ensures !StartsWith(href, "http") ==> u == BaseUrl + href
  {
    if StartsWith(href, "http") then href else BaseUrl + href
  }

  /** A profile URL is absolute: it starts with "http", ends with the link's
      href, and making it absolute again changes nothing. */
  lemma ProfileUrlAbsolute(href: string)
    ensures StartsWith(ProfileUrl(href), "http")
    ensures var u := ProfileUrl(href); |href| <= |u| && u[|u| - |href|..] == href
    ensures ProfileUrl(ProfileUrl(href)) == ProfileUrl(href)
  {
    if !StartsWith(href, "http") {
      assert (BaseUrl + href)[..4] == BaseUrl[..4] == "http";
    }
  }

  /** The display name taken from a link: its trimmed text, titles and a
      trailing comma removed. */
  function LinkName(l: Link): string {
    CleanLinkName(Trim(l.text))
  }

  /** The index key for the last blank-separated token of a name, when it is
      non-empty and differs from the whole name: the text after the name's
      last blank.  There is none when the name has no blank or ends in one. */
  function FamilyKey(name: string): (k: Option<string>)
    ensures k.Some? ==> && 0 < |k.value| < |name| && ' ' !in k.value
                        && name[|name| - |k.value|..] == k.value && name[|name| - |k.value| - 1] == ' '
    ensures k.None? <==> |name| == 0 || name[|name| - 1] == ' ' || ' ' !in name
  {
    var f := LastToken(name);
    if f != "" && f != name then Some(f) else None
  }

  /** Result of resolving: the updated memo and the mentions produced. */
  datatype Resolved = Resolved(memo: Memo, mentions: seq<Mention>)

  /** The name index after recording entry `e`: under its name and, when
      it has one, its family name; every other key keeps its entry. */
  function Index(index: map<string, Mention>, e: Mention): (r: map<string, Mention>)
    ensures e.name in r && r[e.name] == e
    ensures FamilyKey(e.name).Some? ==> FamilyKey(e.name).value in r && r[FamilyKey(e.name).value] == e
    ensures r.Keys == index.Keys + {e.name} + (if FamilyKey(e.name).Some? then {FamilyKey(e.name).value} else {})
    ensures forall k :: k in index && k != e.name && Some(k) != FamilyKey(e.name) ==> r[k] == index[k]
  {
    var named := index[e.name := e];
    match FamilyKey(e.name)
    case Some(f) => named[f := e]
    case None => named
  }

  /** The writes of a cache miss: the new entry `e` for URL `u` goes into
      the cache, into the index under its name and family name, and `u`
      into the lookup log; every other entry stays as it was. */
  function Remember(m: Memo, u: string, e: Mention): (r: Memo)
    ensures r.lookups == m.lookups + [u]
    ensures r.cache.Keys == m.cache.Keys + {u} && r.cache[u] == e
    ensures forall v :: v in m.cache && v != u ==> r.cache[v] == m.cache[v]
    ensures e.name in r.index && r.index[e.name] == e
    ensures FamilyKey(e.name).Some? ==>
              FamilyKey(e.name).value in r.index && r.index[FamilyKey(e.name).value] == e
    ensures r.index.Keys == m.index.Keys + {e.name}
              + (if FamilyKey(e.name).Some? then {FamilyKey(e.name).value} else {})
    ensures forall k :: k in m.index && k != e.name && Some(k) != FamilyKey(e.name) ==>
              r.index[k] == m.index[k]
  {
    var cache := m.cache[u := e];
    assert cache.Keys == m.cache.Keys + {u};
    Memo(cache, Index(m.index, e), m.lookups + [u])
  }

  /** One person link.  On a cache hit the cached club is reused and nothing
      is written; on a miss the oracle is asked once and its answer is
      remembered. */
  function ResolveLink(m: Memo, l: Link, clubOf: string -> string): (r: Resolved)
    ensures !Usable(l) ==> r == Resolved(m, [])
    ensures Usable(l) ==>
              && |r.mentions| == 1
              && r.mentions[0].name == LinkName(l)
              && r.mentions[0].profileUrl == Some(ProfileUrl(l.href))
    ensures Usable(l) && ProfileUrl(l.href) in m.cache ==>
              r.memo == m && r.mentions[0].club == m.cache[ProfileUrl(l.href)].club
    ensures Usable(l) && ProfileUrl(l.href) !in m.cache ==>
              && r.mentions[0].club == clubOf(ProfileUrl(l.href))
              && r.memo == Remember(m, ProfileUrl(l.href), r.mentions[0])
  {
    if !Usable(l) then Resolved(m, [])
    else
      var u := ProfileUrl(l.href);
      var name := LinkName(l);
      if u in m.cache then
        Resolved(m, [Mention(name, Some(u), m.cache[u].club)])
      else
        var e := Mention(name, Some(u), clubOf(u));
        Resolved(Remember(m, u, e), [e])
  }

  /** Resolving one link keeps the memo valid and faithful, and its mention's
      club is the oracle's answer for the link's URL, whether it came from
      the cache or from a fresh lookup. */
  lemma ResolveLinkKeeps(m: Memo, l: Link, clubOf: string -> string)
    requires Valid(m) && Faithful(m, clubOf)
    ensures var r := ResolveLink(m, l, clubOf);
      && Valid(r.memo) && Faithful(r.memo, clubOf)
      && (Usable(l) ==> r.mentions[0].club == clubOf(ProfileUrl(l.href)))
  {
    if Usable(l) && ProfileUrl(l.href) !in m.cache {
      var r := ResolveLink(m, l, clubOf);
      RememberKeeps(m, ProfileUrl(l.href), r.mentions[0], clubOf);
    }
  }

  /** The mentions of one link: none for an unusable link, else one with
      the link's name, URL and the oracle's club. */
  lemma ResolveLinkMentions(m: Memo, l: Link, clubOf: string -> string)
    requires Faithful(m, clubOf)
    ensures MentionsOf(ResolveLink(m, l, clubOf).mentions, if Usable(l) then [l] else [], clubOf)
  {
    if Usable(l) {
      var u := ProfileUrl(l.href);
      var e := Mention(LinkName(l), Some(u), clubOf(u));
      if u in m.cache {
        assert m.cache[u].club == clubOf(u);
      }
      assert ResolveLink(m, l, clubOf).mentions == [e];
      MentionOfLink(l, clubOf);
    }
  }

  lemma RememberKeeps(m: Memo, u: string, e: Mention, clubOf: string -> string)
    requires Valid(m) && Faithful(m, clubOf) && u !in m.cache
    requires e.profileUrl == Some(u) && e.club == clubOf(u)
    ensures Valid(Remember(m, u, e)) && Faithful(Remember(m, u, e), clubOf)
  {
    var r := Remember(m, u, e);
    assert u !in m.lookups;
    NoDupSnoc(m.lookups, u);
  }

  /** `ms` are the mentions of the links `q`, one per link and in order:
      the link's cleaned name, its absolute URL and the oracle's club for
      that URL. */
  ghost predicate MentionsOf(ms: seq<Mention>, q: seq<Link>, clubOf: string -> string) {
    |ms| == |q| &&
    forall i :: 0 <= i < |q| ==>
      && ms[i].name == LinkName(q[i])
      && ms[i].profileUrl == Some(ProfileUrl(q[i].href))
      && ms[i].club == clubOf(ProfileUrl(q[i].href))
  }

  lemma MentionOfLink(l: Link, clubOf: string -> string)
    ensures var u := ProfileUrl(l.href);
      MentionsOf([Mention(LinkName(l), Some(u), clubOf(u))], [l], clubOf)
  {
  }

  /** The links whose mentions `ResolveLinks` produces, in order. */
  function UsableLinks(links: seq<Link>): seq<Link> {
    Filter(links, Usable)
  }

  /** The URLs of `links` that the memo does not know yet, the first
      occurrence of each, in order: exactly the lookups that resolving the
      links performs. */
  function FreshUrls(cache: set<string>, links: seq<Link>): (r: seq<string>)
    ensures forall i :: 0 <= i < |r| ==> r[i] !in cache
    decreases |links|
  {
    if |links| == 0 then []
    else if Usable(links[0]) && ProfileUrl(links[0].href) !in cache then
      var u := ProfileUrl(links[0].href);
      [u] + FreshUrls(cache + {u}, links[1..])
    else FreshUrls(cache, links[1..])
  }

  /** The link loop of `parseNamesWithLinks`: one mention per usable link, in
      link order, each carrying the link's URL and the oracle's club; the
      cache only grows, and the oracle is asked only for URLs not seen
      before, once each. */
  function ResolveLinks(m: Memo, links: seq<Link>, clubOf: string -> string): (r: Resolved)
    requires Valid(m) && Faithful(m, clubOf)
    ensures Valid(r.memo) && Faithful(r.memo, clubOf)
    ensures MentionsOf(r.mentions, UsableLinks(links), clubOf)
    ensures r.memo.lookups == m.lookups + FreshUrls(m.cache.Keys, links)
    ensures forall u :: u in m.cache ==> u in r.memo.cache && r.memo.cache[u] == m.cache[u]
    decreases |links|
  {
    if |links| == 0 then Resolved(m, [])
    else
      var a := ResolveLink(m, links[0], clubOf);
      ResolveLinkKeeps(m, links[0], clubOf);
      ResolveLinkMentions(m, links[0], clubOf);
      var b := ResolveLinks(a.memo, links[1..], clubOf);
      ResolveLinksStep(links, a.mentions, b.mentions, clubOf);
      FreshUrlsStep(m, links, a.memo);
      Resolved(b.memo, a.mentions + b.mentions)
  }

  /** The mentions of the first link followed by those of the rest are the
      mentions of all usable links. */
  lemma ResolveLinksStep(links: seq<Link>, x: seq<Mention>, y: seq<Mention>, clubOf: string -> string)
    requires |links| > 0
    requires MentionsOf(x, if Usable(links[0]) then [links[0]] else [], clubOf)
    requires MentionsOf(y, UsableLinks(links[1..]), clubOf)
    ensures MentionsOf(x + y, UsableLinks(links), clubOf)
  {
    var q0 := if Usable(links[0]) then [links[0]] else [];
    assert UsableLinks(links) == q0 + UsableLinks(links[1..]);
    MentionsConcat(x, q0, y, UsableLinks(links[1..]), clubOf);
  }

  /** Mentions of two runs of links, joined, are the mentions of the joined
      runs. */
  lemma MentionsConcat(x: seq<Mention>, q1: seq<Link>, y: seq<Mention>, q2: seq<Link>, clubOf: string -> string)
    requires MentionsOf(x, q1, clubOf) && MentionsOf(y, q2, clubOf)
    ensures MentionsOf(x + y, q1 + q2, clubOf)
  {
    forall i | |q1| <= i < |q1| + |q2|
      ensures (x + y)[i] == y[i - |q1|] && (q1 + q2)[i] == q2[i - |q1|]
    {
    }
  }

  lemma FreshUrlsStep(m: Memo, links: seq<Link>, a: Memo)
    requires |links| > 0
    requires var u := ProfileUrl(links[0].href);
      if Usable(links[0]) && u !in m.cache
      then a.lookups == m.lookups + [u] && a.cache.Keys == m.cache.Keys + {u}
      else a.lookups == m.lookups && a.cache.Keys == m.cache.Keys
    ensures a.lookups + FreshUrls(a.cache.Keys, links[1..]) == m.lookups + FreshUrls(m.cache.Keys, links)
  {
    if Usable(links[0]) && ProfileUrl(links[0].href) !in m.cache {
      FreshUrlsMiss(m.lookups, m.cache.Keys, links);
    }
  }

  lemma FreshUrlsMiss(log: seq<string>, known: set<string>, links: seq<Link>)
    requires |links| > 0 && Usable(links[0]) && ProfileUrl(links[0].href) !in known
    ensures var u := ProfileUrl(links[0].href);
      (log + [u]) + FreshUrls(known + {u}, links[1..]) == log + FreshUrls(known, links)
  {
  }

  /** Mentions for names found by plain-text parsing: no profile, and the
      club marked as not resolved. */
  function TextMentions(names: seq<string>): (r: seq<Mention>)
    ensures |r| == |names|
    ensures forall i :: 0 <= i < |r| ==> r[i] == Mention(names[i], None, Clubs.Unresolved)
  {
    seq(|names|, i requires 0 <= i < |names| => Mention(names[i], None, Clubs.Unresolved))
  }

  /** `parseNamesWithLinks(text, paragraph)`: nothing for the "nobody"
      phrase; with person links, one resolved mention per usable link; with
      none, the plain-text names with no profile and club "Unbekannt", the
      memo untouched. */
  function ParseNamesWithLinks(m: Memo, text: string, p: Paragraph, clubOf: string -> string): (r: Resolved)
    requires Valid(m) && Faithful(m, clubOf)
    ensures Valid(r.memo) && Faithful(r.memo, clubOf)
    ensures forall u :: u in m.cache ==> u in r.memo.cache && r.memo.cache[u] == m.cache[u]
    ensures Contains(text, Nobody) ==> r == Resolved(m, [])
    ensures !Contains(text, Nobody) && |PersonLinks(p)| > 0 ==>
              && MentionsOf(r.mentions, UsableLinks(PersonLinks(p)), clubOf)
              && r.memo.lookups == m.lookups + FreshUrls(m.cache.Keys, PersonLinks(p))
    ensures !Contains(text, Nobody) && |PersonLinks(p)| == 0 ==>
              r.memo == m && r.mentions == TextMentions(ParseNames(text))
  {
    if Contains(text, Nobody) then Resolved(m, [])
    else
      var links := PersonLinks(p);
      if |links| > 0 then ResolveLinks(m, links, clubOf)
      else Resolved(m, TextMentions(ParseNames(text)))
  }

  /** Memoisation: however many mentions share a profile URL, the lookup log
      of a valid memo names each URL at most once, and the cache has exactly
      one entry for it, carrying that URL. */
  lemma AtMostOneLookup(m: Memo, u: string)
    requires Valid(m)
    ensures multiset(m.lookups)[u] <= 1
    ensures u in m.cache <==> multiset(m.lookups)[u] == 1
    ensures u in m.cache ==> m.cache[u].profileUrl == Some(u)
  {
    LookupCount(m.lookups, u);
  }

  lemma {:induction false} LookupCount(s: seq<string>, u: string)
    requires NoDup(s)
    ensures multiset(s)[u] == (if u in s then 1 else 0)
    decreases |s|
  {
    if |s| > 0 {
      assert s == [s[0]] + s[1..];
      assert NoDup(s[1..]) by {
        forall i, j | 0 <= i < j < |s[1..]| ensures s[1..][i] != s[1..][j] {
          assert s[1..][i] == s[i + 1] && s[1..][j] == s[j + 1];
        }
      }
      LookupCount(s[1..], u);
      if s[0] == u {
        assert u !in s[1..] by {
          forall k | 0 <= k < |s[1..]| ensures s[1..][k] != u { assert s[1..][k] == s[k + 1]; }
        }
      }
    }
  }

  /** Two links to the same profile in one paragraph: the second is a cache
      hit, so the oracle is asked once and both mentions carry its club. */
  lemma SameProfileTwice(l1: Link, l2: Link, clubOf: string -> string)
    requires Usable(l1) && Usable(l2) && ProfileUrl(l1.href) == ProfileUrl(l2.href)
    ensures var r := ResolveLinks(EmptyMemo, [l1, l2], clubOf);
      && r.memo.lookups == [ProfileUrl(l1.href)]
      && |r.mentions| == 2 && r.mentions[0].club == r.mentions[1].club == clubOf(ProfileUrl(l1.href))
  {
    EmptyMemoValid(clubOf);
    var u := ProfileUrl(l1.href);
    assert [l1, l2][1..] == [l2];
    assert [l2][1..] == [];
    assert {} + {u} == {u};
    assert FreshUrls({u}, [l2]) == [];
    assert FreshUrls({}, [l1, l2]) == [u] + FreshUrls({} + {u}, [l2]);
    assert UsableLinks([l1, l2]) == [l1, l2] by {
      assert UsableLinks([l2]) == [l2];
    }
  }
}
