/** `extractStenographicProtocolUrl` (scraper.js:109-206): where the protocol
    of a session is published.  Three strategies are tried in order and the
    first that finds something decides:
      1. a link to the full stenographic protocol;
      2. the Präsidium section links listed in the page's embedded JSON;
      3. the Präsidium section links found next to a `<p>Präsidium</p>`.
    The DOM and `JSON.parse` are replaced by the abstract page below, which
    holds exactly what each strategy inspects. */
module Locator {
  import opened Common
  import opened Text
  import opened Records

  const FullMarker: string := "Stenographisches Protokoll"
  const Presidium: string := "Präsidium"

  /** An `a[href*="fnameorig_"]` element: its `href`, and the text content of
      its container (the nearest `li`, else `div`, else parent) followed by
      the text content of each ancestor above it, innermost first. */
  datatype Anchor = Anchor(href: string, ancestry: seq<string>)

  /** `{type, link}` of a document of the embedded progress data. */
  datatype Doc = Doc(docType: string, link: string)

  /** An item of the embedded `progress` array: its `text`, and its
      `protocol.data.links` (a list of groups of documents) when present. */
  datatype ProgressItem = ProgressItem(text: string, linkGroups: Option<seq<seq<Doc>>>)

  /** A `<script>` element: its text, and the `progress` array that the
      `props` object inside it yields, when the regex finds the object, it
      parses as JSON and the path `data.content[1].progress` holds an array. */
  datatype Script = Script(content: string, progress: Option<seq<ProgressItem>>)

  /** A `<p>` element for strategy 3: its text content, and the `href`s of
      the links of its container (nearest `td`, else `div`, else parent),
      when it has one. */
  datatype Para = Para(text: string, containerHrefs: Option<seq<string>>)

  datatype SessionPage = SessionPage(anchors: seq<Anchor>, scripts: seq<Script>, paras: seq<Para>)

  /** `{type: 'full', url}` or `{type: 'sections', urls}`. */
  datatype ProtocolInfo = FullProtocol(url: string) | SectionList(urls: seq<string>)

  /** Strategy 1 accepts a link with an `.html` href whose container or one
      of its next four ancestors mentions the full protocol. */
  predicate IsFullLink(a: Anchor) {
    && a.href != "" && Contains(a.href, ".html")
    && exists i :: 0 <= i < |a.ancestry| && i < 5 && Contains(a.ancestry[i], FullMarker)
  }

  /** Strategy 1: the first accepted link, made absolute. */
  function FullStrategy(anchors: seq<Anchor>): (r: Option<string>)
    ensures r.Some? <==> exists i :: 0 <= i < |anchors| && IsFullLink(anchors[i])
    ensures r.Some? ==> exists i :: 0 <= i < |anchors| && IsFullLink(anchors[i]) &&
                          r.value == BaseUrl + anchors[i].href &&
                          forall j :: 0 <= j < i ==> !IsFullLink(anchors[j])
    decreases |anchors|
  {
    if |anchors| == 0 then None
    else if IsFullLink(anchors[0]) then Some(BaseUrl + anchors[0].href)
    else
      var r := FullStrategy(anchors[1..]);
      assert forall i :: 1 <= i < |anchors| ==> anchors[i] == anchors[1..][i - 1];
      if r.Some? then
        var i :| 0 <= i < |anchors[1..]| && IsFullLink(anchors[1..][i]) &&
                 r.value == BaseUrl + anchors[1..][i].href &&
                 forall j :: 0 <= j < i ==> !IsFullLink(anchors[1..][j]);
        assert IsFullLink(anchors[i + 1]) && forall j :: 0 <= j < i + 1 ==> !IsFullLink(anchors[j]);
        r
      else r
  }

  /** `doc.type === 'HTML' && doc.link`. */
  predicate IsHtmlDoc(d: Doc) {
    d.docType == "HTML" && d.link != ""
  }

  /** The site URLs of a list of documents, position by position. */
  function DocUrls(docs: seq<Doc>): (r: seq<string>)
    ensures |r| == |docs| && forall i :: 0 <= i < |docs| ==> r[i] == BaseUrl + docs[i].link
  {
    seq(|docs|, i requires 0 <= i < |docs| => BaseUrl + docs[i].link)
  }

  /** The HTML documents of one group, made absolute. */
  function HtmlDocs(docs: seq<Doc>): (r: seq<string>)
    ensures |r| <= |docs|
    ensures forall i :: 0 <= i < |r| ==>
              exists j :: 0 <= j < |docs| && IsHtmlDoc(docs[j]) && r[i] == BaseUrl + docs[j].link
    decreases |docs|
  {
    if |docs| == 0 then []
    else
      var rest := HtmlDocs(docs[1..]);
      assert forall j :: 1 <= j < |docs| ==> docs[j] == docs[1..][j - 1];
      if IsHtmlDoc(docs[0]) then [BaseUrl + docs[0].link] + rest
      else rest
  }

  /** The documents collected are exactly the HTML documents with a link, in
      their order, each turned into a site URL. */
  lemma {:induction false} HtmlDocsFilterMap(docs: seq<Doc>)
    ensures HtmlDocs(docs) == DocUrls(Filter(docs, IsHtmlDoc))
    decreases |docs|
  {
    if |docs| > 0 {
      HtmlDocsFilterMap(docs[1..]);
      FilterHead(docs, IsHtmlDoc);
      var kept := Filter(docs[1..], IsHtmlDoc);
      if IsHtmlDoc(docs[0]) {
        DocUrlsCons(docs[0], kept);
      }
    }
  }

  lemma DocUrlsCons(d: Doc, ds: seq<Doc>)
    ensures DocUrls([d] + ds) == [BaseUrl + d.link] + DocUrls(ds)
  {
    assert forall i :: 1 <= i < |ds| + 1 ==> ([d] + ds)[i] == ds[i - 1];
  }

  function GroupDocs(groups: seq<seq<Doc>>): seq<string>
    decreases |groups|
  {
    if |groups| == 0 then [] else HtmlDocs(groups[0]) + GroupDocs(groups[1..])
  }

  /** The links of every Präsidium item of a progress array. */
  function ProgressLinks(items: seq<ProgressItem>): seq<string>
    decreases |items|
  {
    if |items| == 0 then []
    else
      var here := if items[0].text == Presidium && items[0].linkGroups.Some?
                  then GroupDocs(items[0].linkGroups.value) else [];
      here + ProgressLinks(items[1..])
  }

  /** A script is read only if it mentions both `progress` and `Präsidium`. */
  predicate ScriptConsidered(s: Script) {
    Contains(s.content, "progress") && Contains(s.content, Presidium)
  }

  /** Strategy 2: the section links of all considered scripts, in order. */
  function JsonStrategy(scripts: seq<Script>): seq<string>
    decreases |scripts|
  {
    if |scripts| == 0 then []
    else
      var s := scripts[0];
      var here := if ScriptConsidered(s) && s.progress.Some? then ProgressLinks(s.progress.value) else [];
      here + JsonStrategy(scripts[1..])
  }

  /** The `.html` links of one container, made absolute. */
  function HtmlHrefs(hrefs: seq<string>): seq<string>
    decreases |hrefs|
  {
    if |hrefs| == 0 then []
    else (if hrefs[0] != "" && Contains(hrefs[0], ".html") then [BaseUrl + hrefs[0]] else [])
         + HtmlHrefs(hrefs[1..])
  }

  /** Strategy 3: the `.html` links next to every paragraph that reads
      exactly "Präsidium" once trimmed. */
  function HtmlStrategy(paras: seq<Para>): seq<string>
    decreases |paras|
  {
    if |paras| == 0 then []
    else
      var p := paras[0];
      var here := if Trim(p.text) == Presidium && p.containerHrefs.Some?
                  then HtmlHrefs(p.containerHrefs.value) else [];
      here + HtmlStrategy(paras[1..])
  }

  /** A strategy's answer as an optional result: a list of sections counts
      only when it is non-empty. */
  function AsSections(urls: seq<string>): (r: Option<ProtocolInfo>)
    ensures r.Some? <==> |urls| > 0
    ensures r.Some? ==> r.value == SectionList(urls)
  {
    if |urls| > 0 then Some(SectionList(urls)) else None
  }

  /** The first strategy result that is present. */
  function FirstSome(rs: seq<Option<ProtocolInfo>>): (r: Option<ProtocolInfo>)
    ensures r.Some? <==> exists i :: 0 <= i < |rs| && rs[i].Some?
    ensures r.Some? ==> exists i :: 0 <= i < |rs| && rs[i] == r &&
                          forall j :: 0 <= j < i ==> rs[j].None?
    decreases |rs|
  {
    if |rs| == 0 then None
    else if rs[0].Some? then rs[0]
    else
      var r := FirstSome(rs[1..]);
      assert forall i :: 1 <= i < |rs| ==> rs[i] == rs[1..][i - 1];
      if r.Some? then
        var i :| 0 <= i < |rs[1..]| && rs[1..][i] == r && forall j :: 0 <= j < i ==> rs[1..][j].None?;
        assert rs[i + 1] == r && forall j :: 0 <= j < i + 1 ==> rs[j].None?;
        r
      else r
  }

  /** The three strategies' answers, in the order they are tried. */
  function Strategies(page: SessionPage): seq<Option<ProtocolInfo>> {
    var full := FullStrategy(page.anchors);
    [ if full.Some? then Some(FullProtocol(full.value)) else None,
      AsSections(JsonStrategy(page.scripts)),
      AsSections(HtmlStrategy(page.paras)) ]
  }

  /** `extractStenographicProtocolUrl(html)`. */
  function Locate(page: SessionPage): (r: Option<ProtocolInfo>)
    ensures FullStrategy(page.anchors).Some? ==> r == Some(FullProtocol(FullStrategy(page.anchors).value))
    ensures FullStrategy(page.anchors).None? && |JsonStrategy(page.scripts)| > 0 ==>
              r == Some(SectionList(JsonStrategy(page.scripts)))
    ensures FullStrategy(page.anchors).None? && |JsonStrategy(page.scripts)| == 0 ==>
              r == AsSections(HtmlStrategy(page.paras))
    ensures r.Some? && r.value.SectionList? ==> |r.value.urls| > 0
  {
    match FullStrategy(page.anchors)
    case Some(u) => Some(FullProtocol(u))
    case None =>
      var json := JsonStrategy(page.scripts);
      if |json| > 0 then Some(SectionList(json))
      else AsSections(HtmlStrategy(page.paras))
  }

  /** The locator is the first-success chain over the three strategies. */
  lemma LocateIsFirstSuccess(page: SessionPage)
    ensures Locate(page) == FirstSome(Strategies(page))
  {
    var rs := Strategies(page);
    FirstOfThree(rs[0], rs[1], rs[2]);
    assert rs == [rs[0], rs[1], rs[2]];
  }

  /** The first success among three answers. */
  lemma FirstOfThree(a: Option<ProtocolInfo>, b: Option<ProtocolInfo>, c: Option<ProtocolInfo>)
    ensures FirstSome([a, b, c]) == if a.Some? then a else if b.Some? then b else c
  {
    assert [c][1..] == [];
    assert FirstSome([c]) == c;
    assert [b, c][1..] == [c];
    assert FirstSome([b, c]) == if b.Some? then b else c;
    assert [a, b, c][1..] == [b, c];
  }

  /** Every URL the locator returns points into the parliament's site. */
  lemma LocatedUrlsAbsolute(page: SessionPage)
    ensures Locate(page).Some? && Locate(page).value.FullProtocol? ==>
              StartsWith(Locate(page).value.url, BaseUrl)
    ensures Locate(page).Some? && Locate(page).value.SectionList? ==>
              forall i :: 0 <= i < |Locate(page).value.urls| ==> StartsWith(Locate(page).value.urls[i], BaseUrl)
  {
    var full := FullStrategy(page.anchors);
    if full.Some? {
      var i :| 0 <= i < |page.anchors| && full.value == BaseUrl + page.anchors[i].href;
      assert (BaseUrl + page.anchors[i].href)[..|BaseUrl|] == BaseUrl;
    } else if |JsonStrategy(page.scripts)| > 0 {
      JsonAbsolute(page.scripts);
    } else {
      HtmlAbsolute(page.paras);
    }
  }

  predicate AllAbsolute(urls: seq<string>) {
    forall i :: 0 <= i < |urls| ==> StartsWith(urls[i], BaseUrl)
  }

  lemma AbsoluteAppend(a: seq<string>, b: seq<string>)
    requires AllAbsolute(a) && AllAbsolute(b)
    ensures AllAbsolute(a + b)
  {
    assert forall i :: |a| <= i < |a + b| ==> (a + b)[i] == b[i - |a|];
  }

  lemma PrefixedAbsolute(x: string)
    ensures StartsWith(BaseUrl + x, BaseUrl)
  {
    assert (BaseUrl + x)[..|BaseUrl|] == BaseUrl;
  }

  lemma {:induction false} HtmlDocsAbsolute(docs: seq<Doc>)
    ensures AllAbsolute(HtmlDocs(docs))
  {
    var r := HtmlDocs(docs);
    forall i | 0 <= i < |r| ensures StartsWith(r[i], BaseUrl) {
      var j :| 0 <= j < |docs| && r[i] == BaseUrl + docs[j].link;
      PrefixedAbsolute(docs[j].link);
    }
  }

  lemma {:induction false} GroupDocsAbsolute(groups: seq<seq<Doc>>)
    ensures AllAbsolute(GroupDocs(groups))
    decreases |groups|
  {
    if |groups| > 0 {
      HtmlDocsAbsolute(groups[0]);
      GroupDocsAbsolute(groups[1..]);
      AbsoluteAppend(HtmlDocs(groups[0]), GroupDocs(groups[1..]));
    }
  }

  lemma {:induction false} ProgressAbsolute(items: seq<ProgressItem>)
    ensures AllAbsolute(ProgressLinks(items))
    decreases |items|
  {
    if |items| > 0 {
      if items[0].text == Presidium && items[0].linkGroups.Some? {
        GroupDocsAbsolute(items[0].linkGroups.value);
      }
      ProgressAbsolute(items[1..]);
      var here := if items[0].text == Presidium && items[0].linkGroups.Some?
                  then GroupDocs(items[0].linkGroups.value) else [];
      AbsoluteAppend(here, ProgressLinks(items[1..]));
    }
  }

  lemma {:induction false} JsonAbsolute(scripts: seq<Script>)
    ensures AllAbsolute(JsonStrategy(scripts))
    decreases |scripts|
  {
    if |scripts| > 0 {
      var s := scripts[0];
      if ScriptConsidered(s) && s.progress.Some? {
        ProgressAbsolute(s.progress.value);
      }
      JsonAbsolute(scripts[1..]);
      var here := if ScriptConsidered(s) && s.progress.Some? then ProgressLinks(s.progress.value) else [];
      AbsoluteAppend(here, JsonStrategy(scripts[1..]));
    }
  }

  lemma {:induction false} HrefsAbsolute(hrefs: seq<string>)
    ensures AllAbsolute(HtmlHrefs(hrefs))
    decreases |hrefs|
  {
    if |hrefs| > 0 {
      PrefixedAbsolute(hrefs[0]);
      HrefsAbsolute(hrefs[1..]);
      var here := if hrefs[0] != "" && Contains(hrefs[0], ".html") then [BaseUrl + hrefs[0]] else [];
      AbsoluteAppend(here, HtmlHrefs(hrefs[1..]));
    }
  }

  lemma {:induction false} HtmlAbsolute(paras: seq<Para>)
    ensures AllAbsolute(HtmlStrategy(paras))
    decreases |paras|
  {
    if |paras| > 0 {
      var p := paras[0];
      if Trim(p.text) == Presidium && p.containerHrefs.Some? {
        HrefsAbsolute(p.containerHrefs.value);
      }
      HtmlAbsolute(paras[1..]);
      var here := if Trim(p.text) == Presidium && p.containerHrefs.Some?
                  then HtmlHrefs(p.containerHrefs.value) else [];
      AbsoluteAppend(here, HtmlStrategy(paras[1..]));
    }
  }

  /** A page with no full-protocol link whose embedded progress data has one
      Präsidium entry linking to `/X/Y.html` yields that one section. */
  lemma PresidiumJsonExample(content: string, paras: seq<Para>)
    requires ScriptConsidered(Script(content, None))
    ensures var item := ProgressItem(Presidium, Some([[Doc("HTML", "/X/Y.html")]]));
      Locate(SessionPage([], [Script(content, Some([item]))], paras))
        == Some(SectionList([BaseUrl + "/X/Y.html"]))
  {
    var item := ProgressItem(Presidium, Some([[Doc("HTML", "/X/Y.html")]]));
    assert HtmlDocs([Doc("HTML", "/X/Y.html")]) == [BaseUrl + "/X/Y.html"];
    assert GroupDocs([[Doc("HTML", "/X/Y.html")]]) == [BaseUrl + "/X/Y.html"];
    assert ProgressLinks([item]) == [BaseUrl + "/X/Y.html"];
    assert JsonStrategy([Script(content, Some([item]))]) == [BaseUrl + "/X/Y.html"];
  }
}
