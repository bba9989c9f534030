/** `extractAbsentMembers` (scraper.js:208-233) and the filtering step of
    `scrapeSession` (scraper.js:483-512): the absence statements of one
    protocol document. */
module Extractor {
  import opened Common
  import opened Text
  import opened Records
  import opened Resolver

  const Marker: string := "verhindert gemeldet"

  /** The placeholder statement returned for a document without any absence
      paragraph. */
  const NotFound: string := "No absence information found"

  /** A paragraph is an absence statement when its text mentions the
      marker phrase. */
  predicate IsAbsenceParagraph(p: Paragraph) {
    Contains(p.text, Marker)
  }

  /** Result of scanning a document: the memo after every resolution and
      the statements found. */
  datatype Scan = Scan(memo: Memo, statements: seq<Statement>)

  /** The statement carries the normalised text of the paragraph. */
  predicate Normalises(st: Statement, p: Paragraph) {
    st.text == NormalizeWhitespace(p.text)
  }

  /** Statement `i` holds the normalised text of paragraph `i`. */
  ghost predicate TextsOf(sts: seq<Statement>, ps: seq<Paragraph>) {
    Pairwise(sts, ps, Normalises)
  }

  /** The loop over the paragraphs of a document, in order: one statement
      per absence paragraph, carrying that paragraph's normalised text. */
  function ScanFrom(m: Memo, ps: seq<Paragraph>, clubOf: string -> string): (r: Scan)
    requires Valid(m) && Faithful(m, clubOf)
    ensures Valid(r.memo) && Faithful(r.memo, clubOf)
    ensures forall u :: u in m.cache ==> u in r.memo.cache && r.memo.cache[u] == m.cache[u]
    ensures TextsOf(r.statements, Filter(ps, IsAbsenceParagraph))
    decreases |ps|
  {
    if |ps| == 0 then Scan(m, [])
    else
      var tail := Filter(ps[1..], IsAbsenceParagraph);
      if IsAbsenceParagraph(ps[0]) then
        assert Filter(ps, IsAbsenceParagraph) == [ps[0]] + tail;
        var text := NormalizeWhitespace(ps[0].text);
        var a := ParseNamesWithLinks(m, text, ps[0], clubOf);
        var rest := ScanFrom(a.memo, ps[1..], clubOf);
        PairwiseCons(Statement(text, a.mentions), ps[0], rest.statements, tail, Normalises);
        Scan(rest.memo, [Statement(text, a.mentions)] + rest.statements)
      else
        assert Filter(ps, IsAbsenceParagraph) == tail;
        ScanFrom(m, ps[1..], clubOf)
  }

  /** `ms` is the memo before and after each resolution: statement `i`
      carries the names `parseNamesWithLinks` gives for absence paragraph
      `i`, resolved against the memo left by the paragraphs before it. */
  ghost predicate Threaded(ms: seq<Memo>, qs: seq<Paragraph>, sts: seq<Statement>, clubOf: string -> string) {
    Chained(ms, qs, sts, Resolution(clubOf))
  }

  /** One step of the scan as a relation between memo before, paragraph,
      memo after and statement. */
  ghost function Resolution(clubOf: string -> string): (Memo, Paragraph, Memo, Statement) -> bool {
    (a, p, b, st: Statement) => ResolvesTo(a, p, b, st.names, clubOf)
  }

  /** `parseNamesWithLinks` on the normalised text of `p` against memo `m`
      yields the names `names` and leaves memo `m'`. */
  ghost predicate ResolvesTo(m: Memo, p: Paragraph, m': Memo, names: seq<Mention>, clubOf: string -> string) {
    && Valid(m) && Faithful(m, clubOf)
    && ParseNamesWithLinks(m, NormalizeWhitespace(p.text), p, clubOf) == Resolved(m', names)
  }

  /** Scan `r` from memo `m` over the absence paragraphs `qs` is threaded:
      some chain of memos leads from `m` to `r.memo` through them. */
  ghost predicate ThreadedScan(m: Memo, qs: seq<Paragraph>, r: Scan, clubOf: string -> string) {
    exists ms :: Threaded(ms, qs, r.statements, clubOf) && ms[0] == m && ms[|ms| - 1] == r.memo
  }

  lemma ThreadedWitness(ms: seq<Memo>, m: Memo, qs: seq<Paragraph>, r: Scan, clubOf: string -> string)
    requires Threaded(ms, qs, r.statements, clubOf) && ms[0] == m && ms[|ms| - 1] == r.memo
    ensures ThreadedScan(m, qs, r, clubOf)
  {
  }

  /** The names of every statement are those `parseNamesWithLinks` resolves
      for its paragraph, the memo threaded from one paragraph to the next,
      starting from `m` and ending with the scan's memo. */
  lemma {:induction false} ScanFromThreaded(m: Memo, ps: seq<Paragraph>, clubOf: string -> string)
    requires Valid(m) && Faithful(m, clubOf)
    ensures ThreadedScan(m, Filter(ps, IsAbsenceParagraph), ScanFrom(m, ps, clubOf), clubOf)
    decreases |ps|
  {
    if |ps| == 0 {
      assert Filter(ps, IsAbsenceParagraph) == [] && ScanFrom(m, ps, clubOf) == Scan(m, []);
      ThreadedWitness([m], m, [], Scan(m, []), clubOf);
    } else {
      var tail := Filter(ps[1..], IsAbsenceParagraph);
      FilterHead(ps, IsAbsenceParagraph);
      if IsAbsenceParagraph(ps[0]) {
        var text := NormalizeWhitespace(ps[0].text);
        var a := ParseNamesWithLinks(m, text, ps[0], clubOf);
        var rest := ScanFrom(a.memo, ps[1..], clubOf);
        ScanFromThreaded(a.memo, ps[1..], clubOf);
        var ms' :| && Threaded(ms', tail, rest.statements, clubOf)
                   && ms'[0] == a.memo && ms'[|ms'| - 1] == rest.memo;
        assert ResolvesTo(m, ps[0], a.memo, a.mentions, clubOf);
        ChainedCons(m, ps[0], Statement(text, a.mentions), ms', tail, rest.statements, Resolution(clubOf));
        var sts := [Statement(text, a.mentions)] + rest.statements;
        assert Threaded([m] + ms', [ps[0]] + tail, sts, clubOf);
        var r := ScanFrom(m, ps, clubOf);
        assert r == Scan(rest.memo, sts);
        assert Filter(ps, IsAbsenceParagraph) == [ps[0]] + tail;
        ThreadedWitness([m] + ms', m, [ps[0]] + tail, r, clubOf);
      } else {
        ScanFromThreaded(m, ps[1..], clubOf);
        assert ScanFrom(m, ps, clubOf) == ScanFrom(m, ps[1..], clubOf);
      }
    }
  }

  /** `extractAbsentMembers(html)`: one statement per absence paragraph, in
      document order, with the paragraph's normalised text and the names
      `parseNamesWithLinks` resolves for it; a document with none yields the
      single placeholder statement. */
  function ExtractAbsentMembers(m: Memo, doc: Document, clubOf: string -> string): (r: Scan)
    requires Valid(m) && Faithful(m, clubOf)
    ensures Valid(r.memo) && Faithful(r.memo, clubOf)
    ensures forall u :: u in m.cache ==> u in r.memo.cache && r.memo.cache[u] == m.cache[u]
    ensures |r.statements| > 0
    ensures |Filter(doc.paragraphs, IsAbsenceParagraph)| == 0 ==>
              r.statements == [Statement(NotFound, [])] && r.memo == m
    ensures |Filter(doc.paragraphs, IsAbsenceParagraph)| > 0 ==>
              TextsOf(r.statements, Filter(doc.paragraphs, IsAbsenceParagraph))
    ensures |Filter(doc.paragraphs, IsAbsenceParagraph)| > 0 ==>
              ThreadedScan(m, Filter(doc.paragraphs, IsAbsenceParagraph), r, clubOf)
  {
    ScanFromThreaded(m, doc.paragraphs, clubOf);
    var s := ScanFrom(m, doc.paragraphs, clubOf);
    if |s.statements| > 0 then s
    else
      ScanNothing(m, doc.paragraphs, clubOf);
      Scan(s.memo, [Statement(NotFound, [])])
  }

  lemma {:induction false} ScanNothing(m: Memo, ps: seq<Paragraph>, clubOf: string -> string)
    requires Valid(m) && Faithful(m, clubOf)
    requires |Filter(ps, IsAbsenceParagraph)| == 0
    ensures ScanFrom(m, ps, clubOf).memo == m
    decreases |ps|
  {
    if |ps| > 0 {
      assert !IsAbsenceParagraph(ps[0]);
      ScanNothing(m, ps[1..], clubOf);
    }
  }

  /** A statement is kept unless its text contains the placeholder phrase. */
  predicate Kept(s: Statement) {
    !Contains(s.text, NotFound)
  }

  /** The filter and map of `scrapeSession`: placeholder statements are
      dropped and the rest are attached to the protocol URL they came from. */
  function Attach(statements: seq<Statement>, url: string): (r: seq<Absence>)
    ensures |r| <= |statements|
    ensures forall i :: 0 <= i < |r| ==> r[i].protocolUrl == url && !Contains(r[i].text, NotFound)
    ensures r == AttachAll(Filter(statements, Kept), url)
    decreases |statements|
  {
    if |statements| == 0 then []
    else
      var s := statements[0];
      var rest := Attach(statements[1..], url);
      if Kept(s) then
        assert Filter(statements, Kept) == [s] + Filter(statements[1..], Kept);
        AttachAllCons(s, Filter(statements[1..], Kept), url);
        [Absence(s.text, s.names, url)] + rest
      else
        assert Filter(statements, Kept) == Filter(statements[1..], Kept);
        rest
  }

  lemma AttachAllCons(s: Statement, t: seq<Statement>, url: string)
    ensures AttachAll([s] + t, url) == [Absence(s.text, s.names, url)] + AttachAll(t, url)
  {
    var l, r := AttachAll([s] + t, url), [Absence(s.text, s.names, url)] + AttachAll(t, url);
    forall i | 0 <= i < |l|
      ensures l[i] == r[i]
    {
      if i > 0 {
        assert ([s] + t)[i] == t[i - 1];
      }
    }
  }

  /** The plain map `{...entry, protocolUrl: url}`. */
  function AttachAll(statements: seq<Statement>, url: string): (r: seq<Absence>)
    ensures |r| == |statements|
    ensures forall i :: 0 <= i < |r| ==>
              r[i] == Absence(statements[i].text, statements[i].names, url)
  {
    seq(|statements|, i requires 0 <= i < |statements| =>
          Absence(statements[i].text, statements[i].names, url))
  }

  /** The placeholder never reaches the session record: a document without
      absence paragraphs contributes no entry. */
  lemma NothingFoundContributesNothing(m: Memo, doc: Document, clubOf: string -> string, url: string)
    requires Valid(m) && Faithful(m, clubOf)
    requires |Filter(doc.paragraphs, IsAbsenceParagraph)| == 0
    ensures Attach(ExtractAbsentMembers(m, doc, clubOf).statements, url) == []
  {
    assert Contains(NotFound, NotFound) by { assert StartsWith(NotFound, NotFound); }
  }
}
