/** The parts of the HTML report that carry logic rather than markup: the
    session timeline of each person (generate-html.js:746-766) and the party
    colours (generate-html.js:844-855). */
module Report {
  import opened Common
  import opened Tallies
  import opened People

  /** Every session number in the person list, person by person. */
  function AllSessions(ps: seq<PersonStat>): (r: seq<int>)
    ensures forall p, v :: p in ps && v in p.absences ==> v.session in r
    ensures forall x :: x in r ==> exists p, v :: p in ps && v in p.absences && v.session == x
    decreases |ps|
  {
    if |ps| == 0 then []
    else
      var init := AllSessions(ps[..|ps| - 1]);
      var last := ps[|ps| - 1];
      assert forall p :: p in ps ==> p in ps[..|ps| - 1] || p == last;
      init + SessionsOf(last.absences)
  }

  function SessionsOf(vs: seq<Visit>): (r: seq<int>)
    ensures |r| == |vs| && forall k :: 0 <= k < |vs| ==> r[k] == vs[k].session
  {
    seq(|vs|, k requires 0 <= k < |vs| => vs[k].session)
  }

  /** The larger of 1 and every element: `Math.max(...xs, 1)`. */
  function MaxOf(xs: seq<int>): (r: int)
    ensures r >= 1
    ensures forall x :: x in xs ==> x <= r
    ensures r == 1 || r in xs
    decreases |xs|
  {
    if |xs| == 0 then 1
    else
      var m := MaxOf(xs[..|xs| - 1]);
      var last := xs[|xs| - 1];
      assert forall x :: x in xs ==> x in xs[..|xs| - 1] || x == last;
      if last > m then last else m
  }

  /** `maxSession`: the timeline length shared by every person. */
  function MaxSession(ps: seq<PersonStat>): (r: int)
    ensures r >= 1
    ensures forall p, v :: p in ps && v in p.absences ==> v.session <= r
    ensures r == 1 || exists p, v :: p in ps && v in p.absences && v.session == r
  {
    MaxOf(AllSessions(ps))
  }

  /** One dot of the timeline: the session number, whether the person was
      absent, and the protocol it opens when clicked. */
  datatype Dot = Dot(number: int, absent: bool, link: Option<string>)

  /** `person.absences.find(a => a.session === i)`. */
  function FindVisit(vs: seq<Visit>, i: int): (r: Option<nat>)
    ensures r.Some? ==> r.value < |vs| && vs[r.value].session == i &&
                        forall k :: 0 <= k < r.value ==> vs[k].session != i
    ensures r.None? ==> forall k :: 0 <= k < |vs| ==> vs[k].session != i
    decreases |vs|
  {
    if |vs| == 0 then None
    else if vs[0].session == i then Some(0)
    else match FindVisit(vs[1..], i)
      case None => None
      case Some(k) => Some(k + 1)
  }

  /** The dot of session `i`: absent iff one of the visits is of session
      `i`; clickable iff, in addition, the first such visit has a non-empty
      protocol URL. */
  method MakeDot(vs: seq<Visit>, i: int) returns (d: Dot)
    ensures d.number == i
    ensures d.absent <==> exists v :: v in vs && v.session == i
    ensures d.link.Some? <==> d.absent && vs[FindVisit(vs, i).value].protocolUrl != ""
    ensures d.link.Some? ==> d.link.value == vs[FindVisit(vs, i).value].protocolUrl
  {
    var isAbsent := false;
    var k := 0;
    while k < |vs|
      invariant 0 <= k <= |vs|
      invariant isAbsent <==> exists j :: 0 <= j < k && vs[j].session == i
    {
      if vs[k].session == i {
        isAbsent := true;
      }
      k := k + 1;
    }
    var protocolUrl := "";
    match FindVisit(vs, i) {
      case Some(j) => protocolUrl := vs[j].protocolUrl;
      case None =>
    }
    if isAbsent {
      var j :| 0 <= j < |vs| && vs[j].session == i;
      assert vs[j] in vs;
    } else {
      assert forall v :: v in vs ==> v.session != i;
    }
    if isAbsent && protocolUrl != "" {
      d := Dot(i, true, Some(protocolUrl));
    } else {
      d := Dot(i, isAbsent, None);
    }
  }

  /** The `timelineDots` of one person: the sessions `1 .. maxSession` in
      order. */
  method Timeline(p: PersonStat, maxSession: int) returns (dots: seq<Dot>)
    ensures |dots| == if maxSession >= 1 then maxSession else 0
    ensures forall k :: 0 <= k < |dots| ==>
              && dots[k].number == k + 1
              && (dots[k].absent <==> exists v :: v in p.absences && v.session == k + 1)
              && (dots[k].link.Some? <==>
                    dots[k].absent && p.absences[FindVisit(p.absences, k + 1).value].protocolUrl != "")
              && (dots[k].link.Some? ==>
                    dots[k].link.value == p.absences[FindVisit(p.absences, k + 1).value].protocolUrl)
  {
    dots := [];
    var i := 1;
    while i <= maxSession
      invariant 1 <= i && |dots| == i - 1
      invariant maxSession >= 1 ==> i <= maxSession + 1
      invariant maxSession < 1 ==> i == 1
      invariant forall k :: 0 <= k < |dots| ==>
                  && dots[k].number == k + 1
                  && (dots[k].absent <==> exists v :: v in p.absences && v.session == k + 1)
                  && (dots[k].link.Some? <==>
                        dots[k].absent && p.absences[FindVisit(p.absences, k + 1).value].protocolUrl != "")
                  && (dots[k].link.Some? ==>
                        dots[k].link.value == p.absences[FindVisit(p.absences, k + 1).value].protocolUrl)
    {
      var d := MakeDot(p.absences, i);
      dots := dots + [d];
      i := i + 1;
    }
  }

  /** With the shared `maxSession`, every absence of every listed person at
      a positive session number falls inside the timeline and shows as an
      absent dot: no absence is cut off the end. */
  lemma TimelineComplete(ps: seq<PersonStat>, p: PersonStat, dots: seq<Dot>, v: Visit)
    requires p in ps && v in p.absences && v.session >= 1
    requires |dots| == MaxSession(ps)
    requires forall k :: 0 <= k < |dots| ==>
               dots[k].absent <==> exists w :: w in p.absences && w.session == k + 1
    ensures 0 <= v.session - 1 < |dots| && dots[v.session - 1].absent
  {
    assert v.session <= MaxSession(ps);
  }

  const Gray: string := "#6c757d"

  /** The colour table of `getPartyColorJS`. */
  const Colors: map<string, string> := map[
    "FPÖ" := "#005cbf",
    "SPÖ" := "#ce000c",
    "ÖVP" := "#63c3d0",
    "NEOS" := "#e91c7a",
    "Grüne" := "#88b626",
    "Unknown" := Gray,
    "Unbekannt" := Gray
  ]

  /** `getPartyColorJS(party)`: the table entry, gray for every other name
      (no entry is empty, so `||` only falls back for a missing key). */
  function PartyColor(party: string): (r: string)
    ensures party in Colors ==> r == Colors[party]
    ensures party !in Colors ==> r == Gray
  {
    if party in Colors && Colors[party] != "" then Colors[party] else Gray
  }

  predicate IsHexDigit(c: char) {
    ('0' <= c <= '9') || ('a' <= c <= 'f')
  }

  /** A CSS colour `#rrggbb`. */
  predicate IsHexColor(s: string) {
    |s| == 7 && s[0] == '#' && forall i :: 1 <= i < 7 ==> IsHexDigit(s[i])
  }

  /** Every party gets a well-formed colour; the five parliamentary clubs
      get five different colours, none of them the gray of unknown or
      unlisted clubs. */
  lemma PartyColors(party: string)
    ensures IsHexColor(PartyColor(party))
    ensures PartyColor("Unknown") == PartyColor("Unbekannt") == Gray
    ensures party in {"FPÖ", "SPÖ", "ÖVP", "NEOS", "Grüne"} ==> PartyColor(party) != Gray
    ensures forall a, b :: a in {"FPÖ", "SPÖ", "ÖVP", "NEOS", "Grüne"} &&
                           b in {"FPÖ", "SPÖ", "ÖVP", "NEOS", "Grüne"} && a != b ==>
              PartyColor(a) != PartyColor(b)
  {
    assert IsHexColor(Gray);
    assert forall k :: k in Colors ==> IsHexColor(Colors[k]);
  }
}
