/** The `personMap` of `processData` (generate-html.js:664-685): one entry
    per person name, created at the first sighting and extended at every
    further one. */
module People {
  import opened Common
  import opened Tallies

  datatype PersonStat = PersonStat(name: string, club: string, profileUrl: Option<string>,
                                   absences: seq<Visit>, totalAbsences: nat)

  function PersonName(p: PersonStat): string { p.name }
  function PersonTotal(p: PersonStat): nat { p.totalAbsences }

  /** No name has two entries. */
  ghost predicate DistinctNames(ps: seq<PersonStat>) {
    forall i, j :: 0 <= i < j < |ps| ==> ps[i].name != ps[j].name
  }

  /** The entry's visits are the person's sightings in order, and its total
      is their number. */
  ghost predicate Tracks(sg: seq<Sighting>, p: PersonStat) {
    p.absences == VisitsOf(sg, p.name) && p.totalAbsences == |p.absences|
  }

  ghost predicate AllTracked(sg: seq<Sighting>, ps: seq<PersonStat>) {
    forall i :: 0 <= i < |ps| ==> Tracks(sg, ps[i])
  }

  /** The entry carries the club and profile of the person's first
      sighting. */
  ghost predicate Introduced(sg: seq<Sighting>, p: PersonStat) {
    FirstOf(sg, p.name).Some? &&
    var j := FirstOf(sg, p.name).value;
    p.club == Club(sg[j]) && p.profileUrl == sg[j].person.profileUrl
  }

  ghost predicate AllIntroduced(sg: seq<Sighting>, ps: seq<PersonStat>) {
    forall i :: 0 <= i < |ps| ==> Introduced(sg, ps[i])
  }

  /** Entries are in order of first sighting (a `Map` iterates in insertion
      order). */
  ghost predicate FirstSeenOrder(sg: seq<Sighting>, ps: seq<PersonStat>) {
    forall i, j :: 0 <= i < j < |ps| ==> FirstIdx(sg, ps[i].name) < FirstIdx(sg, ps[j].name)
  }

  /** Every sighted name has an entry. */
  ghost predicate Listed(sg: seq<Sighting>, ps: seq<PersonStat>) {
    forall k :: 0 <= k < |sg| ==> Find(ps, PersonName, Name(sg[k])).Some?
  }

  /** `ps` is the person map after the sightings `sg`. */
  ghost predicate PersonsOf(sg: seq<Sighting>, ps: seq<PersonStat>) {
    && DistinctNames(ps)
    && AllTracked(sg, ps)
    && AllIntroduced(sg, ps)
    && FirstSeenOrder(sg, ps)
    && Listed(sg, ps)
    && SumOf(ps, PersonTotal) == |sg|
  }

  /** The entry after one more visit. */
  function Extend(p: PersonStat, v: Visit): (r: PersonStat)
    ensures r.name == p.name && r.club == p.club && r.profileUrl == p.profileUrl
    ensures r.absences == p.absences + [v] && r.totalAbsences == p.totalAbsences + 1
  {
    p.(absences := p.absences + [v], totalAbsences := p.totalAbsences + 1)
  }

  /** The entry of a first sighting. */
  function Fresh(s: Sighting): (r: PersonStat)
    ensures r.name == Name(s) && r.club == Club(s) && r.profileUrl == s.person.profileUrl
    ensures r.absences == [s.visit] && r.totalAbsences == 1
  {
    PersonStat(Name(s), Club(s), s.person.profileUrl, [s.visit], 1)
  }

  /** One turn of the inner loop on `personMap`: the sighted name then has
      an entry, a new name is appended last, every entry of another name is
      untouched, and the names stay distinct. */
  function AddPerson(ps: seq<PersonStat>, s: Sighting): (r: seq<PersonStat>)
    ensures Find(ps, PersonName, Name(s)).None? ==> r == ps + [Fresh(s)]
    ensures Find(ps, PersonName, Name(s)).Some? ==>
              var i := Find(ps, PersonName, Name(s)).value;
              r == ps[i := Extend(ps[i], s.visit)]
    ensures Find(r, PersonName, Name(s)).Some?
    ensures |r| == |ps| + (if Find(ps, PersonName, Name(s)).None? then 1 else 0)
    ensures forall j :: 0 <= j < |ps| ==> r[j].name == ps[j].name
    ensures forall j :: 0 <= j < |ps| && ps[j].name != Name(s) ==> r[j] == ps[j]
    ensures DistinctNames(ps) ==> DistinctNames(r)
  {
    match Find(ps, PersonName, Name(s))
    case None =>
      var r := ps + [Fresh(s)];
      assert PersonName(r[|ps|]) == Name(s);
      r
    case Some(i) =>
      var r := ps[i := Extend(ps[i], s.visit)];
      assert PersonName(r[i]) == Name(s);
      r
  }

  /** A name without an entry has not been sighted. */
  lemma Unlisted(sg: seq<Sighting>, ps: seq<PersonStat>, n: string)
    requires Listed(sg, ps) && Find(ps, PersonName, n).None?
    ensures FirstOf(sg, n).None? && VisitsOf(sg, n) == []
  {
    forall k | 0 <= k < |sg|
      ensures Name(sg[k]) != n
    {
      assert Find(ps, PersonName, Name(sg[k])).Some?;
    }
    NoVisits(sg, n);
  }

  lemma StepDistinct(ps: seq<PersonStat>, s: Sighting)
    requires DistinctNames(ps)
    ensures DistinctNames(AddPerson(ps, s))
  {
  }

  lemma StepListed(sg: seq<Sighting>, ps: seq<PersonStat>, s: Sighting)
    requires Listed(sg, ps)
    ensures Listed(sg + [s], AddPerson(ps, s))
  {
    var sg' := sg + [s];
    var ps' := AddPerson(ps, s);
    forall k | 0 <= k < |sg'|
      ensures Find(ps', PersonName, Name(sg'[k])).Some?
    {
      var j := if k < |sg| then Find(ps, PersonName, Name(sg[k])).value
               else if Find(ps, PersonName, Name(s)).Some? then Find(ps, PersonName, Name(s)).value
               else |ps|;
      assert ps'[j].name == Name(sg'[k]);
    }
  }

  lemma StepTracked(sg: seq<Sighting>, ps: seq<PersonStat>, s: Sighting)
    requires AllTracked(sg, ps) && DistinctNames(ps) && Listed(sg, ps)
    ensures AllTracked(sg + [s], AddPerson(ps, s))
  {
    var ps' := AddPerson(ps, s);
    forall j | 0 <= j < |ps'|
      ensures Tracks(sg + [s], ps'[j])
    {
      VisitsStep(sg, s, ps'[j].name);
      if j == |ps| {
        Unlisted(sg, ps, Name(s));
      } else {
        assert Tracks(sg, ps[j]);
      }
    }
  }

  lemma StepIntroduced(sg: seq<Sighting>, ps: seq<PersonStat>, s: Sighting)
    requires AllIntroduced(sg, ps) && Listed(sg, ps)
    ensures AllIntroduced(sg + [s], AddPerson(ps, s))
  {
    var sg' := sg + [s];
    var ps' := AddPerson(ps, s);
    forall j | 0 <= j < |ps'|
      ensures Introduced(sg', ps'[j])
    {
      FirstStep(sg, s, ps'[j].name);
      if j == |ps| {
        Unlisted(sg, ps, Name(s));
      } else {
        assert Introduced(sg, ps[j]);
        var f := FirstOf(sg, ps[j].name).value;
        assert sg'[f] == sg[f];
      }
    }
  }

  lemma StepOrder(sg: seq<Sighting>, ps: seq<PersonStat>, s: Sighting)
    requires FirstSeenOrder(sg, ps) && AllIntroduced(sg, ps) && Listed(sg, ps)
    ensures FirstSeenOrder(sg + [s], AddPerson(ps, s))
  {
    var sg' := sg + [s];
    var ps' := AddPerson(ps, s);
    NamesKept(ps, s);
    forall j | 0 <= j < |ps|
      ensures FirstIdx(sg', ps'[j].name) == FirstIdx(sg, ps[j].name) < |sg|
    {
      KeptFirst(sg, ps, s, j);
    }
    if |ps'| > |ps| {
      NewcomerLast(sg, ps, s);
    }
  }

  /** A further visit leaves the names in place; at most one is added. */
  lemma NamesKept(ps: seq<PersonStat>, s: Sighting)
    ensures var ps' := AddPerson(ps, s);
      && |ps| <= |ps'| <= |ps| + 1
      && forall j :: 0 <= j < |ps| ==> ps'[j].name == ps[j].name
  {
  }

  /** A listed person's first sighting does not move. */
  lemma KeptFirst(sg: seq<Sighting>, ps: seq<PersonStat>, s: Sighting, j: nat)
    requires AllIntroduced(sg, ps) && j < |ps|
    ensures FirstIdx(sg + [s], ps[j].name) == FirstIdx(sg, ps[j].name) < |sg|
  {
    assert Introduced(sg, ps[j]);
    FirstStep(sg, s, ps[j].name);
  }

  /** A new entry is first sighted last. */
  lemma NewcomerLast(sg: seq<Sighting>, ps: seq<PersonStat>, s: Sighting)
    requires Listed(sg, ps) && |AddPerson(ps, s)| > |ps|
    ensures FirstIdx(sg + [s], AddPerson(ps, s)[|ps|].name) == |sg|
  {
    Unlisted(sg, ps, Name(s));
    FirstStep(sg, s, Name(s));
  }

  lemma StepSum(ps: seq<PersonStat>, s: Sighting)
    ensures SumOf(AddPerson(ps, s), PersonTotal) == SumOf(ps, PersonTotal) + 1
  {
    match Find(ps, PersonName, Name(s))
    case None =>
      assert (ps + [Fresh(s)])[..|ps|] == ps;
    case Some(i) =>
      SumOfUpdate(ps, i, Extend(ps[i], s.visit), PersonTotal);
  }

  /** One turn keeps the whole description of the map. */
  lemma Step(sg: seq<Sighting>, ps: seq<PersonStat>, s: Sighting)
    requires PersonsOf(sg, ps)
    ensures PersonsOf(sg + [s], AddPerson(ps, s))
  {
    StepDistinct(ps, s);
    StepListed(sg, ps, s);
    StepTracked(sg, ps, s);
    StepIntroduced(sg, ps, s);
    StepOrder(sg, ps, s);
    StepSum(ps, s);
  }

  /** `personMap` after the sightings `sg`, in insertion order. */
  function Persons(sg: seq<Sighting>): (r: seq<PersonStat>)
    ensures PersonsOf(sg, r)
    decreases |sg|
  {
    if |sg| == 0 then []
    else
      var prev := sg[..|sg| - 1];
      assert prev + [sg[|sg| - 1]] == sg;
      Step(prev, Persons(prev), sg[|sg| - 1]);
      AddPerson(Persons(prev), sg[|sg| - 1])
  }
}
