/** `processData` (generate-html.js:650-744): the per-person, per-party and
    per-session statistics of the report, computed in one pass over every
    person named in every absence statement of every session.  The pass is
    `Sightings`; the two maps it fills are `People.Persons` and
    `Parties.PartyMap`. */
module Aggregate {
  import opened Common
  import opened Records
  import opened Tallies
  import opened People
  import opened Parties
  import Sorting

  /** A party entry as reported, with the derived figures.  The two ratios
      are exact rationals here. */
  datatype PartyRow = PartyRow(name: string, members: seq<string>, memberCount: nat,
                               totalAbsences: nat, absencesByMember: map<string, nat>,
                               activeMembers: nat, absentPercentage: real,
                               averageAbsencesPerMember: real)

  function RowTotal(q: PartyRow): nat { q.totalAbsences }

  datatype SessionStats = SessionStats(totalSessions: nat, sessionsWithAbsences: nat, totalAbsences: nat)

  datatype Stats = Stats(personStats: seq<PersonStat>, partyStats: seq<PartyRow>, sessionStats: SessionStats)

  /** The number of sitting members of a party: `activeMembersByParty` is
      optional, and a party it does not list (or lists with 0) counts 0. */
  function ActiveFor(active: Option<map<string, nat>>, name: string): (r: nat)
    ensures active.None? ==> r == 0
    ensures active.Some? && name in active.value ==> r == active.value[name]
    ensures active.Some? && name !in active.value ==> r == 0
  {
    match active
    case None => 0
    case Some(m) => if name in m then m[name] else 0
  }

  /** The `.map(party => …)` step: the member count is the number of
      distinct members; the percentage relates absent to sitting members and
      is 0 when the sitting members are unknown; the average spreads the
      total over the absent members. */
  function ToRow(q: PartyStat, active: Option<map<string, nat>>): (r: PartyRow)
    requires |q.members| > 0
    ensures r.name == q.name && r.members == q.members && r.memberCount == |q.members|
    ensures r.totalAbsences == q.totalAbsences && r.absencesByMember == q.absencesByMember
    ensures r.activeMembers == ActiveFor(active, q.name)
    ensures r.activeMembers == 0 ==> r.absentPercentage == 0.0
    ensures r.activeMembers > 0 ==>
              r.absentPercentage * (r.activeMembers as real) == (r.memberCount as real) * 100.0
    ensures r.averageAbsencesPerMember * (r.memberCount as real) == r.totalAbsences as real
  {
    var activeMembers := ActiveFor(active, q.name);
    var absentMembers := |q.members|;
    var absentPercentage :=
      if activeMembers > 0 then (absentMembers as real / activeMembers as real) * 100.0 else 0.0;
    PartyRow(q.name, q.members, |q.members|, q.totalAbsences, q.absencesByMember,
             activeMembers, absentPercentage, q.totalAbsences as real / |q.members| as real)
  }

  function ToRows(qs: seq<PartyStat>, active: Option<map<string, nat>>): (r: seq<PartyRow>)
    requires forall i :: 0 <= i < |qs| ==> |qs[i].members| > 0
    ensures |r| == |qs|
    ensures forall i :: 0 <= i < |qs| ==> r[i] == ToRow(qs[i], active)
    ensures SumOf(r, RowTotal) == SumOf(qs, PartyTotal)
    decreases |qs|
  {
    if |qs| == 0 then []
    else
      var init := ToRows(qs[..|qs| - 1], active);
      var r := init + [ToRow(qs[|qs| - 1], active)];
      assert r[..|r| - 1] == init;
      r
  }

  /** Every party entry has a member. */
  lemma PartiesNonEmpty(sg: seq<Sighting>)
    ensures forall i :: 0 <= i < |PartyMap(sg)| ==> |PartyMap(sg)[i].members| > 0
  {
    var qs := PartyMap(sg);
    forall i | 0 <= i < |qs|
      ensures |qs[i].members| > 0
    {
      assert PartyFaithful(sg, qs[i]);
    }
  }

  /** The party rows before sorting. */
  function Rows(sg: seq<Sighting>, active: Option<map<string, nat>>): (r: seq<PartyRow>)
    ensures |r| == |PartyMap(sg)|
    ensures forall i :: 0 <= i < |r| ==> |PartyMap(sg)[i].members| > 0 && r[i] == ToRow(PartyMap(sg)[i], active)
    ensures SumOf(r, RowTotal) == |sg|
  {
    PartiesNonEmpty(sg);
    ToRows(PartyMap(sg), active)
  }

  /** `processData(jsonData, activeMembersByParty)`: the person list and the
      party rows, each sorted by descending total, and the session counts.
      At most every session has absences; none has any exactly when no name
      was sighted; the number of sightings is the number of names over all
      statements, and the totals of the person list and of the party list
      both add up to it. */
  function ProcessData(sessions: seq<SessionRecord>, active: Option<map<string, nat>>): (r: Stats)
    ensures var sg := Sightings(sessions);
      && r.personStats == Sorting.SortDescending(Persons(sg), PersonTotal)
      && r.partyStats == Sorting.SortDescending(Rows(sg, active), RowTotal)
      && r.sessionStats.totalSessions == |sessions|
      && r.sessionStats.sessionsWithAbsences == |Filter(sessions, HasAbsences)|
      && r.sessionStats.totalAbsences == |sg|
    ensures r.sessionStats.sessionsWithAbsences <= r.sessionStats.totalSessions
    ensures r.sessionStats.sessionsWithAbsences == 0 <==> r.sessionStats.totalAbsences == 0
    ensures r.sessionStats.totalAbsences == SumOf(sessions, SessionNames)
    ensures SumOf(r.personStats, PersonTotal) == r.sessionStats.totalAbsences
    ensures SumOf(r.partyStats, RowTotal) == r.sessionStats.totalAbsences
  {
    var sg := Sightings(sessions);
    assert PersonsOf(sg, Persons(sg));
    NoAbsencesIffFrom(sessions);
    Stats(Sorting.SortDescending(Persons(sg), PersonTotal),
          Sorting.SortDescending(Rows(sg, active), RowTotal),
          SessionStats(|sessions|, |Filter(sessions, HasAbsences)|, |sg|))
  }

  // ---------------------------------------------------------------------
  // What the report can rely on

  /** A session list has no session with absences exactly when it has no
      sighting. */
  lemma {:induction false} NoAbsencesIffFrom(sessions: seq<SessionRecord>)
    ensures |Filter(sessions, HasAbsences)| == 0 <==> |Sightings(sessions)| == 0
    decreases |sessions|
  {
    if |sessions| > 0 {
      var init := sessions[..|sessions| - 1];
      var last := sessions[|sessions| - 1];
      assert sessions == init + [last];
      FilterAppend(init, [last], HasAbsences);
      assert [last][1..] == [];
      HasAbsencesIff(last);
      NoAbsencesIffFrom(init);
    }
  }

  /** The person list is ordered by descending total; among equal totals,
      the person sighted first comes first. */
  lemma PersonOrder(sessions: seq<SessionRecord>, active: Option<map<string, nat>>)
    ensures ByTotalThenFirstSeen(Sightings(sessions), ProcessData(sessions, active).personStats)
  {
    var sg := Sightings(sessions);
    SortedFirstSeen(sg, Persons(sg));
  }

  /** Non-increasing totals, and among equal totals the order of first
      sighting. */
  ghost predicate ByTotalThenFirstSeen(sg: seq<Sighting>, ps: seq<PersonStat>) {
    && (forall i, j :: 0 <= i < j < |ps| ==> ps[i].totalAbsences >= ps[j].totalAbsences)
    && (forall i, j :: 0 <= i < j < |ps| && ps[i].totalAbsences == ps[j].totalAbsences ==>
          FirstIdx(sg, ps[i].name) < FirstIdx(sg, ps[j].name))
  }

  /** Sorting keeps people with equal totals in order of first sighting. */
  lemma SortedFirstSeen(sg: seq<Sighting>, base: seq<PersonStat>)
    requires FirstSeenOrder(sg, base)
    ensures ByTotalThenFirstSeen(sg, Sorting.SortDescending(base, PersonTotal))
  {
    var ps := Sorting.SortDescending(base, PersonTotal);
    var idx := Sorting.Order(base, PersonTotal);
    forall i, j | 0 <= i < j < |ps| && ps[i].totalAbsences == ps[j].totalAbsences
      ensures FirstIdx(sg, ps[i].name) < FirstIdx(sg, ps[j].name)
    {
      assert ps[i] == base[idx[i]] && ps[j] == base[idx[j]];
      assert idx[i] < idx[j];
    }
  }

  /** Sorting keeps the names distinct. */
  lemma SortedDistinct(base: seq<PersonStat>)
    requires DistinctNames(base)
    ensures DistinctNames(Sorting.SortDescending(base, PersonTotal))
  {
    var ps := Sorting.SortDescending(base, PersonTotal);
    var idx := Sorting.Order(base, PersonTotal);
    forall i, j | 0 <= i < j < |ps|
      ensures ps[i].name != ps[j].name
    {
      Sorting.OrderInjective(base, PersonTotal, i, j);
      assert ps[i] == base[idx[i]] && ps[j] == base[idx[j]];
    }
  }

  /** Sorting keeps every name listed. */
  lemma SortedListed(sg: seq<Sighting>, base: seq<PersonStat>, k: nat)
    requires People.Listed(sg, base) && k < |sg|
    ensures var ps := Sorting.SortDescending(base, PersonTotal);
      exists i :: 0 <= i < |ps| && ps[i].name == Name(sg[k])
  {
    var b := Find(base, PersonName, Name(sg[k])).value;
    Sorting.SortCovers(base, PersonTotal, b);
  }

  /** The person list names every person seen, each exactly once. */
  lemma PersonCoverage(sessions: seq<SessionRecord>, active: Option<map<string, nat>>)
    ensures var sg := Sightings(sessions);
      var ps := ProcessData(sessions, active).personStats;
      && (forall i, j :: 0 <= i < j < |ps| ==> ps[i].name != ps[j].name)
      && (forall k :: 0 <= k < |sg| ==> exists i :: 0 <= i < |ps| && ps[i].name == Name(sg[k]))
  {
    var sg := Sightings(sessions);
    var base := Persons(sg);
    SortedDistinct(base);
    forall k | 0 <= k < |sg|
      ensures exists i :: 0 <= i < |Sorting.SortDescending(base, PersonTotal)| &&
                          Sorting.SortDescending(base, PersonTotal)[i].name == Name(sg[k])
    {
      SortedListed(sg, base, k);
    }
  }

  /** Sorting keeps every entry's description. */
  lemma SortedEntries(sg: seq<Sighting>, base: seq<PersonStat>)
    requires AllTracked(sg, base) && AllIntroduced(sg, base)
    ensures var ps := Sorting.SortDescending(base, PersonTotal);
      AllTracked(sg, ps) && AllIntroduced(sg, ps)
  {
    var ps := Sorting.SortDescending(base, PersonTotal);
    var idx := Sorting.Order(base, PersonTotal);
    forall i | 0 <= i < |ps|
      ensures Tracks(sg, ps[i]) && Introduced(sg, ps[i])
    {
      assert ps[i] == base[idx[i]];
      assert Tracks(sg, base[idx[i]]) && Introduced(sg, base[idx[i]]);
    }
  }

  /** Each person entry lists the person's visits in order and its total is
      their number (`Tracks`); its club and profile come from the person's
      first sighting (`Introduced`). */
  lemma PersonEntries(sessions: seq<SessionRecord>, active: Option<map<string, nat>>)
    ensures var sg := Sightings(sessions);
      var ps := ProcessData(sessions, active).personStats;
      forall i :: 0 <= i < |ps| ==> Tracks(sg, ps[i]) && Introduced(sg, ps[i])
  {
    var sg := Sightings(sessions);
    SortedEntries(sg, Persons(sg));
  }

  /** The party list is ordered by descending total and names each party
      once. */
  lemma PartyOrder(sessions: seq<SessionRecord>, active: Option<map<string, nat>>)
    ensures var qs := ProcessData(sessions, active).partyStats;
      && (forall i, j :: 0 <= i < j < |qs| ==> qs[i].totalAbsences >= qs[j].totalAbsences)
      && (forall i, j :: 0 <= i < j < |qs| ==> qs[i].name != qs[j].name)
  {
    var sg := Sightings(sessions);
    RowsDistinct(sg, active);
    SortedRowsDistinct(Rows(sg, active));
  }

  /** The party rows name each party once. */
  lemma RowsDistinct(sg: seq<Sighting>, active: Option<map<string, nat>>)
    ensures var base := Rows(sg, active);
      forall i, j :: 0 <= i < j < |base| ==> base[i].name != base[j].name
  {
    assert DistinctParties(PartyMap(sg));
  }

  /** Sorting keeps the party names distinct. */
  lemma SortedRowsDistinct(base: seq<PartyRow>)
    requires forall i, j :: 0 <= i < j < |base| ==> base[i].name != base[j].name
    ensures var qs := Sorting.SortDescending(base, RowTotal);
      forall i, j :: 0 <= i < j < |qs| ==> qs[i].name != qs[j].name
  {
    var qs := Sorting.SortDescending(base, RowTotal);
    var idx := Sorting.Order(base, RowTotal);
    forall i, j | 0 <= i < j < |qs|
      ensures qs[i].name != qs[j].name
    {
      Sorting.OrderInjective(base, RowTotal, i, j);
      assert qs[i] == base[idx[i]] && qs[j] == base[idx[j]];
      if idx[i] > idx[j] {
        assert base[idx[j]].name != base[idx[i]].name;
      }
    }
  }

  /** Every club label under which somebody was sighted has a party row. */
  lemma PartyCoverage(sessions: seq<SessionRecord>, active: Option<map<string, nat>>)
    ensures var sg := Sightings(sessions);
      var qs := ProcessData(sessions, active).partyStats;
      forall k :: 0 <= k < |sg| ==> exists i :: 0 <= i < |qs| && qs[i].name == Club(sg[k])
  {
    var sg := Sightings(sessions);
    var base := Rows(sg, active);
    var qs := ProcessData(sessions, active).partyStats;
    forall k | 0 <= k < |sg|
      ensures exists i :: 0 <= i < |qs| && qs[i].name == Club(sg[k])
    {
      assert Parties.Listed(sg, PartyMap(sg));
      var b := Find(PartyMap(sg), PartyName, Club(sg[k])).value;
      assert base[b].name == Club(sg[k]);
      Sorting.SortCovers(base, RowTotal, b);
      var i :| 0 <= i < |base| && qs[i] == base[b];
    }
  }

  /** One party row is faithful to the sightings under its label. */
  ghost predicate RowFaithful(sg: seq<Sighting>, q: PartyRow) {
    && NoDup(q.members)
    && q.memberCount == |q.members|
    && (forall n :: n in q.members <==> CountPair(sg, q.name, n) > 0)
    && (forall n :: n in q.absencesByMember <==> n in q.members)
    && (forall n :: n in q.absencesByMember ==> q.absencesByMember[n] == CountPair(sg, q.name, n))
    && q.totalAbsences == CountClub(sg, q.name)
    && (forall i :: 0 <= i < |q.members| ==> q.members[i] in q.absencesByMember)
    && MemberSum(q.members, q.absencesByMember) == q.totalAbsences
  }

  /** Each party row: the members are distinct and exactly the names seen
      under the label, `memberCount` is their number, the per-member counts
      have exactly the members as keys, count each member's sightings under
      the label and add up to the party total, which counts the label's
      sightings; without sitting members the percentage is 0. */
  lemma PartyEntries(sessions: seq<SessionRecord>, active: Option<map<string, nat>>)
    ensures var sg := Sightings(sessions);
      var qs := ProcessData(sessions, active).partyStats;
      forall i :: 0 <= i < |qs| ==> RowSound(sg, qs[i])
  {
    var sg := Sightings(sessions);
    RowsFaithful(sg, active);
    SortedRowsFaithful(sg, Rows(sg, active));
  }

  /** A row is faithful, and without sitting members its percentage is 0. */
  ghost predicate RowSound(sg: seq<Sighting>, q: PartyRow) {
    RowFaithful(sg, q) && (q.activeMembers == 0 ==> q.absentPercentage == 0.0)
  }

  /** Every unsorted party row is sound. */
  lemma RowsFaithful(sg: seq<Sighting>, active: Option<map<string, nat>>)
    ensures var base := Rows(sg, active);
      forall i :: 0 <= i < |base| ==> RowSound(sg, base[i])
  {
    var base := Rows(sg, active);
    forall i | 0 <= i < |base|
      ensures RowSound(sg, base[i])
    {
      assert PartyFaithful(sg, PartyMap(sg)[i]);
    }
  }

  /** Sorting keeps every row sound. */
  lemma SortedRowsFaithful(sg: seq<Sighting>, base: seq<PartyRow>)
    requires forall i :: 0 <= i < |base| ==> RowSound(sg, base[i])
    ensures var qs := Sorting.SortDescending(base, RowTotal);
      forall i :: 0 <= i < |qs| ==> RowSound(sg, qs[i])
  {
    var qs := Sorting.SortDescending(base, RowTotal);
    var idx := Sorting.Order(base, RowTotal);
    forall i | 0 <= i < |qs|
      ensures RowSound(sg, qs[i])
    {
      assert qs[i] == base[idx[i]];
    }
  }
}
