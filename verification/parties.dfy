/** The `partyMap` of `processData` (generate-html.js:687-704): one entry
    per club label, with the set of members seen under it, its total and
    the per-member counts. */
module Parties {
  import opened Common
  import opened Tallies

  /** `members` is the `Set` in insertion order. */
  datatype PartyStat = PartyStat(name: string, members: seq<string>, totalAbsences: nat,
                                 absencesByMember: map<string, nat>)

  function PartyName(q: PartyStat): string { q.name }
  function PartyTotal(q: PartyStat): nat { q.totalAbsences }

  /** The sum of the per-member counts, over the members in order. */
  function MemberSum(ms: seq<string>, m: map<string, nat>): nat
    requires forall i :: 0 <= i < |ms| ==> ms[i] in m
    decreases |ms|
  {
    if |ms| == 0 then 0 else MemberSum(ms[..|ms| - 1], m) + m[ms[|ms| - 1]]
  }

  /** The sum depends only on the counts of the listed names. */
  lemma {:induction false} MemberSumFrame(ms: seq<string>, m: map<string, nat>, m': map<string, nat>)
    requires forall i :: 0 <= i < |ms| ==> ms[i] in m && ms[i] in m' && m[ms[i]] == m'[ms[i]]
    ensures MemberSum(ms, m) == MemberSum(ms, m')
    decreases |ms|
  {
    if |ms| > 0 {
      MemberSumFrame(ms[..|ms| - 1], m, m');
    }
  }

  /** Incrementing the count of a listed member adds one to the sum. */
  lemma {:induction false} MemberSumBump(ms: seq<string>, m: map<string, nat>, n: string)
    requires forall i :: 0 <= i < |ms| ==> ms[i] in m
    requires NoDup(ms) && n in ms
    ensures MemberSum(ms, m[n := m[n] + 1]) == MemberSum(ms, m) + 1
    decreases |ms|
  {
    var init := ms[..|ms| - 1];
    var last := ms[|ms| - 1];
    assert ms == init + [last];
    if last == n {
      assert n !in init;
      MemberSumFrame(init, m, m[n := m[n] + 1]);
    } else {
      assert n in init;
      MemberSumBump(init, m, n);
    }
  }

  /** The members are distinct and are exactly the names seen under the
      party. */
  ghost predicate MembersFaithful(sg: seq<Sighting>, q: PartyStat) {
    && NoDup(q.members)
    && |q.members| > 0
    && (forall n :: n in q.members <==> CountPair(sg, q.name, n) > 0)
  }

  /** The per-member counts have exactly the members as keys and count the
      member's sightings under the party; the total counts the party's
      sightings. */
  ghost predicate CountsFaithful(sg: seq<Sighting>, q: PartyStat) {
    && (forall n :: n in q.absencesByMember <==> n in q.members)
    && (forall n :: n in q.absencesByMember ==> q.absencesByMember[n] == CountPair(sg, q.name, n))
    && q.totalAbsences == CountClub(sg, q.name)
  }

  /** The per-member counts add up to the total. */
  ghost predicate Summed(q: PartyStat) {
    && (forall i :: 0 <= i < |q.members| ==> q.members[i] in q.absencesByMember)
    && MemberSum(q.members, q.absencesByMember) == q.totalAbsences
  }

  ghost predicate PartyFaithful(sg: seq<Sighting>, q: PartyStat) {
    MembersFaithful(sg, q) && CountsFaithful(sg, q) && Summed(q)
  }

  ghost predicate DistinctParties(qs: seq<PartyStat>) {
    forall i, j :: 0 <= i < j < |qs| ==> qs[i].name != qs[j].name
  }

  ghost predicate AllFaithful(sg: seq<Sighting>, qs: seq<PartyStat>) {
    forall i :: 0 <= i < |qs| ==> PartyFaithful(sg, qs[i])
  }

  /** Every club label seen has an entry. */
  ghost predicate Listed(sg: seq<Sighting>, qs: seq<PartyStat>) {
    forall k :: 0 <= k < |sg| ==> Find(qs, PartyName, Club(sg[k])).Some?
  }

  /** `qs` is the party map after the sightings `sg`. */
  ghost predicate PartiesOf(sg: seq<Sighting>, qs: seq<PartyStat>) {
    && DistinctParties(qs)
    && AllFaithful(sg, qs)
    && Listed(sg, qs)
    && SumOf(qs, PartyTotal) == |sg|
  }

  /** The entry of a party after one more sighting of member `n`:
      `members.add(name)`, `totalAbsences++`, and the member's count set to
      one more than before (starting from 0).  `n` is then a member, listed
      once if the members were distinct; every other member keeps its
      count. */
  function Bump(q: PartyStat, n: string): (r: PartyStat)
    ensures r.name == q.name && r.totalAbsences == q.totalAbsences + 1
    ensures n in q.members ==> r.members == q.members
    ensures n !in q.members ==> r.members == q.members + [n]
    ensures r.absencesByMember ==
              q.absencesByMember[n := if n in q.absencesByMember then q.absencesByMember[n] + 1 else 1]
    ensures n in r.members && NoDup(q.members) ==> NoDup(r.members)
    ensures forall k :: k in r.members <==> k in q.members || k == n
    ensures n in r.absencesByMember &&
            r.absencesByMember[n] == (if n in q.absencesByMember then q.absencesByMember[n] else 0) + 1
    ensures forall k :: k != n ==> && (k in r.absencesByMember <==> k in q.absencesByMember)
                                   && (k in q.absencesByMember ==> r.absencesByMember[k] == q.absencesByMember[k])
  {
    var m := q.absencesByMember;
    PartyStat(q.name, if n in q.members then q.members else q.members + [n],
              q.totalAbsences + 1, m[n := if n in m then m[n] + 1 else 1])
  }

  /** The entry of a party's first sighting. */
  function Fresh(s: Sighting): (r: PartyStat)
    ensures r.name == Club(s) && r.members == [Name(s)] && r.totalAbsences == 1
    ensures r.absencesByMember == map[Name(s) := 1]
  {
    PartyStat(Club(s), [Name(s)], 1, map[Name(s) := 1])
  }

  /** One turn of the inner loop on `partyMap`: the sighting's club then has
      an entry, a new club is appended last, every entry of another club is
      untouched, and the club labels stay distinct. */
  function AddParty(qs: seq<PartyStat>, s: Sighting): (r: seq<PartyStat>)
    ensures Find(qs, PartyName, Club(s)).None? ==> r == qs + [Fresh(s)]
    ensures Find(qs, PartyName, Club(s)).Some? ==>
              var i := Find(qs, PartyName, Club(s)).value;
              r == qs[i := Bump(qs[i], Name(s))]
    ensures Find(r, PartyName, Club(s)).Some?
    ensures |r| == |qs| + (if Find(qs, PartyName, Club(s)).None? then 1 else 0)
    ensures forall j :: 0 <= j < |qs| ==> r[j].name == qs[j].name
    ensures forall j :: 0 <= j < |qs| && qs[j].name != Club(s) ==> r[j] == qs[j]
    ensures DistinctParties(qs) ==> DistinctParties(r)
  {
    match Find(qs, PartyName, Club(s))
    case None =>
      var r := qs + [Fresh(s)];
      assert PartyName(r[|qs|]) == Club(s);
      r
    case Some(i) =>
      var r := qs[i := Bump(qs[i], Name(s))];
      assert PartyName(r[i]) == Club(s);
      r
  }

  /** An entry of another party is not affected by a sighting. */
  lemma OtherParty(sg: seq<Sighting>, s: Sighting, q: PartyStat)
    requires PartyFaithful(sg, q) && Club(s) != q.name
    ensures PartyFaithful(sg + [s], q)
  {
    CountStep(sg, s);
  }

  lemma BumpMembers(sg: seq<Sighting>, q: PartyStat, s: Sighting)
    requires MembersFaithful(sg, q) && Club(s) == q.name
    ensures MembersFaithful(sg + [s], Bump(q, Name(s)))
  {
    CountStep(sg, s);
    var n := Name(s);
    if n !in q.members {
      var ms' := q.members + [n];
      assert forall i :: 0 <= i < |q.members| ==> ms'[i] == q.members[i];
    }
  }

  lemma BumpCounts(sg: seq<Sighting>, q: PartyStat, s: Sighting)
    requires MembersFaithful(sg, q) && CountsFaithful(sg, q) && Club(s) == q.name
    ensures CountsFaithful(sg + [s], Bump(q, Name(s)))
  {
    CountStep(sg, s);
  }

  lemma BumpSummed(q: PartyStat, n: string)
    requires NoDup(q.members) && Summed(q)
    requires forall x :: x in q.absencesByMember <==> x in q.members
    ensures Summed(Bump(q, n))
  {
    if n in q.members {
      BumpKnown(q, n);
    } else {
      BumpNew(q, n);
    }
  }

  lemma BumpKnown(q: PartyStat, n: string)
    requires NoDup(q.members) && Summed(q) && n in q.members
    requires n in q.absencesByMember
    ensures Summed(Bump(q, n))
  {
    var m := q.absencesByMember;
    assert Bump(q, n).members == q.members;
    assert Bump(q, n).absencesByMember == m[n := m[n] + 1];
    MemberSumBump(q.members, m, n);
  }

  lemma BumpNew(q: PartyStat, n: string)
    requires Summed(q) && n !in q.members && n !in q.absencesByMember
    ensures Summed(Bump(q, n))
  {
    var m := q.absencesByMember;
    var m' := m[n := 1];
    var ms := q.members;
    var ms' := ms + [n];
    assert Bump(q, n).members == ms';
    assert Bump(q, n).absencesByMember == m';
    assert forall i :: 0 <= i < |ms| ==> ms[i] != n;
    MemberSumFrame(ms, m, m');
    assert ms'[..|ms|] == ms;
    assert MemberSum(ms', m') == MemberSum(ms, m') + 1;
  }

  /** A club label without an entry has not been seen. */
  lemma Unlisted(sg: seq<Sighting>, qs: seq<PartyStat>, c: string)
    requires Listed(sg, qs) && Find(qs, PartyName, c).None?
    ensures CountClub(sg, c) == 0 && forall n :: CountPair(sg, c, n) == 0
  {
    forall k | 0 <= k < |sg|
      ensures Club(sg[k]) != c
    {
      assert Find(qs, PartyName, Club(sg[k])).Some?;
    }
    Unseen(sg, c);
  }

  lemma FreshFaithful(sg: seq<Sighting>, qs: seq<PartyStat>, s: Sighting)
    requires Listed(sg, qs) && Find(qs, PartyName, Club(s)).None?
    ensures PartyFaithful(sg + [s], Fresh(s))
  {
    Unlisted(sg, qs, Club(s));
    CountStep(sg, s);
    assert MemberSum([Name(s)], map[Name(s) := 1]) == 1 by {
      assert [Name(s)][..0] == [];
    }
  }

  /** The entry of the sighting's own party after the sighting. */
  lemma SameParty(sg: seq<Sighting>, q: PartyStat, s: Sighting)
    requires PartyFaithful(sg, q) && Club(s) == q.name
    ensures PartyFaithful(sg + [s], Bump(q, Name(s)))
  {
    BumpMembers(sg, q, s);
    BumpCounts(sg, q, s);
    BumpSummed(q, Name(s));
  }

  lemma StepEntry(sg: seq<Sighting>, qs: seq<PartyStat>, s: Sighting, j: nat)
    requires AllFaithful(sg, qs) && Listed(sg, qs) && DistinctParties(qs)
    requires j < |AddParty(qs, s)|
    ensures PartyFaithful(sg + [s], AddParty(qs, s)[j])
  {
    match Find(qs, PartyName, Club(s))
    case None =>
      if j == |qs| {
        FreshFaithful(sg, qs, s);
      } else {
        assert PartyFaithful(sg, qs[j]);
        OtherParty(sg, s, qs[j]);
      }
    case Some(i) =>
      assert PartyFaithful(sg, qs[j]);
      if j == i {
        SameParty(sg, qs[i], s);
      } else {
        assert qs[j].name != qs[i].name;
        OtherParty(sg, s, qs[j]);
      }
  }

  lemma StepFaithful(sg: seq<Sighting>, qs: seq<PartyStat>, s: Sighting)
    requires AllFaithful(sg, qs) && Listed(sg, qs) && DistinctParties(qs)
    ensures AllFaithful(sg + [s], AddParty(qs, s))
  {
    forall j | 0 <= j < |AddParty(qs, s)|
      ensures PartyFaithful(sg + [s], AddParty(qs, s)[j])
    {
      StepEntry(sg, qs, s, j);
    }
  }

  lemma StepDistinct(qs: seq<PartyStat>, s: Sighting)
    requires DistinctParties(qs)
    ensures DistinctParties(AddParty(qs, s))
  {
  }

  lemma StepListed(sg: seq<Sighting>, qs: seq<PartyStat>, s: Sighting)
    requires Listed(sg, qs)
    ensures Listed(sg + [s], AddParty(qs, s))
  {
    var sg' := sg + [s];
    var qs' := AddParty(qs, s);
    forall k | 0 <= k < |sg'|
      ensures Find(qs', PartyName, Club(sg'[k])).Some?
    {
      var j := if k < |sg| then Find(qs, PartyName, Club(sg[k])).value
               else if Find(qs, PartyName, Club(s)).Some? then Find(qs, PartyName, Club(s)).value
               else |qs|;
      assert qs'[j].name == Club(sg'[k]);
    }
  }

  lemma StepSum(qs: seq<PartyStat>, s: Sighting)
    ensures SumOf(AddParty(qs, s), PartyTotal) == SumOf(qs, PartyTotal) + 1
  {
    match Find(qs, PartyName, Club(s))
    case None =>
      assert (qs + [Fresh(s)])[..|qs|] == qs;
    case Some(i) =>
      SumOfUpdate(qs, i, Bump(qs[i], Name(s)), PartyTotal);
  }

  lemma Step(sg: seq<Sighting>, qs: seq<PartyStat>, s: Sighting)
    requires PartiesOf(sg, qs)
    ensures PartiesOf(sg + [s], AddParty(qs, s))
  {
    StepDistinct(qs, s);
    StepFaithful(sg, qs, s);
    StepListed(sg, qs, s);
    StepSum(qs, s);
  }

  /** `partyMap` after the sightings `sg`, in insertion order. */
  function PartyMap(sg: seq<Sighting>): (r: seq<PartyStat>)
    ensures PartiesOf(sg, r)
    decreases |sg|
  {
    if |sg| == 0 then []
    else
      var prev := sg[..|sg| - 1];
      assert prev + [sg[|sg| - 1]] == sg;
      Step(prev, PartyMap(prev), sg[|sg| - 1]);
      AddParty(PartyMap(prev), sg[|sg| - 1])
  }
}
