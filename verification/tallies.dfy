/** The input side of `processData` (generate-html.js:650-744): the order in
    which its three nested loops visit the persons named in the absence
    statements, and reference counts over that sequence of visits. */
module Tallies {
  import opened Common
  import opened Records

  const UnknownClub: string := "Unknown"

  /** The `{session, date, protocolUrl}` record pushed for each absence. */
  datatype Visit = Visit(session: int, date: string, protocolUrl: string)

  /** One person named in one absence statement, with where it was seen. */
  datatype Sighting = Sighting(visit: Visit, person: Mention)

  /** `person.club || 'Unknown'`. */
  function ClubLabel(p: Mention): (r: string)
    ensures r != ""
    ensures p.club != "" ==> r == p.club
    ensures p.club == "" ==> r == UnknownClub
  {
    if p.club == "" then UnknownClub else p.club
  }

  function Name(s: Sighting): string { s.person.name }
  function Club(s: Sighting): string { ClubLabel(s.person) }

  // ---------------------------------------------------------------------
  // The iteration order of the three nested loops

  /** The number of names of an absence statement. */
  function NameCount(a: Absence): nat { |a.names| }

  /** The number of names over the statements of a session. */
  function SessionNames(s: SessionRecord): nat { SumOf(s.absentMembers, NameCount) }

  /** The sightings of the first `n` statements of session `s`. */
  function StatementSightings(s: SessionRecord, n: nat): (r: seq<Sighting>)
    requires n <= |s.absentMembers|
    ensures |r| == SumOf(s.absentMembers[..n], NameCount)
    decreases n
  {
    if n == 0 then []
    else
      var a := s.absentMembers[n - 1];
      var v := Visit(s.session, s.scrapedAt, a.protocolUrl);
      assert s.absentMembers[..n][..n - 1] == s.absentMembers[..n - 1];
      StatementSightings(s, n - 1) + seq(|a.names|, i requires 0 <= i < |a.names| => Sighting(v, a.names[i]))
  }

  /** The sightings of one session, statement by statement and name by name. */
  function SessionSightings(s: SessionRecord): (r: seq<Sighting>)
    ensures |r| == SessionNames(s)
  {
    assert s.absentMembers[..|s.absentMembers|] == s.absentMembers;
    StatementSightings(s, |s.absentMembers|)
  }

  /** All sightings, session by session: the order in which the loops of
      `processData` visit the persons. */
  function Sightings(sessions: seq<SessionRecord>): (r: seq<Sighting>)
    ensures |r| == SumOf(sessions, SessionNames)
    decreases |sessions|
  {
    if |sessions| == 0 then []
    else Sightings(sessions[..|sessions| - 1]) + SessionSightings(sessions[|sessions| - 1])
  }

  /** `sessionHasAbsences`: some statement of the session names somebody. */
  predicate HasAbsences(s: SessionRecord) {
    exists i :: 0 <= i < |s.absentMembers| && |s.absentMembers[i].names| > 0
  }

  /** A session counts towards `sessionsWithAbsences` exactly when it
      contributes a sighting. */
  lemma {:induction false} HasAbsencesIff(s: SessionRecord)
    ensures HasAbsences(s) <==> |SessionSightings(s)| > 0
  {
    ZeroSum(s.absentMembers, |s.absentMembers|);
    assert s.absentMembers[..|s.absentMembers|] == s.absentMembers;
  }

  /** A sum over a prefix is zero exactly when every term in it is. */
  lemma {:induction false} ZeroSum(as_: seq<Absence>, n: nat)
    requires n <= |as_|
    ensures SumOf(as_[..n], NameCount) == 0 <==> forall i :: 0 <= i < n ==> |as_[i].names| == 0
    decreases n
  {
    if n > 0 {
      assert as_[..n][..n - 1] == as_[..n - 1];
      ZeroSum(as_, n - 1);
    }
  }

  // ---------------------------------------------------------------------
  // Reference definitions over the sightings

  /** The visits of the person called `n`, in order. */
  function VisitsOf(sg: seq<Sighting>, n: string): seq<Visit>
    decreases |sg|
  {
    if |sg| == 0 then []
    else
      var last := sg[|sg| - 1];
      VisitsOf(sg[..|sg| - 1], n) + (if Name(last) == n then [last.visit] else [])
  }

  /** The position of the first sighting of `n`. */
  function FirstOf(sg: seq<Sighting>, n: string): (r: Option<nat>)
    ensures r.Some? ==> r.value < |sg| && Name(sg[r.value]) == n &&
                        forall k :: 0 <= k < r.value ==> Name(sg[k]) != n
    ensures r.None? ==> forall k :: 0 <= k < |sg| ==> Name(sg[k]) != n
    decreases |sg|
  {
    if |sg| == 0 then None
    else
      match FirstOf(sg[..|sg| - 1], n)
      case Some(j) => Some(j)
      case None => if Name(sg[|sg| - 1]) == n then Some(|sg| - 1) else None
  }

  /** The number of sightings of party `c`. */
  function CountClub(sg: seq<Sighting>, c: string): nat
    decreases |sg|
  {
    if |sg| == 0 then 0
    else CountClub(sg[..|sg| - 1], c) + (if Club(sg[|sg| - 1]) == c then 1 else 0)
  }

  /** The number of sightings of `n` under party `c`. */
  function CountPair(sg: seq<Sighting>, c: string, n: string): nat
    decreases |sg|
  {
    if |sg| == 0 then 0
    else
      var last := sg[|sg| - 1];
      CountPair(sg[..|sg| - 1], c, n) + (if Club(last) == c && Name(last) == n then 1 else 0)
  }

  /** A party nobody was seen under has no counts. */
  lemma {:induction false} Unseen(sg: seq<Sighting>, c: string)
    requires forall k :: 0 <= k < |sg| ==> Club(sg[k]) != c
    ensures CountClub(sg, c) == 0
    ensures forall n :: CountPair(sg, c, n) == 0
    decreases |sg|
  {
    if |sg| > 0 {
      Unseen(sg[..|sg| - 1], c);
    }
  }

  /** The first position of `n`, or the number of sightings when there is
      none. */
  function FirstIdx(sg: seq<Sighting>, n: string): nat {
    match FirstOf(sg, n)
    case Some(j) => j
    case None => |sg|
  }

  /** How one more sighting extends each reference definition. */
  lemma VisitsStep(sg: seq<Sighting>, s: Sighting, n: string)
    ensures VisitsOf(sg + [s], n) == VisitsOf(sg, n) + (if Name(s) == n then [s.visit] else [])
  {
    assert (sg + [s])[..|sg|] == sg;
  }

  lemma FirstStep(sg: seq<Sighting>, s: Sighting, n: string)
    ensures FirstOf(sg, n).Some? ==> FirstOf(sg + [s], n) == FirstOf(sg, n)
    ensures FirstOf(sg, n).None? ==> FirstOf(sg + [s], n) == (if Name(s) == n then Some(|sg|) else None)
  {
    assert (sg + [s])[..|sg|] == sg;
  }

  lemma CountStep(sg: seq<Sighting>, s: Sighting)
    ensures forall c :: CountClub(sg + [s], c) == CountClub(sg, c) + (if Club(s) == c then 1 else 0)
    ensures forall c, n :: CountPair(sg + [s], c, n) ==
                             CountPair(sg, c, n) + (if Club(s) == c && Name(s) == n then 1 else 0)
  {
    assert (sg + [s])[..|sg|] == sg;
  }

  /** A name nobody was seen under has no visits. */
  lemma {:induction false} NoVisits(sg: seq<Sighting>, n: string)
    requires forall k :: 0 <= k < |sg| ==> Name(sg[k]) != n
    ensures VisitsOf(sg, n) == []
    decreases |sg|
  {
    if |sg| > 0 {
      NoVisits(sg[..|sg| - 1], n);
    }
  }

  /** The position of key `k` in an insertion-ordered map, kept as a
      sequence of entries. */
  function Find<T>(s: seq<T>, key: T -> string, k: string): (r: Option<nat>)
    ensures r.Some? ==> r.value < |s| && key(s[r.value]) == k
    ensures r.None? ==> forall i :: 0 <= i < |s| ==> key(s[i]) != k
    decreases |s|
  {
    if |s| == 0 then None
    else if key(s[|s| - 1]) == k then Some(|s| - 1)
    else Find(s[..|s| - 1], key, k)
  }
}
