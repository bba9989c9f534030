/** Party ("Klub") labels: the keyword classifier `normalizeClubName`
    (scraper.js:316-342) and the resolution chain of `fetchClubInfo`
    (scraper.js:344-424) over an already parsed profile page. */
module Clubs {
  import opened Common
  import opened Text

  const FPOE: string := "FPÖ"
  const SPOE: string := "SPÖ"
  const OEVP: string := "ÖVP"
  const NEOS: string := "NEOS"
  const GRUENE: string := "Grüne"

  /** The labels `normalizeClubName` can produce besides its input. */
  const Canonical: seq<string> := [FPOE, SPOE, OEVP, NEOS, GRUENE]

  /** The label `fetchClubInfo` yields when no strategy finds a club. */
  const Unresolved: string := "Unbekannt"

  /** Keyword groups, tested on the lower-cased label in this order. */
  predicate SaysFpoe(l: string) { Contains(l, "freiheitlich") || Contains(l, "fpö") }
  predicate SaysSpoe(l: string) { Contains(l, "sozialdemokratisch") || Contains(l, "spö") }
  predicate SaysOevp(l: string) { Contains(l, "volkspartei") || Contains(l, "övp") }
  predicate SaysNeos(l: string) { Contains(l, "neos") }
  predicate SaysGruene(l: string) { Contains(l, "grüne") || Contains(l, "grün") }

  predicate SaysNone(l: string) {
    !SaysFpoe(l) && !SaysSpoe(l) && !SaysOevp(l) && !SaysNeos(l) && !SaysGruene(l)
  }

  lemma CanonicalLabelsSayThemselves()
    ensures SaysFpoe(ToLower(FPOE))
    ensures !SaysFpoe(ToLower(SPOE)) && SaysSpoe(ToLower(SPOE))
    ensures !SaysFpoe(ToLower(OEVP)) && !SaysSpoe(ToLower(OEVP)) && SaysOevp(ToLower(OEVP))
    ensures !SaysFpoe(ToLower(NEOS)) && !SaysSpoe(ToLower(NEOS)) && !SaysOevp(ToLower(NEOS))
            && SaysNeos(ToLower(NEOS))
    ensures !SaysFpoe(ToLower(GRUENE)) && !SaysSpoe(ToLower(GRUENE)) && !SaysOevp(ToLower(GRUENE))
            && !SaysNeos(ToLower(GRUENE)) && SaysGruene(ToLower(GRUENE))
  {
    LowerFpoe();
    LowerSpoe();
    LowerOevp();
    LowerNeos();
    LowerGruene();
  }

  lemma LowerFpoe()
    ensures SaysFpoe(ToLower(FPOE))
  {
    assert ToLower(FPOE) == "fpö";
  }

  lemma LowerSpoe()
    ensures !SaysFpoe(ToLower(SPOE)) && SaysSpoe(ToLower(SPOE))
  {
    assert ToLower(SPOE) == "spö";
    ContainsTooLong("spö", "freiheitlich");
    ContainsNeedsHead("spö", "fpö");
  }

  lemma LowerOevp()
    ensures !SaysFpoe(ToLower(OEVP)) && !SaysSpoe(ToLower(OEVP)) && SaysOevp(ToLower(OEVP))
  {
    assert ToLower(OEVP) == "övp";
    ContainsTooLong("övp", "freiheitlich");
    ContainsNeedsHead("övp", "fpö");
    ContainsTooLong("övp", "sozialdemokratisch");
    ContainsNeedsHead("övp", "spö");
  }

  lemma LowerNeos()
    ensures !SaysFpoe(ToLower(NEOS)) && !SaysSpoe(ToLower(NEOS)) && !SaysOevp(ToLower(NEOS))
            && SaysNeos(ToLower(NEOS))
  {
    assert ToLower(NEOS) == "neos";
    OnlyNeos();
  }

  lemma OnlyNeos()
    ensures !SaysFpoe("neos") && !SaysSpoe("neos") && !SaysOevp("neos") && SaysNeos("neos")
  {
    ContainsTooLong("neos", "freiheitlich");
    ContainsNeedsHead("neos", "fpö");
    ContainsTooLong("neos", "sozialdemokratisch");
    assert !Contains("neos", "spö") by {
      assert "neos"[1..] == "eos" && "eos"[1..] == "os";
      ContainsTooLong("os", "spö");
      ContainsStep("eos", "spö");
      ContainsStep("neos", "spö");
    }
    ContainsTooLong("neos", "volkspartei");
    ContainsNeedsHead("neos", "övp");
  }

  lemma LowerGruene()
    ensures !SaysFpoe(ToLower(GRUENE)) && !SaysSpoe(ToLower(GRUENE)) && !SaysOevp(ToLower(GRUENE))
            && !SaysNeos(ToLower(GRUENE)) && SaysGruene(ToLower(GRUENE))
  {
    GrueneLowered();
    OnlyGruene();
  }

  lemma GrueneLowered()
    ensures ToLower(GRUENE) == "grüne"
  {
    assert ToLower("üne") == "üne";
    assert ToLower("rüne") == "rüne";
  }

  lemma OnlyGruene()
    ensures !SaysFpoe("grüne") && !SaysSpoe("grüne") && !SaysOevp("grüne")
            && !SaysNeos("grüne") && SaysGruene("grüne")
  {
    var l := "grüne";
    assert StartsWith(l, "grüne");
    ContainsTooLong(l, "freiheitlich");
    ContainsNeedsHead(l, "fpö");
    ContainsTooLong(l, "sozialdemokratisch");
    ContainsNeedsHead(l, "spö");
    ContainsTooLong(l, "volkspartei");
    ContainsNeedsHead(l, "övp");
    assert !Contains(l, "neos") by {
      assert l[1..] == "rüne" && "rüne"[1..] == "üne";
      ContainsTooLong("üne", "neos");
      ContainsStep("rüne", "neos");
      ContainsStep(l, "neos");
    }
  }

  /** `normalizeClubName`: a canonical label, or the input unchanged.  The
      result is a given canonical label exactly when that label's keyword
      group is the first group, in the order FPÖ, SPÖ, ÖVP, NEOS, Grüne,
      found in the lower-cased input. */
  function NormalizeClubName(club: string): (r: string)
    ensures r in Canonical || r == club
    ensures var l := ToLower(club);
      && (r == FPOE <==> SaysFpoe(l))
      && (r == SPOE <==> !SaysFpoe(l) && SaysSpoe(l))
      && (r == OEVP <==> !SaysFpoe(l) && !SaysSpoe(l) && SaysOevp(l))
      && (r == NEOS <==> !SaysFpoe(l) && !SaysSpoe(l) && !SaysOevp(l) && SaysNeos(l))
      && (r == GRUENE <==> !SaysFpoe(l) && !SaysSpoe(l) && !SaysOevp(l) && !SaysNeos(l) && SaysGruene(l))
      && (SaysNone(l) <==> r == club && r !in Canonical)
  {
    CanonicalLabelsSayThemselves();
    var l := ToLower(club);
    if SaysFpoe(l) then FPOE
    else if SaysSpoe(l) then SPOE
    else if SaysOevp(l) then OEVP
    else if SaysNeos(l) then NEOS
    else if SaysGruene(l) then GRUENE
    else club
  }

  /** Normalising twice changes nothing. */
  lemma NormalizeIdempotent(club: string)
    ensures NormalizeClubName(NormalizeClubName(club)) == NormalizeClubName(club)
  {
    CanonicalLabelsSayThemselves();
  }

  /** A label naming the Freedom Party wins over every later keyword, e.g.
      one that also contains "spö". */
  lemma FreiheitlichWins(club: string)
    requires Contains(ToLower(club), "freiheitlich")
    ensures NormalizeClubName(club) == FPOE
  {
  }

  /** One entry of a profile's embedded mandate list. */
  datatype Mandate = Mandate(klub: string, gremium: string, aktiv: Option<bool>, wahlpartei: string)

  /** A profile page after parsing: the mandate list of every embedded
      `props` block that parsed (in script order), the text after the first
      usable "Klub:" label, and the party acronym of the first
      "Abgeordneter zum Nationalrat" function entry. */
  datatype Profile = Profile(mandateLists: seq<seq<Mandate>>, klubLabel: Option<string>,
                             functionParty: Option<string>)

  predicate IsChamber(m: Mandate) { m.gremium == "NR" }

  /** First pass: a chamber mandate with a club that is not marked inactive. */
  predicate ActiveWithClub(m: Mandate) { m.klub != "" && IsChamber(m) && m.aktiv != Some(false) }
  /** Second pass: any chamber mandate with a club. */
  predicate AnyWithClub(m: Mandate) { m.klub != "" && IsChamber(m) }
  /** Third pass: a chamber mandate with an electoral party. */
  predicate WithElectoralParty(m: Mandate) { m.wahlpartei != "" && IsChamber(m) }

  /** Index of the first mandate satisfying `p`. */
  function FirstWhere(ms: seq<Mandate>, p: Mandate -> bool): (i: Option<nat>)
    ensures i.Some? ==> i.value < |ms| && p(ms[i.value])
                        && forall j :: 0 <= j < i.value ==> !p(ms[j])
    ensures i.None? ==> forall j :: 0 <= j < |ms| ==> !p(ms[j])
    decreases |ms|
  {
    if |ms| == 0 then None
    else if p(ms[0]) then Some(0)
    else match FirstWhere(ms[1..], p)
      case Some(k) => Some(k + 1)
      case None => None
  }

  /** `i` is the first mandate of `ms` satisfying `p`. */
  ghost predicate FirstIs(ms: seq<Mandate>, p: Mandate -> bool, i: nat) {
    i < |ms| && p(ms[i]) && forall j :: 0 <= j < i ==> !p(ms[j])
  }

  /** The raw club label one mandate list yields, passes tried in order:
      the first active chamber mandate's club, else the first chamber
      mandate's club, else the first chamber mandate's electoral party. */
  function MandateLabel(ms: seq<Mandate>): (r: Option<string>)
    ensures forall i: nat :: FirstIs(ms, ActiveWithClub, i) ==> r == Some(ms[i].klub)
    ensures (forall j :: 0 <= j < |ms| ==> !ActiveWithClub(ms[j])) ==>
              forall i: nat :: FirstIs(ms, AnyWithClub, i) ==> r == Some(ms[i].klub)
    ensures (forall j :: 0 <= j < |ms| ==> !AnyWithClub(ms[j])) ==>
              forall i: nat :: FirstIs(ms, WithElectoralParty, i) ==> r == Some(ms[i].wahlpartei)
    ensures r.None? <==> forall j :: 0 <= j < |ms| ==> !AnyWithClub(ms[j]) && !WithElectoralParty(ms[j])
  {
    match FirstWhere(ms, ActiveWithClub)
    case Some(i) =>
      FirstUnique(ms, ActiveWithClub, i);
      Some(ms[i].klub)
    case None =>
      match FirstWhere(ms, AnyWithClub)
      case Some(i) =>
        FirstUnique(ms, AnyWithClub, i);
        Some(ms[i].klub)
      case None =>
        match FirstWhere(ms, WithElectoralParty)
        case Some(i) =>
          FirstUnique(ms, WithElectoralParty, i);
          Some(ms[i].wahlpartei)
        case None => None
  }

  /** There is only one first match. */
  lemma FirstUnique(ms: seq<Mandate>, p: Mandate -> bool, i: nat)
    requires FirstIs(ms, p, i)
    ensures forall k: nat :: FirstIs(ms, p, k) ==> k == i
  {
  }

  /** The raw label of the first mandate list that yields one. */
  function FirstMandateLabel(lists: seq<seq<Mandate>>): (r: Option<string>)
    ensures r.None? <==> forall j :: 0 <= j < |lists| ==> MandateLabel(lists[j]).None?
    ensures r.Some? ==> exists i :: 0 <= i < |lists| && r == MandateLabel(lists[i])
                                    && forall j :: 0 <= j < i ==> MandateLabel(lists[j]).None?
    decreases |lists|
  {
    if |lists| == 0 then None
    else match MandateLabel(lists[0])
      case Some(l) => Some(l)
      case None =>
        var r := FirstMandateLabel(lists[1..]);
        assert forall j :: 1 <= j < |lists| ==> lists[j] == lists[1..][j - 1];
        r
  }

  /** `fetchClubInfo` after its page fetch: embedded mandates first, then the
      "Klub:" text, then the function list; a found label is normalised,
      and a failed fetch or a page without any label gives "Unbekannt". */
  function ClubFromProfile(page: Attempt<Profile>): (r: string)
    ensures page.Err? ==> r == Unresolved
    ensures page.Ok? && FirstMandateLabel(page.body.mandateLists).Some? ==>
              r == NormalizeClubName(FirstMandateLabel(page.body.mandateLists).value)
    ensures page.Ok? && FirstMandateLabel(page.body.mandateLists).None? && page.body.klubLabel.Some? ==>
              r == NormalizeClubName(page.body.klubLabel.value)
    ensures (page.Ok? && FirstMandateLabel(page.body.mandateLists).None? && page.body.klubLabel.None?
             && page.body.functionParty.Some?) ==>
              r == NormalizeClubName(page.body.functionParty.value)
    ensures (page.Ok? && FirstMandateLabel(page.body.mandateLists).None? && page.body.klubLabel.None?
             && page.body.functionParty.None?) ==> r == Unresolved
    ensures r == Unresolved || r in Canonical
            || (page.Ok? && ((exists i :: 0 <= i < |page.body.mandateLists| && LabelIn(r, page.body.mandateLists[i]))
                             || page.body.klubLabel == Some(r) || page.body.functionParty == Some(r)))
  {
    match page
    case Err(_) => Unresolved
    case Ok(p) =>
      match FirstMandateLabel(p.mandateLists)
      case Some(l) =>
        FirstMandateLabelFrom(p.mandateLists);
        NormalizeClubName(l)
      case None =>
        match p.klubLabel
        case Some(l) => NormalizeClubName(l)
        case None =>
          match p.functionParty
          case Some(l) => NormalizeClubName(l)
          case None => Unresolved
  }

  /** `l` is the club or electoral party of some mandate of `ms`. */
  ghost predicate LabelIn(l: string, ms: seq<Mandate>) {
    exists m :: m in ms && (m.klub == l || m.wahlpartei == l)
  }

  lemma FirstMandateLabelFrom(lists: seq<seq<Mandate>>)
    requires FirstMandateLabel(lists).Some?
    ensures exists i :: 0 <= i < |lists| && LabelIn(FirstMandateLabel(lists).value, lists[i])
  {
    var i :| 0 <= i < |lists| && FirstMandateLabel(lists) == MandateLabel(lists[i])
             && forall j :: 0 <= j < i ==> MandateLabel(lists[j]).None?;
    MandateLabelFrom(lists[i]);
  }

  /** A label found in a mandate list is the club or party of one of its
      mandates. */
  lemma MandateLabelFrom(ms: seq<Mandate>)
    requires MandateLabel(ms).Some?
    ensures LabelIn(MandateLabel(ms).value, ms)
  {
    match FirstWhere(ms, ActiveWithClub)
    case Some(i) => assert ms[i] in ms;
    case None =>
      match FirstWhere(ms, AnyWithClub)
      case Some(i) => assert ms[i] in ms;
      case None =>
        var i := FirstWhere(ms, WithElectoralParty).value;
        assert ms[i] in ms;
  }

  /** An active chamber mandate is preferred to an earlier inactive one. */
  lemma ActiveMandatePreferred(ms: seq<Mandate>, i: nat)
    requires i < |ms| && ActiveWithClub(ms[i])
    requires forall j :: 0 <= j < i ==> !ActiveWithClub(ms[j])
    ensures MandateLabel(ms) == Some(ms[i].klub)
  {
  }
}
