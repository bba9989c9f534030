/** A worked example of `parseNames` (scraper.js:426-457): a plural
    sentence with a leading title on each of two names. */
module NameExamples {
  import opened Common
  import opened Text
  import opened Titles
  import opened Names

  const Group: string := "Ing. Ute Ott und Dr. Eve Ott"

  /** Both titles are dropped, the list is cut at "und", and the names come
      out in order. */
  lemma ParseNamesExample()
    ensures ParseNames(PluralLead + Group + ".") == ["Ute Ott", "Eve Ott"]
  {
    GroupLine(Group);
    SentenceNoNobody(PluralLead + Group + ".");
    PluralSentence(Group);
    TitlesDropped(Group);
    SplitAtUnd("Ute Ott und Eve Ott");
    NamesKept(["Ute Ott", "Eve Ott"]);
  }

  lemma GroupLine(g: string)
    requires g == "Ing. Ute Ott und Dr. Eve Ott"
    ensures |g| > 0 && forall c :: c in g ==> !IsLineTerminator(c)
  {
  }

  /** The sentence has no `a`, which the phrase for "nobody absent" has. */
  lemma SentenceNoNobody(t: string)
    requires t == PluralLead + Group + "."
    ensures !Contains(t, Nobody)
  {
    NoLowerA();
    MissingChar(t, Nobody, 'a');
  }

  lemma NoLowerA()
    ensures 'a' !in PluralLead + Group + "." && 'a' in Nobody
  {
    LeadHalves();
    HalvesNoA();
    GroupNoA();
    assert Nobody[4] == 'a';
  }

  lemma HalvesNoA()
    ensures 'a' !in "Als verhindert gemeldet " && 'a' !in "sind die Abgeordneten "
  {
  }

  lemma GroupNoA()
    ensures 'a' !in Group
  {
    assert 'a' !in "Ing. Ute Ott und Dr. Eve Ott";
  }

  lemma LeadHalves()
    ensures PluralLead == "Als verhindert gemeldet " + "sind die Abgeordneten "
  {
  }

  lemma TitlesDropped(g: string)
    requires g == "Ing. Ute Ott und Dr. Eve Ott"
    ensures StripTitles(g) == "Ute Ott und Eve Ott"
  {
    DottedDropped(g);
    TrailingKept("Ute Ott und Eve Ott");
  }

  lemma TrailingKept(d: string)
    requires d == "Ute Ott und Eve Ott"
    ensures StripTrailing(d) == d
  {
    assert KeptRun(d, 0, |d|);
    StripTrailingKept(d);
  }

  lemma DottedDropped(g: string)
    requires g == "Ing. Ute Ott und Dr. Eve Ott"
    ensures StripDotted(g) == "Ute Ott und Eve Ott"
  {
    MiddleFree(g);
    StripDottedKeep(g, 5, 17);
    LeadTitle(g);
    InnerTitle(g);
    LastName(g);
    Rest(g);
  }

  lemma MiddleFree(g: string)
    requires g == "Ing. Ute Ott und Dr. Eve Ott"
    ensures DottedFree(g, 5, 17)
  {
  }

  lemma LastName(g: string)
    requires g == "Ing. Ute Ott und Dr. Eve Ott"
    ensures StripDottedFrom(g, 21) == g[21..]
  {
    assert '.' !in g[21..];
    NoDotNoDottedTitle(g, 21);
    StripDottedIdentity(g, 21);
  }

  lemma LeadTitle(g: string)
    requires g == "Ing. Ute Ott und Dr. Eve Ott"
    ensures DottedTitleAt(g, 0) == Some(5)
  {
    TitleListsNonEmpty();
    assert g[0..][..4][0] == 'I';
    assert !StartsWith(g[0..], "Mag.") && !StartsWith(g[0..], "Dr.");
    assert g[0..][..4] == "Ing.";
    assert SkipSpaces(g, 5) == 5;
    assert SkipSpaces(g, 4) == 5;
  }

  lemma InnerTitle(g: string)
    requires g == "Ing. Ute Ott und Dr. Eve Ott"
    ensures DottedTitleAt(g, 17) == Some(21)
  {
    TitleListsNonEmpty();
    assert g[17..][..4][0] == 'D';
    assert !StartsWith(g[17..], "Mag.");
    assert g[17..][..3] == "Dr.";
    assert SkipSpaces(g, 21) == 21;
    assert SkipSpaces(g, 20) == 21;
  }

  lemma Rest(g: string)
    requires g == "Ing. Ute Ott und Dr. Eve Ott"
    ensures g[5..17] + g[21..] == "Ute Ott und Eve Ott"
  {
    assert g[5..17] == [g[5], g[6], g[7], g[8], g[9], g[10], g[11], g[12], g[13], g[14], g[15], g[16]];
    assert g[21..] == [g[21], g[22], g[23], g[24], g[25], g[26], g[27]];
  }

  lemma SplitAtUnd(d: string)
    requires d == "Ute Ott und Eve Ott"
    ensures Split(d) == ["Ute Ott", "Eve Ott"]
  {
    UndOnly(d);
    SplitFromSkip(d, 0, 0, 7);
    UndAt(d);
    SplitFromSkip(d, 12, 12, 19);
    Pieces(d);
  }

  lemma UndOnly(d: string)
    requires d == "Ute Ott und Eve Ott"
    ensures SeparatorFree(d, 0, 7) && SeparatorFree(d, 12, 19)
  {
  }

  lemma Pieces(d: string)
    requires d == "Ute Ott und Eve Ott"
    ensures d[0..7] == "Ute Ott" && d[12..] == "Eve Ott"
  {
    assert d[0..7] == [d[0], d[1], d[2], d[3], d[4], d[5], d[6]];
    assert d[12..] == [d[12], d[13], d[14], d[15], d[16], d[17], d[18]];
  }

  lemma UndAt(d: string)
    requires d == "Ute Ott und Eve Ott"
    ensures SeparatorAt(d, 7) == Some(12)
  {
    assert SkipSpaces(d, 8) == 8;
    assert SkipSpaces(d, 7) == 8;
    assert d[8..][..3] == "und";
    assert SkipSpaces(d, 12) == 12;
    assert SkipSpaces(d, 11) == 12;
  }

  lemma NamesKept(ns: seq<string>)
    requires ns == ["Ute Ott", "Eve Ott"]
    ensures Filter(TrimAll(ns), Keep) == ns
  {
    NameKept(ns[0]);
    NameKept(ns[1]);
    TrimPair(ns);
    FilterPair(ns);
  }

  lemma TrimPair(ns: seq<string>)
    requires |ns| == 2 && Trim(ns[0]) == ns[0] && Trim(ns[1]) == ns[1]
    ensures TrimAll(ns) == ns
  {
  }

  lemma FilterPair(ns: seq<string>)
    requires |ns| == 2 && Keep(ns[0]) && Keep(ns[1])
    ensures Filter(ns, Keep) == ns
  {
    assert Filter(ns[1..][1..], Keep) == [];
    assert Filter(ns[1..], Keep) == [ns[1]];
  }

  /** A trimmed name that does not start like a title passes the filter. */
  lemma NameKept(n: string)
    requires n == "Ute Ott" || n == "Eve Ott"
    ensures Trim(n) == n && Keep(n)
  {
    assert IsTrimmed(n);
    NotBareTitle(n);
  }
}
