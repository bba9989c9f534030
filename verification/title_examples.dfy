/** Worked examples of the link-name cleaning of scraper.js:255-258. */
module TitleExamples {
  import opened Common
  import opened Text
  import opened Titles

  /** A leading title is removed with the blank after it, and a trailing
      degree with the comma before it. */
  lemma CleanLinkNameExample()
    ensures CleanLinkName("Dr. Eva Ott") == "Eva Ott"
    ensures CleanLinkName("Eva Ott, BA") == "Eva Ott"
  {
    ExampleDotted();
    UntitledKept("Eva Ott");
    TrailingDropped("Eva Ott, BA");
    ExampleComma();
  }

  lemma ExampleDotted()
    ensures StripDotted("Dr. Eva Ott") == "Eva Ott"
  {
    DrDropped("Dr. Eva Ott");
  }

  lemma DrDropped(raw: string)
    requires raw == "Dr. Eva Ott"
    ensures StripDotted(raw) == "Eva Ott"
  {
    DrAtStart(raw);
    UntitledRest(raw);
    AfterDr(raw);
  }

  lemma DrAtStart(raw: string)
    requires raw == "Dr. Eva Ott"
    ensures DottedTitleAt(raw, 0) == Some(4)
  {
    TitleListsNonEmpty();
    assert raw[0..][..4][0] == 'D';
    assert !StartsWith(raw[0..], "Mag.");
    assert raw[0..][..3] == "Dr.";
    assert SkipSpaces(raw, 4) == 4;
    assert SkipSpaces(raw, 3) == 4;
  }

  lemma UntitledRest(raw: string)
    requires raw == "Dr. Eva Ott"
    ensures StripDottedFrom(raw, 4) == raw[4..]
  {
    assert '.' !in raw[4..];
    NoDotNoDottedTitle(raw, 4);
    StripDottedIdentity(raw, 4);
  }

  lemma AfterDr(raw: string)
    requires raw == "Dr. Eva Ott"
    ensures raw[4..] == "Eva Ott"
  {
    assert raw[4..] == [raw[4], raw[5], raw[6], raw[7], raw[8], raw[9], raw[10]];
  }

  /** "Eva Ott" has no title, so the later passes keep it. */
  lemma UntitledKept(n: string)
    requires n == "Eva Ott"
    ensures StripTrailing(n) == n
    ensures Trim(StripTrailingComma(n)) == n
  {
    assert KeptRun(n, 0, 7);
    StripTrailingKept(n);
    assert IsTrimmed(n);
    CommaFreeKept(n);
  }

  lemma TrailingDropped(rest: string)
    requires rest == "Eva Ott, BA"
    ensures StripDotted(rest) == rest
    ensures StripTrailing(rest) == "Eva Ott,"
  {
    UndottedKept(rest);
    DegreeStripped(rest);
    BeforeDegree(rest);
  }

  lemma DegreeStripped(rest: string)
    requires rest == "Eva Ott, BA"
    ensures StripTrailing(rest) == rest[..8]
  {
    assert KeptRun(rest, 0, 8);
    DegreeAtEnd(rest);
    StripTrailingLast(rest, 8);
  }

  lemma BeforeDegree(rest: string)
    requires rest == "Eva Ott, BA"
    ensures rest[..8] == "Eva Ott,"
  {
  }

  lemma UndottedKept(rest: string)
    requires rest == "Eva Ott, BA"
    ensures StripDotted(rest) == rest
  {
    assert '.' !in rest;
    NoDotNoDottedTitle(rest, 0);
    StripDottedIdentity(rest, 0);
    assert rest[0..] == rest;
  }

  lemma DegreeAtEnd(rest: string)
    requires rest == "Eva Ott, BA"
    ensures TrailingTitleAt(rest, 8) == Some(11)
  {
    TitleListsNonEmpty();
    assert SkipSpaces(rest, 9) == 9;
    assert SkipSpaces(rest, 8) == 9;
    assert rest[9..] == "BA";
    assert FitEnd(rest, 9, "BA") == Some(11);
    assert FirstFit(rest, 9, TrailingTitles, 0);
  }

  lemma ExampleComma()
    ensures Trim(StripTrailingComma("Eva Ott,")) == "Eva Ott"
  {
    var c := "Eva Ott,";
    assert LastVisibleEnd(c, 0, |c|) == |c|;
    assert StripTrailingComma(c) == "Eva Ott";
    var n := "Eva Ott";
    assert !IsSpace(n[0]) && !IsSpace(n[|n| - 1]);
    assert IsTrimmed(n);
  }
}
