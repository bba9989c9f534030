/** Removal of academic and professional titles from member names, as the two
    global `replace` calls of the scraper do it (scraper.js:255-258 for link
    texts, scraper.js:445-446 for plain-text name lists), plus the
    title-only token test of the plain-text filter (scraper.js:454).

    Each regex is modelled as the left-to-right scan that a global
    `replace` performs on the ORIGINAL string: at every index the pattern is
    tried; on a match the matched text is dropped and the scan resumes at
    its end, otherwise the character is kept and the scan moves one on. */
module Titles {
  import opened Common
  import opened Text

  /** Alternatives of `\b(Mag\.|Dr\.|…|LL\.M\.)\s*`, in regex order. */
  const DottedTitles: seq<string> := [
    "Mag.", "Dr.", "Ing.", "Prof.", "DI.", "DDr.", "BA.", "MA.", "MSc.", "BSc.",
    "MMag.", "MMMag.", "Dipl-Ing.", "Dipl.-Ing.", "MR.", "Priv-Doz.", "KR.",
    "Komm-Rat.", "Bgm.", "LL.M."]

  /** Alternatives of `\s+(BA|MA|…|LL\.M)\.?\b`, in regex order. */
  const TrailingTitles: seq<string> := [
    "BA", "MA", "MSc", "BSc", "MMag", "MMMag", "Dr", "Ing", "Prof", "DI", "DDr",
    "Dipl-Ing", "Dipl.-Ing", "MR", "Priv-Doz", "KR", "Komm-Rat", "Bgm", "LL.M"]

  /** Alternatives of the title-only test `^(Mag|Dr|…|LL\.M)\.?$`; unlike the
      other two lists it has no "MMMag". */
  const BareTitles: seq<string> := [
    "Mag", "Dr", "Ing", "Prof", "DI", "DDr", "BA", "MA", "MSc", "BSc", "MMag",
    "Dipl-Ing", "Dipl.-Ing", "MR", "Priv-Doz", "KR", "Komm-Rat", "Bgm", "LL.M"]

  predicate NonEmptyWords(ws: seq<string>) {
    forall i :: 0 <= i < |ws| ==> |ws[i]| > 0
  }

  lemma TitleListsNonEmpty()
    ensures NonEmptyWords(DottedTitles) && NonEmptyWords(TrailingTitles)
  {
  }

  /** Regex `\b` between `s[k-1]` and `s[k]`; outside the string counts as a
      non-word character. */
  predicate AtBoundary(s: string, k: nat)
    requires k <= |s|
  {
    (k > 0 && IsWordChar(s[k - 1])) != (k < |s| && IsWordChar(s[k]))
  }

  /** End of the first of `titles` (in order) that occurs at index `i`. */
  function FirstTitleAt(s: string, i: nat, titles: seq<string>): (e: Option<nat>)
    requires i <= |s| && NonEmptyWords(titles)
    ensures e.Some? ==> i < e.value <= |s|
    ensures e.Some? <==> exists n :: 0 <= n < |titles| && StartsWith(s[i..], titles[n])
    decreases |titles|
  {
    if |titles| == 0 then None
    else if StartsWith(s[i..], titles[0]) then Some(i + |titles[0]|)
    else
      var e := FirstTitleAt(s, i, titles[1..]);
      assert forall n :: 1 <= n < |titles| ==> titles[n] == titles[1..][n - 1];
      e
  }

  /** End of a `\b(…\.)\s*` match at index `i`, if there is one. */
  function DottedTitleAt(s: string, i: nat): (e: Option<nat>)
    requires i < |s|
    ensures e.Some? ==> i < e.value <= |s|
  {
    TitleListsNonEmpty();
    if AtBoundary(s, i) then
      match FirstTitleAt(s, i, DottedTitles)
      case Some(k) => Some(SkipSpaces(s, k))
      case None => None
    else None
  }

  /** `replace(/\b(Mag\.|…|LL\.M\.)\s*\/g, '')` applied to `s`, from index `i`
      on.  Characters are only ever dropped. */
  function StripDottedFrom(s: string, i: nat): (r: string)
    requires i <= |s|
    ensures multiset(r) <= multiset(s[i..])
    decreases |s| - i
  {
    if i == |s| then ""
    else
      match DottedTitleAt(s, i)
      case Some(k) =>
        SuffixMultiset(s, i, k);
        StripDottedFrom(s, k)
      case None =>
        var r := StripDottedFrom(s, i + 1);
        ConsMultiset(s, i, r);
        [s[i]] + r
  }

  lemma SuffixMultiset(s: string, i: nat, k: nat)
    requires i <= k <= |s|
    ensures multiset(s[k..]) <= multiset(s[i..])
  {
    assert s[i..] == s[i..k] + s[k..];
  }

  lemma ConsMultiset(s: string, i: nat, r: string)
    requires i < |s| && multiset(r) <= multiset(s[i + 1..])
    ensures multiset([s[i]] + r) <= multiset(s[i..])
  {
    assert s[i..] == [s[i]] + s[i + 1..];
  }

  function StripDotted(s: string): string {
    StripDottedFrom(s, 0)
  }

  /** A string with no dotted title at a word boundary is left as it is. */
  lemma {:induction false} StripDottedIdentity(s: string, i: nat)
    requires i <= |s|
    requires forall k :: i <= k < |s| ==> DottedTitleAt(s, k).None?
    ensures StripDottedFrom(s, i) == s[i..]
    decreases |s| - i
  {
    if i < |s| {
      StripDottedIdentity(s, i + 1);
      assert s[i..] == [s[i]] + s[i + 1..];
    }
  }

  /** Where title `t` at index `j` followed by `\.?\b` ends, if it does: the
      optional period is tried first; when the boundary fails after it the
      regex backtracks and tries the boundary right after the title. */
  function FitEnd(s: string, j: nat, t: string): Option<nat>
    requires j <= |s|
  {
    if !StartsWith(s[j..], t) then None
    else
      var k := j + |t|;
      if k < |s| && s[k] == '.' && AtBoundary(s, k + 1) then Some(k + 1)
      else if AtBoundary(s, k) then Some(k)
      else None
  }

  /** Title number `n` fits at index `j` and no earlier one does. */
  ghost predicate FirstFit(s: string, j: nat, titles: seq<string>, n: nat)
    requires j <= |s|
  {
    n < |titles| && FitEnd(s, j, titles[n]).Some? &&
    forall m :: 0 <= m < n ==> FitEnd(s, j, titles[m]).None?
  }

  /** End of the first of `titles` (in list order) at index `j` that is
      followed by `\.?\b`: a match exists exactly when one of the titles
      fits there, and the first fitting title decides where it ends. */
  function TitleWithBoundary(s: string, j: nat, titles: seq<string>): (e: Option<nat>)
    requires j <= |s| && NonEmptyWords(titles)
    ensures e.Some? ==> j < e.value <= |s| && AtBoundary(s, e.value)
    ensures e.Some? <==> exists n :: 0 <= n < |titles| && FitEnd(s, j, titles[n]).Some?
    ensures e.Some? ==> exists n: nat :: FirstFit(s, j, titles, n) && e == FitEnd(s, j, titles[n])
    decreases |titles|
  {
    if |titles| == 0 then None
    else
      var rest := TitleWithBoundary(s, j, titles[1..]);
      assert forall n :: 1 <= n < |titles| ==> titles[n] == titles[1..][n - 1];
      if FitEnd(s, j, titles[0]).Some? then
        assert FirstFit(s, j, titles, 0);
        FitEnd(s, j, titles[0])
      else
        FirstFitShift(s, j, titles, rest);
        rest
  }

  lemma FirstFitShift(s: string, j: nat, titles: seq<string>, rest: Option<nat>)
    requires j <= |s| && |titles| > 0 && FitEnd(s, j, titles[0]).None?
    requires rest.Some? ==> exists n: nat :: FirstFit(s, j, titles[1..], n) && rest == FitEnd(s, j, titles[1..][n])
    ensures rest.Some? ==> exists n: nat :: FirstFit(s, j, titles, n) && rest == FitEnd(s, j, titles[n])
  {
    if rest.Some? {
      var n: nat :| FirstFit(s, j, titles[1..], n) && rest == FitEnd(s, j, titles[1..][n]);
      forall m | 0 <= m < n + 1 ensures FitEnd(s, j, titles[m]).None? {
        if m > 0 { assert titles[m] == titles[1..][m - 1]; }
      }
      assert FirstFit(s, j, titles, n + 1);
    }
  }

  /** End of a `\s+(BA|…|LL\.M)\.?\b` match at index `i`, if there is one.
      The greedy `\s+` never needs to give back: a title starts with a letter. */
  function TrailingTitleAt(s: string, i: nat): (e: Option<nat>)
    requires i < |s|
    ensures e.Some? ==> i < e.value <= |s|
    ensures e.Some? ==> IsSpace(s[i])
  {
    TitleListsNonEmpty();
    if IsSpace(s[i]) then TitleWithBoundary(s, SkipSpaces(s, i), TrailingTitles) else None
  }

  /** `replace(/\s+(BA|…|LL\.M)\.?\b/g, '')` applied to `s`, from index `i` on. */
  function StripTrailingFrom(s: string, i: nat): (r: string)
    requires i <= |s|
    ensures multiset(r) <= multiset(s[i..])
    decreases |s| - i
  {
    if i == |s| then ""
    else
      match TrailingTitleAt(s, i)
      case Some(k) =>
        SuffixMultiset(s, i, k);
        StripTrailingFrom(s, k)
      case None =>
        var r := StripTrailingFrom(s, i + 1);
        ConsMultiset(s, i, r);
        [s[i]] + r
  }

  function StripTrailing(s: string): string {
    StripTrailingFrom(s, 0)
  }

  /** A string with no trailing title anywhere is left as it is. */
  lemma {:induction false} StripTrailingIdentity(s: string, i: nat)
    requires i <= |s|
    requires forall k :: i <= k < |s| ==> TrailingTitleAt(s, k).None?
    ensures StripTrailingFrom(s, i) == s[i..]
    decreases |s| - i
  {
    if i < |s| {
      StripTrailingIdentity(s, i + 1);
      assert s[i..] == [s[i]] + s[i + 1..];
    }
  }

  /** Both title removals, in the order the scraper chains them. */
  function StripTitles(s: string): string {
    StripTrailing(StripDotted(s))
  }

  /** `replace(/,\s*$/, '')`: a comma followed only by whitespace is cut off
      together with that whitespace. */
  function StripTrailingComma(s: string): (r: string)
    ensures r == s || (|r| < |s| && s[|r|] == ',' && AllSpace(s[|r| + 1..]) && r == s[..|r|])
    ensures (|s| > 0 && s[|s| - 1] == ',') ==> r == s[..|s| - 1]
  {
    var e := LastVisibleEnd(s, 0, |s|);
    if e > 0 && s[e - 1] == ',' then
      assert AllSpace(s[e..]) by {
        forall i | 0 <= i < |s| - e ensures IsSpace(s[e..][i]) { assert s[e..][i] == s[e + i]; }
      }
      s[..e - 1]
    else s
  }

  /** The display name taken from a person link's text (scraper.js:255-258). */
  function CleanLinkName(raw: string): (r: string)
    ensures IsTrimmed(r)
  {
    Trim(StripTrailingComma(StripTrailing(StripDotted(raw))))
  }

  /** The cleaned name is made only of characters of the link text. */
  lemma CleanLinkNameChars(raw: string)
    ensures multiset(CleanLinkName(raw)) <= multiset(raw)
  {
    var a := StripDotted(raw);
    var b := StripTrailing(a);
    assert raw[0..] == raw && a[0..] == a;
    CommaChars(b);
  }

  lemma CommaChars(b: string)
    ensures multiset(Trim(StripTrailingComma(b))) <= multiset(b)
  {
    var c := StripTrailingComma(b);
    if c != b { assert b == c + b[|c|..]; }
  }

  /** Every dotted title contains a period. */
  lemma DottedTitlesHaveDot()
    ensures forall n :: 0 <= n < |DottedTitles| ==> '.' in DottedTitles[n]
  {
  }

  /** Text without a period holds no dotted title. */
  lemma NoDotNoDottedTitle(s: string, i: nat)
    requires i <= |s| && '.' !in s[i..]
    ensures forall k :: i <= k < |s| ==> DottedTitleAt(s, k).None?
  {
    DottedTitlesHaveDot();
    TitleListsNonEmpty();
    forall k | i <= k < |s| ensures DottedTitleAt(s, k).None? {
      forall n | 0 <= n < |DottedTitles| ensures !StartsWith(s[k..], DottedTitles[n]) {
        var t := DottedTitles[n];
        var d :| 0 <= d < |t| && t[d] == '.';
        if k + d < |s| {
          assert s[k + d] == s[i..][k + d - i];
        }
      }
    }
  }

  /** A trimmed link text with no title anywhere and no final comma is
      kept as it is. */
  lemma CleanLinkNameIdentity(raw: string)
    requires IsTrimmed(raw) && (|raw| > 0 ==> raw[|raw| - 1] != ',')
    requires forall k :: 0 <= k < |raw| ==> DottedTitleAt(raw, k).None?
    requires forall k :: 0 <= k < |raw| ==> TrailingTitleAt(raw, k).None?
    ensures CleanLinkName(raw) == raw
  {
    StripDottedIdentity(raw, 0);
    StripTrailingIdentity(raw, 0);
    assert raw[0..] == raw;
    assert StripTrailing(StripDotted(raw)) == raw;
    if |raw| > 0 {
      assert LastVisibleEnd(raw, 0, |raw|) == |raw|;
    }
  }

  /** A dotted title at the start of the link text is removed with the
      blanks after it; the name behind it, if it holds no further title and
      no final comma, is what remains. */
  lemma CleanLinkNameLeading(raw: string, k: nat)
    requires |raw| > 0 && DottedTitleAt(raw, 0) == Some(k)
    requires forall x :: k <= x < |raw| ==> DottedTitleAt(raw, x).None?
    requires var n := raw[k..]; IsTrimmed(n) && (|n| > 0 ==> n[|n| - 1] != ',')
    requires var n := raw[k..]; forall x :: 0 <= x < |n| ==> TrailingTitleAt(n, x).None?
    ensures CleanLinkName(raw) == raw[k..]
  {
    var n := raw[k..];
    StripDottedIdentity(raw, k);
    assert StripDotted(raw) == n;
    StripTrailingIdentity(n, 0);
    assert n[0..] == n;
    if |n| > 0 {
      assert LastVisibleEnd(n, 0, |n|) == |n|;
    }
  }

  /** No trailing title can start at `x`: it is not a blank, or it is a
      single blank before a letter no trailing title starts with. */
  predicate TrailingFreeAt(s: string, x: nat)
    requires x < |s|
  {
    !IsSpace(s[x]) || (x + 1 < |s| && !IsSpace(s[x + 1]) && s[x + 1] !in "BMDIPKL")
  }

  /** No trailing title starts anywhere in `s[i..k]`. */
  predicate KeptRun(s: string, i: nat, k: nat) {
    i <= k <= |s| && forall x :: i <= x < k ==> TrailingFreeAt(s, x)
  }

  /** A run where no trailing title starts is kept as it is. */
  lemma {:induction false} StripTrailingKeep(s: string, i: nat, k: nat)
    requires KeptRun(s, i, k)
    ensures StripTrailingFrom(s, i) == s[i..k] + StripTrailingFrom(s, k)
    decreases k - i
  {
    if i < k {
      assert TrailingFreeAt(s, i);
      assert KeptRun(s, i + 1, k);
      StripTrailingKeep(s, i + 1, k);
      if IsSpace(s[i]) {
        StripTrailingBlank(s, i);
      } else {
        StripTrailingPlain(s, i);
      }
      ConsSlice(s, i, k, StripTrailingFrom(s, k));
    }
  }

  lemma ConsSlice<T>(s: seq<T>, i: nat, k: nat, x: seq<T>)
    requires i < k <= |s|
    ensures s[i..k] + x == [s[i]] + (s[i + 1..k] + x)
  {
    assert s[i..k] == [s[i]] + s[i + 1..k];
  }

  lemma StripTrailingPlain(s: string, i: nat)
    requires i < |s| && !IsSpace(s[i])
    ensures StripTrailingFrom(s, i) == [s[i]] + StripTrailingFrom(s, i + 1)
  {
    assert TrailingTitleAt(s, i).None?;
  }

  /** A single blank before a letter no trailing title starts with is kept. */
  lemma StripTrailingBlank(s: string, i: nat)
    requires i + 1 < |s| && IsSpace(s[i]) && !IsSpace(s[i + 1]) && s[i + 1] !in "BMDIPKL"
    ensures StripTrailingFrom(s, i) == [s[i]] + StripTrailingFrom(s, i + 1)
  {
    assert SkipSpaces(s, i + 1) == i + 1;
    assert SkipSpaces(s, i) == i + 1;
    NoTrailingTitleAt(s, i + 1);
  }

  /** A string where no trailing title starts is kept as it is. */
  lemma StripTrailingKept(s: string)
    requires KeptRun(s, 0, |s|)
    ensures StripTrailing(s) == s
  {
    StripTrailingKeep(s, 0, |s|);
    assert s[0..|s|] == s;
  }

  /** A trailing title that runs to the end of the string, after a run
      where none starts, is removed together with the blanks before it. */
  lemma StripTrailingLast(s: string, m: nat)
    requires KeptRun(s, 0, m) && m < |s| && TrailingTitleAt(s, m) == Some(|s|)
    ensures StripTrailing(s) == s[..m]
  {
    assert StripTrailingFrom(s, m) == StripTrailingFrom(s, |s|) == "";
    StripTrailingKeep(s, 0, m);
    assert s[0..m] + "" == s[..m];
  }

  /** A trimmed string not ending in a comma passes the comma removal and
      the final trim unchanged. */
  lemma CommaFreeKept(s: string)
    requires IsTrimmed(s) && (|s| > 0 ==> s[|s| - 1] != ',')
    ensures Trim(StripTrailingComma(s)) == s
  {
    if |s| > 0 {
      assert LastVisibleEnd(s, 0, |s|) == |s|;
    }
  }

  /** The letters that dotted titles start with. */
  lemma DottedTitleHeads()
    ensures forall n :: 0 <= n < |DottedTitles| ==>
              |DottedTitles[n]| > 0 && DottedTitles[n][0] in "MDIPBKL"
  {
  }

  /** No dotted title starts with a character outside their heads. */
  lemma NoDottedTitleAt(s: string, i: nat)
    requires i < |s| && s[i] !in "MDIPBKL"
    ensures DottedTitleAt(s, i).None?
  {
    DottedTitleHeads();
    TitleListsNonEmpty();
    forall n | 0 <= n < |DottedTitles| ensures !StartsWith(s[i..], DottedTitles[n]) {
      assert s[i..][0] == s[i];
    }
  }

  /** No dotted title starts anywhere in `s[i..k]`. */
  predicate DottedFree(s: string, i: nat, k: nat) {
    i <= k <= |s| && forall x :: i <= x < k ==> s[x] !in "MDIPBKL"
  }

  /** A run where no dotted title starts is kept as it is. */
  lemma {:induction false} StripDottedKeep(s: string, i: nat, k: nat)
    requires DottedFree(s, i, k)
    ensures StripDottedFrom(s, i) == s[i..k] + StripDottedFrom(s, k)
    decreases k - i
  {
    if i < k {
      StripDottedKeep(s, i + 1, k);
      NoDottedTitleAt(s, i);
      ConsSlice(s, i, k, StripDottedFrom(s, k));
    }
  }

  /** The letters that trailing titles start with. */
  lemma TrailingTitleHeads()
    ensures forall n :: 0 <= n < |TrailingTitles| ==>
              |TrailingTitles[n]| > 0 && TrailingTitles[n][0] in "BMDIPKL"
  {
  }

  /** No trailing title starts with a letter outside their heads. */
  lemma NoTrailingTitleAt(s: string, j: nat)
    requires j < |s| && s[j] !in "BMDIPKL"
    ensures TitleWithBoundary(s, j, TrailingTitles).None?
  {
    TrailingTitleHeads();
    TitleListsNonEmpty();
    forall n | 0 <= n < |TrailingTitles| ensures FitEnd(s, j, TrailingTitles[n]).None? {
      assert s[j..][0] == s[j];
    }
  }

  /** A token made only of a title, with or without its period
      (`^(Mag|Dr|…|LL\.M)\.?$`). */
  predicate IsBareTitle(n: string) {
    n in BareTitles || (|n| > 0 && n[|n| - 1] == '.' && n[..|n| - 1] in BareTitles)
  }

  lemma BareTitleHeads()
    ensures forall n :: 0 <= n < |BareTitles| ==>
              |BareTitles[n]| > 0 && BareTitles[n][0] in "MDIPBKL"
  {
  }

  /** A token that does not start like a title is not a bare title. */
  lemma NotBareTitle(n: string)
    requires |n| > 0 && n[0] !in "MDIPBKL"
    ensures !IsBareTitle(n)
  {
    BareTitleHeads();
    if |n| > 1 {
      assert n[..|n| - 1][0] == n[0];
    }
  }
}
