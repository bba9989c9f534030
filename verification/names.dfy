/** `parseNames` (scraper.js:426-457): the names listed in a bare-text
    absence sentence.  The two regex templates are modelled as explicit
    prefix matching followed by the greedy `(.+)\.` group; the split on
    `/,\s*|\s+und\s+/` follows the JavaScript `split` algorithm. */
module Names {
  import opened Common
  import opened Text
  import opened Titles

  /** The phrase that marks a paragraph saying that nobody is absent. */
  const Nobody: string := "niemand als verhindert gemeldet"

  const PluralLead: string := "Als verhindert gemeldet sind die Abgeordneten "
  const SingularLead: string := "Als verhindert gemeldet ist "
  const Today: string := "heute "
  const MemberMale: string := "Abgeordneter "
  const MemberFemale: string := "Abgeordnete "

  datatype Template = Plural | Singular

  /** Start of the `(.+)` group when the template's fixed text matches at `p`.
      The optional `heute ` and the alternation `Abgeordneter|Abgeordnete`
      are deterministic here: backtracking into them never yields a match
      (the next character would be `h` or `r` where the regex needs `A` or a
      blank). */
  function GroupStart(t: Template, s: string, p: nat): (g: Option<nat>)
    requires p <= |s|
    ensures g.Some? ==> p < g.value <= |s|
    ensures t == Plural ==> (g.Some? <==> StartsWith(s[p..], PluralLead))
  {
    match t
    case Plural =>
      if StartsWith(s[p..], PluralLead) then Some(p + |PluralLead|) else None
    case Singular =>
      if !StartsWith(s[p..], SingularLead) then None
      else
        var h := p + |SingularLead|;
        var h2 := if StartsWith(s[h..], Today) then h + |Today| else h;
        if StartsWith(s[h2..], MemberMale) then Some(h2 + |MemberMale|)
        else if StartsWith(s[h2..], MemberFemale) then Some(h2 + |MemberFemale|)
        else None
  }

  /** First line terminator at or after `g`, or `|s|`. */
  function LineEnd(s: string, g: nat): (l: nat)
    requires g <= |s|
    ensures g <= l <= |s|
    ensures forall i :: g <= i < l ==> !IsLineTerminator(s[i])
    ensures l < |s| ==> IsLineTerminator(s[l])
    decreases |s| - g
  {
    if g < |s| && !IsLineTerminator(s[g]) then LineEnd(s, g + 1) else g
  }

  /** The last `.` in `s[lo..hi]`. */
  function LastDot(s: string, lo: nat, hi: nat): (q: Option<nat>)
    requires lo <= hi <= |s|
    ensures q.Some? ==> lo <= q.value < hi && s[q.value] == '.'
    ensures q.Some? ==> forall i :: q.value < i < hi ==> s[i] != '.'
    ensures q.None? ==> forall i :: lo <= i < hi ==> s[i] != '.'
    decreases hi - lo
  {
    if hi == lo then None
    else if s[hi - 1] == '.' then Some(hi - 1)
    else LastDot(s, lo, hi - 1)
  }

  /** Where a greedy `(.+)\.` group starting at `g` ends: the group is
      `s[g..q]` for the last `.` at `q` with at least one character before it
      and no line terminator in between. */
  function GroupEnd(s: string, g: nat): (q: Option<nat>)
    requires g <= |s|
    ensures q.Some? ==> g < q.value < LineEnd(s, g) && s[q.value] == '.'
    ensures q.Some? ==> forall i :: q.value < i < LineEnd(s, g) ==> s[i] != '.'
    ensures q.None? ==> forall i :: g < i < LineEnd(s, g) ==> s[i] != '.'
    ensures q.Some? ==> forall i :: g <= i < q.value ==> !IsLineTerminator(s[i])
  {
    var l := LineEnd(s, g);
    if l <= g then None else LastDot(s, g + 1, l)
  }

  /** The template matches at `i`: its fixed text starts there and the
      group after it ends in a `.` on the same line. */
  predicate MatchesAt(t: Template, s: string, i: nat)
    requires i <= |s|
  {
    GroupStart(t, s, i).Some? && GroupEnd(s, GroupStart(t, s, i).value).Some?
  }

  /** The `(.+)` group of the match at `i`. */
  function GroupAt(t: Template, s: string, i: nat): string
    requires i <= |s| && MatchesAt(t, s, i)
  {
    var g := GroupStart(t, s, i).value;
    s[g..GroupEnd(s, g).value]
  }

  /** `i` is the leftmost position at or after `p` where the template matches. */
  ghost predicate LeftmostAt(t: Template, s: string, p: nat, i: nat) {
    p <= i <= |s| && MatchesAt(t, s, i) && forall j :: p <= j < i ==> !MatchesAt(t, s, j)
  }

  /** `s.match(template)[1]`: the leftmost position where the whole template
      matches decides the group. */
  function MatchFrom(t: Template, s: string, p: nat): (m: Option<string>)
    requires p <= |s|
    ensures m.Some? <==> exists i: nat :: p <= i <= |s| && MatchesAt(t, s, i)
    ensures m.Some? ==> exists i: nat :: LeftmostAt(t, s, p, i) && m.value == GroupAt(t, s, i)
    ensures m.Some? ==> |m.value| > 0 && forall c :: c in m.value ==> !IsLineTerminator(c)
    ensures m.Some? && t == Plural ==> exists i :: OccursAt(s, PluralLead + m.value + ".", i)
    ensures (forall i :: p <= i <= |s| ==> GroupStart(t, s, i).None?) ==> m.None?
    decreases |s| - p
  {
    if MatchesAt(t, s, p) then
      var g := GroupStart(t, s, p).value;
      var q := GroupEnd(s, g).value;
      GroupFacts(t, s, p, g, q);
      assert LeftmostAt(t, s, p, p);
      Some(s[g..q])
    else if p < |s| then
      var m := MatchFrom(t, s, p + 1);
      LeftmostShift(t, s, p, m);
      m
    else None
  }

  /** No match at `p`: the leftmost match from `p + 1` is the leftmost from `p`. */
  lemma LeftmostShift(t: Template, s: string, p: nat, m: Option<string>)
    requires p < |s| && !MatchesAt(t, s, p)
    requires m.Some? <==> exists i: nat :: p + 1 <= i <= |s| && MatchesAt(t, s, i)
    requires m.Some? ==> exists i: nat :: LeftmostAt(t, s, p + 1, i) && m.value == GroupAt(t, s, i)
    ensures m.Some? <==> exists i: nat :: p <= i <= |s| && MatchesAt(t, s, i)
    ensures m.Some? ==> exists i: nat :: LeftmostAt(t, s, p, i) && m.value == GroupAt(t, s, i)
  {
    if m.Some? {
      var i: nat :| LeftmostAt(t, s, p + 1, i) && m.value == GroupAt(t, s, i);
      assert LeftmostAt(t, s, p, i);
    }
  }

  lemma GroupFacts(t: Template, s: string, p: nat, g: nat, q: nat)
    requires p <= |s| && GroupStart(t, s, p) == Some(g) && GroupEnd(s, g) == Some(q)
    ensures forall c :: c in s[g..q] ==> !IsLineTerminator(c)
    ensures t == Plural ==> OccursAt(s, PluralLead + s[g..q] + ".", p)
  {
    GroupClean(s, g, q);
    if t == Plural {
      PluralOccurs(s, p, g, q);
    }
  }

  lemma GroupClean(s: string, g: nat, q: nat)
    requires g <= q <= |s| && forall i :: g <= i < q ==> !IsLineTerminator(s[i])
    ensures forall c :: c in s[g..q] ==> !IsLineTerminator(c)
  {
    var m := s[g..q];
    forall c | c in m ensures !IsLineTerminator(c) {
      var i :| 0 <= i < |m| && m[i] == c;
      assert m[i] == s[g + i];
    }
  }

  lemma PluralOccurs(s: string, p: nat, g: nat, q: nat)
    requires p <= |s| && StartsWith(s[p..], PluralLead) && g == p + |PluralLead|
    requires g <= q < |s| && s[q] == '.'
    ensures OccursAt(s, PluralLead + s[g..q] + ".", p)
  {
    assert s[p..g] == PluralLead;
    assert s[p..q + 1] == s[p..g] + s[g..q] + [s[q]];
  }

  function Match(t: Template, s: string): Option<string> {
    MatchFrom(t, s, 0)
  }

  /** End of a separator of `split(/,\s*|\s+und\s+/)` that starts at `q`. */
  function SeparatorAt(s: string, q: nat): (e: Option<nat>)
    requires q < |s|
    ensures e.Some? ==> q < e.value <= |s|
  {
    if s[q] == ',' then Some(SkipSpaces(s, q + 1))
    else if IsSpace(s[q]) then
      var j := SkipSpaces(s, q);
      if StartsWith(s[j..], "und") && j + 3 < |s| && IsSpace(s[j + 3])
      then Some(SkipSpaces(s, j + 3)) else None
    else None
  }

  /** A piece of the name list that the separators cannot cut further: it
      has no comma and no blank-delimited "und". */
  ghost predicate Unseparated(n: string) {
    && (forall i :: 0 <= i < |n| ==> n[i] != ',')
    && (forall i :: !OccursAt(n, " und ", i))
  }

  lemma NoSeparatorSlice(s: string, p: nat, q: nat)
    requires p <= q <= |s|
    requires forall x :: p <= x < q ==> SeparatorAt(s, x).None?
    ensures Unseparated(s[p..q])
  {
    var n := s[p..q];
    forall i | 0 <= i < |n| ensures n[i] != ',' {
      assert n[i] == s[p + i];
      assert SeparatorAt(s, p + i).None?;
    }
    forall i ensures !OccursAt(n, " und ", i) {
      if 0 <= i && i + 5 <= |n| {
        NoUndAt(s, p + i);
        assert n[i..i + 5] == [s[p + i], s[p + i + 1], s[p + i + 2], s[p + i + 3], s[p + i + 4]];
      }
    }
  }

  /** Where no separator starts, no blank-delimited "und" starts either. */
  lemma NoUndAt(s: string, x: nat)
    requires x + 5 <= |s| && SeparatorAt(s, x).None?
    ensures !(s[x] == ' ' && s[x + 1] == 'u' && s[x + 2] == 'n' && s[x + 3] == 'd' && s[x + 4] == ' ')
  {
    if s[x] == ' ' && s[x + 1] == 'u' {
      assert SkipSpaces(s, x) == x + 1;
      assert s[x + 1..][..3] == [s[x + 1], s[x + 2], s[x + 3]];
    }
  }

  /** `s.split(/,\s*|\s+und\s+/)`, with the current piece starting at `p`
      and the scan at `q`. */
  function SplitFrom(s: string, p: nat, q: nat): (r: seq<string>)
    requires p <= q <= |s|
    requires forall x :: p <= x < q ==> SeparatorAt(s, x).None?
    ensures |r| > 0
    ensures forall i :: 0 <= i < |r| ==> Unseparated(r[i])
    decreases |s| - q
  {
    if q == |s| then
      NoSeparatorSlice(s, p, q);
      assert s[p..] == s[p..q];
      [s[p..]]
    else
      match SeparatorAt(s, q)
      case Some(e) =>
        NoSeparatorSlice(s, p, q);
        [s[p..q]] + SplitFrom(s, e, e)
      case None => SplitFrom(s, p, q + 1)
  }

  function Split(s: string): (r: seq<string>)
    ensures |r| > 0
    ensures forall i :: 0 <= i < |r| ==> Unseparated(r[i])
  {
    SplitFrom(s, 0, 0)
  }

  /** The separator texts that `SplitFrom` cuts at, in order. */
  function SeparatorsFrom(s: string, p: nat, q: nat): (r: seq<string>)
    requires p <= q <= |s|
    decreases |s| - q
  {
    if q == |s| then []
    else
      match SeparatorAt(s, q)
      case Some(e) => [s[q..e]] + SeparatorsFrom(s, e, e)
      case None => SeparatorsFrom(s, p, q + 1)
  }

  /** `pieces[0] + seps[0] + pieces[1] + … + pieces[n]`. */
  function Interleave(pieces: seq<string>, seps: seq<string>): string
    requires |pieces| == |seps| + 1
    decreases |seps|
  {
    if |seps| == 0 then pieces[0]
    else pieces[0] + seps[0] + Interleave(pieces[1..], seps[1..])
  }

  /** `t` splits as blanks, "und", blanks, with `k` blanks in front. */
  ghost predicate UndSplit(t: string, k: nat) {
    0 < k && k + 3 < |t| && AllSpace(t[..k]) && t[k..k + 3] == "und" && AllSpace(t[k + 3..])
  }

  /** A whole match of `/,\s*|\s+und\s+/`. */
  ghost predicate IsSeparator(t: string) {
    (|t| > 0 && t[0] == ',' && AllSpace(t[1..])) || exists k: nat :: UndSplit(t, k)
  }

  lemma AllSpaceSlice(s: string, a: nat, b: nat)
    requires a <= b <= |s| && forall i :: a <= i < b ==> IsSpace(s[i])
    ensures AllSpace(s[a..b])
  {
    forall i | 0 <= i < b - a ensures IsSpace(s[a..b][i]) {
      assert s[a..b][i] == s[a + i];
    }
  }

  /** What `SeparatorAt` finds is the text of one separator. */
  lemma SeparatorText(s: string, q: nat, e: nat)
    requires q < |s| && SeparatorAt(s, q) == Some(e)
    ensures IsSeparator(s[q..e])
  {
    var t := s[q..e];
    if s[q] == ',' {
      AllSpaceSlice(s, q + 1, e);
      assert t[1..] == s[q + 1..e];
    } else {
      var j := SkipSpaces(s, q);
      AllSpaceSlice(s, q, j);
      AllSpaceSlice(s, j + 3, e);
      assert t[..j - q] == s[q..j];
      assert t[j - q..j - q + 3] == s[j..j + 3] == s[j..][..3];
      assert t[j - q + 3..] == s[j + 3..e];
      assert UndSplit(t, j - q);
    }
  }

  /** Gluing the pieces back together with the separators they were cut at
      gives the text back; every separator is a whole separator match. */
  lemma {:induction false} SplitRebuild(s: string, p: nat, q: nat)
    requires p <= q <= |s|
    requires forall x :: p <= x < q ==> SeparatorAt(s, x).None?
    ensures |SplitFrom(s, p, q)| == |SeparatorsFrom(s, p, q)| + 1
    ensures Interleave(SplitFrom(s, p, q), SeparatorsFrom(s, p, q)) == s[p..]
    ensures forall i :: 0 <= i < |SeparatorsFrom(s, p, q)| ==> IsSeparator(SeparatorsFrom(s, p, q)[i])
    decreases |s| - q
  {
    if q < |s| {
      match SeparatorAt(s, q)
      case Some(e) =>
        SplitRebuild(s, e, e);
        SeparatorText(s, q, e);
        RebuildCut(s, p, q, e, SplitFrom(s, e, e), SeparatorsFrom(s, e, e));
      case None =>
        SplitRebuild(s, p, q + 1);
    }
  }

  lemma RebuildCut(s: string, p: nat, q: nat, e: nat, ps: seq<string>, ss: seq<string>)
    requires p <= q < e <= |s| && |ps| == |ss| + 1 && Interleave(ps, ss) == s[e..]
    ensures Interleave([s[p..q]] + ps, [s[q..e]] + ss) == s[p..]
  {
    assert ([s[p..q]] + ps)[1..] == ps;
    assert ([s[q..e]] + ss)[1..] == ss;
    assert s[p..] == s[p..q] + s[q..e] + s[e..];
  }

  lemma SplitRebuilds(s: string)
    ensures |Split(s)| == |SeparatorsFrom(s, 0, 0)| + 1
    ensures Interleave(Split(s), SeparatorsFrom(s, 0, 0)) == s
    ensures forall i :: 0 <= i < |SeparatorsFrom(s, 0, 0)| ==> IsSeparator(SeparatorsFrom(s, 0, 0)[i])
  {
    SplitRebuild(s, 0, 0);
    assert s[0..] == s;
  }

  /** The filter of scraper.js:453-454. */
  predicate Keep(n: string) {
    |n| > 0 && !IsBareTitle(n)
  }

  lemma TrimKeepsUnseparated(n: string)
    requires Unseparated(n)
    ensures Unseparated(Trim(n))
  {
    var t := Trim(n);
    var a := TrimLo(n);
    assert forall i :: 0 <= i < |t| ==> t[i] == n[a + i];
    forall i ensures !OccursAt(t, " und ", i) {
      if 0 <= i && i + 5 <= |t| {
        assert t[i..i + 5] == n[a + i..a + i + 5];
        assert !OccursAt(n, " und ", a + i);
      }
    }
  }

  /** `pieces.map(name => name.trim())` */
  function TrimAll(pieces: seq<string>): (r: seq<string>)
    ensures |r| == |pieces| && forall i :: 0 <= i < |r| ==> r[i] == Trim(pieces[i])
    decreases |pieces|
  {
    if |pieces| == 0 then [] else [Trim(pieces[0])] + TrimAll(pieces[1..])
  }

  /** Trim every piece and keep the real names, in order. */
  function KeepNames(pieces: seq<string>): (r: seq<string>)
    requires forall i :: 0 <= i < |pieces| ==> Unseparated(pieces[i])
    ensures r == Filter(TrimAll(pieces), Keep)
    ensures |r| <= |pieces|
    ensures forall i :: 0 <= i < |r| ==> Keep(r[i]) && IsTrimmed(r[i]) && Unseparated(r[i])
    decreases |pieces|
  {
    if |pieces| == 0 then []
    else
      var n := Trim(pieces[0]);
      TrimKeepsUnseparated(pieces[0]);
      var rest := KeepNames(pieces[1..]);
      assert TrimAll(pieces)[1..] == TrimAll(pieces[1..]);
      if Keep(n) then [n] + rest else rest
  }

  /** The names of a bare-text absence sentence (scraper.js:426-457).  Empty
      when the sentence says nobody is absent or fits neither template;
      otherwise every name is trimmed, non-empty, not a bare title, and was
      not cut further by the comma / "und" separators. */
  function ParseNames(text: string): (r: seq<string>)
    ensures Contains(text, Nobody) ==> r == []
    ensures Match(Plural, text).None? && Match(Singular, text).None? ==> r == []
    ensures !Contains(text, Nobody) && Match(Plural, text).Some? ==>
              r == Filter(TrimAll(Split(StripTitles(Match(Plural, text).value))), Keep)
    ensures !Contains(text, Nobody) && Match(Plural, text).None? && Match(Singular, text).Some? ==>
              r == Filter(TrimAll(Split(StripTitles(Match(Singular, text).value))), Keep)
    ensures forall i :: 0 <= i < |r| ==>
              |r[i]| > 0 && IsTrimmed(r[i]) && !IsBareTitle(r[i]) && Unseparated(r[i])
  {
    if Contains(text, Nobody) then []
    else
      var m := if Match(Plural, text).Some? then Match(Plural, text) else Match(Singular, text);
      match m
      case None => []
      case Some(group) => KeepNames(Split(StripTitles(group)))
  }

  /** A line with no terminator from `g` on ends at the end of the text. */
  lemma {:induction false} LineEndAtEnd(s: string, g: nat)
    requires g <= |s| && forall i :: g <= i < |s| ==> !IsLineTerminator(s[i])
    ensures LineEnd(s, g) == |s|
    decreases |s| - g
  {
    if g < |s| {
      LineEndAtEnd(s, g + 1);
    }
  }

  /** A line running to the end of a text that ends in `.` closes the
      group at that final period. */
  lemma GroupEndsLast(s: string, g: nat)
    requires g + 1 < |s| && s[|s| - 1] == '.' && LineEnd(s, g) == |s|
    ensures GroupEnd(s, g) == Some(|s| - 1)
  {
  }

  /** The parts of `lead + g + "."`, for any lead. */
  lemma SentenceParts(lead: string, g: string)
    requires forall c :: c in g ==> !IsLineTerminator(c)
    ensures StartsWith((lead + g + ".")[0..], lead)
    ensures (lead + g + ".")[|lead|..|lead| + |g|] == g
    ensures (lead + g + ".")[|lead| + |g|] == '.'
    ensures forall i :: |lead| <= i < |lead| + |g| + 1 ==> !IsLineTerminator((lead + g + ".")[i])
  {
    var s := lead + g + ".";
    assert s[0..][..|lead|] == lead;
    forall i | |lead| <= i < |lead| + |g| + 1 ensures !IsLineTerminator(s[i]) {
      if i < |lead| + |g| {
        assert s[i] == g[i - |lead|];
      }
    }
  }

  /** A one-line plural sentence: its names are those of the text between
      the fixed lead and the final period, whatever periods that text
      holds itself. */
  lemma PluralSentence(g: string)
    requires |g| > 0 && forall c :: c in g ==> !IsLineTerminator(c)
    requires !Contains(PluralLead + g + ".", Nobody)
    ensures Match(Plural, PluralLead + g + ".") == Some(g)
    ensures ParseNames(PluralLead + g + ".") == Filter(TrimAll(Split(StripTitles(g))), Keep)
  {
    PluralMatch(g);
  }

  lemma PluralMatch(g: string)
    requires |g| > 0 && forall c :: c in g ==> !IsLineTerminator(c)
    ensures Match(Plural, PluralLead + g + ".") == Some(g)
  {
    var s := PluralLead + g + ".";
    var a := |PluralLead|;
    SentenceParts(PluralLead, g);
    assert |s| == a + |g| + 1;
    assert GroupStart(Plural, s, 0) == Some(a);
    LineEndAtEnd(s, a);
    GroupEndsLast(s, a);
    assert MatchesAt(Plural, s, 0);
  }

  /** A text lacking one of the characters of `p` cannot contain `p`. */
  lemma MissingChar(s: string, p: string, c: char)
    requires c in p && c !in s
    ensures !Contains(s, p)
  {
    ContainsIff(s, p);
    var d :| 0 <= d < |p| && p[d] == c;
    forall i ensures !OccursAt(s, p, i) {
      if 0 <= i && i + |p| <= |s| {
        assert s[i..i + |p|][d] == s[i + d] != c;
      }
    }
  }

  /** No separator can start at `x`: it is no comma, and no blank run
      before a `u` starts there. */
  predicate SeparatorFreeAt(s: string, x: nat)
    requires x < |s|
  {
    s[x] != ',' && (!IsSpace(s[x]) || (x + 1 < |s| && !IsSpace(s[x + 1]) && s[x + 1] != 'u'))
  }

  predicate SeparatorFree(s: string, q: nat, k: nat) {
    q <= k <= |s| && forall x :: q <= x < k ==> SeparatorFreeAt(s, x)
  }

  lemma NoSeparatorAt(s: string, x: nat)
    requires x < |s| && SeparatorFreeAt(s, x)
    ensures SeparatorAt(s, x).None?
  {
    if IsSpace(s[x]) {
      assert SkipSpaces(s, x + 1) == x + 1;
      assert SkipSpaces(s, x) == x + 1;
      assert s[x + 1..][0] == s[x + 1];
    }
  }

  /** The scan passes over a stretch where no separator starts. */
  lemma {:induction false} SplitFromSkip(s: string, p: nat, q: nat, k: nat)
    requires p <= q && SeparatorFree(s, q, k)
    requires forall x :: p <= x < q ==> SeparatorAt(s, x).None?
    ensures forall x :: p <= x < k ==> SeparatorAt(s, x).None?
    ensures SplitFrom(s, p, q) == SplitFrom(s, p, k)
    decreases k - q
  {
    if q < k {
      NoSeparatorAt(s, q);
      assert SeparatorFree(s, q + 1, k);
      SplitFromSkip(s, p, q + 1, k);
    }
  }
}
