/** Character classes and string operations of the JavaScript runtime that the
    scraper relies on: `\s`, `\w`, `trim`, `includes`, `startsWith`,
    `toLowerCase` (on the letters that occur in party labels) and the
    whitespace normalisation applied to every absence paragraph. */
module Text {

  /** JavaScript's `\s`: WhiteSpace and LineTerminator (also what `trim` removes). */
  predicate IsSpace(c: char) {
    if c <= '~' then c == ' ' || ('\t' <= c <= '\r')
    else
      || c == '\U{A0}' || c == '\U{1680}' || ('\U{2000}' <= c <= '\U{200A}')
      || c == '\U{2028}' || c == '\U{2029}' || c == '\U{202F}' || c == '\U{205F}'
      || c == '\U{3000}' || c == '\U{FEFF}'
  }

  /** Characters that the regex `.` does not match. */
  predicate IsLineTerminator(c: char) {
    c == '\n' || c == '\r' || c == '\U{2028}' || c == '\U{2029}'
  }

  /** Regex `\w` without the `u` flag: ASCII letters, digits and underscore. */
  predicate IsWordChar(c: char) {
    ('a' <= c <= 'z') || ('A' <= c <= 'Z') || ('0' <= c <= '9') || c == '_'
  }

  /** `s.startsWith(p)` */
  predicate StartsWith(s: string, p: string) {
    |p| <= |s| && s[..|p|] == p
  }

  /** `s.includes(p)` */
  predicate Contains(s: string, p: string)
    decreases |s|
  {
    StartsWith(s, p) || (|s| > 0 && Contains(s[1..], p))
  }

  lemma {:induction false} ContainsTooLong(s: string, p: string)
    requires |p| > |s|
    ensures !Contains(s, p)
    decreases |s|
  {
    if |s| > 0 {
      ContainsTooLong(s[1..], p);
    }
  }

  /** A pattern whose first character does not occur in `s` is not contained. */
  lemma {:induction false} ContainsNeedsHead(s: string, p: string)
    requires |p| > 0 && p[0] !in s
    ensures !Contains(s, p)
    decreases |s|
  {
    if |s| > 0 {
      assert s[0] != p[0];
      assert p[0] !in s[1..] by { assert forall c :: c in s[1..] ==> c in s; }
      ContainsNeedsHead(s[1..], p);
    }
  }

  /** One step of a scan that rules `p` out of `s`. */
  lemma ContainsStep(s: string, p: string)
    requires |s| > 0 && |p| > 0 && s[0] != p[0] && !Contains(s[1..], p)
    ensures !Contains(s, p)
  {
  }

  /** `p` occurs in `s` at offset `i`. */
  ghost predicate OccursAt(s: string, p: string, i: int) {
    0 <= i && i + |p| <= |s| && s[i..i + |p|] == p
  }

  lemma {:induction false} ContainsIff(s: string, p: string)
    ensures Contains(s, p) <==> exists i :: OccursAt(s, p, i)
    decreases |s|
  {
    if StartsWith(s, p) {
      assert OccursAt(s, p, 0);
    } else if |s| == 0 {
      assert forall i :: !OccursAt(s, p, i);
    } else {
      ContainsIff(s[1..], p);
      if Contains(s[1..], p) {
        var i :| OccursAt(s[1..], p, i);
        assert s[1..][i..i + |p|] == s[i + 1..i + 1 + |p|];
        assert OccursAt(s, p, i + 1);
      } else {
        forall i
          ensures !OccursAt(s, p, i)
        {
          if 1 <= i && i + |p| <= |s| {
            assert s[1..][i - 1..i - 1 + |p|] == s[i..i + |p|];
            assert !OccursAt(s[1..], p, i - 1);
          } else if i == 0 && |p| <= |s| {
            assert s[0..|p|] == s[..|p|];
          }
        }
      }
    }
  }

  /** Index of the first character at or after `k` that is not `\s`. */
  function SkipSpaces(s: string, k: nat): (e: nat)
    requires k <= |s|
    ensures k <= e <= |s|
    ensures forall i :: k <= i < e ==> IsSpace(s[i])
    ensures e < |s| ==> !IsSpace(s[e])
    decreases |s| - k
  {
    if k < |s| && IsSpace(s[k]) then SkipSpaces(s, k + 1) else k
  }

  predicate AllSpace(s: string) {
    forall i :: 0 <= i < |s| ==> IsSpace(s[i])
  }

  /** No leading and no trailing `\s`. */
  predicate IsTrimmed(s: string) {
    |s| == 0 || (!IsSpace(s[0]) && !IsSpace(s[|s| - 1]))
  }

  /** The non-whitespace characters of `s`, in order. */
  function Visible(s: string): string
    decreases |s|
  {
    if |s| == 0 then "" else (if IsSpace(s[0]) then "" else [s[0]]) + Visible(s[1..])
  }

  lemma {:induction false} VisibleAppend(a: string, b: string)
    ensures Visible(a + b) == Visible(a) + Visible(b)
    decreases |a|
  {
    if |a| == 0 {
      assert a + b == b;
    } else {
      assert (a + b)[1..] == a[1..] + b;
      VisibleAppend(a[1..], b);
    }
  }

  lemma {:induction false} VisibleOfAllSpace(s: string)
    requires AllSpace(s)
    ensures Visible(s) == ""
    decreases |s|
  {
    if |s| > 0 {
      VisibleOfAllSpace(s[1..]);
    }
  }

  /** Where `trim` cuts: the first non-blank, and the end of the last one. */
  function TrimLo(s: string): nat { SkipSpaces(s, 0) }

  function TrimHi(s: string): (b: nat)
    ensures TrimLo(s) <= b <= |s|
  {
    LastVisibleEnd(s, TrimLo(s), |s|)
  }

  /** `s.trim()` */
  function Trim(s: string): (r: string)
    ensures r == s[TrimLo(s)..TrimHi(s)]
    ensures IsTrimmed(r)
    ensures AllSpace(s[..TrimLo(s)]) && AllSpace(s[TrimHi(s)..])
    ensures Visible(r) == Visible(s)
    ensures multiset(r) <= multiset(s)
    ensures IsTrimmed(s) ==> r == s
  {
    var a := TrimLo(s);
    var b := TrimHi(s);
    TrimSlice(s, a, b);
    TrimVisible(s, a, b);
    SliceMultiset(s, a, b);
    s[a..b]
  }

  lemma SliceMultiset<T>(s: seq<T>, a: nat, b: nat)
    requires a <= b <= |s|
    ensures multiset(s[a..b]) <= multiset(s)
  {
    assert s == s[..a] + s[a..b] + s[b..];
  }

  lemma TrimSlice(s: string, a: nat, b: nat)
    requires a == SkipSpaces(s, 0) && b == LastVisibleEnd(s, a, |s|)
    ensures IsTrimmed(s[a..b])
    ensures AllSpace(s[..a]) && AllSpace(s[b..])
    ensures IsTrimmed(s) ==> a == 0 && b == |s|
  {
    assert AllSpace(s[..a]) by {
      forall i | 0 <= i < a ensures IsSpace(s[..a][i]) { assert s[..a][i] == s[i]; }
    }
    assert AllSpace(s[b..]) by {
      forall i | 0 <= i < |s| - b ensures IsSpace(s[b..][i]) { assert s[b..][i] == s[b + i]; }
    }
    if IsTrimmed(s) && |s| > 0 {
      assert !IsSpace(s[0]);
      assert !IsSpace(s[|s| - 1]);
    }
  }

  lemma TrimVisible(s: string, a: nat, b: nat)
    requires a <= b <= |s|
    requires AllSpace(s[..a]) && AllSpace(s[b..])
    ensures Visible(s[a..b]) == Visible(s)
  {
    var r := s[a..b];
    assert s[..a] + r + s[b..] == s;
    VisibleOfAllSpace(s[..a]);
    VisibleOfAllSpace(s[b..]);
    VisibleAppend(s[..a] + r, s[b..]);
    VisibleAppend(s[..a], r);
  }

  /** End of the content of `s[lo..hi]`: the smallest `b >= lo` such that
      `s[b..hi]` is all whitespace. */
  function LastVisibleEnd(s: string, lo: nat, hi: nat): (b: nat)
    requires lo <= hi <= |s|
    ensures lo <= b <= hi
    ensures forall i :: b <= i < hi ==> IsSpace(s[i])
    ensures b > lo ==> !IsSpace(s[b - 1])
    decreases hi - lo
  {
    if hi > lo && IsSpace(s[hi - 1]) then LastVisibleEnd(s, lo, hi - 1) else hi
  }

  /** Every whitespace character is a plain blank. */
  predicate OnlyBlanks(s: string) {
    forall i :: 0 <= i < |s| && IsSpace(s[i]) ==> s[i] == ' '
  }

  /** No two blanks in a row. */
  predicate NoDoubleBlank(s: string) {
    forall i :: 0 <= i < |s| - 1 ==> !(s[i] == ' ' && s[i + 1] == ' ')
  }

  lemma SliceKeepsBlanks(s: string, a: nat, b: nat)
    requires a <= b <= |s|
    requires OnlyBlanks(s) && NoDoubleBlank(s)
    ensures OnlyBlanks(s[a..b]) && NoDoubleBlank(s[a..b])
  {
    assert forall i :: 0 <= i < b - a ==> s[a..b][i] == s[a + i];
  }

  /** `replace(/\s+/g, ' ')`: every whitespace run becomes one blank. */
  function CollapseSpaces(s: string): (r: string)
    ensures OnlyBlanks(r) && NoDoubleBlank(r)
    ensures |s| > 0 ==> |r| > 0 && (IsSpace(s[0]) <==> r[0] == ' ')
    ensures Visible(r) == Visible(s)
    decreases |s|
  {
    if |s| == 0 then ""
    else if IsSpace(s[0]) then
      var k := SkipSpaces(s, 0);
      var rest := CollapseSpaces(s[k..]);
      CollapseVisible(s, k);
      " " + rest
    else
      [s[0]] + CollapseSpaces(s[1..])
  }

  lemma CollapseVisible(s: string, k: nat)
    requires k <= |s| && forall i :: 0 <= i < k ==> IsSpace(s[i])
    ensures Visible(s) == Visible(s[k..])
  {
    assert s == s[..k] + s[k..];
    assert AllSpace(s[..k]) by {
      forall i | 0 <= i < k ensures IsSpace(s[..k][i]) { assert s[..k][i] == s[i]; }
    }
    VisibleOfAllSpace(s[..k]);
    VisibleAppend(s[..k], s[k..]);
  }

  /** `replace(/\u00A0/g, ' ')` */
  function ReplaceNbsp(s: string): (r: string)
    ensures |r| == |s|
    ensures forall i :: 0 <= i < |s| ==> r[i] == (if s[i] == '\U{A0}' then ' ' else s[i])
  {
    seq(|s|, i requires 0 <= i < |s| => if s[i] == '\U{A0}' then ' ' else s[i])
  }

  lemma {:induction false} VisibleReplaceNbsp(s: string)
    ensures Visible(ReplaceNbsp(s)) == Visible(s)
    decreases |s|
  {
    if |s| > 0 {
      VisibleReplaceNbsp(s[1..]);
      assert ReplaceNbsp(s)[1..] == ReplaceNbsp(s[1..]);
    }
  }

  /** The words of `s`: its maximal runs of non-whitespace characters, in
      order. */
  function Words(s: string): (ws: seq<string>)
    ensures |s| > 0 && !IsSpace(s[0]) ==> |ws| > 0
    ensures forall i :: 0 <= i < |ws| ==> |ws[i]| > 0 && forall c :: c in ws[i] ==> !IsSpace(c)
    decreases |s|
  {
    if |s| == 0 then []
    else if IsSpace(s[0]) then Words(s[1..])
    else
      var w := Words(s[1..]);
      if |s| > 1 && !IsSpace(s[1]) then
        assert forall c :: c in [s[0]] + w[0] ==> c == s[0] || c in w[0];
        [[s[0]] + w[0]] + w[1..]
      else [[s[0]]] + w
  }

  /** Words separated by single blanks. */
  function JoinWords(ws: seq<string>): string
    decreases |ws|
  {
    if |ws| == 0 then "" else ws[0] + JoinRest(ws[1..])
  }

  /** A blank before each word. */
  function JoinRest(ws: seq<string>): string
    decreases |ws|
  {
    if |ws| == 0 then "" else " " + ws[0] + JoinRest(ws[1..])
  }

  /** Leading blanks do not change the words. */
  lemma {:induction false} WordsSkip(s: string, k: nat)
    requires k <= |s| && forall i :: 0 <= i < k ==> IsSpace(s[i])
    ensures Words(s) == Words(s[k..])
    decreases k
  {
    if k > 0 {
      WordsSkip(s[1..], k - 1);
      assert s[1..][k - 1..] == s[k..];
    }
  }

  /** Trailing whitespace does not change the words. */
  lemma {:induction false} WordsTrail(x: string, q: string)
    requires AllSpace(q)
    ensures Words(x + q) == Words(x)
    decreases |x|
  {
    if |x| == 0 {
      assert x + q == q;
      WordsSkip(q, |q|);
    } else {
      assert (x + q)[1..] == x[1..] + q;
      WordsTrail(x[1..], q);
      if |x| == 1 && |q| > 0 {
        assert IsSpace((x + q)[1]);
        WordsSkip(q, |q|);
      }
    }
  }

  lemma {:induction false} WordsReplaceNbsp(s: string)
    ensures Words(ReplaceNbsp(s)) == Words(s)
    decreases |s|
  {
    if |s| > 0 {
      WordsReplaceNbsp(s[1..]);
      assert ReplaceNbsp(s)[1..] == ReplaceNbsp(s[1..]);
    }
  }

  lemma {:induction false} WordsCollapse(s: string)
    ensures Words(CollapseSpaces(s)) == Words(s)
    decreases |s|
  {
    if |s| > 0 {
      if IsSpace(s[0]) {
        var k := SkipSpaces(s, 0);
        WordsCollapse(s[k..]);
        WordsSkip(s, k);
        assert (" " + CollapseSpaces(s[k..]))[1..] == CollapseSpaces(s[k..]);
      } else {
        var c := CollapseSpaces(s[1..]);
        WordsCollapse(s[1..]);
        assert ([s[0]] + c)[1..] == c;
        if |s| > 1 {
          assert c[0] == ' ' ==> IsSpace(c[0]);
          assert IsSpace(c[0]) ==> c[0] == ' ';
        }
      }
    }
  }

  lemma JoinGlued(c: char, w: seq<string>)
    requires |w| > 0
    ensures JoinWords([[c] + w[0]] + w[1..]) == [c] + JoinWords(w)
  {
    assert ([[c] + w[0]] + w[1..])[1..] == w[1..];
  }

  lemma JoinSpaced(c: char, w: seq<string>)
    requires |w| > 0
    ensures JoinWords([[c]] + w) == [c] + " " + JoinWords(w)
  {
    assert ([[c]] + w)[1..] == w;
    var t := JoinRest(w[1..]);
    assert JoinWords([[c]] + w) == [c] + JoinRest(w);
    assert JoinRest(w) == " " + w[0] + t && JoinWords(w) == w[0] + t;
    assert [c] + (" " + w[0] + t) == [c] + " " + (w[0] + t);
  }

  /** The single-blank conditions hold for the rest of the text. */
  lemma TailKeepsBlanks(r: string, k: nat)
    requires k < |r| && !IsSpace(r[k])
    requires IsTrimmed(r) && OnlyBlanks(r) && NoDoubleBlank(r)
    ensures IsTrimmed(r[k..]) && OnlyBlanks(r[k..]) && NoDoubleBlank(r[k..])
  {
    SliceKeepsBlanks(r, k, |r|);
  }

  /** A trimmed text with only single blanks is its words joined by blanks. */
  lemma {:induction false} JoinOfWords(r: string)
    requires IsTrimmed(r) && OnlyBlanks(r) && NoDoubleBlank(r)
    ensures r == JoinWords(Words(r))
    decreases |r|
  {
    if |r| == 1 {
      JoinSpacedEnd(r);
    } else if |r| > 1 {
      if !IsSpace(r[1]) {
        TailKeepsBlanks(r, 1);
        JoinOfWords(r[1..]);
        JoinGlued(r[0], Words(r[1..]));
        assert r == [r[0]] + r[1..];
      } else {
        var u := r[2..];
        BlankThenWord(r);
        TailKeepsBlanks(r, 2);
        JoinOfWords(u);
        WordsAfterBlank(r);
        JoinSpaced(r[0], Words(u));
        assert r == [r[0]] + " " + u;
      }
    }
  }

  lemma JoinSpacedEnd(r: string)
    requires |r| == 1 && !IsSpace(r[0])
    ensures r == JoinWords(Words(r))
  {
    assert Words(r) == [[r[0]]] + Words(r[1..]);
    assert ([[r[0]]] + Words(r[1..]))[1..] == [];
  }

  /** In a trimmed single-blank text a blank is followed by a word. */
  lemma BlankThenWord(r: string)
    requires |r| > 1 && IsSpace(r[1])
    requires IsTrimmed(r) && OnlyBlanks(r) && NoDoubleBlank(r)
    ensures r[1] == ' ' && |r| > 2 && !IsSpace(r[2])
  {
    assert r[1] == ' ';
    assert |r| > 2;
    assert r[2] != ' ';
  }

  lemma WordsAfterBlank(r: string)
    requires |r| > 2 && !IsSpace(r[0]) && IsSpace(r[1]) && !IsSpace(r[2])
    ensures Words(r) == [[r[0]]] + Words(r[2..]) && |Words(r[2..])| > 0
  {
    WordsSkip(r[1..], 1);
    assert r[1..][1..] == r[2..];
  }

  /** Trimming does not change the words. */
  lemma TrimWords(c: string)
    ensures Words(Trim(c)) == Words(c)
  {
    var a, b := TrimLo(c), TrimHi(c);
    var r := Trim(c);
    assert c[a..] == r + c[b..];
    WordsSkip(c, a);
    WordsTrail(r, c[b..]);
  }

  /** The normalisation pipeline keeps the words and yields single blanks. */
  lemma NormalizeFacts(s: string, c: string)
    requires c == CollapseSpaces(ReplaceNbsp(s))
    ensures Trim(c) == JoinWords(Words(s))
    ensures OnlyBlanks(Trim(c)) && NoDoubleBlank(Trim(c))
  {
    SliceKeepsBlanks(c, TrimLo(c), TrimHi(c));
    WordsReplaceNbsp(s);
    WordsCollapse(ReplaceNbsp(s));
    TrimWords(c);
    JoinOfWords(Trim(c));
  }

  /** The text of an absence paragraph as the extractor stores it:
      non-breaking spaces replaced, whitespace runs collapsed, trimmed.  The
      result is the paragraph's words, non-breaking spaces counting as
      whitespace, separated by single blanks. */
  function NormalizeWhitespace(s: string): (r: string)
    ensures r == JoinWords(Words(s))
    ensures IsTrimmed(r) && OnlyBlanks(r) && NoDoubleBlank(r)
    ensures Visible(r) == Visible(s)
  {
    var c := CollapseSpaces(ReplaceNbsp(s));
    VisibleReplaceNbsp(s);
    NormalizeFacts(s, c);
    Trim(c)
  }

  /** `toLowerCase()` on ASCII letters and the umlauts; other characters are
      kept as they are. */
  function LowerChar(c: char): char {
    if 'A' <= c <= 'Z' then (c as int + 32) as char
    else if c == 'Ä' then 'ä'
    else if c == 'Ö' then 'ö'
    else if c == 'Ü' then 'ü'
    else c
  }

  function ToLower(s: string): (r: string)
    ensures |r| == |s|
    decreases |s|
  {
    if |s| == 0 then "" else [LowerChar(s[0])] + ToLower(s[1..])
  }

  /** `s.split(' ').pop()`: the text after the last blank (all of `s` when it
      has none). */
  function LastToken(s: string): (r: string)
    ensures ' ' !in r
    ensures |r| <= |s| && r == s[|s| - |r|..]
    ensures |r| < |s| ==> s[|s| - |r| - 1] == ' '
    ensures r == "" <==> |s| == 0 || s[|s| - 1] == ' '
    decreases |s|
  {
    if |s| == 0 then ""
    else if s[|s| - 1] == ' ' then ""
    else
      var init := s[..|s| - 1];
      var t := LastToken(init);
      assert s[|s| - |t| - 1..] == init[|init| - |t|..] + [s[|s| - 1]];
      assert |t| < |init| ==> s[|s| - |t| - 2] == init[|init| - |t| - 1];
      t + [s[|s| - 1]]
  }

  /** Decimal rendering of an integer, as string interpolation prints it. */
  function IntToString(n: int): string {
    if n < 0 then "-" + NatToString(-n) else NatToString(n)
  }

  function NatToString(n: nat): string
    decreases n
  {
    var d := ["0123456789"[n % 10]];
    if n < 10 then d else NatToString(n / 10) + d
  }
}
