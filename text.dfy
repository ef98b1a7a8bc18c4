/**
 * String shaping done by the poster: Python's whitespace class, `str.strip()`,
 * the sentence split `re.split(r'(?<=[.!?])\s+', text)`, `' '.join`, and the
 * three-sentence summary built from an article's paragraph text.
 */
module Text {
  import opened Wrappers

  /** The characters for which Python's `str.isspace()` holds; the same set
      `\s` matches in a `str` regular expression. */
  predicate IsSpace(c: char) {
    ('\t' <= c <= '\r') || ('\U{1c}' <= c <= '\U{1f}') || c == ' ' || c == '\U{85}' || c == '\U{a0}'
    || c == '\U{1680}' || ('\U{2000}' <= c <= '\U{200a}') || c == '\U{2028}' || c == '\U{2029}'
    || c == '\U{202f}' || c == '\U{205f}' || c == '\U{3000}'
  }

  predicate AllSpace(s: string) {
    forall i :: 0 <= i < |s| ==> IsSpace(s[i])
  }

  /** Length of the longest all-whitespace prefix of `s`. */
  function LeadingSpace(s: string): (n: nat)
    ensures n <= |s| && AllSpace(s[..n])
    ensures n < |s| ==> !IsSpace(s[n])
  {
    if |s| > 0 && IsSpace(s[0]) then
      var n := 1 + LeadingSpace(s[1..]);
      assert s[..n] == [s[0]] + s[1..][..n - 1];
      n
    else 0
  }

  /** Length of the longest all-whitespace suffix of `s`. */
  function TrailingSpace(s: string): (n: nat)
    ensures n <= |s|
    ensures forall i :: |s| - n <= i < |s| ==> IsSpace(s[i])
    ensures n < |s| ==> !IsSpace(s[|s| - 1 - n])
  {
    if |s| > 0 && IsSpace(s[|s| - 1]) then 1 + TrailingSpace(s[..|s| - 1]) else 0
  }

  /** Python's `s.strip()`: `s` without its leading and trailing whitespace. */
  function Strip(s: string): (r: string)
    ensures r == [] || (!IsSpace(r[0]) && !IsSpace(r[|r| - 1]))
    ensures LeadingSpace(s) + |r| <= |s|
    ensures r == s[LeadingSpace(s)..LeadingSpace(s) + |r|]
    ensures AllSpace(s[LeadingSpace(s) + |r|..])
    ensures r == [] <==> AllSpace(s)
  {
    var a := LeadingSpace(s);
    if a == |s| then
      assert s[..a] == s;
      []
    else
      var b := TrailingSpace(s);
      assert a < |s| - b;
      assert !AllSpace(s) by { assert !IsSpace(s[a]); }
      s[a..|s| - b]
  }

  predicate IsTerminator(c: char) {
    c == '.' || c == '!' || c == '?'
  }

  /** Position `i` of `s` is where the split pattern matches: the character
      before it ends a sentence and the character at it is whitespace. */
  predicate BoundaryAt(s: string, i: int) {
    0 < i < |s| && IsTerminator(s[i - 1]) && IsSpace(s[i])
  }

  predicate NoBoundary(s: string) {
    forall i :: 0 <= i < |s| ==> !BoundaryAt(s, i)
  }

  /** The first boundary of `s` at or after `from`, or `|s|` when there is none. */
  function NextBoundary(s: string, from: nat): (b: nat)
    requires from <= |s|
    ensures from <= b <= |s|
    ensures b < |s| ==> BoundaryAt(s, b)
    ensures forall j :: from <= j < b ==> !BoundaryAt(s, j)
    decreases |s| - from
  {
    if from == |s| then |s|
    else if BoundaryAt(s, from) then from
    else NextBoundary(s, from + 1)
  }

  /** Where the first cut of `s` starts and ends: `(|s|, |s|)` when `s` has no
      boundary, otherwise the first boundary and the end of the whitespace run
      that starts there. */
  function FirstGap(s: string): (r: (nat, nat))
    ensures r.0 <= r.1 <= |s|
    ensures r.0 == |s| ==> r.1 == |s|
    ensures r.0 < |s| ==> BoundaryAt(s, r.0) && r.0 < r.1 && AllSpace(s[r.0..r.1])
    ensures r.0 < |s| && r.1 < |s| ==> !IsSpace(s[r.1])
    ensures forall j :: 0 <= j < r.0 ==> !BoundaryAt(s, j)
  {
    var b := NextBoundary(s, 0);
    if b == |s| then (b, b)
    else
      var n := LeadingSpace(s[b..]);
      assert s[b..][0] == s[b];
      assert s[b..][..n] == s[b..b + n];
      assert b + n < |s| ==> s[b..][n] == s[b + n];
      (b, b + n)
  }

  /** The pieces `re.split(r'(?<=[.!?])\s+', s)` yields: each maximal whitespace
      run directly after `.`, `!` or `?` is a cut. */
  function Sentences(s: string): (r: seq<string>)
    ensures |r| >= 1
    decreases |s|
  {
    var (b, e) := FirstGap(s);
    if b == |s| then [s] else [s[..b]] + Sentences(s[e..])
  }

  /** The whitespace runs the split removes, in order. */
  function Gaps(s: string): (r: seq<string>)
    decreases |s|
  {
    var (b, e) := FirstGap(s);
    if b == |s| then [] else [s[b..e]] + Gaps(s[e..])
  }

  /** `p[0] + g[0] + p[1] + g[1] + ... + p[|g|]`. */
  function Interleave(p: seq<string>, g: seq<string>): string
    requires |p| == |g| + 1
    decreases |g|
  {
    if |g| == 0 then p[0] else p[0] + g[0] + Interleave(p[1..], g[1..])
  }

  /** Python's `sep.join(xs)`. */
  function Join(sep: string, xs: seq<string>): string
    decreases |xs|
  {
    if |xs| == 0 then []
    else if |xs| == 1 then xs[0]
    else xs[0] + sep + Join(sep, xs[1..])
  }

  /** What makes `(p, g)` the decomposition the split produces: no piece
      contains a boundary of its own and, at every gap, the piece before it ends
      a sentence, the gap is a non-empty whitespace run, and the piece after it
      does not start with whitespace (so the gap is maximal). */
  ghost predicate WellSplit(p: seq<string>, g: seq<string>)
    decreases |g|
  {
    && |p| == |g| + 1
    && NoBoundary(p[0])
    && (|g| > 0 ==>
          && p[0] != [] && IsTerminator(p[0][|p[0]| - 1])
          && g[0] != [] && AllSpace(g[0])
          && (p[1] == [] || !IsSpace(p[1][0]))
          && WellSplit(p[1..], g[1..]))
  }

  /** Interleaving a piece and a gap in front of a shorter interleaving. */
  lemma InterleaveCons(x: string, y: string, p: seq<string>, g: seq<string>)
    requires |p| == |g| + 1
    ensures Interleave([x] + p, [y] + g) == x + y + Interleave(p, g)
  {
    assert ([x] + p)[1..] == p && ([y] + g)[1..] == g;
  }

  /** Putting the piece before a cut and the cut itself in front of an
      interleaving of what follows the cut gives back the whole text. */
  lemma InterleaveAfterCut(s: string, b: nat, e: nat, p: seq<string>, g: seq<string>)
    requires b <= e <= |s| && |p| == |g| + 1 && Interleave(p, g) == s[e..]
    ensures Interleave([s[..b]] + p, [s[b..e]] + g) == s
  {
    calc {
      Interleave([s[..b]] + p, [s[b..e]] + g);
      { InterleaveCons(s[..b], s[b..e], p, g); }
      s[..b] + s[b..e] + s[e..];
      { assert s[..b] + s[b..e] == s[..e]; }
      s;
    }
  }

  /** The pieces and gaps the split yields put back together give the text. */
  lemma {:induction false} SentencesReassemble(s: string)
    ensures |Sentences(s)| == |Gaps(s)| + 1
    ensures Interleave(Sentences(s), Gaps(s)) == s
    decreases |s|
  {
    var (b, e) := FirstGap(s);
    if b < |s| {
      var rest := s[e..];
      SplitAtFirstGap(s, b, e);
      SentencesReassemble(rest);
      InterleaveAfterCut(s, b, e, Sentences(rest), Gaps(rest));
    }
  }

  /** The first piece of a well-formed split: the second property below is what
      makes every cut maximal. */
  lemma FirstPieceOfInterleave(p: seq<string>, g: seq<string>)
    requires |p| == |g| + 1
    ensures |p[0]| <= |Interleave(p, g)| && Interleave(p, g)[..|p[0]|] == p[0]
    ensures |g| > 0 ==> Interleave(p, g) == p[0] + g[0] + Interleave(p[1..], g[1..])
  {
  }

  /** How the split proceeds at its first cut. */
  lemma SplitAtFirstGap(s: string, b: nat, e: nat)
    requires FirstGap(s) == (b, e) && b < |s|
    ensures b <= e <= |s|
    ensures Sentences(s) == [s[..b]] + Sentences(s[e..])
    ensures Gaps(s) == [s[b..e]] + Gaps(s[e..])
  {
  }

  /** The first cut of `x + y + t`, when it is exactly `y`, splits off `x` and
      `y` from the split of `t`. */
  lemma SplitAtCut(s: string, x: string, y: string, t: string)
    requires s == x + y + t && y != [] && FirstGap(s) == (|x|, |x| + |y|)
    ensures Sentences(s) == [x] + Sentences(t)
    ensures Gaps(s) == [y] + Gaps(t)
  {
    var b, e := |x|, |x| + |y|;
    SplitAtFirstGap(s, b, e);
    assert s[..b] == x && s[b..e] == y && s[e..] == t;
  }

  /** The first piece of the split is a prefix of the text. */
  lemma FirstSentenceIsPrefix(s: string)
    ensures |Sentences(s)[0]| <= |s| && Sentences(s)[0] == s[..|Sentences(s)[0]|]
  {
  }

  /** The split does produce a well-formed decomposition. */
  lemma {:induction false} SentencesWellSplit(s: string)
    ensures WellSplit(Sentences(s), Gaps(s))
    decreases |s|
  {
    var (b, e) := FirstGap(s);
    if b == |s| {
      assert NoBoundary(s);
    } else {
      var rest := s[e..];
      SplitAtFirstGap(s, b, e);
      SentencesWellSplit(rest);
      var p' := Sentences(rest);
      assert NoBoundary(s[..b]) by {
        forall j | 0 <= j < b ensures !BoundaryAt(s[..b], j) {
          assert !BoundaryAt(s, j);
        }
      }
      assert p'[0] == [] || !IsSpace(p'[0][0]) by {
        FirstSentenceIsPrefix(rest);
        if p'[0] != [] {
          assert p'[0][0] == rest[0] == s[e];
        }
      }
      assert Sentences(s)[1..] == p' && Gaps(s)[1..] == Gaps(rest);
    }
  }

  /** On a well-formed interleaving the first cut is the first gap. */
  lemma FirstGapOfWellSplit(p: seq<string>, g: seq<string>)
    requires WellSplit(p, g) && |g| > 0
    ensures FirstGap(Interleave(p, g)) == (|p[0]|, |p[0]| + |g[0]|)
  {
    FirstPieceOfInterleave(p, g);
    RestAfterGap(p, g);
    FirstGapOfCut(p[0], g[0], Interleave(p[1..], g[1..]));
  }

  /** In a well-formed split, what follows the first gap does not start with
      whitespace. */
  lemma RestAfterGap(p: seq<string>, g: seq<string>)
    requires WellSplit(p, g) && |g| > 0
    ensures var rest := Interleave(p[1..], g[1..]); rest == [] || !IsSpace(rest[0])
  {
    var rest := Interleave(p[1..], g[1..]);
    FirstPieceOfInterleave(p[1..], g[1..]);
    if p[1] != [] {
      assert rest[0] == p[1][0];
    } else {
      // only the last piece can be empty
      assert |g| == 1;
    }
  }

  /** The first cut of `x + y + t` is exactly `y` when `x` has no boundary of
      its own and ends a sentence, `y` is a whitespace run, and `t` does not
      start with whitespace. */
  lemma FirstGapOfCut(x: string, y: string, t: string)
    requires NoBoundary(x) && x != [] && IsTerminator(x[|x| - 1])
    requires y != [] && AllSpace(y) && (t == [] || !IsSpace(t[0]))
    ensures FirstGap(x + y + t) == (|x|, |x| + |y|)
  {
    var s := x + y + t;
    var b, e := |x|, |x| + |y|;
    assert s[..b] == x && s[b..e] == y && s[e..] == t;
    forall j | 0 <= j < b ensures !BoundaryAt(s, j) {
      assert !BoundaryAt(x, j);
      if 0 < j { assert s[j - 1] == x[j - 1] && s[j] == x[j]; }
    }
    assert BoundaryAt(s, b) by {
      assert s[b - 1] == x[b - 1];
      assert s[b] == y[0];
    }
    var (b', e') := FirstGap(s);
    assert b' == b;
    // the run of whitespace starting at `b` is `y` and stops where `t` starts
    forall j | b <= j < e ensures IsSpace(s[j]) {
      assert s[j] == y[j - b];
    }
    assert e < |s| ==> s[e] == t[0] && !IsSpace(s[e]);
    forall j | b' <= j < e' ensures IsSpace(s[j]) {
      assert s[j] == s[b'..e'][j - b'];
    }
  }

  /** Splitting a well-formed interleaving gives back exactly its pieces and
      gaps: the decomposition the split produces is the only well-formed one. */
  lemma {:induction false} SentencesUnique(p: seq<string>, g: seq<string>)
    requires WellSplit(p, g)
    ensures Sentences(Interleave(p, g)) == p
    ensures Gaps(Interleave(p, g)) == g
    decreases |g|
  {
    var s := Interleave(p, g);
    if |g| == 0 {
      assert NoBoundary(p[0]);
      assert FirstGap(s).0 == |s|;
    } else {
      var rest := Interleave(p[1..], g[1..]);
      FirstGapOfWellSplit(p, g);
      FirstPieceOfInterleave(p, g);
      SplitAtCut(s, p[0], g[0], rest);
      SentencesUnique(p[1..], g[1..]);
      assert [p[0]] + p[1..] == p && [g[0]] + g[1..] == g;
    }
  }

  /** `n` one-space separators. */
  function Spaces(n: nat): (g: seq<string>)
    ensures |g| == n && forall i :: 0 <= i < n ==> g[i] == " "
  {
    seq(n, _ => " ")
  }

  /** `Join(" ", xs)` is the interleaving of `xs` with single spaces. */
  lemma {:induction false} JoinIsInterleave(xs: seq<string>)
    requires |xs| >= 1
    ensures Join(" ", xs) == Interleave(xs, Spaces(|xs| - 1))
    decreases |xs|
  {
    if |xs| > 1 {
      JoinIsInterleave(xs[1..]);
      assert Spaces(|xs| - 1)[1..] == Spaces(|xs| - 2);
    }
  }

  /** The text of at most three sentences that the summary is trimmed from. */
  function SummaryDraft(text: string): string {
    var ss := Sentences(text);
    Join(" ", ss[..if |ss| < 3 then |ss| else 3])
  }

  /** Lines 103-105: the first three sentences joined by a space and trimmed;
      an empty result is reported as no summary. */
  function Summary(text: string): (r: Option<string>)
    ensures r.None? <==> AllSpace(SummaryDraft(text))
    ensures r.Some? ==> r.value != [] && !IsSpace(r.value[0]) && !IsSpace(r.value[|r.value| - 1])
    ensures r.Some? ==> r.value == Strip(SummaryDraft(text))
  {
    var t := Strip(SummaryDraft(text));
    if t == [] then None else Some(t)
  }

  /** Keeping the first `k` pieces of a well-formed split and putting single
      spaces between them is again well formed. */
  lemma {:induction false} WellSplitPrefix(p: seq<string>, g: seq<string>, k: nat)
    requires WellSplit(p, g) && 1 <= k <= |p|
    ensures WellSplit(p[..k], Spaces(k - 1))
    decreases k
  {
    if k > 1 {
      WellSplitPrefix(p[1..], g[1..], k - 1);
      assert p[..k][1..] == p[1..][..k - 1];
      assert Spaces(k - 1)[1..] == Spaces(k - 2);
    }
  }

  /** The draft consists of exactly the first (at most three) sentences of the
      text: splitting it again yields them and nothing else. */
  lemma SummaryDraftSentences(text: string)
    ensures var ss := Sentences(text);
      Sentences(SummaryDraft(text)) == ss[..if |ss| < 3 then |ss| else 3]
  {
    var ss := Sentences(text);
    var k := if |ss| < 3 then |ss| else 3;
    SentencesWellSplit(text);
    WellSplitPrefix(ss, Gaps(text), k);
    JoinIsInterleave(ss[..k]);
    SentencesUnique(ss[..k], Spaces(k - 1));
  }

  /** A text of at most three sentences separated by single spaces is its own
      draft. */
  lemma ShortTextIsOwnDraft(text: string)
    requires |Sentences(text)| <= 3
    requires forall i :: 0 <= i < |Gaps(text)| ==> Gaps(text)[i] == " "
    ensures SummaryDraft(text) == text
  {
    var ss, gs := Sentences(text), Gaps(text);
    SentencesReassemble(text);
    assert gs == Spaces(|ss| - 1);
    calc {
      SummaryDraft(text);
      Join(" ", ss[..|ss|]);
      { assert ss[..|ss|] == ss; }
      Join(" ", ss);
      { JoinIsInterleave(ss); }
      Interleave(ss, gs);
      text;
    }
  }

  /** A text of at most three sentences separated by single spaces is its own
      summary, up to trimming. */
  lemma ShortTextIsOwnSummary(text: string)
    requires |Sentences(text)| <= 3
    requires forall i :: 0 <= i < |Gaps(text)| ==> Gaps(text)[i] == " "
    ensures Summary(text) == if Strip(text) == [] then None else Some(Strip(text))
  {
    ShortTextIsOwnDraft(text);
  }
}
