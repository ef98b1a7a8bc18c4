/**
 * The bounded log of posted titles and the fuzzy duplicate filter run against it.
 * `fuzz.ratio` and `str.lower` come from libraries and are parameters here.
 */
module History {
  /** Line 37: how many posted titles are kept. */
  const MaxTitles: nat := 100
  /** Line 38: a score strictly above this marks a duplicate. */
  const SimilarityThreshold: int := 85

  /** A similarity score on the 0..100 scale `fuzz.ratio` uses. */
  type Score = x: int | 0 <= x <= 100

  /** The library functions the filter relies on: case folding and the score. */
  datatype Matcher = Matcher(lower: string -> string, ratio: (string, string) -> Score)

  /** The log after `add_recent_title(t)`: `t` appended and only the most recent
      `MaxTitles` entries kept. */
  function KeepRecent(h: seq<string>, t: string): (r: seq<string>)
    ensures |r| == if |h| + 1 <= MaxTitles then |h| + 1 else MaxTitles
    ensures r[|r| - 1] == t
    ensures r[..|r| - 1] == h[|h| - (|r| - 1)..]
  {
    var all := h + [t];
    if |all| > MaxTitles then
      assert all[|all| - MaxTitles..][..MaxTitles - 1] == h[|h| - (MaxTitles - 1)..];
      all[|all| - MaxTitles..]
    else
      assert all[..|all| - 1] == h;
      all
  }

  /** Lines 60-61: two titles are near-duplicates when the ratio of their
      lower-cased forms exceeds the threshold. */
  predicate Similar(m: Matcher, a: string, b: string) {
    m.ratio(m.lower(a), m.lower(b)) > SimilarityThreshold
  }

  /** The title is a near-duplicate of some entry of the log. */
  predicate Duplicate(m: Matcher, t: string, h: seq<string>) {
    exists i :: 0 <= i < |h| && Similar(m, t, h[i])
  }

  /** The position of the first entry similar to `t`, or `|h|` when none is. */
  function FirstSimilar(m: Matcher, t: string, h: seq<string>): (k: nat)
    ensures k <= |h|
    ensures k < |h| ==> Similar(m, t, h[k])
    ensures forall j :: 0 <= j < k ==> !Similar(m, t, h[j])
    decreases |h|
  {
    if |h| == 0 then 0
    else if Similar(m, t, h[0]) then 0
    else
      var k := 1 + FirstSimilar(m, t, h[1..]);
      assert forall j :: 1 <= j < k ==> h[j] == h[1..][j - 1];
      k
  }

  /** `is_duplicate_title`: scan the log in order and stop at the first entry
      whose score exceeds the threshold. `compared` counts the scores taken. */
  method IsDuplicateTitle(m: Matcher, title: string, recent: seq<string>)
    returns (dup: bool, ghost compared: nat)
    ensures dup <==> Duplicate(m, title, recent)
    ensures |recent| == 0 ==> !dup
    ensures compared == if dup then FirstSimilar(m, title, recent) + 1 else |recent|
  {
    compared := 0;
    for i := 0 to |recent|
      invariant compared == i
      invariant forall j :: 0 <= j < i ==> !Similar(m, title, recent[j])
    {
      compared := compared + 1;
      var similarity := m.ratio(m.lower(title), m.lower(recent[i]));
      if similarity > SimilarityThreshold {
        return true, compared;
      }
    }
    return false, compared;
  }

  /** A log is a duplicate source exactly when one of its two halves is. */
  lemma DuplicateAppend(m: Matcher, t: string, a: seq<string>, b: seq<string>)
    ensures Duplicate(m, t, a + b) <==> Duplicate(m, t, a) || Duplicate(m, t, b)
  {
    if Duplicate(m, t, a + b) {
      var i :| 0 <= i < |a + b| && Similar(m, t, (a + b)[i]);
      if i >= |a| { assert (a + b)[i] == b[i - |a|]; }
    }
    if Duplicate(m, t, a) {
      var i :| 0 <= i < |a| && Similar(m, t, a[i]);
      assert (a + b)[i] == a[i];
    }
    if Duplicate(m, t, b) {
      var i :| 0 <= i < |b| && Similar(m, t, b[i]);
      assert (a + b)[|a| + i] == b[i];
    }
  }

  /** After `add_recent_title(t)` a title is a duplicate exactly when it is
      similar to `t` or to one of the `MaxTitles - 1` newest earlier titles. */
  lemma DuplicateAfterRecord(m: Matcher, h: seq<string>, t: string, u: string)
    ensures var kept := if |h| < MaxTitles then |h| else MaxTitles - 1;
      Duplicate(m, u, KeepRecent(h, t)) <==> Duplicate(m, u, h[|h| - kept..]) || Similar(m, u, t)
  {
    var r := KeepRecent(h, t);
    assert r == r[..|r| - 1] + [t];
    DuplicateAppend(m, u, r[..|r| - 1], [t]);
    assert Duplicate(m, u, [t]) <==> Similar(m, u, t) by {
      if Similar(m, u, t) { assert [t][0] == t; }
    }
  }

  /** Right after a title is recorded, every title similar to it is a duplicate:
      the newest entry is never the one evicted. */
  lemma RecordedTitleBlocksSimilar(m: Matcher, h: seq<string>, t: string, u: string)
    requires Similar(m, u, t)
    ensures Duplicate(m, u, KeepRecent(h, t))
  {
    var r := KeepRecent(h, t);
    assert Similar(m, u, r[|r| - 1]);
  }

  /** Recording a title never turns a recent duplicate into a new title as long
      as the similar entry is among the `MaxTitles - 1` newest. */
  lemma RecordingKeepsRecentMatches(m: Matcher, h: seq<string>, t: string, u: string, i: nat)
    requires i < |h| && |h| - i < MaxTitles && Similar(m, u, h[i])
    ensures Duplicate(m, u, KeepRecent(h, t))
  {
    var r := KeepRecent(h, t);
    var j := i - (|h| - (|r| - 1));
    assert r[..|r| - 1][j] == h[i];
    assert Similar(m, u, r[j]);
  }
}
