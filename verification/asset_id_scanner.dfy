/**
 * The asset-id scan of string property values: every case-insensitive
 * occurrence of `asset://`, searched left to right without overlap, followed by
 * the longest run of characters from `[A-Za-z0-9_-]` (the captured asset id).
 */
module AssetIdScanner {

  import opened Wrappers
  import opened Text

  const Scheme: string := "asset://"

  /** The character class `[\w-]` of the pattern: ASCII letters, digits, `_` and `-`. */
  predicate IsIdChar(c: char) {
    ('a' <= c <= 'z') || ('A' <= c <= 'Z') || ('0' <= c <= '9') || c == '_' || c == '-'
  }

  predicate IsId(s: string) {
    forall k :: 0 <= k < |s| ==> IsIdChar(s[k])
  }

  /** `s[i..]` starts with `pattern`, comparing ASCII-lower-cased characters of `s`. */
  predicate StartsWithIgnoringCase(s: string, i: nat, pattern: string)
    decreases |pattern|
  {
    |pattern| == 0 || (i < |s| && LowerChar(s[i]) == pattern[0] && StartsWithIgnoringCase(s, i + 1, pattern[1..]))
  }

  /** `asset://` occurs at position `i`, ignoring case. */
  predicate SchemeAt(s: string, i: int) {
    0 <= i && i + |Scheme| <= |s| && StartsWithIgnoringCase(s, i, Scheme)
  }

  lemma {:induction false} StartsWithIgnoringCaseIsLoweredOccurrence(s: string, i: nat, pattern: string)
    requires i + |pattern| <= |s|
    ensures StartsWithIgnoringCase(s, i, pattern) <==> OccursAt(pattern, Lower(s), i)
    decreases |pattern|
  {
    if |pattern| > 0 {
      StartsWithIgnoringCaseIsLoweredOccurrence(s, i + 1, pattern[1..]);
      var lowered := Lower(s)[i..i + |pattern|];
      assert lowered == [LowerChar(s[i])] + Lower(s)[i + 1..i + |pattern|];
    }
  }

  /** `SchemeAt` is an occurrence of `asset://` in the ASCII-lower-cased text: the `/i` flag of the pattern. */
  lemma SchemeAtIsCaseInsensitiveOccurrence(s: string, i: int)
    ensures SchemeAt(s, i) <==> OccursAt(Scheme, Lower(s), i)
  {
    if 0 <= i && i + |Scheme| <= |s| {
      StartsWithIgnoringCaseIsLoweredOccurrence(s, i, Scheme);
    }
  }

  /** `s[j..e]` is a run of id characters that cannot be extended to the right. */
  predicate MaximalRun(s: string, j: int, e: int) {
    0 <= j <= e <= |s|
    && (forall k :: j <= k < e ==> IsIdChar(s[k]))
    && (e == |s| || !IsIdChar(s[e]))
  }

  /** One match: the scheme starts at `start`, the captured id is `s[start + 8..end]`. */
  datatype Match = Match(start: nat, end: nat)

  /** The end of the greedy `[\w-]*` run starting at `j`. */
  function RunEnd(s: string, j: nat): (e: nat)
    requires j <= |s|
    ensures MaximalRun(s, j, e)
    decreases |s| - j
  {
    if j == |s| || !IsIdChar(s[j]) then j else RunEnd(s, j + 1)
  }

  /** The first occurrence of the scheme at or after `from`. */
  function FindScheme(s: string, from: nat): (r: Option<nat>)
    requires from <= |s|
    ensures r.Some? ==> from <= r.value && SchemeAt(s, r.value)
    ensures r.Some? ==> forall k :: from <= k < r.value ==> !SchemeAt(s, k)
    ensures r.None? ==> forall k :: from <= k < |s| ==> !SchemeAt(s, k)
    decreases |s| - from
  {
    if from == |s| then None
    else if SchemeAt(s, from) then Some(from)
    else FindScheme(s, from + 1)
  }

  /** `preg_match_all` from position `from`: each search resumes where the previous match ended. */
  function Matches(s: string, from: nat): (ms: seq<Match>)
    requires from <= |s|
    decreases |s| - from
  {
    match FindScheme(s, from)
    case None => []
    case Some(i) =>
      var e := RunEnd(s, i + |Scheme|);
      [Match(i, e)] + Matches(s, e)
  }

  /** Every match is a scheme occurrence at or after `from`, followed by a maximal id run. */
  lemma {:induction false} MatchesAreOccurrencesOfTheScheme(s: string, from: nat)
    requires from <= |s|
    ensures MatchesAreOccurrences(s, from, Matches(s, from))
    decreases |s| - from
  {
    var r := FindScheme(s, from);
    if r.Some? {
      var e := RunEnd(s, r.value + |Scheme|);
      MatchesAreOccurrencesOfTheScheme(s, e);
      var ms := Matches(s, from);
      assert ms == [Match(r.value, e)] + Matches(s, e);
      forall k | 0 <= k < |ms|
        ensures from <= ms[k].start && SchemeAt(s, ms[k].start)
        ensures MaximalRun(s, ms[k].start + |Scheme|, ms[k].end)
      {
        if k > 0 {
          assert ms[k] == Matches(s, e)[k - 1];
        }
      }
    }
  }

  predicate WithinText(s: string, ms: seq<Match>) {
    forall k :: 0 <= k < |ms| ==> ms[k].start + |Scheme| <= ms[k].end <= |s|
  }

  /** The id captured by each match, in order. */
  function CapturedIds(s: string, ms: seq<Match>): (ids: seq<string>)
    requires WithinText(s, ms)
  {
    seq(|ms|, k requires 0 <= k < |ms| => s[ms[k].start + |Scheme|..ms[k].end])
  }

  lemma RunIsId(s: string, j: int, e: int)
    requires MaximalRun(s, j, e)
    ensures IsId(s[j..e])
  {
    forall k | 0 <= k < e - j
      ensures IsIdChar(s[j..e][k])
    {
      assert s[j..e][k] == s[j + k];
    }
  }

  /** `preg_match_all` on the whole string: the captured ids in order of appearance. */
  function ExtractIds(s: string): (ids: seq<string>)
    ensures forall k :: 0 <= k < |ids| ==> IsId(ids[k])
  {
    var ms := Matches(s, 0);
    MatchesAreOccurrencesOfTheScheme(s, 0);
    var ids := CapturedIds(s, ms);
    assert forall k :: 0 <= k < |ids| ==> IsId(ids[k]) by {
      forall k | 0 <= k < |ids|
        ensures IsId(ids[k])
      {
        RunIsId(s, ms[k].start + |Scheme|, ms[k].end);
      }
    }
    ids
  }

  // ---------------------------------------------------------------------------
  // Reference definition of a left-to-right, non-overlapping scan

  /** Where the gap after match `k - 1` ends: the start of match `k`, or the end of the text. */
  function GapEnd(s: string, ms: seq<Match>, k: nat): int {
    if k < |ms| then ms[k].start else |s|
  }

  /** Every match is a scheme occurrence at or after `from`, followed by a maximal id run. */
  predicate MatchesAreOccurrences(s: string, from: nat, ms: seq<Match>) {
    forall k :: 0 <= k < |ms| ==>
      from <= ms[k].start && SchemeAt(s, ms[k].start) && MaximalRun(s, ms[k].start + |Scheme|, ms[k].end)
  }

  /** Each match ends before any later one starts. */
  predicate NonOverlapping(ms: seq<Match>) {
    forall j, k :: 0 <= j < k < |ms| ==> ms[j].end <= ms[k].start
  }

  /** No occurrence is skipped: the scheme occurs neither before the first match nor between or after matches. */
  predicate NoSkippedOccurrence(s: string, from: nat, ms: seq<Match>) {
    && (forall p :: from <= p < GapEnd(s, ms, 0) ==> !SchemeAt(s, p))
    && (forall k, p :: 0 <= k < |ms| && ms[k].end <= p < GapEnd(s, ms, k + 1) ==> !SchemeAt(s, p))
  }

  /**
   * `ms` is a valid result of scanning `s` from `from`: every match is a scheme
   * occurrence with a maximal id run, the matches are ordered and do not
   * overlap, and every occurrence of the scheme outside the matches was
   * swallowed by an earlier match's span rather than skipped.
   */
  predicate IsScan(s: string, from: nat, ms: seq<Match>) {
    MatchesAreOccurrences(s, from, ms) && NonOverlapping(ms) && NoSkippedOccurrence(s, from, ms)
  }

  /** The scanner's result is a valid scan. */
  lemma MatchesIsScan(s: string, from: nat)
    requires from <= |s|
    ensures IsScan(s, from, Matches(s, from))
  {
    MatchesAreOccurrencesOfTheScheme(s, from);
    MatchesDoNotOverlap(s, from);
    MatchesSkipNothing(s, from);
  }

  lemma {:induction false} MatchesDoNotOverlap(s: string, from: nat)
    requires from <= |s|
    ensures NonOverlapping(Matches(s, from))
    decreases |s| - from
  {
    var r := FindScheme(s, from);
    if r.Some? {
      var e := RunEnd(s, r.value + |Scheme|);
      MatchesDoNotOverlap(s, e);
      MatchesAreOccurrencesOfTheScheme(s, e);
      assert Matches(s, from) == [Match(r.value, e)] + Matches(s, e);
      FirstThenRestIsNonOverlapping(s, e, Match(r.value, e), Matches(s, e));
    }
  }

  lemma {:induction false} MatchesSkipNothing(s: string, from: nat)
    requires from <= |s|
    ensures NoSkippedOccurrence(s, from, Matches(s, from))
    decreases |s| - from
  {
    var r := FindScheme(s, from);
    if r.Some? {
      var e := RunEnd(s, r.value + |Scheme|);
      MatchesSkipNothing(s, e);
      assert Matches(s, from) == [Match(r.value, e)] + Matches(s, e);
      FirstThenRestSkipsNothing(s, from, Match(r.value, e), Matches(s, e));
    }
  }

  lemma FirstThenRestIsNonOverlapping(s: string, e: nat, m: Match, rest: seq<Match>)
    requires m.end == e
    requires forall k :: 0 <= k < |rest| ==> e <= rest[k].start
    requires NonOverlapping(rest)
    ensures NonOverlapping([m] + rest)
  {
    var ms := [m] + rest;
    forall j, k | 0 <= j < k < |ms|
      ensures ms[j].end <= ms[k].start
    {
      assert ms[k] == rest[k - 1];
      if j > 0 {
        assert ms[j] == rest[j - 1];
      }
    }
  }

  lemma FirstThenRestSkipsNothing(s: string, from: nat, m: Match, rest: seq<Match>)
    requires from <= m.start <= m.end
    requires forall p :: from <= p < m.start ==> !SchemeAt(s, p)
    requires NoSkippedOccurrence(s, m.end, rest)
    ensures NoSkippedOccurrence(s, from, [m] + rest)
  {
    var ms := [m] + rest;
    forall k, p | 0 <= k < |ms| && ms[k].end <= p < GapEnd(s, ms, k + 1)
      ensures !SchemeAt(s, p)
    {
      assert GapEnd(s, ms, k + 1) == GapEnd(s, rest, k);
      if k > 0 {
        assert ms[k] == rest[k - 1];
      }
    }
  }

  lemma MaximalRunIsUnique(s: string, j: int, e1: int, e2: int)
    requires MaximalRun(s, j, e1) && MaximalRun(s, j, e2)
    ensures e1 == e2
  {
  }

  /** Dropping the first match of a valid scan leaves a valid scan from where it ended. */
  lemma ScanTailIsScan(s: string, from: nat, ms: seq<Match>)
    requires IsScan(s, from, ms) && |ms| > 0
    ensures IsScan(s, ms[0].end, ms[1..])
  {
    TailAreOccurrences(s, from, ms);
    TailDoesNotOverlap(ms);
    TailSkipsNothing(s, from, ms);
  }

  lemma TailAreOccurrences(s: string, from: nat, ms: seq<Match>)
    requires MatchesAreOccurrences(s, from, ms) && NonOverlapping(ms) && |ms| > 0
    ensures MatchesAreOccurrences(s, ms[0].end, ms[1..])
  {
    var rest := ms[1..];
    forall k | 0 <= k < |rest|
      ensures ms[0].end <= rest[k].start && SchemeAt(s, rest[k].start)
      ensures MaximalRun(s, rest[k].start + |Scheme|, rest[k].end)
    {
      assert rest[k] == ms[k + 1];
    }
  }

  lemma TailDoesNotOverlap(ms: seq<Match>)
    requires NonOverlapping(ms) && |ms| > 0
    ensures NonOverlapping(ms[1..])
  {
    var rest := ms[1..];
    forall j, k | 0 <= j < k < |rest|
      ensures rest[j].end <= rest[k].start
    {
      assert rest[j] == ms[j + 1] && rest[k] == ms[k + 1];
    }
  }

  lemma TailSkipsNothing(s: string, from: nat, ms: seq<Match>)
    requires NoSkippedOccurrence(s, from, ms) && |ms| > 0
    ensures NoSkippedOccurrence(s, ms[0].end, ms[1..])
  {
    var rest := ms[1..];
    assert GapEnd(s, rest, 0) == GapEnd(s, ms, 1);
    forall k, p | 0 <= k < |rest| && rest[k].end <= p < GapEnd(s, rest, k + 1)
      ensures !SchemeAt(s, p)
    {
      assert rest[k] == ms[k + 1];
      assert GapEnd(s, rest, k + 1) == GapEnd(s, ms, k + 2);
    }
  }

  /** There is only one valid scan: the scanner's. */
  lemma {:induction false} ScanIsUnique(s: string, from: nat, ms: seq<Match>)
    requires from <= |s|
    requires IsScan(s, from, ms)
    ensures ms == Matches(s, from)
    decreases |s| - from
  {
    var r := FindScheme(s, from);
    if r.None? {
      assert |ms| == 0 || SchemeAt(s, ms[0].start);
    } else {
      var i := r.value;
      assert |ms| > 0 && ms[0].start <= i;
      assert ms[0].start == i by {
        assert SchemeAt(s, ms[0].start);
      }
      var e := RunEnd(s, i + |Scheme|);
      MaximalRunIsUnique(s, i + |Scheme|, e, ms[0].end);
      ScanTailIsScan(s, from, ms);
      ScanIsUnique(s, e, ms[1..]);
      assert Matches(s, from) == [Match(i, e)] + Matches(s, e);
      assert ms == [ms[0]] + ms[1..];
    }
  }

  // ---------------------------------------------------------------------------
  // Counting

  /** The number of (possibly overlapping) scheme occurrences at or after `from`. */
  function SchemeCount(s: string, from: nat): nat
    requires from <= |s|
    decreases |s| - from
  {
    if from == |s| then 0 else (if SchemeAt(s, from) then 1 else 0) + SchemeCount(s, from + 1)
  }

  lemma {:induction false} SchemeCountMonotone(s: string, a: nat, b: nat)
    requires a <= b <= |s|
    ensures SchemeCount(s, b) <= SchemeCount(s, a)
    decreases b - a
  {
    if a < b {
      SchemeCountMonotone(s, a + 1, b);
    }
  }

  /** Occurrences before the first one found are not counted. */
  lemma {:induction false} SchemeCountSkipsNonOccurrences(s: string, from: nat, i: nat)
    requires from <= i <= |s|
    requires forall k :: from <= k < i ==> !SchemeAt(s, k)
    ensures SchemeCount(s, from) == SchemeCount(s, i)
    decreases i - from
  {
    if from < i {
      SchemeCountSkipsNonOccurrences(s, from + 1, i);
    }
  }

  /** There are never more matches than occurrences of the scheme. */
  lemma {:induction false} MatchCountBound(s: string, from: nat)
    requires from <= |s|
    ensures |Matches(s, from)| <= SchemeCount(s, from)
    decreases |s| - from
  {
    match FindScheme(s, from)
    case None =>
    case Some(i) =>
      var e := RunEnd(s, i + |Scheme|);
      MatchCountBound(s, e);
      SchemeCountSkipsNonOccurrences(s, from, i);
      SchemeCountMonotone(s, i + 1, e);
  }

  /** The ids are in the id character class and at most as many as the scheme occurrences. */
  lemma ExtractIdsBounds(s: string)
    ensures |ExtractIds(s)| <= SchemeCount(s, 0)
    ensures forall k :: 0 <= k < |ExtractIds(s)| ==> IsId(ExtractIds(s)[k])
  {
    MatchCountBound(s, 0);
  }

  /**
   * The ids are the runs captured by a valid scan of the whole text: each one is
   * the maximal id run right after a scheme occurrence, in order of appearance.
   */
  lemma ExtractIdsAreTheCapturedRuns(s: string)
    ensures IsScan(s, 0, Matches(s, 0))
    ensures forall ms :: IsScan(s, 0, ms) ==> WithinText(s, ms) && ExtractIds(s) == CapturedIds(s, ms)
  {
    MatchesIsScan(s, 0);
    var ms := Matches(s, 0);
    forall k | 0 <= k < |ms|
      ensures ms[k].start + |Scheme| <= ms[k].end <= |s|
    {
      assert MaximalRun(s, ms[k].start + |Scheme|, ms[k].end);
    }
    forall other | IsScan(s, 0, other)
      ensures WithinText(s, other) && ExtractIds(s) == CapturedIds(s, other)
    {
      ScanIsUnique(s, 0, other);
    }
  }

  /** A string without the scheme yields no ids. */
  lemma NoSchemeNoIds(s: string)
    requires forall k :: 0 <= k < |s| ==> !SchemeAt(s, k)
    ensures ExtractIds(s) == []
  {
  }
}
