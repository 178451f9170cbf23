/**
 * The excerpt builder of `ContentProcessor._extract_relevant_context_with_pages`:
 * every occurrence of every search term of three or more characters gets a
 * window of text around it, the windows of a page are merged into disjoint
 * ranges, and the ranges of all pages are emitted as page-tagged chunks until
 * a 25000-character budget is exceeded. When nothing matches anywhere, the
 * start of the first and of the last page are sent instead.
 *
 * The spec functions (`Occurrences` ... `ExtractContext`) state what is
 * computed; the methods `CollectIndices`, `MergeWindows` and
 * `ExtractRelevantContext` follow the loops of the source and are proved to
 * compute exactly that.
 */
module ContextExtractor {
  import opened Common
  import opened Text
  import opened Documents

  /** `ContentProcessor.signal_keywords`. */
  const SignalKeywords: seq<string> := [
    "bài tập", "ví dụ", "lời giải", "đáp án", "câu hỏi", "đề thi",
    "exercise", "problem", "solution", "example", "quiz", "exam", "assignment",
    "homework", "midterm", "final", "test", "practice"
  ]

  /** Terms shorter than this are skipped. */
  const MinTermLength := 3
  /** A window starts this many characters before an occurrence. */
  const LeadIn := 200
  /** The default `window_size`: a window ends this many characters after an occurrence. */
  const DefaultWindowSize := 800
  /** `MAX_LEN`: no chunk is appended once this many chunk characters have been emitted. */
  const ContextBudget := 25000
  /** Length of the first page's text in the fallback excerpt. */
  const IntroLength := 3000
  /** Length of the last page's text in the fallback excerpt. */
  const EndLength := 2000

  /** `self.signal_keywords + topic_keywords.lower().split()`. */
  function SearchTerms(topicKeywords: string): seq<string> {
    SignalKeywords + Words(Lower(topicKeywords))
  }

  // ---------------------------------------------------------------------------
  // Occurrences of the search terms
  // ---------------------------------------------------------------------------

  /**
   * The start positions `re.finditer(re.escape(term), text)` yields from
   * position `from` on: matches found left to right, each one a real
   * occurrence, none overlapping the one before.
   */
  function Occurrences(term: string, text: string, from: nat): (r: seq<nat>)
    requires term != []
    ensures forall k :: 0 <= k < |r| ==> from <= r[k] && OccursAt(text, term, r[k])
    ensures forall k :: 0 <= k < |r| - 1 ==> r[k] + |term| <= r[k + 1]
    decreases |text| - from
  {
    if from + |term| > |text| then []
    else if OccursAt(text, term, from) then
      var rest := Occurrences(term, text, from + |term|);
      assert forall k :: 1 <= k <= |rest| ==> ([from] + rest)[k] == rest[k - 1];
      [from] + rest
    else Occurrences(term, text, from + 1)
  }

  /** A match at `from` is reported, and the search resumes after it. */
  lemma OccurrencesMatchAt(term: string, text: string, from: nat)
    requires term != [] && OccursAt(text, term, from)
    ensures Occurrences(term, text, from) == [from] + Occurrences(term, text, from + |term|)
  {
  }

  /** Without a match at `from`, the search resumes at the next position. */
  lemma OccurrencesNoMatchAt(term: string, text: string, from: nat)
    requires term != [] && from + |term| <= |text| && !OccursAt(text, term, from)
    ensures Occurrences(term, text, from) == Occurrences(term, text, from + 1)
  {
  }

  /** No occurrence is missed: every position where the term occurs is a
      reported match or lies inside one (the match `k` returned). */
  lemma {:induction false} OccurrencesComplete(term: string, text: string, from: nat, i: int) returns (k: nat)
    requires term != [] && from <= i && OccursAt(text, term, i)
    ensures k < |Occurrences(term, text, from)|
    ensures Occurrences(term, text, from)[k] <= i < Occurrences(term, text, from)[k] + |term|
    decreases |text| - from
  {
    if OccursAt(text, term, from) {
      OccurrencesMatchAt(term, text, from);
      if i < from + |term| {
        k := 0;
      } else {
        var j := OccurrencesComplete(term, text, from + |term|, i);
        k := j + 1;
      }
    } else {
      OccurrencesNoMatchAt(term, text, from);
      k := OccurrencesComplete(term, text, from + 1, i);
    }
  }

  /** The `term in lowered_text` test: the match list is empty exactly when the term does not occur. */
  lemma OccurrencesEmptyIff(term: string, text: string)
    requires term != []
    ensures Occurrences(term, text, 0) == [] <==> !Contains(text, term)
  {
    var r := Occurrences(term, text, 0);
    if Contains(text, term) {
      var i :| 0 <= i <= |text| - |term| && OccursAt(text, term, i);
      var k := OccurrencesComplete(term, text, 0, i);
    }
    if r != [] {
      assert OccursAt(text, term, r[0]);
    }
  }

  /** Some term of at least three characters occurs in `lowered`. */
  predicate AnyTermOccurs(terms: seq<string>, lowered: string) {
    exists k :: 0 <= k < |terms| && |terms[k]| >= MinTermLength && Contains(lowered, terms[k])
  }

  /** The `indices` list of one page: the occurrences of each term of at
      least three characters, term by term. */
  function AllOccurrences(terms: seq<string>, lowered: string): (r: seq<nat>)
    ensures forall k :: 0 <= k < |r| ==> r[k] + MinTermLength <= |lowered|
    decreases |terms|
  {
    if terms == [] then []
    else
      var term := terms[|terms| - 1];
      var found := if |term| < MinTermLength then [] else Occurrences(term, lowered, 0);
      AllOccurrences(terms[..|terms| - 1], lowered) + found
  }

  /** A page yields an index exactly when some term of at least three characters occurs in it. */
  lemma {:induction false} AllOccurrencesEmptyIff(terms: seq<string>, lowered: string)
    ensures AllOccurrences(terms, lowered) == [] <==> !AnyTermOccurs(terms, lowered)
    decreases |terms|
  {
    if terms != [] {
      var init := terms[..|terms| - 1];
      var term := terms[|terms| - 1];
      AllOccurrencesEmptyIff(init, lowered);
      if |term| >= MinTermLength {
        OccurrencesEmptyIff(term, lowered);
      }
      if AnyTermOccurs(terms, lowered) {
        var k :| 0 <= k < |terms| && |terms[k]| >= MinTermLength && Contains(lowered, terms[k]);
        if k < |init| { assert init[k] == terms[k]; }
      }
      if AnyTermOccurs(init, lowered) {
        var k :| 0 <= k < |init| && |init[k]| >= MinTermLength && Contains(lowered, init[k]);
        assert terms[k] == init[k];
      }
    }
  }

  /** The terms that take part in the search. */
  function LongTerms(terms: seq<string>): seq<string>
    decreases |terms|
  {
    if terms == [] then []
    else
      var term := terms[|terms| - 1];
      LongTerms(terms[..|terms| - 1]) + (if |term| < MinTermLength then [] else [term])
  }

  /** Terms shorter than three characters contribute nothing: dropping them
      leaves the occurrence list unchanged. */
  lemma {:induction false} ShortTermsIgnored(terms: seq<string>, lowered: string)
    ensures AllOccurrences(LongTerms(terms), lowered) == AllOccurrences(terms, lowered)
    decreases |terms|
  {
    if terms != [] {
      var init := terms[..|terms| - 1];
      var term := terms[|terms| - 1];
      ShortTermsIgnored(init, lowered);
      if |term| >= MinTermLength {
        var l := LongTerms(init) + [term];
        assert LongTerms(terms) == l;
        assert l[..|l| - 1] == LongTerms(init) && l[|l| - 1] == term;
        assert AllOccurrences(l, lowered) == AllOccurrences(LongTerms(init), lowered) + Occurrences(term, lowered, 0);
      } else {
        assert LongTerms(terms) == LongTerms(init) + [];
        assert LongTerms(init) + [] == LongTerms(init);
        assert AllOccurrences(terms, lowered) == AllOccurrences(init, lowered) + [];
        assert AllOccurrences(init, lowered) + [] == AllOccurrences(init, lowered);
      }
    }
  }

  // ---------------------------------------------------------------------------
  // `indices.sort()`
  // ---------------------------------------------------------------------------

  predicate Ascending(s: seq<nat>) {
    forall i, j :: 0 <= i < j < |s| ==> s[i] <= s[j]
  }

  /** No element is below `v`. */
  predicate NoneBelow(s: seq<nat>, v: nat) {
    forall i :: 0 <= i < |s| ==> s[i] >= v
  }

  lemma NoneBelowByMultiset(a: seq<nat>, b: seq<nat>, v: nat)
    requires multiset(a) == multiset(b) && NoneBelow(b, v)
    ensures NoneBelow(a, v)
  {
    forall i | 0 <= i < |a| ensures a[i] >= v {
      assert a[i] in multiset(b);
      var j :| 0 <= j < |b| && b[j] == a[i];
    }
  }

  /** An element no greater than any of an ascending list can go in front of it. */
  lemma ConsAscending(h: nat, s: seq<nat>)
    requires Ascending(s) && NoneBelow(s, h)
    ensures Ascending([h] + s)
  {
  }

  /** The head of an ascending list stays in front of the insertion into its tail. */
  lemma InsertBehindHead(s: seq<nat>, x: nat, rest: seq<nat>)
    requires Ascending(s) && s != [] && s[0] < x
    requires Ascending(rest) && multiset(rest) == multiset(s[1..]) + multiset{x}
    ensures Ascending([s[0]] + rest)
    ensures multiset([s[0]] + rest) == multiset(s) + multiset{x}
  {
    assert s == [s[0]] + s[1..];
    assert NoneBelow(s[1..] + [x], s[0]);
    assert multiset(s[1..] + [x]) == multiset(s[1..]) + multiset{x};
    NoneBelowByMultiset(rest, s[1..] + [x], s[0]);
    ConsAscending(s[0], rest);
  }

  function InsertAscending(s: seq<nat>, x: nat): (r: seq<nat>)
    requires Ascending(s)
    ensures Ascending(r)
    ensures multiset(r) == multiset(s) + multiset{x}
  {
    if s == [] || x <= s[0] then
      ConsAscending(x, s);
      [x] + s
    else
      var rest := InsertAscending(s[1..], x);
      InsertBehindHead(s, x, rest);
      [s[0]] + rest
  }

  /** The result of `indices.sort()`: ascending, and a permutation of the input. */
  function SortAscending(s: seq<nat>): (r: seq<nat>)
    ensures Ascending(r)
    ensures multiset(r) == multiset(s)
  {
    if s == [] then []
    else
      assert s == s[..|s| - 1] + [s[|s| - 1]];
      InsertAscending(SortAscending(s[..|s| - 1]), s[|s| - 1])
  }

  // ---------------------------------------------------------------------------
  // Windows and their merge
  // ---------------------------------------------------------------------------

  /** A half-open character range `[start, end)` of a page's text. */
  datatype Range = Range(start: int, end: int)

  /** `(max(0, idx - 200), min(text_len, idx + window_size))`. */
  function Window(idx: nat, textLen: nat, windowSize: nat): Range {
    Range(Max(0, idx - LeadIn), Min(textLen, idx + windowSize))
  }

  /** The `ranges` list: one window per index, in order. */
  function Windows(indices: seq<nat>, textLen: nat, windowSize: nat): seq<Range> {
    seq(|indices|, k requires 0 <= k < |indices| => Window(indices[k], textLen, windowSize))
  }

  predicate WellFormed(r: Range) { r.start <= r.end }

  predicate AllWellFormed(rs: seq<Range>) { forall k :: 0 <= k < |rs| ==> WellFormed(rs[k]) }

  /** Every range lies in `[0, n]`. */
  predicate AllWithin(rs: seq<Range>, n: int) {
    forall k :: 0 <= k < |rs| ==> 0 <= rs[k].start <= rs[k].end <= n
  }

  predicate Inside(inner: Range, outer: Range) {
    outer.start <= inner.start && inner.end <= outer.end
  }

  /** Sorted by start position (what sorting the indices gives the windows). */
  predicate StartsSorted(rs: seq<Range>) {
    forall i, j :: 0 <= i < j < |rs| ==> rs[i].start <= rs[j].start
  }

  /** In order and pairwise disjoint: each range ends before or where every later one starts. */
  predicate Separated(rs: seq<Range>) {
    forall i, j :: 0 <= i < j < |rs| ==> rs[i].end <= rs[j].start
  }

  /** Position `p` lies in one of the ranges. */
  predicate Covers(rs: seq<Range>, p: int) {
    exists k :: 0 <= k < |rs| && rs[k].start <= p < rs[k].end
  }

  /** The windows of sorted in-bounds indices are clamped to the text, contain
      their index, and are sorted by start. */
  lemma WindowsClamped(indices: seq<nat>, textLen: nat, windowSize: nat)
    requires forall k :: 0 <= k < |indices| ==> indices[k] < textLen
    ensures var ws := Windows(indices, textLen, windowSize);
      && AllWithin(ws, textLen) && AllWellFormed(ws)
      && (forall k :: 0 <= k < |ws| ==> ws[k].start <= indices[k] <= ws[k].end)
      && (Ascending(indices) ==> StartsSorted(ws))
  {
  }

  /**
   * The sweep of the merge loop: `cur` is the range being grown; the next
   * range is absorbed when it starts strictly before `cur` ends, and
   * otherwise `cur` is emitted and the next range becomes current.
   */
  function MergeFrom(cur: Range, rest: seq<Range>): (r: seq<Range>)
    ensures r != [] && r[0].start == cur.start
    ensures |r| <= |rest| + 1
    decreases |rest|
  {
    if rest == [] then [cur]
    else if rest[0].start < cur.end then MergeFrom(Range(cur.start, Max(cur.end, rest[0].end)), rest[1..])
    else [cur] + MergeFrom(rest[0], rest[1..])
  }

  /** `merged_ranges` computed from `ranges`. */
  function Merge(ranges: seq<Range>): seq<Range> {
    if ranges == [] then [] else MergeFrom(ranges[0], ranges[1..])
  }

  lemma {:induction false} MergeFromSeparated(cur: Range, rest: seq<Range>)
    requires WellFormed(cur) && AllWellFormed(rest) && StartsSorted(rest)
    requires forall k :: 0 <= k < |rest| ==> cur.start <= rest[k].start
    ensures var r := MergeFrom(cur, rest);
      Separated(r) && AllWellFormed(r) && forall k :: 0 <= k < |r| ==> cur.start <= r[k].start
    decreases |rest|
  {
    if rest != [] {
      if rest[0].start < cur.end {
        MergeFromSeparated(Range(cur.start, Max(cur.end, rest[0].end)), rest[1..]);
      } else {
        MergeFromSeparated(rest[0], rest[1..]);
        var tail := MergeFrom(rest[0], rest[1..]);
        var r := [cur] + tail;
        assert r == MergeFrom(cur, rest);
        forall i, j | 0 <= i < j < |r| ensures r[i].end <= r[j].start {
          if i > 0 { assert r[i] == tail[i - 1] && r[j] == tail[j - 1]; }
          else { assert r[j] == tail[j - 1]; }
        }
        forall k | 0 <= k < |r| ensures WellFormed(r[k]) && cur.start <= r[k].start {
          if k > 0 { assert r[k] == tail[k - 1]; }
        }
      }
    }
  }

  lemma {:induction false} MergeFromContains(cur: Range, rest: seq<Range>)
    requires StartsSorted(rest)
    requires forall k :: 0 <= k < |rest| ==> cur.start <= rest[k].start
    ensures var r := MergeFrom(cur, rest);
      && Inside(cur, r[0])
      && forall k :: 0 <= k < |rest| ==> exists j :: 0 <= j < |r| && Inside(rest[k], r[j])
    decreases |rest|
  {
    var r := MergeFrom(cur, rest);
    if rest != [] {
      if rest[0].start < cur.end {
        var grown := Range(cur.start, Max(cur.end, rest[0].end));
        MergeFromContains(grown, rest[1..]);
        forall k | 0 <= k < |rest| ensures exists j :: 0 <= j < |r| && Inside(rest[k], r[j]) {
          if k == 0 {
            assert Inside(rest[0], r[0]);
          } else {
            assert rest[k] == rest[1..][k - 1];
          }
        }
      } else {
        MergeFromContains(rest[0], rest[1..]);
        var tail := MergeFrom(rest[0], rest[1..]);
        assert r == [cur] + tail;
        forall k | 0 <= k < |rest| ensures exists j :: 0 <= j < |r| && Inside(rest[k], r[j]) {
          if k == 0 {
            assert Inside(rest[0], r[1]);
          } else {
            assert rest[k] == rest[1..][k - 1];
            var j :| 0 <= j < |tail| && Inside(rest[1..][k - 1], tail[j]);
            assert r[j + 1] == tail[j];
          }
        }
      }
    }
  }

  /** A position covered by the merge is covered by an input range (the one returned). */
  lemma {:induction false} MergeFromExact(cur: Range, rest: seq<Range>, p: int) returns (k: nat)
    requires Covers(MergeFrom(cur, rest), p)
    ensures k < |rest| + 1 && ([cur] + rest)[k].start <= p < ([cur] + rest)[k].end
    decreases |rest|
  {
    var r := MergeFrom(cur, rest);
    var all := [cur] + rest;
    if rest == [] {
      assert r == [cur];
      k := 0;
    } else if rest[0].start < cur.end {
      var grown := Range(cur.start, Max(cur.end, rest[0].end));
      var next := [grown] + rest[1..];
      var j := MergeFromExact(grown, rest[1..], p);
      if j == 0 {
        if p < cur.end { k := 0; } else { k := 1; }
      } else {
        k := j + 1;
        assert all[k] == next[j];
      }
    } else {
      var tail := MergeFrom(rest[0], rest[1..]);
      assert r == [cur] + tail;
      var i :| 0 <= i < |r| && r[i].start <= p < r[i].end;
      if i == 0 {
        k := 0;
      } else {
        assert tail[i - 1] == r[i];
        var j := MergeFromExact(rest[0], rest[1..], p);
        k := j + 1;
        assert all[k] == ([rest[0]] + rest[1..])[j];
      }
    }
  }

  lemma {:induction false} MergeFromWithin(cur: Range, rest: seq<Range>, n: int)
    requires AllWithin([cur] + rest, n)
    ensures AllWithin(MergeFrom(cur, rest), n)
    decreases |rest|
  {
    var all := [cur] + rest;
    assert all[0] == cur;
    if rest != [] {
      assert all[1] == rest[0];
      if rest[0].start < cur.end {
        var grown := Range(cur.start, Max(cur.end, rest[0].end));
        var next := [grown] + rest[1..];
        forall k | 0 <= k < |next| ensures 0 <= next[k].start <= next[k].end <= n {
          if k > 0 { assert next[k] == all[k + 1]; }
        }
        MergeFromWithin(grown, rest[1..], n);
      } else {
        assert [rest[0]] + rest[1..] == rest;
        forall k | 0 <= k < |rest| ensures 0 <= rest[k].start <= rest[k].end <= n {
          assert rest[k] == all[k + 1];
        }
        MergeFromWithin(rest[0], rest[1..], n);
        var tail := MergeFrom(rest[0], rest[1..]);
        var r := [cur] + tail;
        assert MergeFrom(cur, rest) == r;
        forall k | 0 <= k < |r| ensures 0 <= r[k].start <= r[k].end <= n {
          if k > 0 { assert r[k] == tail[k - 1]; }
        }
      }
    }
  }

  /** Merging keeps every range inside the text. */
  lemma MergeWithin(ranges: seq<Range>, n: int)
    requires AllWithin(ranges, n)
    ensures AllWithin(Merge(ranges), n)
  {
    if ranges != [] {
      assert ranges == [ranges[0]] + ranges[1..];
      MergeFromWithin(ranges[0], ranges[1..], n);
    }
  }

  /**
   * The interval merge of a list of ranges sorted by start: the merged ranges
   * are in order and pairwise disjoint (touching is allowed), every input
   * range lies inside one of them, and together they cover exactly the
   * positions the input ranges cover.
   */
  lemma MergeCorrect(ranges: seq<Range>)
    requires StartsSorted(ranges) && AllWellFormed(ranges)
    ensures Separated(Merge(ranges))
    ensures forall k :: 0 <= k < |ranges| ==>
              exists j :: 0 <= j < |Merge(ranges)| && Inside(ranges[k], Merge(ranges)[j])
    ensures forall p :: Covers(Merge(ranges), p) <==> Covers(ranges, p)
    ensures |Merge(ranges)| <= |ranges|
    ensures Merge(ranges) == [] <==> ranges == []
  {
    if ranges != [] {
      var cur, rest := ranges[0], ranges[1..];
      assert ranges == [cur] + rest;
      MergeFromSeparated(cur, rest);
      MergeFromContains(cur, rest);
      var m := Merge(ranges);
      forall k | 0 <= k < |ranges| ensures exists j :: 0 <= j < |m| && Inside(ranges[k], m[j]) {
        if k == 0 { assert Inside(ranges[0], m[0]); } else { assert ranges[k] == rest[k - 1]; }
      }
      forall p | Covers(m, p) ensures Covers(ranges, p) {
        var k := MergeFromExact(cur, rest, p);
      }
      forall p | Covers(ranges, p) ensures Covers(m, p) {
        var k :| 0 <= k < |ranges| && ranges[k].start <= p < ranges[k].end;
        var j :| 0 <= j < |m| && Inside(ranges[k], m[j]);
      }
    }
  }

  /** Every merged range holds one of the ranges it was merged from (`w`, the current one or a later one). */
  lemma {:induction false} MergeFromWindow(cur: Range, rest: seq<Range>, k: nat) returns (w: Range)
    requires k < |MergeFrom(cur, rest)|
    ensures w in [cur] + rest && Inside(w, MergeFrom(cur, rest)[k])
    decreases |rest|
  {
    if rest == [] {
      w := cur;
    } else if rest[0].start < cur.end {
      var grown := Range(cur.start, Max(cur.end, rest[0].end));
      w := MergeFromWindow(grown, rest[1..], k);
      if w == grown {
        w := cur;
      } else {
        assert w in rest;
      }
    } else if k == 0 {
      w := cur;
    } else {
      assert MergeFrom(cur, rest)[k] == MergeFrom(rest[0], rest[1..])[k - 1];
      w := MergeFromWindow(rest[0], rest[1..], k - 1);
      assert [rest[0]] + rest[1..] == rest;
    }
  }

  /** Every merged range holds one of the windows, the window `m` returned. */
  lemma MergedHoldsWindow(ranges: seq<Range>, k: nat) returns (m: nat)
    requires k < |Merge(ranges)|
    ensures m < |ranges| && Inside(ranges[m], Merge(ranges)[k])
  {
    var w := MergeFromWindow(ranges[0], ranges[1..], k);
    assert [ranges[0]] + ranges[1..] == ranges;
    m :| 0 <= m < |ranges| && ranges[m] == w;
  }

  /** Overlapping windows merge; the third stays apart. */
  lemma MergeExample()
    ensures Merge([Range(0, 100), Range(50, 180), Range(300, 400)]) == [Range(0, 180), Range(300, 400)]
  {
  }

  /** Touching windows are not merged: the test is a strict `next_start < curr_end`. */
  lemma TouchingRangesStaySeparate()
    ensures Merge([Range(0, 100), Range(100, 200)]) == [Range(0, 100), Range(100, 200)]
  {
  }

  // ---------------------------------------------------------------------------
  // Pages, chunks and the budget
  // ---------------------------------------------------------------------------

  /** Every position reported by `AllOccurrences` for a term of the list is in its result. */
  lemma {:induction false} AllOccurrencesHas(terms: seq<string>, lowered: string, j: nat, x: nat)
    requires j < |terms| && |terms[j]| >= MinTermLength
    requires x in Occurrences(terms[j], lowered, 0)
    ensures x in AllOccurrences(terms, lowered)
    decreases |terms|
  {
    var init := terms[..|terms| - 1];
    if j < |init| {
      assert init[j] == terms[j];
      AllOccurrencesHas(init, lowered, j, x);
    }
  }

  /** Every index is a match: the start of an occurrence of some term of at
      least three characters (the term `j` returned). */
  lemma {:induction false} AllOccurrencesSound(terms: seq<string>, lowered: string, k: nat) returns (j: nat)
    requires k < |AllOccurrences(terms, lowered)|
    ensures j < |terms| && |terms[j]| >= MinTermLength
    ensures OccursAt(lowered, terms[j], AllOccurrences(terms, lowered)[k])
    decreases |terms|
  {
    var init, term := terms[..|terms| - 1], terms[|terms| - 1];
    var before := AllOccurrences(init, lowered);
    var found := if |term| < MinTermLength then [] else Occurrences(term, lowered, 0);
    assert AllOccurrences(terms, lowered) == before + found;
    if k < |before| {
      j := AllOccurrencesSound(init, lowered, k);
      assert init[j] == terms[j];
    } else {
      j := |terms| - 1;
      assert AllOccurrences(terms, lowered)[k] == found[k - |before|];
    }
  }

  /** `indices` after `indices.sort()`: ascending positions inside the page. */
  function PageIndices(text: string, terms: seq<string>): (r: seq<nat>)
    ensures Ascending(r)
    ensures forall k :: 0 <= k < |r| ==> r[k] < |text|
  {
    var found := AllOccurrences(terms, Lower(text));
    var sorted := SortAscending(found);
    assert forall k :: 0 <= k < |sorted| ==> sorted[k] < |text| by {
      forall k | 0 <= k < |sorted| ensures sorted[k] < |text| {
        assert sorted[k] in multiset(found);
      }
    }
    sorted
  }

  /** Every sorted index of a page is a match of a search term of at least three characters. */
  lemma PageIndicesSound(text: string, terms: seq<string>, k: nat) returns (j: nat)
    requires k < |PageIndices(text, terms)|
    ensures j < |terms| && |terms[j]| >= MinTermLength
    ensures OccursAt(Lower(text), terms[j], PageIndices(text, terms)[k])
  {
    var found := AllOccurrences(terms, Lower(text));
    var indices := PageIndices(text, terms);
    assert indices == SortAscending(found);
    assert indices[k] in multiset(found);
    var i :| 0 <= i < |found| && found[i] == indices[k];
    j := AllOccurrencesSound(terms, Lower(text), i);
  }

  /**
   * The merged ranges of one page: none for an empty text; otherwise the
   * merge of the windows around the sorted matches, which lie inside the
   * text, in order and pairwise disjoint.
   */
  function PageRanges(text: string, terms: seq<string>, windowSize: nat): (r: seq<Range>)
    ensures AllWithin(r, |text|)
    ensures Separated(r)
  {
    if text == [] then []
    else
      var indices := PageIndices(text, terms);
      var windows := Windows(indices, |text|, windowSize);
      WindowsClamped(indices, |text|, windowSize);
      MergeCorrect(windows);
      MergeWithin(windows, |text|);
      Merge(windows)
  }

  /** A page has ranges exactly when its text is non-empty and some term of three or more characters occurs in it. */
  lemma PageRangesEmptyIff(text: string, terms: seq<string>, windowSize: nat)
    ensures PageRanges(text, terms, windowSize) == [] <==> (text == [] || !AnyTermOccurs(terms, Lower(text)))
  {
    if text != [] {
      var found := AllOccurrences(terms, Lower(text));
      var indices := PageIndices(text, terms);
      assert |indices| == |multiset(indices)| == |multiset(found)| == |found|;
      var windows := Windows(indices, |text|, windowSize);
      WindowsClamped(indices, |text|, windowSize);
      MergeCorrect(windows);
      AllOccurrencesEmptyIff(terms, Lower(text));
    }
  }

  /**
   * No match is lost: when the window reaches at least as far as the term is
   * long, every position of the (lower-cased) text where a search term of three
   * or more characters occurs lies inside one of the page's ranges.
   */
  lemma MatchesCovered(text: string, terms: seq<string>, windowSize: nat, j: nat, i: int)
    requires j < |terms| && |terms[j]| >= MinTermLength && |terms[j]| <= windowSize
    requires OccursAt(Lower(text), terms[j], i)
    ensures Covers(PageRanges(text, terms, windowSize), i)
  {
    var m := MatchIndexed(text, terms, j, i);
    IndexWindowCovered(text, terms, windowSize, m, i);
  }

  /** A match lies within the term's length after one of the page's sorted indices. */
  lemma MatchIndexed(text: string, terms: seq<string>, j: nat, i: int) returns (m: nat)
    requires j < |terms| && |terms[j]| >= MinTermLength
    requires OccursAt(Lower(text), terms[j], i)
    ensures m < |PageIndices(text, terms)|
    ensures PageIndices(text, terms)[m] <= i < PageIndices(text, terms)[m] + |terms[j]|
  {
    var term := terms[j];
    var lowered := Lower(text);
    var k := OccurrencesComplete(term, lowered, 0, i);
    var x := Occurrences(term, lowered, 0)[k];
    AllOccurrencesHas(terms, lowered, j, x);
    var indices := PageIndices(text, terms);
    assert x in multiset(indices);
    m :| 0 <= m < |indices| && indices[m] == x;
  }

  /** A position of the text inside the window of one of its indices is covered by the page's ranges. */
  lemma IndexWindowCovered(text: string, terms: seq<string>, windowSize: nat, m: nat, i: int)
    requires m < |PageIndices(text, terms)|
    requires PageIndices(text, terms)[m] <= i < PageIndices(text, terms)[m] + windowSize && i < |text|
    ensures Covers(PageRanges(text, terms, windowSize), i)
  {
    var indices := PageIndices(text, terms);
    var windows := Windows(indices, |text|, windowSize);
    WindowsClamped(indices, |text|, windowSize);
    assert windows[m].start <= i < windows[m].end;
    MergeCorrect(windows);
    assert Covers(windows, i);
  }

  /**
   * Nothing but matches is selected: every range of a page holds the window
   * `[max(0, idx - 200), min(len, idx + window_size))` of one of its sorted
   * indices (`m`), and that index is where a search term of at least three
   * characters (`j`) occurs in the lower-cased text.
   */
  lemma PageRangesFromMatches(text: string, terms: seq<string>, windowSize: nat, k: nat) returns (m: nat, j: nat)
    requires k < |PageRanges(text, terms, windowSize)|
    ensures m < |PageIndices(text, terms)|
    ensures Inside(Window(PageIndices(text, terms)[m], |text|, windowSize), PageRanges(text, terms, windowSize)[k])
    ensures j < |terms| && |terms[j]| >= MinTermLength
    ensures OccursAt(Lower(text), terms[j], PageIndices(text, terms)[m])
  {
    var indices := PageIndices(text, terms);
    var windows := Windows(indices, |text|, windowSize);
    if text != [] {
      assert PageRanges(text, terms, windowSize) == Merge(windows);
      m := MergedHoldsWindow(windows, k);
      j := PageIndicesSound(text, terms, m);
    }
  }

  /** One chunk of the excerpt: the page it comes from and its text. */
  datatype Chunk = Chunk(marker: PageLabel, body: string)

  /** `.replace('\n', ' ')` on a chunk: same length, no newline left, other characters kept. */
  function NewlinesToSpaces(s: string): (r: string)
    ensures |r| == |s|
    ensures '\n' !in r
    ensures forall i :: 0 <= i < |s| && s[i] != '\n' ==> r[i] == s[i]
  {
    ReplaceCharAt(s, '\n', ' ');
    Replace(s, "\n", " ")
  }

  /** The chunks of one page, one per merged range, in order, each the text of its range with newlines turned into spaces. */
  function PageChunks(page: Page, terms: seq<string>, windowSize: nat): (r: seq<Chunk>)
    ensures |r| == |PageRanges(page.text, terms, windowSize)|
    ensures forall k :: 0 <= k < |r| ==> r[k].marker == page.marker && '\n' !in r[k].body
  {
    var rs := PageRanges(page.text, terms, windowSize);
    seq(|rs|, k requires 0 <= k < |rs| =>
      Chunk(page.marker, NewlinesToSpaces(page.text[rs[k].start..rs[k].end])))
  }

  /** No page yields a range: each text is empty or matches no term. */
  predicate NoPageMatches(pages: seq<Page>, terms: seq<string>) {
    forall i :: 0 <= i < |pages| ==> pages[i].text == [] || !AnyTermOccurs(terms, Lower(pages[i].text))
  }

  predicate NoNewlines(chunks: seq<Chunk>) {
    forall k :: 0 <= k < |chunks| ==> '\n' !in chunks[k].body
  }

  lemma NoNewlinesAppend(a: seq<Chunk>, b: seq<Chunk>)
    requires NoNewlines(a) && NoNewlines(b)
    ensures NoNewlines(a + b)
  {
    assert forall k :: |a| <= k < |a| + |b| ==> (a + b)[k] == b[k - |a|];
  }

  /** The chunks of all pages, page by page, before the budget is applied. */
  function AllChunks(pages: seq<Page>, terms: seq<string>, windowSize: nat): (r: seq<Chunk>)
    ensures NoNewlines(r)
    decreases |pages|
  {
    if pages == [] then []
    else
      var before := AllChunks(pages[..|pages| - 1], terms, windowSize);
      var last := PageChunks(pages[|pages| - 1], terms, windowSize);
      NoNewlinesAppend(before, last);
      before + last
  }

  /** No page matches exactly when no earlier page matches and the last one does not. */
  lemma NoPageMatchesSnoc(pages: seq<Page>, terms: seq<string>)
    requires pages != []
    ensures var last := pages[|pages| - 1];
      NoPageMatches(pages, terms) <==>
        NoPageMatches(pages[..|pages| - 1], terms) && (last.text == [] || !AnyTermOccurs(terms, Lower(last.text)))
  {
    var init := pages[..|pages| - 1];
    assert forall i :: 0 <= i < |init| ==> pages[i] == init[i];
  }

  /** There are chunks exactly when some page has a match. */
  lemma {:induction false} AllChunksEmptyIff(pages: seq<Page>, terms: seq<string>, windowSize: nat)
    ensures AllChunks(pages, terms, windowSize) == [] <==> NoPageMatches(pages, terms)
    decreases |pages|
  {
    if pages != [] {
      var init := pages[..|pages| - 1];
      var page := pages[|pages| - 1];
      AllChunksEmptyIff(init, terms, windowSize);
      PageRangesEmptyIff(page.text, terms, windowSize);
      NoPageMatchesSnoc(pages, terms);
    }
  }

  /** The total length of the chunk texts (`total_len`). */
  function BodyLength(chunks: seq<Chunk>): nat {
    if chunks == [] then 0 else |chunks[0].body| + BodyLength(chunks[1..])
  }

  lemma {:induction false} BodyLengthAppend(a: seq<Chunk>, b: seq<Chunk>)
    ensures BodyLength(a + b) == BodyLength(a) + BodyLength(b)
    decreases |a|
  {
    if a != [] {
      BodyLengthAppend(a[1..], b);
      assert (a + b)[0] == a[0];
      assert (a + b)[1..] == a[1..] + b;
    } else {
      assert a + b == b;
    }
  }

  /**
   * The chunks that survive the budget check: chunks are taken in order while
   * the length already taken, starting from `total`, does not exceed the
   * budget; the check comes before each append, so the last chunk taken may
   * overshoot.
   */
  function Budgeted(chunks: seq<Chunk>, total: nat): seq<Chunk>
    decreases |chunks|
  {
    if chunks == [] || total > ContextBudget then []
    else [chunks[0]] + Budgeted(chunks[1..], total + |chunks[0].body|)
  }

  /**
   * The chunks taken are a prefix of all chunks; fewer are taken only once
   * the total exceeds the budget; and the first chunk is always taken while
   * the budget is not yet spent.
   */
  lemma {:induction false} BudgetedShape(chunks: seq<Chunk>, total: nat)
    ensures var r := Budgeted(chunks, total);
      && |r| <= |chunks| && r == chunks[..|r|]
      && (|r| < |chunks| ==> total + BodyLength(r) > ContextBudget)
      && (chunks != [] && total <= ContextBudget ==> r != [])
    decreases |chunks|
  {
    if chunks != [] && total <= ContextBudget {
      var t := total + |chunks[0].body|;
      BudgetedShape(chunks[1..], t);
      var rest := Budgeted(chunks[1..], t);
      assert chunks[1..][..|rest|] == chunks[1..|rest| + 1];
      BudgetedCons(chunks, total);
    }
  }

  /** Within the budget, the first chunk is taken and the rest is budgeted from the new total. */
  lemma BudgetedCons(chunks: seq<Chunk>, total: nat)
    requires chunks != [] && total <= ContextBudget
    ensures Budgeted(chunks, total) == [chunks[0]] + Budgeted(chunks[1..], total + |chunks[0].body|)
    ensures BodyLength(Budgeted(chunks, total)) == |chunks[0].body| + BodyLength(Budgeted(chunks[1..], total + |chunks[0].body|))
  {
    var rest := Budgeted(chunks[1..], total + |chunks[0].body|);
    assert ([chunks[0]] + rest)[1..] == rest;
  }

  /** `BudgetedCons` for a list with one more chunk at its end. */
  lemma BudgetedConsSnoc(chunks: seq<Chunk>, c: Chunk, total: nat)
    requires chunks != [] && total <= ContextBudget
    ensures Budgeted(chunks + [c], total) == [chunks[0]] + Budgeted(chunks[1..] + [c], total + |chunks[0].body|)
  {
    var all := chunks + [c];
    assert all[0] == chunks[0] && all[1..] == chunks[1..] + [c];
    BudgetedCons(all, total);
  }

  lemma ConsAssoc(h: Chunk, a: seq<Chunk>, b: seq<Chunk>)
    ensures [h] + (a + b) == ([h] + a) + b
  {
  }

  /** Appending behind a first chunk taken within the budget: `tail` is what the rest grows by. */
  lemma BudgetedSnocStep(chunks: seq<Chunk>, c: Chunk, total: nat, tail: seq<Chunk>)
    requires chunks != [] && total <= ContextBudget
    requires Budgeted(chunks[1..] + [c], total + |chunks[0].body|) == Budgeted(chunks[1..], total + |chunks[0].body|) + tail
    ensures Budgeted(chunks + [c], total) == Budgeted(chunks, total) + tail
  {
    BudgetedConsSnoc(chunks, c, total);
    BudgetedCons(chunks, total);
    ConsAssoc(chunks[0], Budgeted(chunks[1..], total + |chunks[0].body|), tail);
  }

  /** Appending one more chunk: it is taken exactly when the budget is not yet exceeded. */
  lemma {:induction false} BudgetedSnoc(chunks: seq<Chunk>, c: Chunk, total: nat)
    ensures Budgeted(chunks + [c], total) ==
      Budgeted(chunks, total) + (if total + BodyLength(Budgeted(chunks, total)) > ContextBudget then [] else [c])
    decreases |chunks|
  {
    if chunks != [] && total <= ContextBudget {
      var t := total + |chunks[0].body|;
      BudgetedSnoc(chunks[1..], c, t);
      BudgetedCons(chunks, total);
      BudgetedSnocStep(chunks, c, total, if t + BodyLength(Budgeted(chunks[1..], t)) > ContextBudget then [] else [c]);
    }
  }

  /** Every chunk taken was taken while the length before it was within the budget. */
  lemma {:induction false} BudgetRespected(chunks: seq<Chunk>, total: nat, k: nat)
    requires k < |Budgeted(chunks, total)|
    ensures total + BodyLength(Budgeted(chunks, total)[..k]) <= ContextBudget
    decreases |chunks|
  {
    var r := Budgeted(chunks, total);
    var t := total + |chunks[0].body|;
    var rest := Budgeted(chunks[1..], t);
    assert total <= ContextBudget;
    assert r == [chunks[0]] + rest;
    if k == 0 {
      assert r[..k] == [];
    } else {
      BudgetRespected(chunks[1..], t, k - 1);
      assert r[..k][0] == chunks[0];
      assert r[..k][1..] == rest[..k - 1];
    }
  }

  /** The whole excerpt is at most the budget plus the length of the last chunk taken. */
  lemma BudgetOvershoot(chunks: seq<Chunk>)
    requires Budgeted(chunks, 0) != []
    ensures var r := Budgeted(chunks, 0);
      BodyLength(r) <= ContextBudget + |r[|r| - 1].body|
  {
    var r := Budgeted(chunks, 0);
    BudgetRespected(chunks, 0, |r| - 1);
    assert r == r[..|r| - 1] + [r[|r| - 1]];
    BodyLengthAppend(r[..|r| - 1], [r[|r| - 1]]);
    assert BodyLength([r[|r| - 1]]) == |r[|r| - 1].body|;
  }

  /** The chunks of the excerpt: the page chunks that the budget lets through. */
  function ContextChunks(pages: seq<Page>, topicKeywords: string, windowSize: nat): (r: seq<Chunk>)
    ensures NoNewlines(r)
  {
    var all := AllChunks(pages, SearchTerms(topicKeywords), windowSize);
    var r := Budgeted(all, 0);
    BudgetedShape(all, 0);
    assert forall k :: 0 <= k < |r| ==> r[k] == all[k];
    r
  }

  /** The budget rule from an empty excerpt, gathered for `ContextChunksBudget`. */
  lemma BudgetedFromStart(chunks: seq<Chunk>)
    ensures var r := Budgeted(chunks, 0);
      && |r| <= |chunks| && r == chunks[..|r|]
      && (|r| < |chunks| ==> BodyLength(r) > ContextBudget)
      && (forall k :: 0 <= k < |r| ==> BodyLength(r[..k]) <= ContextBudget)
      && (r != [] ==> BodyLength(r) <= ContextBudget + |r[|r| - 1].body|)
      && (r == [] <==> chunks == [])
  {
    var r := Budgeted(chunks, 0);
    forall k | 0 <= k < |r| ensures BodyLength(r[..k]) <= ContextBudget {
      BudgetRespected(chunks, 0, k);
    }
    if r != [] {
      BudgetOvershoot(chunks);
    }
    BudgetedShape(chunks, 0);
  }

  /**
   * The budget of the excerpt: its chunks are the first chunks of all pages,
   * in order, and fewer than all are taken only once they total more than
   * 25000 characters; each chunk was appended while the chunks before it
   * totalled at most 25000, so the whole is at most 25000 plus the last
   * chunk; there are chunks exactly when some page matches.
   */
  lemma ContextChunksBudget(pages: seq<Page>, topicKeywords: string, windowSize: nat)
    ensures var r := ContextChunks(pages, topicKeywords, windowSize);
      var all := AllChunks(pages, SearchTerms(topicKeywords), windowSize);
      && |r| <= |all| && r == all[..|r|]
      && (|r| < |all| ==> BodyLength(r) > ContextBudget)
      && (forall k :: 0 <= k < |r| ==> BodyLength(r[..k]) <= ContextBudget)
      && (r != [] ==> BodyLength(r) <= ContextBudget + |r[|r| - 1].body|)
      && (r == [] <==> NoPageMatches(pages, SearchTerms(topicKeywords)))
  {
    var all := AllChunks(pages, SearchTerms(topicKeywords), windowSize);
    assert ContextChunks(pages, topicKeywords, windowSize) == Budgeted(all, 0);
    BudgetedFromStart(all);
    AllChunksEmptyIff(pages, SearchTerms(topicKeywords), windowSize);
  }

  /** `\n=== PAGE {page_num} ===\n...{chunk}...\n`. */
  function Tagged(c: Chunk): string {
    "\n=== PAGE " + LabelText(c.marker) + " ===\n..." + c.body + "...\n"
  }

  /** `final_context` after the chunks have been appended in order; every chunk adds text. */
  function Render(chunks: seq<Chunk>): (r: string)
    ensures |r| >= |chunks|
  {
    if chunks == [] then "" else Render(chunks[..|chunks| - 1]) + Tagged(chunks[|chunks| - 1])
  }

  /** The Intro part of the fallback: the first page's text up to 3000 characters. */
  function Intro(first: Page): string {
    "\n=== PAGE " + LabelText(first.marker) + " (Intro) ===\n" + Prefix(first.text, IntroLength)
  }

  /** The End part of the fallback: the last page's text up to 2000 characters. */
  function End(last: Page): string {
    "\n=== PAGE " + LabelText(last.marker) + " (End) ===\n" + Prefix(last.text, EndLength)
  }

  /** The excerpt sent when no term matches: the Intro of the first page, then,
      for a document of several pages, the End of the last one. */
  function Fallback(pages: seq<Page>): (r: string)
    requires pages != []
    ensures r != []
  {
    Intro(pages[0]) + (if |pages| > 1 then End(pages[|pages| - 1]) else "")
  }

  /**
   * `_extract_relevant_context_with_pages(pages_data, topic_keywords, window_size)`.
   * The excerpt is empty exactly when there are no pages.
   */
  function ExtractContext(pages: seq<Page>, topicKeywords: string, windowSize: nat): (r: string)
    ensures r == [] <==> pages == []
  {
    if pages == [] then ""
    else
      var chunks := ContextChunks(pages, topicKeywords, windowSize);
      if chunks == [] then Fallback(pages) else Render(chunks)
  }

  /** The fallback excerpt is used exactly when no page has a match; otherwise
      the excerpt is the rendering of the budgeted chunks. */
  lemma FallbackExactlyWhenNothingMatches(pages: seq<Page>, topicKeywords: string, windowSize: nat)
    requires pages != []
    ensures NoPageMatches(pages, SearchTerms(topicKeywords)) ==>
              ExtractContext(pages, topicKeywords, windowSize) == Fallback(pages)
    ensures !NoPageMatches(pages, SearchTerms(topicKeywords)) ==>
              ExtractContext(pages, topicKeywords, windowSize) == Render(ContextChunks(pages, topicKeywords, windowSize))
  {
    ContextChunksBudget(pages, topicKeywords, windowSize);
  }

  /** A page with empty text contributes no chunk. */
  lemma EmptyPageContributesNothing(marker: PageLabel, terms: seq<string>, windowSize: nat)
    ensures PageChunks(Page(marker, ""), terms, windowSize) == []
  {
  }

  // ---------------------------------------------------------------------------
  // The loops of the source
  // ---------------------------------------------------------------------------

  /** `final_context` and `total_len` while the chunks are appended. */
  datatype Excerpt = Excerpt(context: string, total: nat)

  /**
   * The chunk loop run over `chunks` one at a time: a chunk met while the
   * total exceeds the budget is not appended (the loop of its page breaks and
   * every later page breaks at once).
   */
  function Feed(chunks: seq<Chunk>): (e: Excerpt)
    decreases |chunks|
  {
    if chunks == [] then Excerpt("", 0)
    else
      var e := Feed(chunks[..|chunks| - 1]);
      var c := chunks[|chunks| - 1];
      if e.total > ContextBudget then e else Excerpt(e.context + Tagged(c), e.total + |c.body|)
  }

  lemma AppendSlice(a: seq<Chunk>, b: seq<Chunk>, j: nat)
    requires j < |b|
    ensures a + b[..j + 1] == (a + b[..j]) + [b[j]]
  {
    assert b[..j + 1] == b[..j] + [b[j]];
  }

  /** While the budget holds, the next chunk is appended and counted. */
  lemma FeedSnoc(chunks: seq<Chunk>, c: Chunk)
    requires Feed(chunks).total <= ContextBudget
    ensures Feed(chunks + [c]) == Excerpt(Feed(chunks).context + Tagged(c), Feed(chunks).total + |c.body|)
  {
    var all := chunks + [c];
    assert all[..|all| - 1] == chunks && all[|all| - 1] == c;
  }

  /** The chunk after a prefix is appended while the budget holds. */
  lemma FeedNext(before: seq<Chunk>, chunks: seq<Chunk>, j: nat)
    requires j < |chunks| && Feed(before + chunks[..j]).total <= ContextBudget
    ensures Feed(before + chunks[..j + 1]) ==
      Excerpt(Feed(before + chunks[..j]).context + Tagged(chunks[j]), Feed(before + chunks[..j]).total + |chunks[j].body|)
  {
    AppendSlice(before, chunks, j);
    FeedSnoc(before + chunks[..j], chunks[j]);
  }

  /** The j-th chunk of a page is the text of its j-th range, newlines turned into spaces. */
  lemma PageChunkAt(page: Page, terms: seq<string>, windowSize: nat, j: nat)
    requires j < |PageRanges(page.text, terms, windowSize)|
    ensures var rs := PageRanges(page.text, terms, windowSize);
      PageChunks(page, terms, windowSize)[j] == Chunk(page.marker, NewlinesToSpaces(page.text[rs[j].start..rs[j].end]))
  {
  }

  /** Once the budget is exceeded, further chunks change nothing. */
  lemma {:induction false} FeedSaturated(chunks: seq<Chunk>, more: seq<Chunk>)
    requires Feed(chunks).total > ContextBudget
    ensures Feed(chunks + more) == Feed(chunks)
    decreases |more|
  {
    if more == [] {
      assert chunks + more == chunks;
    } else {
      var init := more[..|more| - 1];
      FeedSaturated(chunks, init);
      assert (chunks + more)[..|chunks + more| - 1] == chunks + init;
    }
  }

  /** A page's chunk loop that breaks after `j` chunks has fed the whole page. */
  lemma FeedStops(before: seq<Chunk>, chunks: seq<Chunk>, j: nat)
    requires j <= |chunks| && Feed(before + chunks[..j]).total > ContextBudget
    ensures Feed(before + chunks) == Feed(before + chunks[..j])
  {
    FeedSaturated(before + chunks[..j], chunks[j..]);
    assert before + chunks[..j] + chunks[j..] == before + chunks;
  }

  lemma RenderSnoc(done: seq<Chunk>, c: Chunk)
    ensures Render(done + [c]) == Render(done) + Tagged(c)
  {
    var next := done + [c];
    assert next[..|next| - 1] == done && next[|next| - 1] == c;
  }

  /** A chunk fed while the budget holds is both taken and appended. */
  lemma FeedWithinBudget(init: seq<Chunk>, c: Chunk)
    requires Feed(init) == Excerpt(Render(Budgeted(init, 0)), BodyLength(Budgeted(init, 0)))
    requires BodyLength(Budgeted(init, 0)) <= ContextBudget
    ensures Feed(init + [c]) == Excerpt(Render(Budgeted(init + [c], 0)), BodyLength(Budgeted(init + [c], 0)))
  {
    var done := Budgeted(init, 0);
    BudgetedSnoc(init, c, 0);
    FeedSnoc(init, c);
    RenderSnoc(done, c);
    BodyLengthAppend(done, [c]);
    assert BodyLength([c]) == |c.body| by { assert [c][1..] == []; }
  }

  /** A chunk fed after the budget is exceeded is neither taken nor appended. */
  lemma FeedOverBudget(init: seq<Chunk>, c: Chunk)
    requires Feed(init) == Excerpt(Render(Budgeted(init, 0)), BodyLength(Budgeted(init, 0)))
    requires BodyLength(Budgeted(init, 0)) > ContextBudget
    ensures Feed(init + [c]) == Excerpt(Render(Budgeted(init + [c], 0)), BodyLength(Budgeted(init + [c], 0)))
  {
    var done := Budgeted(init, 0);
    BudgetedSnoc(init, c, 0);
    assert done + [] == done;
    FeedSaturated(init, [c]);
  }

  /** The loop's running state is the rendering and total length of the budgeted chunks. */
  lemma {:induction false} FeedIsBudgeted(chunks: seq<Chunk>)
    ensures Feed(chunks) == Excerpt(Render(Budgeted(chunks, 0)), BodyLength(Budgeted(chunks, 0)))
    decreases |chunks|
  {
    if chunks != [] {
      var init, c := chunks[..|chunks| - 1], chunks[|chunks| - 1];
      FeedIsBudgeted(init);
      assert chunks == init + [c];
      if BodyLength(Budgeted(init, 0)) > ContextBudget {
        FeedOverBudget(init, c);
      } else {
        FeedWithinBudget(init, c);
      }
    }
  }

  /** The term loop: skips short terms and terms absent from the page, and
      extends `indices` with the matches of the others. */
  method CollectIndices(terms: seq<string>, lowered: string) returns (indices: seq<nat>)
    ensures indices == AllOccurrences(terms, lowered)
  {
    indices := [];
    for t := 0 to |terms|
      invariant indices == AllOccurrences(terms[..t], lowered)
    {
      assert terms[..t + 1][..t] == terms[..t];
      var term := terms[t];
      if |term| < MinTermLength {
        continue;
      }
      OccurrencesEmptyIff(term, lowered);
      if Contains(lowered, term) {
        indices := indices + Occurrences(term, lowered, 0);
      }
    }
    assert terms[..|terms|] == terms;
  }

  /** The sweep over the sorted windows with `curr_start`/`curr_end`. */
  method MergeWindows(ranges: seq<Range>) returns (merged: seq<Range>)
    ensures merged == Merge(ranges)
  {
    merged := [];
    if |ranges| > 0 {
      var currStart, currEnd := ranges[0].start, ranges[0].end;
      for k := 1 to |ranges|
        invariant merged + MergeFrom(Range(currStart, currEnd), ranges[k..]) == Merge(ranges)
      {
        assert ranges[k..] == [ranges[k]] + ranges[k + 1..];
        var next := ranges[k];
        if next.start < currEnd {
          currEnd := Max(currEnd, next.end);
        } else {
          merged := merged + [Range(currStart, currEnd)];
          currStart, currEnd := next.start, next.end;
        }
      }
      merged := merged + [Range(currStart, currEnd)];
    }
  }

  /** The loop building `ranges`: one clamped window per index. */
  method BuildWindows(indices: seq<nat>, textLen: nat, windowSize: nat) returns (ranges: seq<Range>)
    ensures ranges == Windows(indices, textLen, windowSize)
  {
    ranges := [];
    for k := 0 to |indices|
      invariant |ranges| == k
      invariant forall m :: 0 <= m < k ==> ranges[m] == Window(indices[m], textLen, windowSize)
    {
      var idx := indices[k];
      var start := Max(0, idx - LeadIn);
      var end := Min(textLen, idx + windowSize);
      ranges := ranges + [Range(start, end)];
    }
  }

  /** The ranges of one non-empty page, computed as the loop body does. */
  method ComputePageRanges(text: string, terms: seq<string>, windowSize: nat) returns (merged: seq<Range>)
    requires text != []
    ensures merged == PageRanges(text, terms, windowSize)
  {
    var indices := CollectIndices(terms, Lower(text));
    if |indices| == 0 {
      assert Windows(SortAscending(indices), |text|, windowSize) == [];
      return [];
    }
    indices := SortAscending(indices);
    assert indices == PageIndices(text, terms);
    var ranges := BuildWindows(indices, |text|, windowSize);
    merged := MergeWindows(ranges);
  }

  /** The chunk loop of one page: stops at the first range met once the total exceeds the budget. */
  method AppendPageChunks(page: Page, ranges: seq<Range>, context: string, total: nat,
                          ghost before: seq<Chunk>, ghost terms: seq<string>, ghost windowSize: nat)
    returns (context': string, total': nat)
    requires ranges == PageRanges(page.text, terms, windowSize)
    requires Excerpt(context, total) == Feed(before)
    ensures Excerpt(context', total') == Feed(before + PageChunks(page, terms, windowSize))
  {
    ghost var chunks := PageChunks(page, terms, windowSize);
    context', total' := context, total;
    assert before + chunks[..0] == before;
    for j := 0 to |ranges|
      invariant Excerpt(context', total') == Feed(before + chunks[..j])
    {
      if total' > ContextBudget {
        FeedStops(before, chunks, j);
        return;
      }
      var chunk := NewlinesToSpaces(page.text[ranges[j].start..ranges[j].end]);
      PageChunkAt(page, terms, windowSize, j);
      FeedNext(before, chunks, j);
      var tagged := "\n=== PAGE " + LabelText(page.marker) + " ===\n..." + chunk + "...\n";
      assert tagged == Tagged(chunks[j]);
      context' := context' + tagged;
      total' := total' + |chunk|;
    }
    assert chunks[..|ranges|] == chunks;
  }

  /** The page loop: skips empty pages, and feeds the chunks of the others to the chunk loop. */
  method AppendAllPages(pages: seq<Page>, terms: seq<string>, windowSize: nat) returns (context: string, total: nat)
    ensures Excerpt(context, total) == Feed(AllChunks(pages, terms, windowSize))
  {
    context := "";
    total := 0;
    for p := 0 to |pages|
      invariant Excerpt(context, total) == Feed(AllChunks(pages[..p], terms, windowSize))
    {
      var page := pages[p];
      assert pages[..p + 1][..p] == pages[..p] && pages[..p + 1][p] == page;
      ghost var before := AllChunks(pages[..p], terms, windowSize);
      assert AllChunks(pages[..p + 1], terms, windowSize) == before + PageChunks(page, terms, windowSize);
      if |page.text| == 0 {
        EmptyPageContributesNothing(page.marker, terms, windowSize);
        assert before + [] == before;
        continue;
      }
      var ranges := ComputePageRanges(page.text, terms, windowSize);
      context, total := AppendPageChunks(page, ranges, context, total, before, terms, windowSize);
    }
    assert pages[..|pages|] == pages;
  }

  /**
   * `_extract_relevant_context_with_pages`: the page loop, the chunk loop with
   * its budget check, and the Intro/End fallback.
   */
  method ExtractRelevantContext(pages: seq<Page>, topicKeywords: string, windowSize: nat)
    returns (context: string)
    ensures context == ExtractContext(pages, topicKeywords, windowSize)
  {
    if |pages| == 0 {
      return "";
    }
    var terms := SearchTerms(topicKeywords);
    var total;
    context, total := AppendAllPages(pages, terms, windowSize);
    ghost var chunks := ContextChunks(pages, topicKeywords, windowSize);
    FeedIsBudgeted(AllChunks(pages, terms, windowSize));
    assert context == Render(chunks);
    if |context| == 0 {
      assert chunks == [];
      context := context + Intro(pages[0]);
      assert context == Intro(pages[0]);
      if |pages| > 1 {
        context := context + End(pages[|pages| - 1]);
      } else {
        assert context == context + "";
      }
      assert context == Fallback(pages);
    }
  }
}
