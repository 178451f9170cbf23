/**
 * `ContentProcessor.process_links_stream` and `process_links`: every link is
 * processed by `_process_single_url`; as each one completes, a progress
 * record is emitted, and at the end the candidates found are sorted by
 * descending score (stably, as Python's `list.sort` with `reverse=True`) and
 * emitted in a final record.
 *
 * The thread pool is modelled by its observable effect: the per-link results
 * arrive in some completion order, the sequence `completions`.
 */
module Pipeline {
  import opened Common
  import opened Verification

  /** Descending by score. */
  predicate SortedByScore(s: seq<Candidate>) {
    forall i, j :: 0 <= i < j < |s| ==> s[i].score >= s[j].score
  }

  /** Every candidate scores at least `v`. */
  predicate AllAtLeast(s: seq<Candidate>, v: int) {
    forall i :: 0 <= i < |s| ==> s[i].score >= v
  }

  lemma AtLeastByMultiset(a: seq<Candidate>, b: seq<Candidate>, v: int)
    requires multiset(a) == multiset(b) && AllAtLeast(b, v)
    ensures AllAtLeast(a, v)
  {
    forall i | 0 <= i < |a| ensures a[i].score >= v {
      assert a[i] in multiset(b);
      var j :| 0 <= j < |b| && b[j] == a[i];
    }
  }

  /** A candidate outscored by everything before it can be appended. */
  lemma SnocSorted(s: seq<Candidate>, x: Candidate)
    requires SortedByScore(s) && AllAtLeast(s, x.score)
    ensures SortedByScore(s + [x])
  {
  }

  /** Inserts `x` after every element whose score is at least its own. */
  function InsertByScore(sorted: seq<Candidate>, x: Candidate): (r: seq<Candidate>)
    requires SortedByScore(sorted)
    ensures SortedByScore(r)
    ensures multiset(r) == multiset(sorted) + multiset{x}
  {
    if sorted == [] || sorted[|sorted| - 1].score >= x.score then
      SnocSorted(sorted, x);
      sorted + [x]
    else
      var init, last := sorted[..|sorted| - 1], sorted[|sorted| - 1];
      assert sorted == init + [last];
      var r' := InsertByScore(init, x);
      assert AllAtLeast(init + [x], last.score);
      AtLeastByMultiset(r', init + [x], last.score);
      SnocSorted(r', last);
      r' + [last]
  }

  /** `results.sort(key=lambda x: x['score'], reverse=True)`, as an insertion sort. */
  function SortByScore(s: seq<Candidate>): (r: seq<Candidate>)
    ensures SortedByScore(r)
    ensures multiset(r) == multiset(s)
  {
    if s == [] then []
    else
      assert s == s[..|s| - 1] + [s[|s| - 1]];
      InsertByScore(SortByScore(s[..|s| - 1]), s[|s| - 1])
  }

  /** The candidates with score `v`, in order. */
  function WithScore(s: seq<Candidate>, v: int): seq<Candidate> {
    if s == [] then []
    else WithScore(s[..|s| - 1], v) + (if s[|s| - 1].score == v then [s[|s| - 1]] else [])
  }

  lemma WithScoreSnoc(s: seq<Candidate>, x: Candidate, v: int)
    ensures WithScore(s + [x], v) == WithScore(s, v) + (if x.score == v then [x] else [])
  {
    assert (s + [x])[..|s|] == s;
  }

  /** Inserting a candidate that outscores the last one puts the last one back at the end. */
  lemma InsertPastLast(sorted: seq<Candidate>, x: Candidate)
    requires SortedByScore(sorted) && sorted != [] && sorted[|sorted| - 1].score < x.score
    ensures InsertByScore(sorted, x) == InsertByScore(sorted[..|sorted| - 1], x) + [sorted[|sorted| - 1]]
  {
  }

  /** The step of `InsertKeepsOrderOfEquals` past a last element that `x` outscores. */
  lemma InsertPastLastKeepsOrder(sorted: seq<Candidate>, x: Candidate, v: int)
    requires SortedByScore(sorted) && sorted != [] && sorted[|sorted| - 1].score < x.score
    requires WithScore(InsertByScore(sorted[..|sorted| - 1], x), v) ==
      WithScore(sorted[..|sorted| - 1], v) + (if x.score == v then [x] else [])
    ensures WithScore(InsertByScore(sorted, x), v) == WithScore(sorted, v) + (if x.score == v then [x] else [])
  {
    var init, last := sorted[..|sorted| - 1], sorted[|sorted| - 1];
    var inserted := InsertByScore(init, x);
    var w := WithScore(init, v);
    InsertPastLast(sorted, x);
    WithScoreSnoc(inserted, last, v);
    assert WithScore(sorted, v) == w + (if last.score == v then [last] else []);
    if x.score == v {
      assert WithScore(inserted + [last], v) == w + [x];
      assert WithScore(sorted, v) == w;
    } else {
      assert WithScore(inserted, v) == w;
    }
  }

  lemma {:induction false} InsertKeepsOrderOfEquals(sorted: seq<Candidate>, x: Candidate, v: int)
    requires SortedByScore(sorted)
    ensures WithScore(InsertByScore(sorted, x), v) == WithScore(sorted, v) + (if x.score == v then [x] else [])
    decreases |sorted|
  {
    if sorted == [] || sorted[|sorted| - 1].score >= x.score {
      WithScoreSnoc(sorted, x, v);
    } else {
      InsertKeepsOrderOfEquals(sorted[..|sorted| - 1], x, v);
      InsertPastLastKeepsOrder(sorted, x, v);
    }
  }

  /** The sort is stable: candidates of equal score keep their completion order. */
  lemma {:induction false} SortIsStable(s: seq<Candidate>, v: int)
    ensures WithScore(SortByScore(s), v) == WithScore(s, v)
  {
    if s != [] {
      var init, last := s[..|s| - 1], s[|s| - 1];
      SortIsStable(init, v);
      InsertKeepsOrderOfEquals(SortByScore(init), last, v);
    }
  }

  /** The candidates among the results, in completion order (`if data: results.append(data)`). */
  function Found(c: seq<Option<Candidate>>): (r: seq<Candidate>)
    ensures |r| <= |c|
  {
    if c == [] then []
    else Found(c[..|c| - 1]) + (if c[|c| - 1].Some? then [c[|c| - 1].value] else [])
  }

  /** A candidate is kept as often as it was returned. */
  lemma {:induction false} FoundCounts(c: seq<Option<Candidate>>, x: Candidate)
    ensures multiset(Found(c))[x] == multiset(c)[Some(x)]
  {
    if c != [] {
      var init, last := c[..|c| - 1], c[|c| - 1];
      assert c == init + [last];
      FoundCounts(init, x);
    }
  }

  /** Each completion adds one to `found` exactly when it returned a candidate. */
  lemma FoundStep(c: seq<Option<Candidate>>, k: nat)
    requires k < |c|
    ensures |Found(c[..k + 1])| == |Found(c[..k])| + (if c[k].Some? then 1 else 0)
  {
    assert c[..k + 1][..k] == c[..k];
  }

  /** `found` never decreases. */
  lemma {:induction false} FoundGrows(c: seq<Option<Candidate>>, i: nat, j: nat)
    requires i <= j <= |c|
    ensures |Found(c[..i])| <= |Found(c[..j])|
    decreases j - i
  {
    if i < j {
      FoundStep(c, i);
      FoundGrows(c, i + 1, j);
    }
  }

  /** One record of the stream. */
  datatype Event = ProgressUpdate(current: nat, total: nat, found: nat) | FinalResult(data: seq<Candidate>)

  /** The progress records after `k` completions. */
  function Progress(c: seq<Option<Candidate>>, total: nat, k: nat): seq<Event>
    requires k <= |c|
  {
    if k == 0 then [] else Progress(c, total, k - 1) + [ProgressUpdate(k, total, |Found(c[..k])|)]
  }

  /** Everything the generator yields for the completions `c` of `total` links. */
  function Stream(c: seq<Option<Candidate>>, total: nat): seq<Event> {
    Progress(c, total, |c|) + [FinalResult(SortByScore(Found(c)))]
  }

  lemma {:induction false} ProgressAt(c: seq<Option<Candidate>>, total: nat, k: nat, i: nat)
    requires k <= |c| && i < k
    ensures |Progress(c, total, k)| == k
    ensures Progress(c, total, k)[i] == ProgressUpdate(i + 1, total, |Found(c[..i + 1])|)
  {
    if i < k - 1 {
      ProgressAt(c, total, k - 1, i);
    } else if k > 1 {
      ProgressAt(c, total, k - 1, 0);
    }
  }

  /**
   * The stream is one progress record per link, the k-th counting k
   * completions out of all links and the candidates found so far, followed
   * by one final record holding the candidates sorted by descending score.
   */
  lemma StreamShape(c: seq<Option<Candidate>>, total: nat)
    ensures var events := Stream(c, total);
      && |events| == |c| + 1
      && (forall i :: 0 <= i < |c| ==> events[i] == ProgressUpdate(i + 1, total, |Found(c[..i + 1])|))
      && events[|c|] == FinalResult(SortByScore(Found(c)))
  {
    var events := Stream(c, total);
    if c == [] {
      assert events == [FinalResult(SortByScore(Found(c)))];
    } else {
      ProgressAt(c, total, |c|, 0);
      forall i | 0 <= i < |c| ensures events[i] == ProgressUpdate(i + 1, total, |Found(c[..i + 1])|) {
        ProgressAt(c, total, |c|, i);
      }
    }
  }

  /** The last progress record counts as many candidates as the final record holds. */
  lemma LastProgressMatchesFinal(c: seq<Option<Candidate>>, total: nat)
    requires c != []
    ensures var events := Stream(c, total);
      && |events| == |c| + 1 && events[|c|].FinalResult?
      && events[|c| - 1] == ProgressUpdate(|c|, total, |events[|c|].data|)
  {
    StreamShape(c, total);
    assert c[..|c|] == c;
    assert |multiset(SortByScore(Found(c)))| == |multiset(Found(c))|;
  }

  /** With no link, the only record is an empty final result. */
  lemma EmptyStream()
    ensures Stream([], 0) == [FinalResult([])]
  {
  }

  /** The candidates of the final record do not depend on the completion order, only their order among equal scores does. */
  lemma FinalIndependentOfOrder(c1: seq<Option<Candidate>>, c2: seq<Option<Candidate>>)
    requires multiset(c1) == multiset(c2)
    ensures multiset(SortByScore(Found(c1))) == multiset(SortByScore(Found(c2)))
  {
    forall x ensures multiset(Found(c1))[x] == multiset(Found(c2))[x] {
      FoundCounts(c1, x);
      FoundCounts(c2, x);
    }
  }

  /** The generator, given the results of `_process_single_url` in completion order. */
  method ProcessLinksStream(links: seq<string>, completions: seq<Option<Candidate>>) returns (events: seq<Event>)
    requires |completions| == |links|
    ensures events == Stream(completions, |links|)
  {
    var results: seq<Candidate> := [];
    var totalLinks := |links|;
    var completedCount := 0;
    events := [];
    for k := 0 to |completions|
      invariant completedCount == k
      invariant results == Found(completions[..k])
      invariant events == Progress(completions, totalLinks, k)
    {
      assert completions[..k + 1][..k] == completions[..k];
      completedCount := completedCount + 1;
      var data := completions[k];
      if data.Some? {
        results := results + [data.value];
      }
      events := events + [ProgressUpdate(completedCount, totalLinks, |results|)];
    }
    assert completions[..|completions|] == completions;
    results := SortByScore(results);
    events := events + [FinalResult(results)];
  }

  /** `process_links`: drains the stream and keeps the data of the final record. */
  method ProcessLinks(links: seq<string>, completions: seq<Option<Candidate>>) returns (results: seq<Candidate>)
    requires |completions| == |links|
    ensures results == SortByScore(Found(completions))
  {
    var events := ProcessLinksStream(links, completions);
    StreamShape(completions, |links|);
    results := [];
    for k := 0 to |events|
      invariant results == if k <= |completions| then [] else SortByScore(Found(completions))
    {
      if events[k].FinalResult? {
        results := events[k].data;
      }
    }
  }
}
