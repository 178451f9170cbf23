/**
 * `SearchEngine.execute_search_plan` and `_search_single_query`: queries are
 * taken from the three tiers of a search plan in round-robin order, the
 * first `max_queries` of them are sent to the search provider, each asking
 * for at most ten results, and the links found are merged without
 * duplicates.
 *
 * The search provider is an input: `Provider` is what one request returns
 * for a query and a requested count. The worker pool is not modelled; the
 * union of the per-query lists does not depend on the order in which they
 * complete (`UnionOrderIrrelevant`).
 */
module Search {
  import opened Common

  /** One entry of the `items` list of a reply; `link` is absent when the entry has no such key. */
  datatype Item = Item(link: Option<string>)

  /** What `cse().list(...).execute()` does: raise, or return a reply whose `items` key may be absent. */
  datatype SearchReply = RequestFailed | Items(items: Option<seq<Item>>)

  /** The provider: `None` when the service could not be built. */
  type Provider = Option<(string, int) -> SearchReply>

  /** The provider returns at most this many results per request. */
  const MaxResultsPerRequest := 10

  const Tier1Key := "tier_1_topic_focused"
  const Tier2Key := "tier_2_context_specific"
  const Tier3Key := "tier_3_descriptive_chaining"

  /** `[item['link'] for item in items]`, when every item has a link. */
  function Links(items: seq<Item>): (r: seq<string>)
    requires forall i :: 0 <= i < |items| ==> items[i].link.Some?
    ensures |r| == |items|
    ensures forall i :: 0 <= i < |items| ==> r[i] == items[i].link.value
  {
    if items == [] then [] else [items[0].link.value] + Links(items[1..])
  }

  predicate AllLinked(items: seq<Item>) {
    forall i :: 0 <= i < |items| ==> items[i].link.Some?
  }

  /**
   * `_search_single_query(query, num_results)`: the request asks for
   * `min(num_results, 10)` results; a missing service, an error, a reply
   * without items or an item without a link all give `[]`.
   */
  function SearchSingleQuery(query: string, numResults: int, provider: Provider): seq<string> {
    match provider
    case None => []
    case Some(request) =>
      match request(query, Min(numResults, MaxResultsPerRequest))
      case RequestFailed => []
      case Items(None) => []
      case Items(Some(items)) => if AllLinked(items) then Links(items) else []
  }

  /**
   * A reply to the clamped request whose items all have a link gives exactly
   * those links, in order; a reply with an item without a link raises
   * `KeyError`, which is caught, and gives `[]`. So a non-empty result is
   * always the links of the reply.
   */
  lemma SearchSingleQueryResult(query: string, numResults: int, provider: Provider)
    ensures var r := SearchSingleQuery(query, numResults, provider);
      && (provider.Some? ==>
            var reply := provider.value(query, Min(numResults, MaxResultsPerRequest));
            reply.Items? && reply.items.Some? ==>
              && (AllLinked(reply.items.value) ==> r == Links(reply.items.value))
              && (!AllLinked(reply.items.value) ==> r == []))
      && (r != [] ==>
            && provider.Some?
            && var reply := provider.value(query, Min(numResults, MaxResultsPerRequest));
            && reply.Items? && reply.items.Some? && |r| == |reply.items.value|
            && forall i :: 0 <= i < |r| ==> reply.items.value[i].link == Some(r[i]))
  {
  }

  /** Asking for more than ten results is the same as asking for ten. */
  lemma ClampSaturates(query: string, numResults: int, provider: Provider)
    requires numResults >= MaxResultsPerRequest
    ensures SearchSingleQuery(query, numResults, provider) == SearchSingleQuery(query, MaxResultsPerRequest, provider)
  {
  }

  /** An error or a missing service yields no links. */
  lemma FailureYieldsNothing(query: string, numResults: int, provider: Provider)
    requires provider.None? || provider.value(query, Min(numResults, MaxResultsPerRequest)).RequestFailed?
    ensures SearchSingleQuery(query, numResults, provider) == []
  {
  }

  function TierAt(t1: seq<string>, t2: seq<string>, t3: seq<string>, tier: nat): seq<string>
    requires tier < 3
  {
    if tier == 0 then t1 else if tier == 1 then t2 else t3
  }

  function OneIf(b: bool): nat { if b then 1 else 0 }

  /** Round `i`: the i-th query of each tier that still has one. */
  function Round(t1: seq<string>, t2: seq<string>, t3: seq<string>, i: nat): seq<string> {
    Nth(t1, i) + Nth(t2, i) + Nth(t3, i)
  }

  /** The i-th query of a tier, if it has one. */
  function Nth(t: seq<string>, i: nat): seq<string> {
    if i < |t| then [t[i]] else []
  }

  /** The first `n` rounds. */
  function Rounds(t1: seq<string>, t2: seq<string>, t3: seq<string>, n: nat): seq<string> {
    if n == 0 then [] else Rounds(t1, t2, t3, n - 1) + Round(t1, t2, t3, n - 1)
  }

  /** `all_potential_queries`: as many rounds as the longest tier has queries. */
  function Interleave(t1: seq<string>, t2: seq<string>, t3: seq<string>): seq<string> {
    Rounds(t1, t2, t3, Max(|t1|, Max(|t2|, |t3|)))
  }

  lemma {:induction false} RoundsLength(t1: seq<string>, t2: seq<string>, t3: seq<string>, n: nat)
    ensures |Rounds(t1, t2, t3, n)| == Min(n, |t1|) + Min(n, |t2|) + Min(n, |t3|)
  {
    if n > 0 {
      RoundsLength(t1, t2, t3, n - 1);
    }
  }

  /** The interleaving holds every query once: its length is the sum of the tier sizes. */
  lemma InterleaveLength(t1: seq<string>, t2: seq<string>, t3: seq<string>)
    ensures |Interleave(t1, t2, t3)| == |t1| + |t2| + |t3|
  {
    RoundsLength(t1, t2, t3, Max(|t1|, Max(|t2|, |t3|)));
  }

  function Upto(t: seq<string>, n: nat): seq<string> {
    t[..Min(n, |t|)]
  }

  lemma UptoStep(t: seq<string>, n: nat)
    ensures multiset(Upto(t, n + 1)) == multiset(Upto(t, n)) + multiset(Nth(t, n))
  {
    if n < |t| {
      assert Upto(t, n + 1) == Upto(t, n) + [t[n]];
    } else {
      assert Upto(t, n + 1) == Upto(t, n);
    }
  }

  lemma AppendRound(x: seq<string>, a: seq<string>, b: seq<string>, c: seq<string>)
    ensures x + a + b + c == x + (a + b + c)
  {
  }

  lemma Regroup(u1: multiset<string>, u2: multiset<string>, u3: multiset<string>, a: multiset<string>, b: multiset<string>, c: multiset<string>)
    ensures (u1 + u2 + u3) + (a + b + c) == (u1 + a) + (u2 + b) + (u3 + c)
  {
  }

  lemma RoundsStep(t1: seq<string>, t2: seq<string>, t3: seq<string>, m: nat)
    ensures multiset(Rounds(t1, t2, t3, m + 1)) ==
      multiset(Rounds(t1, t2, t3, m)) + (multiset(Nth(t1, m)) + multiset(Nth(t2, m)) + multiset(Nth(t3, m)))
  {
    var a, b, c := Nth(t1, m), Nth(t2, m), Nth(t3, m);
    assert Rounds(t1, t2, t3, m + 1) == Rounds(t1, t2, t3, m) + (a + b + c);
  }

  lemma {:induction false} RoundsMultiset(t1: seq<string>, t2: seq<string>, t3: seq<string>, n: nat)
    ensures multiset(Rounds(t1, t2, t3, n)) == multiset(Upto(t1, n)) + multiset(Upto(t2, n)) + multiset(Upto(t3, n))
  {
    if n > 0 {
      var m := n - 1;
      RoundsMultiset(t1, t2, t3, m);
      UptoStep(t1, m);
      UptoStep(t2, m);
      UptoStep(t3, m);
      RoundsStep(t1, t2, t3, m);
      Regroup(multiset(Upto(t1, m)), multiset(Upto(t2, m)), multiset(Upto(t3, m)),
              multiset(Nth(t1, m)), multiset(Nth(t2, m)), multiset(Nth(t3, m)));
    }
  }

  /** The interleaving is a permutation of the three tiers together. */
  lemma InterleaveIsPermutation(t1: seq<string>, t2: seq<string>, t3: seq<string>)
    ensures multiset(Interleave(t1, t2, t3)) == multiset(t1 + t2 + t3)
  {
    var n := Max(|t1|, Max(|t2|, |t3|));
    RoundsMultiset(t1, t2, t3, n);
    assert Min(n, |t1|) == |t1| && Min(n, |t2|) == |t2| && Min(n, |t3|) == |t3|;
    assert Upto(t1, n) == t1 && Upto(t2, n) == t2 && Upto(t3, n) == t3;
  }

  /** Where the i-th query of a tier lands: after the earlier rounds and the earlier tiers of its round. */
  function Slot(t1: seq<string>, t2: seq<string>, t3: seq<string>, tier: nat, i: nat): nat
    requires tier < 3
  {
    |Rounds(t1, t2, t3, i)| + OneIf(tier >= 1 && i < |t1|) + OneIf(tier >= 2 && i < |t2|)
  }

  lemma {:induction false} RoundsExtend(t1: seq<string>, t2: seq<string>, t3: seq<string>, n: nat, m: nat, k: nat)
    requires n <= m && k < |Rounds(t1, t2, t3, n)|
    ensures |Rounds(t1, t2, t3, n)| <= |Rounds(t1, t2, t3, m)|
    ensures Rounds(t1, t2, t3, m)[k] == Rounds(t1, t2, t3, n)[k]
    decreases m - n
  {
    if n < m {
      RoundsExtend(t1, t2, t3, n, m - 1, k);
    }
  }

  lemma {:induction false} RoundsGrow(t1: seq<string>, t2: seq<string>, t3: seq<string>, n: nat, m: nat)
    requires n <= m
    ensures |Rounds(t1, t2, t3, n)| <= |Rounds(t1, t2, t3, m)|
    decreases m - n
  {
    if n < m {
      RoundsGrow(t1, t2, t3, n, m - 1);
      var before := Rounds(t1, t2, t3, m - 1);
      assert Rounds(t1, t2, t3, m) == before + Round(t1, t2, t3, m - 1);
    }
  }

  lemma RoundAt(t1: seq<string>, t2: seq<string>, t3: seq<string>, tier: nat, i: nat)
    requires tier < 3 && i < |TierAt(t1, t2, t3, tier)|
    ensures var k := OneIf(tier >= 1 && i < |t1|) + OneIf(tier >= 2 && i < |t2|);
      k < |Round(t1, t2, t3, i)| && Round(t1, t2, t3, i)[k] == TierAt(t1, t2, t3, tier)[i]
  {
    var a, b, c := Nth(t1, i), Nth(t2, i), Nth(t3, i);
    assert Round(t1, t2, t3, i) == a + b + c;
    if tier == 0 {
      assert a == [t1[i]];
    } else if tier == 1 {
      assert b == [t2[i]];
      assert (a + b + c)[|a|] == b[0];
    } else {
      assert c == [t3[i]];
      assert (a + b + c)[|a| + |b|] == c[0];
    }
  }

  lemma SlotInRound(t1: seq<string>, t2: seq<string>, t3: seq<string>, tier: nat, i: nat)
    requires tier < 3 && i < |TierAt(t1, t2, t3, tier)|
    ensures Slot(t1, t2, t3, tier, i) < |Rounds(t1, t2, t3, i + 1)|
    ensures Rounds(t1, t2, t3, i + 1)[Slot(t1, t2, t3, tier, i)] == TierAt(t1, t2, t3, tier)[i]
  {
    var s := Slot(t1, t2, t3, tier, i);
    var before := Rounds(t1, t2, t3, i);
    var round := Round(t1, t2, t3, i);
    assert Rounds(t1, t2, t3, i + 1) == before + round;
    RoundAt(t1, t2, t3, tier, i);
    assert Rounds(t1, t2, t3, i + 1)[s] == round[s - |before|];
  }

  /** The i-th query of each tier sits at its slot of the interleaving. */
  lemma SlotHolds(t1: seq<string>, t2: seq<string>, t3: seq<string>, tier: nat, i: nat)
    requires tier < 3 && i < |TierAt(t1, t2, t3, tier)|
    ensures Slot(t1, t2, t3, tier, i) < |Interleave(t1, t2, t3)|
    ensures Interleave(t1, t2, t3)[Slot(t1, t2, t3, tier, i)] == TierAt(t1, t2, t3, tier)[i]
  {
    var n := Max(|t1|, Max(|t2|, |t3|));
    var s := Slot(t1, t2, t3, tier, i);
    SlotInRound(t1, t2, t3, tier, i);
    RoundsExtend(t1, t2, t3, i + 1, n, s);
    assert Interleave(t1, t2, t3) == Rounds(t1, t2, t3, n);
  }

  /** A query of an earlier round lands before every slot of a later round. */
  lemma SlotBeforeLaterRound(t1: seq<string>, t2: seq<string>, t3: seq<string>, a: nat, i: nat, b: nat, j: nat)
    requires a < 3 && i < |TierAt(t1, t2, t3, a)| && b < 3 && i < j
    ensures Slot(t1, t2, t3, a, i) < Slot(t1, t2, t3, b, j)
  {
    SlotInRound(t1, t2, t3, a, i);
    RoundsGrow(t1, t2, t3, i + 1, j);
  }

  /** Within one round, a query of a lower tier lands before the slots of the higher tiers. */
  lemma SlotsInOneRound(t1: seq<string>, t2: seq<string>, t3: seq<string>, a: nat, b: nat, i: nat)
    requires a < b < 3 && i < |TierAt(t1, t2, t3, a)|
    ensures Slot(t1, t2, t3, a, i) < Slot(t1, t2, t3, b, i)
  {
  }

  /** Queries of the same tier keep their relative order. */
  lemma TierOrderKept(t1: seq<string>, t2: seq<string>, t3: seq<string>, tier: nat, i: nat, j: nat)
    requires tier < 3 && i < j < |TierAt(t1, t2, t3, tier)|
    ensures Slot(t1, t2, t3, tier, i) < Slot(t1, t2, t3, tier, j)
  {
    SlotBeforeLaterRound(t1, t2, t3, tier, i, tier, j);
  }

  /** Different queries occupy different slots. */
  lemma SlotsDistinct(t1: seq<string>, t2: seq<string>, t3: seq<string>, a: nat, i: nat, b: nat, j: nat)
    requires a < 3 && i < |TierAt(t1, t2, t3, a)| && b < 3 && j < |TierAt(t1, t2, t3, b)|
    requires (a, i) != (b, j)
    ensures Slot(t1, t2, t3, a, i) != Slot(t1, t2, t3, b, j)
  {
    if i < j {
      SlotBeforeLaterRound(t1, t2, t3, a, i, b, j);
    } else if j < i {
      SlotBeforeLaterRound(t1, t2, t3, b, j, a, i);
    } else if a < b {
      SlotsInOneRound(t1, t2, t3, a, b, i);
    } else {
      SlotsInOneRound(t1, t2, t3, b, a, i);
    }
  }

  /** Tiers of sizes 3, 1 and 2 interleave as T1, T2, T3, T1, T3, T1. */
  lemma InterleaveExample()
    ensures Interleave(["a0", "a1", "a2"], ["b0"], ["c0", "c1"]) == ["a0", "b0", "c0", "a1", "c1", "a2"]
  {
    var t1, t2, t3 := ["a0", "a1", "a2"], ["b0"], ["c0", "c1"];
    assert Rounds(t1, t2, t3, 1) == ["a0", "b0", "c0"];
    assert Rounds(t1, t2, t3, 2) == ["a0", "b0", "c0", "a1", "c1"];
  }

  /** The loop building `all_potential_queries`. */
  method InterleaveTiers(t1: seq<string>, t2: seq<string>, t3: seq<string>) returns (all: seq<string>)
    ensures all == Interleave(t1, t2, t3)
  {
    all := [];
    var maxLen := Max(|t1|, Max(|t2|, |t3|));
    for i := 0 to maxLen
      invariant all == Rounds(t1, t2, t3, i)
    {
      ghost var before := all;
      if i < |t1| { all := all + [t1[i]]; }
      assert all == before + Nth(t1, i);
      if i < |t2| { all := all + [t2[i]]; }
      assert all == before + Nth(t1, i) + Nth(t2, i);
      if i < |t3| { all := all + [t3[i]]; }
      assert all == before + Nth(t1, i) + Nth(t2, i) + Nth(t3, i);
      AppendRound(before, Nth(t1, i), Nth(t2, i), Nth(t3, i));
      assert Rounds(t1, t2, t3, i + 1) == before + Round(t1, t2, t3, i);
    }
  }

  /** Python's `s[:n]`, where a negative `n` counts from the end. */
  function SliceTo(s: seq<string>, n: int): (r: seq<string>)
    ensures |r| <= |s| && r == s[..|r|]
    ensures n >= 0 ==> |r| == Min(n, |s|)
    ensures n < 0 ==> |r| == Max(|s| + n, 0)
  {
    if n >= 0 then s[..Min(n, |s|)] else s[..Max(|s| + n, 0)]
  }

  /** `search_plan_json.get(key, [])`. */
  function Tier(plan: map<string, seq<string>>, key: string): seq<string> {
    if key in plan then plan[key] else []
  }

  /** `selected_queries`: the first `max_queries` of the interleaved tiers; an absent or empty plan selects none. */
  function SelectQueries(plan: Option<map<string, seq<string>>>, maxQueries: int): (r: seq<string>)
    ensures plan.None? || plan == Some(map[]) ==> r == []
  {
    match plan
    case None => []
    case Some(tiers) =>
      if tiers == map[] then []
      else SliceTo(Interleave(Tier(tiers, Tier1Key), Tier(tiers, Tier2Key), Tier(tiers, Tier3Key)), maxQueries)
  }

  /** With a non-negative limit, `min(max_queries, total)` queries are selected, the first ones of the interleaving. */
  lemma SelectedCount(tiers: map<string, seq<string>>, maxQueries: nat)
    requires tiers != map[]
    ensures var t1, t2, t3 := Tier(tiers, Tier1Key), Tier(tiers, Tier2Key), Tier(tiers, Tier3Key);
      var r := SelectQueries(Some(tiers), maxQueries);
      |r| == Min(maxQueries, |t1| + |t2| + |t3|) && r == Interleave(t1, t2, t3)[..|r|]
  {
    InterleaveLength(Tier(tiers, Tier1Key), Tier(tiers, Tier2Key), Tier(tiers, Tier3Key));
  }

  /** The elements of a list, as a set. */
  function Elements(s: seq<string>): set<string> {
    set x | x in s
  }

  /** The union of the per-query link lists. */
  function UnionOf(lists: seq<seq<string>>): set<string> {
    if lists == [] then {} else UnionOf(lists[..|lists| - 1]) + Elements(lists[|lists| - 1])
  }

  /** A link is in the union exactly when some list holds it. */
  lemma {:induction false} UnionMember(lists: seq<seq<string>>, u: string)
    ensures u in UnionOf(lists) <==> exists i :: 0 <= i < |lists| && u in lists[i]
  {
    if lists != [] {
      var init := lists[..|lists| - 1];
      UnionMember(init, u);
      if u in UnionOf(init) {
        var i :| 0 <= i < |init| && u in init[i];
        assert lists[i] == init[i];
      }
      if exists i :: 0 <= i < |lists| && u in lists[i] {
        var i :| 0 <= i < |lists| && u in lists[i];
        if i < |init| {
          assert u in init[i];
        }
      }
    }
  }

  /** The union does not depend on the order in which the lists complete. */
  lemma UnionOrderIrrelevant(a: seq<seq<string>>, b: seq<seq<string>>)
    requires multiset(a) == multiset(b)
    ensures UnionOf(a) == UnionOf(b)
  {
    forall u ensures u in UnionOf(a) <==> u in UnionOf(b) {
      UnionMember(a, u);
      UnionMember(b, u);
      if u in UnionOf(a) {
        var i :| 0 <= i < |a| && u in a[i];
        assert a[i] in multiset(b);
        var j :| 0 <= j < |b| && b[j] == a[i];
      }
      if u in UnionOf(b) {
        var j :| 0 <= j < |b| && u in b[j];
        assert b[j] in multiset(a);
        var i :| 0 <= i < |a| && a[i] == b[j];
      }
    }
  }

  /** The link lists of the selected queries. */
  function SearchAll(queries: seq<string>, numResults: int, provider: Provider): (r: seq<seq<string>>)
    ensures |r| == |queries|
    ensures forall i :: 0 <= i < |queries| ==> r[i] == SearchSingleQuery(queries[i], numResults, provider)
  {
    seq(|queries|, i requires 0 <= i < |queries| => SearchSingleQuery(queries[i], numResults, provider))
  }

  /** One more completed query adds its links to the union. */
  lemma UnionOfPrefix(lists: seq<seq<string>>, k: nat)
    requires k < |lists|
    ensures UnionOf(lists[..k + 1]) == UnionOf(lists[..k]) + Elements(lists[k])
  {
    assert lists[..k + 1][..k] == lists[..k];
  }

  predicate NoDuplicates(s: seq<string>) {
    forall i, j :: 0 <= i < j < |s| ==> s[i] != s[j]
  }

  /** `list(unique_urls)`: the set's elements in some order, each once. */
  method ListOf(urls: set<string>) returns (r: seq<string>)
    ensures NoDuplicates(r) && Elements(r) == urls && |r| == |urls|
  {
    r := [];
    var rest := urls;
    while rest != {}
      invariant rest <= urls && Elements(r) == urls - rest
      invariant NoDuplicates(r) && |r| + |rest| == |urls|
      decreases |rest|
    {
      var u :| u in rest;
      assert u !in Elements(r);
      assert Elements(r + [u]) == Elements(r) + {u};
      r := r + [u];
      rest := rest - {u};
    }
  }

  /**
   * `execute_search_plan(search_plan_json, max_queries, results_per_query)`:
   * the links of every selected query, each once.
   */
  method ExecuteSearchPlan(plan: Option<map<string, seq<string>>>, maxQueries: int, resultsPerQuery: int, provider: Provider)
    returns (results: seq<string>)
    ensures NoDuplicates(results)
    ensures Elements(results) == UnionOf(SearchAll(SelectQueries(plan, maxQueries), resultsPerQuery, provider))
    ensures plan.None? || plan == Some(map[]) ==> results == []
  {
    if plan.None? || plan.value == map[] {
      return [];
    }
    var tiers := plan.value;
    var all := InterleaveTiers(Tier(tiers, Tier1Key), Tier(tiers, Tier2Key), Tier(tiers, Tier3Key));
    var selected := SliceTo(all, maxQueries);
    assert selected == SelectQueries(plan, maxQueries);
    ghost var lists := SearchAll(selected, resultsPerQuery, provider);
    var uniqueUrls: set<string> := {};
    for k := 0 to |selected|
      invariant uniqueUrls == UnionOf(lists[..k])
    {
      UnionOfPrefix(lists, k);
      var urls := SearchSingleQuery(selected[k], resultsPerQuery, provider);
      uniqueUrls := uniqueUrls + Elements(urls);
    }
    assert lists[..|selected|] == lists;
    results := ListOf(uniqueUrls);
  }
}
