/**
 * The sweep and the status listing: `check_all` checks every registered
 * storefront and publishes the URL-keyed results map in one assignment;
 * `api_status` lists every registered storefront in display order, with a
 * placeholder for one that has no result yet.
 */
module Monitor {
  import opened Wrappers
  import opened Registry
  import opened Ordering
  import opened Classifier
  import opened Fetch

  /** One record of `last_results`, and one item of the status list. */
  datatype Record = Record(platform: string, location: string, brand: string, url: string,
                           status: Status, reason: string, checkedAt: string)

  const NotYetChecked: string := "Încă nu s-a verificat"
  const NeverChecked: string := "—"

  /**
   * What a sweep depends on that is not modelled: what fetching each URL
   * gives, and the clock reading (`now_str()`) taken when its record is made.
   */
  datatype World = World(fetch: string -> FetchOutcome, clock: string -> string)

  /** The record `check_all` stores for one registry entry. */
  function RecordFor(e: Entry, env: Env, world: World): (r: Record)
    ensures r.url == e.url && r.platform == e.platform && r.location == e.location
    ensures r.brand == BrandOf(e.location)
    ensures r.reason != []
    ensures r.status == FetchStatusAndReason(e.url, world.fetch(e.url), env).status
    ensures r.reason == FetchStatusAndReason(e.url, world.fetch(e.url), env).reason
    ensures r.checkedAt == world.clock(e.url)
  {
    var v := FetchStatusAndReason(e.url, world.fetch(e.url), env);
    Record(e.platform, e.location, BrandOf(e.location), e.url, v.status, v.reason, world.clock(e.url))
  }

  /** The record `api_status` shows for an entry that has none yet. */
  function Placeholder(e: Entry): (r: Record)
    ensures r.url == e.url && r.platform == e.platform && r.location == e.location
    ensures r.brand == BrandOf(e.location)
    ensures r.status == Uncertain && r.reason == NotYetChecked && r.checkedAt == NeverChecked
  {
    Record(e.platform, e.location, BrandOf(e.location), e.url, Uncertain, NotYetChecked, NeverChecked)
  }

  /**
   * The results map after the records of `items` are written in order, a
   * later one over an earlier one; `check` makes the record of one entry.
   */
  function SweepResults(items: seq<Entry>, check: Entry -> Record): map<string, Record>
  {
    if items == [] then map[]
    else
      var last := items[|items| - 1];
      SweepResults(items[..|items| - 1], check)[last.url := check(last)]
  }

  /** The per-entry check `check_all` runs: fetch the page, decide, stamp the time. */
  function CheckWith(env: Env, world: World): Entry -> Record
  {
    e => RecordFor(e, env, world)
  }

  /** Every record is well formed: stored under its own URL, with the brand of its location and a reason. */
  predicate WellFormedResults(results: map<string, Record>)
  {
    forall u :: u in results ==>
      results[u].url == u && results[u].brand == BrandOf(results[u].location) && results[u].reason != []
  }

  /**
   * After a sweep the keys are exactly the URLs swept, and each record is
   * the one made for an entry with that URL.
   */
  lemma {:induction false} SweepResultsShape(items: seq<Entry>, check: Entry -> Record)
    ensures forall u :: u in SweepResults(items, check) <==> exists i :: 0 <= i < |items| && items[i].url == u
    ensures forall u :: u in SweepResults(items, check) ==>
      exists i :: 0 <= i < |items| && items[i].url == u && SweepResults(items, check)[u] == check(items[i])
  {
    if items != [] {
      var init := items[..|items| - 1];
      SweepResultsShape(init, check);
      forall u | u in SweepResults(items, check)
        ensures exists i :: 0 <= i < |items| && items[i].url == u && SweepResults(items, check)[u] == check(items[i])
      {
        if u != items[|items| - 1].url {
          assert u in SweepResults(init, check);
          var i :| 0 <= i < |init| && init[i].url == u && SweepResults(init, check)[u] == check(init[i]);
          assert items[i] == init[i];
        }
      }
      forall u | exists i :: 0 <= i < |items| && items[i].url == u
        ensures u in SweepResults(items, check)
      {
        var i :| 0 <= i < |items| && items[i].url == u;
        if i < |init| {
          assert init[i] == items[i];
        }
      }
    }
  }

  /** A sweep with `check_all`'s own check leaves only well-formed records. */
  lemma SweepResultsWellFormed(items: seq<Entry>, env: Env, world: World)
    ensures WellFormedResults(SweepResults(items, CheckWith(env, world)))
  {
    SweepResultsShape(items, CheckWith(env, world));
  }

  /** With distinct URLs each entry's own record is the one kept. */
  lemma SweepResultsOfDistinct(items: seq<Entry>, check: Entry -> Record)
    requires DistinctUrls(items)
    ensures forall i :: 0 <= i < |items| ==>
      items[i].url in SweepResults(items, check) && SweepResults(items, check)[items[i].url] == check(items[i])
  {
    SweepResultsShape(items, check);
  }

  /** A value at two positions of a sequence occurs in it at least twice. */
  lemma TwoPositionsTwoCopies(b: seq<Entry>, i: nat, j: nat)
    requires i < j < |b|
    ensures b[i] == b[j] ==> multiset(b)[b[i]] >= 2
  {
    assert b == b[..j] + b[j..];
    assert b[i] in b[..j] && b[j] in b[j..];
    assert multiset(b) == multiset(b[..j]) + multiset(b[j..]);
  }

  /** In a sequence with distinct URLs each element occurs once. */
  lemma DistinctUrlsOneCopy(a: seq<Entry>, p: nat)
    requires DistinctUrls(a) && p < |a|
    ensures multiset(a)[a[p]] == 1
  {
    assert a == a[..p] + [a[p]] + a[p + 1..];
    assert a[p] !in a[..p] by {
      forall k | 0 <= k < p ensures a[..p][k] != a[p] { assert a[..p][k] == a[k]; }
    }
    var rest := a[p + 1..];
    assert a[p] !in rest by {
      forall k | 0 <= k < |rest| ensures rest[k] != a[p] { assert rest[k] == a[p + 1 + k]; }
    }
    assert multiset(a) == multiset(a[..p]) + multiset{a[p]} + multiset(rest);
  }

  /** Reordering the registry keeps its URLs distinct. */
  lemma PermutationKeepsDistinctUrls(a: seq<Entry>, b: seq<Entry>)
    requires multiset(a) == multiset(b) && DistinctUrls(a)
    ensures DistinctUrls(b)
  {
    forall i, j | 0 <= i < j < |b| ensures b[i].url != b[j].url {
      assert b[i] in multiset(a) && b[j] in multiset(a);
      var p :| 0 <= p < |a| && a[p] == b[i];
      var q :| 0 <= q < |a| && a[q] == b[j];
      TwoPositionsTwoCopies(b, i, j);
      DistinctUrlsOneCopy(a, p);
    }
  }

  /**
   * With distinct URLs the order in which the checks complete does not
   * matter: any reordering of the entries gives the same results map.
   */
  lemma SweepOrderIrrelevant(a: seq<Entry>, b: seq<Entry>, check: Entry -> Record)
    requires multiset(a) == multiset(b) && DistinctUrls(a)
    ensures SweepResults(a, check) == SweepResults(b, check)
  {
    var ma, mb := SweepResults(a, check), SweepResults(b, check);
    PermutationKeepsDistinctUrls(a, b);
    SweepResultsShape(a, check);
    SweepResultsShape(b, check);
    forall u | u in ma ensures u in mb && ma[u] == mb[u] {
      var i :| 0 <= i < |a| && a[i].url == u && ma[u] == check(a[i]);
      assert a[i] in multiset(b);
      var k :| 0 <= k < |b| && b[k] == a[i];
      assert u in mb;
      var k2 :| 0 <= k2 < |b| && b[k2].url == u && mb[u] == check(b[k2]);
      assert k2 == k;
    }
    forall u | u in mb ensures u in ma {
      var k :| 0 <= k < |b| && b[k].url == u;
      assert b[k] in multiset(a);
    }
    assert ma == mb;
  }

  /** `last_results.get(url)`, or the placeholder when the URL has no record. */
  function StatusItem(e: Entry, results: map<string, Record>): Record
  {
    if e.url in results then results[e.url] else Placeholder(e)
  }

  /**
   * Listing the results of a sweep of the same registry, whatever order its
   * checks completed in, shows no placeholder: item `i` is the record made
   * for the `i`-th entry in display order.
   */
  lemma ListingAfterSweep(registry: seq<Entry>, completed: seq<Entry>, env: Env, world: World)
    requires DistinctUrls(registry) && multiset(completed) == multiset(registry)
    ensures var sorted := SortByKey(registry);
      forall i :: 0 <= i < |sorted| ==>
        StatusItem(sorted[i], SweepResults(completed, CheckWith(env, world))) == RecordFor(sorted[i], env, world)
  {
    var sorted := SortByKey(registry);
    PermutationKeepsDistinctUrls(registry, sorted);
    SweepOrderIrrelevant(sorted, completed, CheckWith(env, world));
    SweepResultsOfDistinct(sorted, CheckWith(env, world));
  }

  /** `check_all`'s loop: one record per item, written under the item's URL. */
  method BuildResults(items: seq<Entry>, env: Env, world: World) returns (out: map<string, Record>)
    ensures out == SweepResults(items, CheckWith(env, world))
    ensures forall u :: u in out <==> exists i :: 0 <= i < |items| && items[i].url == u
    ensures WellFormedResults(out)
  {
    out := map[];
    for i := 0 to |items|
      invariant out == SweepResults(items[..i], CheckWith(env, world))
    {
      assert items[..i + 1][..i] == items[..i];
      var it := items[i];
      var v := FetchStatusAndReason(it.url, world.fetch(it.url), env);
      out := out[it.url := Record(it.platform, it.location, BrandOf(it.location), it.url, v.status, v.reason, world.clock(it.url))];
    }
    assert items[..|items|] == items;
    SweepResultsShape(items, CheckWith(env, world));
    SweepResultsWellFormed(items, env, world);
  }

  /** `api_status`'s loop over the entries in display order. */
  method ListStatus(sorted: seq<Entry>, results: map<string, Record>) returns (items: seq<Record>)
    requires WellFormedResults(results)
    ensures |items| == |sorted|
    ensures forall i :: 0 <= i < |items| ==> items[i].url == sorted[i].url && items[i].reason != []
    ensures forall i :: 0 <= i < |items| ==> items[i] == StatusItem(sorted[i], results)
  {
    items := [];
    for i := 0 to |sorted|
      invariant |items| == i
      invariant forall j :: 0 <= j < i ==> items[j] == StatusItem(sorted[j], results)
      invariant forall j :: 0 <= j < i ==> items[j].url == sorted[j].url && items[j].reason != []
    {
      var it := sorted[i];
      if it.url in results {
        items := items + [results[it.url]];
      } else {
        items := items + [Placeholder(it)];
      }
    }
  }

  /** The published state: `last_results` and `last_full_check_time`. */
  class Monitor {
    var lastResults: map<string, Record>
    var lastFullCheck: Option<string>

    ghost predicate Valid()
      reads this
    {
      WellFormedResults(lastResults)
    }

    constructor ()
      ensures Valid() && lastResults == map[] && lastFullCheck == None
    {
      lastResults := map[];
      lastFullCheck := None;
    }

    /**
     * `check_all`: check every entry, storing each record as its check
     * completes (`completed` is the completion order of the submitted
     * checks, each entry once), then replace the whole results map and the
     * completion time at once.
     */
    method CheckAll(registry: seq<Entry>, completed: seq<Entry>, env: Env, world: World, finishedAt: string)
      requires Valid()
      requires multiset(completed) == multiset(SortByKey(registry))
      modifies this
      ensures Valid()
      ensures lastResults == SweepResults(completed, CheckWith(env, world))
      ensures lastFullCheck == Some(finishedAt)
      ensures forall u :: u in lastResults <==> exists i :: 0 <= i < |registry| && registry[i].url == u
      ensures DistinctUrls(registry) ==>
        && lastResults == SweepResults(registry, CheckWith(env, world))
        && forall i :: 0 <= i < |registry| ==> lastResults[registry[i].url] == RecordFor(registry[i], env, world)
    {
      var out := BuildResults(completed, env, world);
      forall u | exists i :: 0 <= i < |registry| && registry[i].url == u
        ensures u in out
      {
        var i :| 0 <= i < |registry| && registry[i].url == u;
        assert registry[i] in multiset(completed);
      }
      forall u | u in out
        ensures exists i :: 0 <= i < |registry| && registry[i].url == u
      {
        var k :| 0 <= k < |completed| && completed[k].url == u;
        assert completed[k] in multiset(registry);
      }
      if DistinctUrls(registry) {
        SweepOrderIrrelevant(registry, completed, CheckWith(env, world));
        SweepResultsOfDistinct(registry, CheckWith(env, world));
      }
      lastResults := out;
      lastFullCheck := Some(finishedAt);
    }

    /**
     * `api_status`'s list: one item per registry entry, in display order,
     * the stored record when there is one and the placeholder otherwise.
     */
    method ApiStatus(registry: seq<Entry>) returns (items: seq<Record>)
      requires Valid()
      ensures |items| == |registry|
      ensures forall i :: 0 <= i < |items| ==> items[i].url == SortByKey(registry)[i].url && items[i].reason != []
      ensures forall i :: 0 <= i < |items| ==> items[i] == StatusItem(SortByKey(registry)[i], lastResults)
    {
      items := ListStatus(SortByKey(registry), lastResults);
    }
  }
}
