/** The keyset-paginated scan over enabled channels (controller/channel_upstream_update.go, lines 556-644
and 856-931). Channels come and go between queries; `tables[i]` is the set of enabled ids the i-th query sees. */
module UpstreamScan {

  const BATCH := 100

  predicate Ascending(ids: seq<int>) {
    forall i, j :: 0 <= i < j < |ids| ==> ids[i] < ids[j]
  }

  predicate Eligible(id: int, last: int) { last > 0 ==> id > last }

  /** The answer to "enabled channels with an id above `last`, lowest first, at most BATCH of them". */
  predicate IsPage(table: set<int>, last: int, page: seq<int>) {
    && Ascending(page) && |page| <= BATCH
    && (forall id :: id in page ==> id in table && Eligible(id, last))
    && (forall id :: id in table && Eligible(id, last) && id !in page ==>
          |page| == BATCH && forall x :: x in page ==> x < id)
  }

  function LastId(pages: seq<seq<int>>): int {
    if pages == [] || pages[|pages| - 1] == [] then 0
    else var p := pages[|pages| - 1]; p[|p| - 1]
  }

  /** Every page answers the query that the pages before it lead to. */
  predicate Answers(tables: seq<set<int>>, pages: seq<seq<int>>) {
    && |tables| == |pages|
    && (forall i, id :: 0 <= i < |tables| && id in tables[i] ==> id > 0)
    && forall i :: 0 <= i < |pages| ==> IsPage(tables[i], LastId(pages[..i]), pages[i])
  }

  /** Enabled at each of the first `n` queries. */
  predicate AlwaysThere(tables: seq<set<int>>, n: nat, id: int)
    requires n <= |tables|
  {
    n > 0 && forall i :: 0 <= i < n ==> id in tables[i]
  }

  predicate OnceThere(tables: seq<set<int>>, n: nat, id: int)
    requires n <= |tables|
  {
    exists i :: 0 <= i < n && id in tables[i]
  }

  function Concat(pages: seq<seq<int>>): seq<int> {
    if pages == [] then [] else Concat(pages[..|pages| - 1]) + pages[|pages| - 1]
  }

  /** What `n` non-empty pages have shown: every channel seen was enabled at some query, and every channel up to
      `last` that was enabled throughout has been seen. */
  ghost predicate Seen(tables: seq<set<int>>, n: nat, visited: seq<int>, last: int)
    requires n <= |tables|
  {
    && Ascending(visited)
    && (n > 0 ==> last > 0)
    && (forall id :: id in visited ==> id <= last && OnceThere(tables, n, id))
    && (forall id :: id <= last && AlwaysThere(tables, n, id) ==> id in visited)
  }

  lemma SeenMore(tables: seq<set<int>>, n: nat, visited: seq<int>, last: int, page: seq<int>)
    requires n < |tables| && Seen(tables, n, visited, last) && (n == 0 ==> visited == [] && last == 0)
    requires IsPage(tables[n], last, page) && page != [] && forall id :: id in tables[n] ==> id > 0
    ensures Seen(tables, n + 1, visited + page, page[|page| - 1])
  {
    var next := page[|page| - 1];
    assert next in page;
    AppendPage(visited, page);
    forall id | id in visited + page ensures OnceThere(tables, n + 1, id) {
      if id in visited { assert OnceThere(tables, n, id); }
    }
    forall id | AlwaysThere(tables, n + 1, id) && id <= next ensures id in visited + page {
      if n > 0 && id <= last { assert AlwaysThere(tables, n, id); }
    }
  }

  /** A short page is the last one: nothing that was enabled throughout lies beyond it. */
  lemma ShortPageEnds(tables: seq<set<int>>, n: nat, visited: seq<int>, last: int, page: seq<int>)
    requires n < |tables| && Seen(tables, n, visited, last) && (n == 0 ==> visited == [] && last == 0)
    requires IsPage(tables[n], last, page) && |page| < BATCH
    ensures forall id :: AlwaysThere(tables, n + 1, id) ==> id in visited + page
  {
    forall id | AlwaysThere(tables, n + 1, id) ensures id in visited + page {
      assert id in tables[n];
      if n > 0 && id <= last { assert AlwaysThere(tables, n, id); }
    }
  }

  lemma ConcatSnoc(pages: seq<seq<int>>, n: nat)
    requires n < |pages|
    ensures Concat(pages[..n + 1]) == Concat(pages[..n]) + pages[n]
    ensures pages[n] != [] ==> LastId(pages[..n + 1]) == pages[n][|pages[n]| - 1]
  {
    assert pages[..n + 1][..n] == pages[..n] && pages[..n + 1][n] == pages[n];
  }

  /** What a scan promises: the ids of all pages read, ascending, each enabled at some query; every page but the last is
      full; and a scan that is complete has missed no id that was enabled throughout. */
  ghost predicate ScanIsRight(tables: seq<set<int>>, pages: seq<seq<int>>, visited: seq<int>, queries: nat, complete: bool) {
    && queries <= |pages| == |tables| && visited == Concat(pages[..queries])
    && (forall i :: 0 <= i < queries ==> (|pages[i]| < 100 <==> complete && i == queries - 1))
    && Ascending(visited)
    && (forall id :: id in visited ==> OnceThere(tables, queries, id))
    && (complete ==> queries > 0 && forall id :: AlwaysThere(tables, queries, id) ==> id in visited)
    && (!complete ==> queries == |pages|)
  }

  /** The scan has read `n` pages, all of them full. */
  ghost predicate Reading(tables: seq<set<int>>, pages: seq<seq<int>>, n: nat, visited: seq<int>, last: int) {
    && n <= |pages| == |tables|
    && last == LastId(pages[..n]) && visited == Concat(pages[..n])
    && (n == 0 ==> visited == [] && last == 0)
    && (forall i :: 0 <= i < n ==> |pages[i]| == BATCH)
    && Seen(tables, n, visited, last)
  }

  lemma ReadAnother(tables: seq<set<int>>, pages: seq<seq<int>>, n: nat, visited: seq<int>, last: int)
    requires Answers(tables, pages) && n < |pages| && Reading(tables, pages, n, visited, last) && |pages[n]| == BATCH
    ensures Reading(tables, pages, n + 1, visited + pages[n], pages[n][|pages[n]| - 1])
  {
    assert IsPage(tables[n], last, pages[n]);
    ConcatSnoc(pages, n);
    SeenMore(tables, n, visited, last, pages[n]);
  }

  lemma ReadLast(tables: seq<set<int>>, pages: seq<seq<int>>, n: nat, visited: seq<int>, last: int)
    requires Answers(tables, pages) && n < |pages| && Reading(tables, pages, n, visited, last) && |pages[n]| < BATCH
    ensures ScanIsRight(tables, pages, visited + pages[n], n + 1, true)
  {
    assert IsPage(tables[n], last, pages[n]);
    ConcatSnoc(pages, n);
    ShortPageEnds(tables, n, visited, last, pages[n]);
    if pages[n] == [] {
      assert visited + pages[n] == visited;
      SeenStill(tables, n, visited, last);
    } else {
      SeenMore(tables, n, visited, last, pages[n]);
    }
  }

  lemma SeenStill(tables: seq<set<int>>, n: nat, visited: seq<int>, last: int)
    requires n < |tables| && Seen(tables, n, visited, last)
    ensures Ascending(visited) && forall id :: id in visited ==> OnceThere(tables, n + 1, id)
  {
    forall id | id in visited ensures OnceThere(tables, n + 1, id) { assert OnceThere(tables, n, id); }
  }

  /** The scan: `visited` in order, `queries` the number of queries made, `complete` unless answers ran out. */
  method Scan(pages: seq<seq<int>>, ghost tables: seq<set<int>>)
    returns (visited: seq<int>, queries: nat, complete: bool)
    requires Answers(tables, pages)
    ensures ScanIsRight(tables, pages, visited, queries, complete)
  {
    visited, queries, complete := [], 0, false;
    var lastId := 0;
    while queries < |pages|
      invariant queries <= |pages| && !complete
      invariant Reading(tables, pages, queries, visited, lastId)
    {
      var page := pages[queries];
      if |page| < BATCH {
        ReadLast(tables, pages, queries, visited, lastId);
      } else {
        ReadAnother(tables, pages, queries, visited, lastId);
      }
      queries := queries + 1;
      if |page| == 0 {
        assert visited + page == visited;
        complete := true;
        return;
      }
      lastId := page[|page| - 1];
      visited := visited + page;
      if |page| < BATCH {
        complete := true;
        return;
      }
    }
  }

  lemma AppendPage(before: seq<int>, page: seq<int>)
    requires Ascending(before) && Ascending(page) && page != []
    requires forall a, b :: a in before && b in page ==> a < b
    ensures Ascending(before + page)
    ensures forall id :: id in before + page ==> id <= page[|page| - 1]
  {
    var all := before + page;
    forall i, j | 0 <= i < j < |all| ensures all[i] < all[j] {
      if i < |before| <= j { assert all[i] in before && all[j] in page; }
    }
    forall id | id in all ensures id <= page[|page| - 1] {
      if id in before { assert page[|page| - 1] in page; }
    }
  }
}
