/**
 * The bulk "select first N rows" walk of the submit handler
 * (src/components/ArtDatatable.tsx:140-168): starting from an empty map it
 * fetches pages 1, 2, ... of size `rows` while rows remain to be selected and
 * the page index is at most ceil(total / rows), sets rows in returned order,
 * and stops at the first failed fetch keeping what it has.
 */
module BulkWalk {
  import opened Wrappers
  import opened Artworks
  import opened Paging

  /** The first `n` rows of `items`, or all of them when there are fewer. */
  function Take(items: seq<ArtItem>, n: nat): (taken: seq<ArtItem>)
    ensures |taken| == if |items| <= n then |items| else n
    ensures taken == items[..|taken|]
  {
    if |items| <= n then items else items[..n]
  }

  // ---------------------------------------------------------------------------
  // The walk as a state machine
  // ---------------------------------------------------------------------------

  /**
   * The walk's variables: the rows set so far, in the order they were set (the
   * map `tempPersistentSelections` is `BuildMap` of them), the rows still to
   * select (`itemsToSelectCounter`), the page index (`currentPageNum`), and the
   * page whose fetch failed, once one has.
   */
  datatype Progress = Progress(taken: seq<ArtItem>, counter: nat, page: nat, failedAt: Option<nat>)

  /** The loop has ended: a fetch failed, no row remains to select, or the last page is past. */
  predicate Finished(p: Progress, last: nat)
  {
    p.failedAt.Some? || p.counter == 0 || p.page > last
  }

  /**
   * One iteration: request page `p.page`. A failed request ends the loop
   * without moving to the next page; otherwise the page's rows are set in
   * order while the counter is positive, and the page index moves on.
   */
  function Advance(p: Progress, rows: nat, source: Source): (q: Progress)
  {
    match source(p.page, rows)
    case None => p.(failedAt := Some(p.page))
    case Some(result) =>
      var t := Take(result.data, p.counter);
      Progress(p.taken + t, p.counter - |t|, p.page + 1, None)
  }

  /** The loop run to its end from state `p`, with `last` = ceil(total / rows). */
  function Run(p: Progress, last: nat, rows: nat, source: Source): (q: Progress)
    decreases if p.page <= last then last + 1 - p.page else 0, if p.failedAt.None? then 1 else 0
  {
    if Finished(p, last) then p else Run(Advance(p, rows, source), last, rows, source)
  }

  /** Number of page requests a finished run made, from page 1. */
  function Requests(q: Progress): nat
  {
    if q.failedAt.Some? then q.page else if q.page > 0 then q.page - 1 else 0
  }

  /** The walk the submit handler runs for `num` rows with the current total and page size. */
  function SelectFirstN(num: nat, total: nat, rows: nat, source: Source): Progress
    requires rows > 0
  {
    Run(Progress([], num, 1, None), LastPage(total, rows), rows, source)
  }

  /**
   * Bounds of a run from a fresh state at a page no further than one past the
   * last: rows are only appended, one for each decrement of the counter; the
   * page index only grows and stays within one past the last page; a failure is
   * reported for the page index where the loop stopped; and a run that has
   * nothing to do changes nothing.
   */
  lemma {:induction false} RunBounds(p: Progress, last: nat, rows: nat, source: Source)
    requires 1 <= p.page <= last + 1 && p.failedAt.None?
    ensures var q := Run(p, last, rows, source);
      && |p.taken| <= |q.taken| && q.taken[..|p.taken|] == p.taken
      && |q.taken| + q.counter == |p.taken| + p.counter
      && p.page <= q.page <= last + 1
      && (q.failedAt.Some? ==> q.failedAt.value == q.page <= last && q.counter > 0)
      && (q.failedAt.None? ==> q.counter == 0 || q.page == last + 1)
      && (p.counter == 0 || p.page > last ==> q == p)
    decreases last + 1 - p.page
  {
    if !Finished(p, last) {
      var next := Advance(p, rows, source);
      if next.failedAt.None? {
        RunBounds(next, last, rows, source);
        assert next.taken[..|p.taken|] == p.taken;
      }
    }
  }

  /**
   * A walk for `num` rows keeps 0 <= counter <= num, has consumed num - counter
   * rows, and requests at most ceil(total / rows) pages; for 0 rows it requests
   * nothing and selects nothing.
   */
  lemma SelectFirstNBounds(num: nat, total: nat, rows: nat, source: Source)
    requires rows > 0
    ensures var q := SelectFirstN(num, total, rows, source);
      && q.counter <= num
      && |q.taken| == num - q.counter
      && Requests(q) <= LastPage(total, rows)
      && (q.failedAt.Some? ==> q.failedAt.value == Requests(q) && q.counter > 0)
      && (num == 0 ==> q == Progress([], 0, 1, None) && Requests(q) == 0)
  {
    var last := LastPage(total, rows);
    var p := Progress([], num, 1, None);
    if last == 0 {
      assert Run(p, last, rows, source) == p;
    } else {
      RunBounds(p, last, rows, source);
    }
  }

  // ---------------------------------------------------------------------------
  // The reference order: pages lo..hi concatenated, when all of them fetch
  // ---------------------------------------------------------------------------

  /** Every page from `lo` to `hi` is delivered by the source. */
  predicate AllFetched(source: Source, rows: nat, lo: nat, hi: nat)
  {
    forall p :: lo <= p <= hi ==> source(p, rows).Some?
  }

  /** The rows of pages lo..hi in (page index, position) order. */
  function Rows(source: Source, rows: nat, lo: nat, hi: nat): seq<ArtItem>
    requires AllFetched(source, rows, lo, hi)
    decreases if lo <= hi then hi + 1 - lo else 0
  {
    if lo > hi then [] else source(lo, rows).value.data + Rows(source, rows, lo + 1, hi)
  }

  lemma TakeAppend(a: seq<ArtItem>, b: seq<ArtItem>, n: nat)
    ensures |a| <= n ==> Take(a + b, n) == a + Take(b, n - |a|)
    ensures |a| >= n ==> Take(a + b, n) == Take(a, n)
  {
    if |a| <= n {
      var t := Take(a + b, n);
      assert t[..|a|] == a;
      assert t[|a|..] == Take(b, n - |a|);
      assert t == t[..|a|] + t[|a|..];
    }
  }

  /** Taking `n` rows across two pieces: take from the first, then the rest from the second. */
  lemma TakeStep(before: seq<ArtItem>, a: seq<ArtItem>, b: seq<ArtItem>, n: nat)
    ensures var t := Take(a, n);
      before + t + Take(b, n - |t|) == before + Take(a + b, n)
  {
    TakeAppend(a, b, n);
    var t := Take(a, n);
    if |a| > n {
      assert Take(b, n - |t|) == [];
    }
  }

  /** An iteration whose fetch succeeds moves the walk to the next page. */
  lemma RunStep(taken: seq<ArtItem>, counter: nat, page: nat, last: nat, rows: nat, source: Source)
    requires 0 < counter && page <= last && source(page, rows).Some?
    ensures var t := Take(source(page, rows).value.data, counter);
      Run(Progress(taken, counter, page, None), last, rows, source)
        == Run(Progress(taken + t, counter - |t|, page + 1, None), last, rows, source)
  {
  }

  /** An iteration whose fetch fails ends the walk at that page. */
  lemma RunFails(taken: seq<ArtItem>, counter: nat, page: nat, last: nat, rows: nat, source: Source)
    requires 0 < counter && page <= last && source(page, rows).None?
    ensures Run(Progress(taken, counter, page, None), last, rows, source)
      == Progress(taken, counter, page, Some(page))
  {
  }

  /**
   * From a state having taken `taken` and about to fetch `page` with every page
   * up to `last` delivered, the walk goes on to take exactly the first
   * `counter` rows of those pages, in (page, position) order, and reports no failure.
   */
  ghost predicate TakesPrefix(taken: seq<ArtItem>, counter: nat, page: nat, last: nat, rows: nat, source: Source)
    requires AllFetched(source, rows, page, last)
  {
    var q := Run(Progress(taken, counter, page, None), last, rows, source);
    q.taken == taken + Take(Rows(source, rows, page, last), counter) && q.failedAt == None
  }

  /** If the walk takes the prefix from the next page on, it takes it from this page on. */
  lemma TakesPrefixStep(taken: seq<ArtItem>, counter: nat, page: nat, last: nat, rows: nat, source: Source)
    requires 1 <= page <= last && counter > 0
    requires AllFetched(source, rows, page, last)
    requires var t := Take(source(page, rows).value.data, counter);
      TakesPrefix(taken + t, counter - |t|, page + 1, last, rows, source)
    ensures TakesPrefix(taken, counter, page, last, rows, source)
  {
    var data := source(page, rows).value.data;
    var rest := Rows(source, rows, page + 1, last);
    assert Rows(source, rows, page, last) == data + rest;
    RunStep(taken, counter, page, last, rows, source);
    TakeStep(taken, data, rest, counter);
  }

  /**
   * When every page in range is delivered, the walk takes exactly the first
   * `counter` rows of those pages, in (page, position) order, and reports no failure.
   */
  lemma {:induction false} RunTakesPrefix(taken: seq<ArtItem>, counter: nat, page: nat, last: nat, rows: nat, source: Source)
    requires page >= 1
    requires AllFetched(source, rows, page, last)
    ensures TakesPrefix(taken, counter, page, last, rows, source)
    decreases if page <= last then last + 1 - page else 0
  {
    if counter == 0 || page > last {
      assert taken + Take(Rows(source, rows, page, last), counter) == taken;
    } else {
      var t := Take(source(page, rows).value.data, counter);
      RunTakesPrefix(taken + t, counter - |t|, page + 1, last, rows, source);
      TakesPrefixStep(taken, counter, page, last, rows, source);
    }
  }

  /**
   * When pages page..k-1 are delivered, hold fewer than `counter` rows, and the
   * fetch of page k (k <= last) fails, the walk has set exactly the rows of
   * page..k-1 and stops at page k, reporting it.
   */
  lemma {:induction false} RunStopsAtFailure(taken: seq<ArtItem>, counter: nat, page: nat, k: nat, last: nat, rows: nat, source: Source)
    requires 1 <= page <= k <= last
    requires AllFetched(source, rows, page, k - 1)
    requires source(k, rows).None?
    requires |Rows(source, rows, page, k - 1)| < counter
    ensures var kept := Rows(source, rows, page, k - 1);
      Run(Progress(taken, counter, page, None), last, rows, source)
        == Progress(taken + kept, counter - |kept|, k, Some(k))
    decreases k - page
  {
    var kept := Rows(source, rows, page, k - 1);
    if page == k {
      assert taken + kept == taken;
    } else {
      var data := source(page, rows).value.data;
      var rest := Rows(source, rows, page + 1, k - 1);
      assert kept == data + rest;
      assert Take(data, counter) == data;
      RunStep(taken, counter, page, last, rows, source);
      RunStopsAtFailure(taken + data, counter - |data|, page + 1, k, last, rows, source);
      assert taken + data + rest == taken + kept;
    }
  }

  /**
   * When pages page..k (k <= last) are delivered and hold at least `counter`
   * rows, the walk takes exactly the first `counter` rows of those pages, in
   * (page, position) order, ends with the counter at 0, and requests no page
   * beyond k: what later pages would deliver does not matter.
   */
  lemma {:induction false} RunTakesPrefixUpTo(taken: seq<ArtItem>, counter: nat, page: nat, k: nat, last: nat, rows: nat, source: Source)
    requires 1 <= page <= k + 1 && k <= last
    requires AllFetched(source, rows, page, k)
    requires counter <= |Rows(source, rows, page, k)|
    ensures var q := Run(Progress(taken, counter, page, None), last, rows, source);
      && q.taken == taken + Rows(source, rows, page, k)[..counter]
      && q.counter == 0
      && q.failedAt == None
      && q.page <= k + 1
    decreases k + 1 - page
  {
    var all := Rows(source, rows, page, k);
    if counter == 0 {
      assert taken + all[..counter] == taken;
    } else {
      var data := source(page, rows).value.data;
      var rest := Rows(source, rows, page + 1, k);
      assert all == data + rest;
      var t := Take(data, counter);
      RunStep(taken, counter, page, last, rows, source);
      RunTakesPrefixUpTo(taken + t, counter - |t|, page + 1, k, last, rows, source);
      TakeStep(taken, data, rest, counter);
      assert all[..counter] == Take(all, counter);
      assert rest[..counter - |t|] == Take(rest, counter - |t|);
    }
  }

  /**
   * Full success: when pages 1..k (k <= ceil(total/rows)) are delivered and
   * hold at least `num` rows, the walk sets exactly the first `num` rows in
   * (page, position) order, the counter ends at 0, and no page beyond k is
   * requested, so pages after k may fail without effect.
   */
  lemma SelectFirstNSucceeds(num: nat, total: nat, rows: nat, k: nat, source: Source)
    requires rows > 0
    requires k <= LastPage(total, rows)
    requires AllFetched(source, rows, 1, k)
    requires num <= |Rows(source, rows, 1, k)|
    ensures var q := SelectFirstN(num, total, rows, source);
      && q.taken == Rows(source, rows, 1, k)[..num]
      && q.counter == 0
      && q.failedAt == None
      && Requests(q) <= k
  {
    RunTakesPrefixUpTo([], num, 1, k, LastPage(total, rows), rows, source);
    assert [] + Rows(source, rows, 1, k)[..num] == Rows(source, rows, 1, k)[..num];
  }

  /** Asking for every row of a dataset whose pages all arrive selects all of them. */
  lemma SelectFirstNAll(total: nat, rows: nat, source: Source)
    requires rows > 0
    requires AllFetched(source, rows, 1, LastPage(total, rows))
    requires |Rows(source, rows, 1, LastPage(total, rows))| == total
    ensures var q := SelectFirstN(total, total, rows, source);
      q.taken == Rows(source, rows, 1, LastPage(total, rows)) && q.counter == 0 && q.failedAt == None
  {
    SelectFirstNSucceeds(total, total, rows, LastPage(total, rows), source);
    assert Rows(source, rows, 1, LastPage(total, rows))[..total] == Rows(source, rows, 1, LastPage(total, rows));
  }

  lemma PrefixDistinct(items: seq<ArtItem>, n: nat)
    requires n <= |items| && DistinctIds(items)
    ensures DistinctIds(items[..n])
  {
  }

  /**
   * With ids distinct across pages 1..k, which are delivered and hold at least
   * `num` rows, the walk leaves a map with exactly `num` entries, each of the
   * first `num` rows under its own id.
   */
  lemma SelectFirstNMapSize(num: nat, total: nat, rows: nat, k: nat, source: Source)
    requires rows > 0
    requires k <= LastPage(total, rows)
    requires AllFetched(source, rows, 1, k)
    requires num <= |Rows(source, rows, 1, k)|
    requires DistinctIds(Rows(source, rows, 1, k))
    ensures |BuildMap(SelectFirstN(num, total, rows, source).taken)| == num
    ensures forall i :: 0 <= i < num ==>
      var x := Rows(source, rows, 1, k)[i];
      x.id in BuildMap(SelectFirstN(num, total, rows, source).taken)
        && BuildMap(SelectFirstN(num, total, rows, source).taken)[x.id] == x
  {
    var all := Rows(source, rows, 1, k);
    SelectFirstNSucceeds(num, total, rows, k, source);
    PrefixDistinct(all, num);
    BuildMapSize(all[..num]);
  }

  /**
   * Partial failure: if pages 1..k-1 are delivered with fewer than `num` rows and
   * the fetch of page k fails, the new map holds exactly the rows of pages 1..k-1
   * (nothing is rolled back and nothing of the old map survives), the walk made
   * k requests, and the count it reports is theirs, short of `num`.
   */
  lemma SelectFirstNPartial(num: nat, total: nat, rows: nat, k: nat, source: Source)
    requires rows > 0
    requires 1 <= k <= LastPage(total, rows)
    requires AllFetched(source, rows, 1, k - 1)
    requires source(k, rows).None?
    requires |Rows(source, rows, 1, k - 1)| < num
    ensures var q := SelectFirstN(num, total, rows, source);
      && q.taken == Rows(source, rows, 1, k - 1)
      && num - q.counter == |Rows(source, rows, 1, k - 1)| < num
      && q.failedAt == Some(k)
      && Requests(q) == k
  {
    RunStopsAtFailure([], num, 1, k, LastPage(total, rows), rows, source);
  }

  // ---------------------------------------------------------------------------
  // The loop itself
  // ---------------------------------------------------------------------------

  /** The page indices 1, 2, ..., n in request order. */
  function PagesThrough(n: nat): (pages: seq<nat>)
    ensures |pages| == n
    ensures forall i :: 0 <= i < n ==> pages[i] == i + 1
  {
    if n == 0 then [] else PagesThrough(n - 1) + [n]
  }

  /**
   * The inner `for` loop of the walk: set the page's rows in order while the
   * counter is positive, decrementing it for each.
   */
  method TakeFromPage(selected: Selection, counter: nat, pageData: seq<ArtItem>)
    returns (selected': Selection, counter': nat)
    ensures selected' == SetAll(selected, Take(pageData, counter))
    ensures counter' == counter - |Take(pageData, counter)|
  {
    selected', counter' := selected, counter;
    var j := 0;
    while j < |pageData| && counter' > 0
      invariant 0 <= j <= |pageData|
      invariant counter' == counter - j
      invariant selected' == SetAll(selected, pageData[..j])
    {
      SetAllSnoc(selected, pageData[..j], pageData[j]);
      assert pageData[..j + 1] == pageData[..j] + [pageData[j]];
      selected' := selected'[pageData[j].id := pageData[j]];
      counter' := counter' - 1;
      j := j + 1;
    }
    assert pageData[..j] == Take(pageData, counter);
  }

  /**
   * One iteration of the loop below when the page arrives: the run from the
   * next state is the same run, and the map grows by the page's taken rows.
   */
  lemma LoopStep(taken: seq<ArtItem>, counter: nat, page: nat, last: nat, rows: nat, source: Source)
    requires 0 < counter && page <= last && source(page, rows).Some?
    ensures var t := Take(source(page, rows).value.data, counter);
      && Run(Progress(taken + t, counter - |t|, page + 1, None), last, rows, source)
           == Run(Progress(taken, counter, page, None), last, rows, source)
      && BuildMap(taken + t) == SetAll(BuildMap(taken), t)
  {
    RunStep(taken, counter, page, last, rows, source);
    SetAllAppend(map[], taken, Take(source(page, rows).value.data, counter));
  }

  /**
   * The submit handler's `while` loop, for `last` = ceil(total / rows) (the
   * bound is the same on every iteration, so it is computed once). Returns the
   * new persistent map, the remaining counter (`itemsToSelectCounter`), the
   * pages requested in order, and the page whose fetch failed, if any.
   */
  method BulkSelect(num: nat, last: nat, rows: nat, source: Source)
    returns (selected: Selection, counter: nat, requested: seq<nat>, failedAt: Option<nat>)
    ensures var final := Run(Progress([], num, 1, None), last, rows, source);
      && selected == BuildMap(final.taken)
      && counter == final.counter
      && failedAt == final.failedAt
      && requested == PagesThrough(Requests(final))
  {
    ghost var final := Run(Progress([], num, 1, None), last, rows, source);
    ghost var taken: seq<ArtItem> := [];
    counter := num;
    var currentPage := 1;
    selected := map[];
    requested := [];
    while counter > 0 && currentPage <= last
      invariant 1 <= currentPage
      invariant requested == PagesThrough(currentPage - 1)
      invariant selected == BuildMap(taken)
      invariant Run(Progress(taken, counter, currentPage, None), last, rows, source) == final
      decreases last + 1 - currentPage
    {
      requested := requested + [currentPage];
      var response := source(currentPage, rows);
      if response.None? {
        RunFails(taken, counter, currentPage, last, rows, source);
        failedAt := Some(currentPage);
        return;
      }
      ghost var t := Take(response.value.data, counter);
      LoopStep(taken, counter, currentPage, last, rows, source);
      selected, counter := TakeFromPage(selected, counter, response.value.data);
      taken := taken + t;
      currentPage := currentPage + 1;
    }
    assert Run(Progress(taken, counter, currentPage, None), last, rows, source)
      == Progress(taken, counter, currentPage, None);
    failedAt := None;
  }
}
