/**
 * The list phase of `run`: for each sample point, request pages 1, 2, 3, ...
 * through `safe_post`, stop at the first reply that is falsy or carries no
 * items, and merge every earlier page into the shared record store.
 *
 * The remote endpoint is a parameter: for a point and a page number it gives
 * the outcomes of the successive attempts `safe_post` would make. A reply
 * whose shape makes a `.get` call raise aborts the whole run; the model
 * reports that as None.
 */
module ListAggregator {
  import opened Wrappers
  import opened JsonValue
  import opened SafeRequest
  import opened RecordStore
  import opened GridSampler

  /** Attempt outcomes of `fetch_list(lon, lat, radius, page)`, per point and page. */
  type ListEndpoint = (LonLat, nat) -> seq<Option<Json>>

  /** What one reply means to the page loop. */
  datatype PageOutcome =
    | End                   // `break`: the reply is falsy, or its item list is falsy
    | Page(items: seq<Item>) // items to merge before requesting the next page
    | Crash                 // a `.get` on something that is not a dict raises

  /**
   * `if not data: break`, then `data.get('detail', {}).get('data', [])`,
   * `if not items: break`, and `item.get(...)` on every item.
   */
  function Classify(data: Option<Json>): (r: PageOutcome)
    ensures data.None? ==> r == End
    ensures data.Some? && !Truthy(data.value) ==> r == End
    ensures r.Crash? ==> data.Some? && Truthy(data.value)
    ensures r.Page? ==> data.Some? && data.value.JObj? && "detail" in data.value.o && |r.items| > 0
  {
    match data
    case None => End
    case Some(body) =>
      if !Truthy(body) then End
      else if !body.JObj? then Crash
      else
        var detail := Get(body.o, "detail", JObj(map[]));
        if !detail.JObj? then Crash
        else
          var items := Get(detail.o, "data", JArr([]));
          if !Truthy(items) then End
          else if items.JArr? && AllObjects(items.a) then Page(Objects(items.a))
          else Crash
  }

  /**
   * A reply yields items exactly when it is a dict whose `detail` is a dict
   * whose `data` is a non-empty list of dicts; the items are those dicts.
   */
  lemma ClassifyPage(data: Option<Json>)
    ensures Classify(data).Page? <==>
              && data.Some? && data.value.JObj? && "detail" in data.value.o
              && data.value.o["detail"].JObj? && "data" in data.value.o["detail"].o
              && data.value.o["detail"].o["data"].JArr? && data.value.o["detail"].o["data"].a != []
              && AllObjects(data.value.o["detail"].o["data"].a)
    ensures Classify(data).Page? ==>
              forall i :: 0 <= i < |Classify(data).items| ==> data.value.o["detail"].o["data"].a[i] == JObj(Classify(data).items[i])
  {
  }

  /** A dict reply without `detail`, or whose `detail` has no `data`, ends the loop without raising. */
  lemma MissingListEnds(body: Json)
    requires body.JObj?
    requires "detail" !in body.o || (body.o["detail"].JObj? && "data" !in body.o["detail"].o)
    ensures Classify(Some(body)) == End
  {
  }

  /** A `detail` that is present but not a dict (`null`, a list, ...) makes `.get` raise. */
  lemma NonDictDetailCrashes(body: Json)
    requires body.JObj? && "detail" in body.o && !body.o["detail"].JObj?
    ensures Classify(Some(body)) == Crash
  {
  }

  /**
   * Exactly these replies end the loop with a `break`: no reply, a falsy one,
   * or a dict whose `detail` (defaulting to `{}`) is a dict whose `data`
   * (defaulting to `[]`) is falsy. Every other reply yields items or raises.
   */
  lemma ClassifyEnd(data: Option<Json>)
    ensures Classify(data) == End <==>
              || data.None?
              || !Truthy(data.value)
              || (&& data.value.JObj?
                  && Get(data.value.o, "detail", JObj(map[])).JObj?
                  && !Truthy(Get(Get(data.value.o, "detail", JObj(map[])).o, "data", JArr([]))))
  {
  }

  /** The ordinary last page, an empty item list, ends the loop. */
  lemma EmptyListEnds(body: Json)
    requires body.JObj? && "detail" in body.o && body.o["detail"].JObj?
    requires "data" in body.o["detail"].o && body.o["detail"].o["data"] == JArr([])
    ensures Classify(Some(body)) == End
  {
  }

  /** A truthy reply that is not a dict makes the first `.get` raise. */
  lemma NonDictReplyCrashes(body: Json)
    requires Truthy(body) && !body.JObj?
    ensures Classify(Some(body)) == Crash
  {
  }

  /** A list element that is not a dict makes `item.get` raise. */
  lemma NonDictItemCrashes(body: Json, i: nat)
    requires body.JObj? && "detail" in body.o && body.o["detail"].JObj? && "data" in body.o["detail"].o
    requires body.o["detail"].o["data"].JArr? && i < |body.o["detail"].o["data"].a|
    requires !body.o["detail"].o["data"].a[i].JObj?
    ensures Classify(Some(body)) == Crash
  {
    AllObjectsAt(body.o["detail"].o["data"].a, i);
  }

  /** In a list of JSON objects every element is one. */
  lemma AllObjectsAt(a: seq<Json>, i: nat)
    requires i < |a|
    ensures AllObjects(a) ==> a[i].JObj?
  {
    if AllObjects(a) {
      assert a[i] == JObj(Objects(a)[i]);
    }
  }

  /** Every element is a JSON object, so `item.get` works on each. */
  predicate AllObjects(a: seq<Json>)
  {
    a == [] || (a[0].JObj? && AllObjects(a[1..]))
  }

  /** The elements of a list of JSON objects, as items. */
  function Objects(a: seq<Json>): (r: seq<Item>)
    requires AllObjects(a)
    ensures |r| == |a|
    ensures forall i :: 0 <= i < |a| ==> a[i] == JObj(r[i])
  {
    if a == [] then [] else [a[0].o] + Objects(a[1..])
  }

  /** The reply `safe_post` returns for one page request. */
  function Reply(fetch: ListEndpoint, pt: LonLat, page: nat): Option<Json>
  {
    FirstSuccess(fetch(pt, page), 0, DefaultRetries)
  }

  /** The page loop leaves the loop (by `break` or by raising) on this page. */
  predicate Ends(fetch: ListEndpoint, pt: LonLat, page: nat)
  {
    !Classify(Reply(fetch, pt, page)).Page?
  }

  /** The items page `page` contributes (none on the page that ends the loop). */
  function PageItems(fetch: ListEndpoint, pt: LonLat, page: nat): seq<Item>
  {
    match Classify(Reply(fetch, pt, page))
    case Page(items) => items
    case _ => []
  }

  /** The items of every page of one point, as a function of the page number. */
  function PagesOf(fetch: ListEndpoint, pt: LonLat): nat -> seq<Item>
  {
    (page: nat) => PageItems(fetch, pt, page)
  }

  /** No page before `n` ends the loop. */
  predicate NoEndBefore(fetch: ListEndpoint, pt: LonLat, n: nat)
  {
    forall q :: 1 <= q < n ==> !Ends(fetch, pt, q)
  }

  /** A page that does not end the loop extends the run of pages before the end. */
  lemma NoEndBeforeNext(fetch: ListEndpoint, pt: LonLat, n: nat)
    requires NoEndBefore(fetch, pt, n) && !Ends(fetch, pt, n)
    ensures NoEndBefore(fetch, pt, n + 1)
  {
  }

  /**
   * The liveness assumption the unbounded `while True` needs: some page ends
   * the loop for this point.
   */
  ghost predicate Live(fetch: ListEndpoint, pt: LonLat)
  {
    exists p: nat :: 1 <= p && Ends(fetch, pt, p)
  }

  /** The first page from `from` on that ends the loop, found below a known one. */
  ghost function FirstEndFrom(fetch: ListEndpoint, pt: LonLat, from: nat, bound: nat): (n: nat)
    requires 1 <= from <= bound && Ends(fetch, pt, bound)
    ensures from <= n <= bound && Ends(fetch, pt, n)
    ensures forall q :: from <= q < n ==> !Ends(fetch, pt, q)
    decreases bound - from
  {
    if Ends(fetch, pt, from) then from else FirstEndFrom(fetch, pt, from + 1, bound)
  }

  /** The last page requested for a point: the first one that ends the loop. */
  ghost function LastPage(fetch: ListEndpoint, pt: LonLat): (n: nat)
    requires Live(fetch, pt)
    ensures 1 <= n && Ends(fetch, pt, n)
    ensures forall q :: 1 <= q < n ==> !Ends(fetch, pt, q)
  {
    var bound: nat :| 1 <= bound && Ends(fetch, pt, bound);
    FirstEndFrom(fetch, pt, 1, bound)
  }

  /** The first page that ends the loop is unique. */
  lemma LastPageUnique(fetch: ListEndpoint, pt: LonLat, n: nat)
    requires Live(fetch, pt)
    requires 1 <= n && Ends(fetch, pt, n) && NoEndBefore(fetch, pt, n)
    ensures n == LastPage(fetch, pt)
  {
  }

  /** The items of pages 1 .. n, in request order. */
  function ItemsOfPages(pages: nat -> seq<Item>, n: nat): seq<Item>
  {
    if n == 0 then [] else ItemsOfPages(pages, n - 1) + pages(n)
  }

  /** The store after merging pages 1 .. n one page at a time, as the loop does. */
  function MergedPages(s0: Store, pages: nat -> seq<Item>, n: nat, contains: Region): Store
  {
    if n == 0 then s0 else MergeAll(MergedPages(s0, pages, n - 1, contains), pages(n), contains)
  }

  /** Merging page `n` into the store of pages 1 .. n - 1 gives the store of pages 1 .. n. */
  lemma MergedPagesNext(s0: Store, pages: nat -> seq<Item>, n: nat, contains: Region, s: Store, items: seq<Item>, s': Store)
    requires 1 <= n && pages(n) == items
    requires s == MergedPages(s0, pages, n - 1, contains)
    requires s' == MergeAll(s, items, contains)
    ensures s' == MergedPages(s0, pages, n, contains)
  {
  }

  /** Merging page by page is merging all their items in request order. */
  lemma {:induction false} MergedPagesIsMerge(s0: Store, pages: nat -> seq<Item>, n: nat, contains: Region)
    ensures MergedPages(s0, pages, n, contains) == MergeAll(s0, ItemsOfPages(pages, n), contains)
  {
    if n > 0 {
      MergedPagesIsMerge(s0, pages, n - 1, contains);
      MergeAppend(s0, ItemsOfPages(pages, n - 1), pages(n), contains);
    }
  }

  /** `fetch_list` for one page through `safe_post`, and what its reply means to the loop. */
  method FetchPage(fetch: ListEndpoint, pt: LonLat, page: nat) returns (outcome: PageOutcome)
    ensures outcome == Classify(Reply(fetch, pt, page))
    ensures outcome.Page? ==> PagesOf(fetch, pt)(page) == outcome.items
  {
    var data, _ := Attempt(fetch(pt, page), DefaultRetries);
    outcome := Classify(data);
  }

  /**
   * The `while True` page loop for one point. Pages 1, 2, ... are requested
   * in turn; `last` is the page whose reply ends the loop, and `crashed`
   * says that reply raised instead of breaking.
   */
  method PaginatePoint(s0: Store, fetch: ListEndpoint, pt: LonLat, contains: Region)
    returns (s: Store, crashed: bool, last: nat)
    requires Live(fetch, pt)
    ensures 1 <= last && Ends(fetch, pt, last) && NoEndBefore(fetch, pt, last)
    ensures crashed <==> Classify(Reply(fetch, pt, last)).Crash?
    ensures s == MergedPages(s0, PagesOf(fetch, pt), last - 1, contains)
  {
    ghost var bound: nat :| 1 <= bound && Ends(fetch, pt, bound);
    s := s0;
    last := 1;
    var outcome := FetchPage(fetch, pt, last);
    while outcome.Page?
      invariant 1 <= last <= bound
      invariant outcome == Classify(Reply(fetch, pt, last))
      invariant outcome.Page? ==> PagesOf(fetch, pt)(last) == outcome.items
      invariant NoEndBefore(fetch, pt, last)
      invariant s == MergedPages(s0, PagesOf(fetch, pt), last - 1, contains)
      decreases bound - last
    {
      NoEndBeforeNext(fetch, pt, last);
      ghost var before := s;
      s := MergePage(s, outcome.items, contains);
      MergedPagesNext(s0, PagesOf(fetch, pt), last, contains, before, outcome.items, s);
      last := last + 1;
      outcome := FetchPage(fetch, pt, last);
    }
    crashed := outcome.Crash?;
  }

  /** The store after paging through one point, or None when the run aborts there. */
  ghost function PointResult(s: Store, fetch: ListEndpoint, pt: LonLat, contains: Region): Option<Store>
    requires Live(fetch, pt)
  {
    if PointCrashes(fetch, pt) then None else Some(PointStore(s, fetch, pt, contains))
  }

  /** The page that ends the loop for this point raises instead of breaking. */
  ghost predicate PointCrashes(fetch: ListEndpoint, pt: LonLat)
    requires Live(fetch, pt)
  {
    Classify(Reply(fetch, pt, LastPage(fetch, pt))).Crash?
  }

  /** The store once every page before the point's last page is merged. */
  ghost function PointStore(s: Store, fetch: ListEndpoint, pt: LonLat, contains: Region): Store
    requires Live(fetch, pt)
  {
    MergedPages(s, PagesOf(fetch, pt), LastPage(fetch, pt) - 1, contains)
  }

  /** The items of the pages before the point's last page, in request order. */
  ghost function PointItems(fetch: ListEndpoint, pt: LonLat): seq<Item>
    requires Live(fetch, pt)
  {
    ItemsOfPages(PagesOf(fetch, pt), LastPage(fetch, pt) - 1)
  }

  /** The store the loop leaves at the point's last page is the point's store. */
  lemma PointStoreAt(s0: Store, fetch: ListEndpoint, pt: LonLat, contains: Region, s: Store, last: nat)
    requires Live(fetch, pt) && 1 <= last && last == LastPage(fetch, pt)
    requires s == MergedPages(s0, PagesOf(fetch, pt), last - 1, contains)
    ensures PointStore(s0, fetch, pt, contains) == s
  {
  }

  /** What `PaginatePoint` promises determines the point's result. */
  lemma PointResultOfLoop(s0: Store, fetch: ListEndpoint, pt: LonLat, contains: Region, s: Store, crashed: bool, last: nat)
    requires Live(fetch, pt)
    requires 1 <= last && Ends(fetch, pt, last) && NoEndBefore(fetch, pt, last)
    requires crashed <==> Classify(Reply(fetch, pt, last)).Crash?
    requires s == MergedPages(s0, PagesOf(fetch, pt), last - 1, contains)
    ensures crashed <==> PointResult(s0, fetch, pt, contains).None?
    ensures !crashed ==> PointResult(s0, fetch, pt, contains).value == s
  {
    LastPageUnique(fetch, pt, last);
    PointStoreAt(s0, fetch, pt, contains, s, last);
  }

  /** Paging through one point merges the point's items into the store it starts from. */
  lemma PointStoreIsMerge(s: Store, fetch: ListEndpoint, pt: LonLat, contains: Region)
    requires Live(fetch, pt)
    ensures PointStore(s, fetch, pt, contains) == MergeAll(s, PointItems(fetch, pt), contains)
  {
    MergedPagesIsMerge(s, PagesOf(fetch, pt), LastPage(fetch, pt) - 1, contains);
  }

  /** The store after the points one after the other, or None once the run has aborted. */
  ghost function ListResult(s: Store, points: seq<LonLat>, fetch: ListEndpoint, contains: Region): Option<Store>
    requires forall i :: 0 <= i < |points| ==> Live(fetch, points[i])
  {
    if points == [] then Some(s)
    else
      match ListResult(s, points[..|points| - 1], fetch, contains)
      case None => None
      case Some(before) => PointResult(before, fetch, points[|points| - 1], contains)
  }

  /** Every item merged for a list of points, in request order. */
  ghost function ItemsOfPoints(points: seq<LonLat>, fetch: ListEndpoint): seq<Item>
    requires forall i :: 0 <= i < |points| ==> Live(fetch, points[i])
  {
    if points == [] then []
    else ItemsOfPoints(points[..|points| - 1], fetch) + PointItems(fetch, points[|points| - 1])
  }

  /** Once a point aborts the run, later points do not bring it back. */
  lemma {:induction false} AbortIsFinal(s: Store, points: seq<LonLat>, i: nat, fetch: ListEndpoint, contains: Region)
    requires forall j :: 0 <= j < |points| ==> Live(fetch, points[j])
    requires i <= |points|
    requires ListResult(s, points[..i], fetch, contains).None?
    ensures ListResult(s, points, fetch, contains).None?
    decreases |points| - i
  {
    if i < |points| {
      assert points[..i + 1][..i] == points[..i];
      AbortIsFinal(s, points, i + 1, fetch, contains);
    } else {
      assert points[..i] == points;
    }
  }

  /** The list phase over one more point continues from the store the earlier points left. */
  lemma ListResultNext(s: Store, points: seq<LonLat>, i: nat, fetch: ListEndpoint, contains: Region)
    requires forall j :: 0 <= j < |points| ==> Live(fetch, points[j])
    requires i < |points|
    requires ListResult(s, points[..i], fetch, contains).Some?
    ensures ListResult(s, points[..i + 1], fetch, contains)
         == PointResult(ListResult(s, points[..i], fetch, contains).value, fetch, points[i], contains)
  {
    assert points[..i + 1][..i] == points[..i];
  }

  /** A run that completes the last point completed every earlier one. */
  lemma ListResultInit(s: Store, points: seq<LonLat>, fetch: ListEndpoint, contains: Region)
    requires forall i :: 0 <= i < |points| ==> Live(fetch, points[i])
    requires points != [] && ListResult(s, points, fetch, contains).Some?
    ensures ListResult(s, points[..|points| - 1], fetch, contains).Some?
  {
  }

  /** The inductive step of `ListResultIsMerge`: one more point merges its pages after the others. */
  lemma ListResultMergeStep(s: Store, points: seq<LonLat>, fetch: ListEndpoint, contains: Region)
    requires forall i :: 0 <= i < |points| ==> Live(fetch, points[i])
    requires points != [] && ListResult(s, points, fetch, contains).Some?
    requires ListResult(s, points[..|points| - 1], fetch, contains).Some?
    requires ListResult(s, points[..|points| - 1], fetch, contains).value
          == MergeAll(s, ItemsOfPoints(points[..|points| - 1], fetch), contains)
    ensures ListResult(s, points, fetch, contains).value == MergeAll(s, ItemsOfPoints(points, fetch), contains)
  {
    var init, pt := points[..|points| - 1], points[|points| - 1];
    var before := ListResult(s, init, fetch, contains).value;
    ListResultNext(s, points, |points| - 1, fetch, contains);
    assert points[..|points|] == points;
    PointStoreIsMerge(before, fetch, pt, contains);
    MergeAppend(s, ItemsOfPoints(init, fetch), PointItems(fetch, pt), contains);
  }

  /**
   * A list phase that completes leaves the sequential merge of exactly the
   * pages before each point's stopping page, across all points in order.
   */
  lemma {:induction false} ListResultIsMerge(s: Store, points: seq<LonLat>, fetch: ListEndpoint, contains: Region)
    requires forall i :: 0 <= i < |points| ==> Live(fetch, points[i])
    requires ListResult(s, points, fetch, contains).Some?
    ensures ListResult(s, points, fetch, contains).value == MergeAll(s, ItemsOfPoints(points, fetch), contains)
  {
    if points != [] {
      ListResultInit(s, points, fetch, contains);
      ListResultIsMerge(s, points[..|points| - 1], fetch, contains);
      ListResultMergeStep(s, points, fetch, contains);
    }
  }

  /** The finished store has unique keys and holds only accepted items under their own ids. */
  lemma ListResultSound(s: Store, points: seq<LonLat>, fetch: ListEndpoint, contains: Region)
    requires forall i :: 0 <= i < |points| ==> Live(fetch, points[i])
    requires Wf(s) && Sound(s, contains)
    requires ListResult(s, points, fetch, contains).Some?
    ensures Wf(ListResult(s, points, fetch, contains).value)
    ensures Sound(ListResult(s, points, fetch, contains).value, contains)
  {
    ListResultIsMerge(s, points, fetch, contains);
    MergePreservesWf(s, ItemsOfPoints(points, fetch), contains);
    MergePreservesSound(s, ItemsOfPoints(points, fetch), contains);
  }

  /** `all_items = {}` followed by the page loop for every point in turn. */
  method ListPhase(points: seq<LonLat>, fetch: ListEndpoint, contains: Region) returns (r: Option<Store>)
    requires forall i :: 0 <= i < |points| ==> Live(fetch, points[i])
    ensures r == ListResult(Empty, points, fetch, contains)
    ensures r.Some? ==> Wf(r.value) && Sound(r.value, contains)
  {
    var s := Empty;
    var i := 0;
    while i < |points|
      invariant 0 <= i <= |points|
      invariant ListResult(Empty, points[..i], fetch, contains) == Some(s)
    {
      var next, crashed, last := PaginatePoint(s, fetch, points[i], contains);
      PointResultOfLoop(s, fetch, points[i], contains, next, crashed, last);
      ListResultNext(Empty, points, i, fetch, contains);
      if crashed {
        AbortIsFinal(Empty, points, i + 1, fetch, contains);
        return None;
      }
      s := next;
      i := i + 1;
    }
    assert points[..i] == points;
    ListResultSound(Empty, points, fetch, contains);
    return Some(s);
  }
}
