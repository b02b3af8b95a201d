# Grid crawler for a map-search API, in Dafny

This project models `crawler.py`, a crawler for a product map-search service. For each city, the crawler:

1. lays a metric grid over the city's bounding box and keeps the grid points the city region contains (`generate_points_in_polygon`);
2. for every point, requests result pages 1, 2, 3, ... through the retrying wrapper `safe_post`, and stops at the first empty or falsy reply;
3. merges the items of each page into the dict `all_items`, keyed by item id. An item is kept only if its id, longitude and latitude are truthy and its position lies inside the city; a later item with the same id wins;
4. writes `list(all_items.values())` as the list file;
5. fetches every stored id's detail through `safe_get`, and writes a file for each truthy reply.

Modules, one per concern of the script:

- `JsonValue`: decoded JSON, Python truthiness, `dict.get`.
- `SafeRequest`: the `safe_post` / `safe_get` retry loop.
- `GridSampler`: `generate_points_in_polygon`.
- `RecordStore`: `all_items` as an insertion-ordered dict, and the per-page filtered merge.
- `ListAggregator`: the page loop per point, and the loop over points.
- `DetailCollector`: the detail loop.
- `Crawler`: one city of `run`.

External inputs become parameters:

- **Remote service.** A function from (point, page) or id to the outcomes of the successive HTTP attempts. `None` stands for an attempt that raised.
- **Region membership.** `inside` is the test on grid coordinates. `contains` is the test on item coordinates.
- **Reverse projection.** `toLonLat` maps a grid point back to longitude and latitude.
- **Bounding box.** The projected region's box, `Box`.

Each loop of the script is a method with loop invariants. Each method is proved equal to a recursive specification function, and the lemmas state what the script promises about those functions.

Three consequences of the code as written are proved:

- **A small region yields no points.** `generate_points_in_polygon` (crawler.py:111-122) tests only the grid points `minx + i*step`, `miny + j*step`, and uses a strict `contains`. When the bounding box is no larger than one step in each direction, the only candidate is the box corner `(minx, miny)`. A region never strictly contains the corner of its own bounding box, so the result is empty (`GridSampler.SmallRegionYieldsNothing`).
- **A 5000 m square sampled every 3000 m yields one point.** The candidates are (0, 0), (0, 3000), (3000, 0) and (3000, 3000). Only (3000, 3000) lies strictly inside the square (`GridSampler.SquareExample`).
- **Some malformed replies abort the whole run.** `.get` is called on the reply, on its `detail` and on every item (crawler.py:192, 197-199). When any of these is not a dict, the call raises. Nothing in `run` catches it, so the run ends with no file written for the current city. Only transport errors are retried and absorbed, inside `safe_post` / `safe_get`. The model reports such a run as `None` (`ListAggregator.NonDictReplyCrashes`, `ListAggregator.NonDictDetailCrashes`, `ListAggregator.NonDictItemCrashes`, `ListAggregator.AbortIsFinal`, `ListAggregator.ListPhase`). An empty item list is not one of these cases: it ends the loop normally (`ListAggregator.EmptyListEnds`).

## Model

| member | source | states |
|---|---|---|
| SafeRequest.Attempt | crawler.py:59-73 | Returns the first successful attempt among the first `retries`, with the number of requests issued. Every earlier attempt failed; None means all `retries` attempts failed. |
| SafeRequest.FirstSuccessIsFirst | crawler.py:76-90 | A returned reply is the outcome of some attempt `k < retries`, and every attempt before `k` raised. |
| SafeRequest.ExhaustedIffAllFailed | crawler.py:59-73 | The wrapper returns None if and only if every allowed attempt raised. |
| SafeRequest.FailuresThenSuccess | crawler.py:60-73 | An operation failing `k` times and then succeeding yields that success when `k < retries`, and None otherwise. |
| JsonValue.Truthy | crawler.py:189-193 | Python's `not x` on decoded JSON: a value is falsy exactly when it is None, False, 0, an empty string, an empty list or an empty dict. The crawler also tests truthiness at lines 201 and 222. |
| JsonValue.Get | crawler.py:192 | `o.get(key, default)` gives the stored value when the key is present, and the default otherwise. |
| JsonValue.Field | crawler.py:197-199 | `item.get(key)` is truthy only when the key is present with a truthy value, and is then that value. |
| GridSampler.Arange | crawler.py:113-114 | `np.arange(lo, hi, step)` gives `lo + i*step` for each i. All values lie in `[lo, hi)`, and the next value would reach `hi`, so none is missing. |
| GridSampler.ArangeSingleCell | crawler.py:113-114 | An extent of at most one step gives the single coordinate `lo`. |
| GridSampler.GeneratePoints | crawler.py:109-124 | The nested x-major loops return exactly `GridPoints`: the contained candidates of the grid, mapped back to longitude/latitude, in walk order. |
| GridSampler.CandidateAt | crawler.py:117-118 | The walk is x-major: candidate number `i * len(ys) + j` is `(xs[i], ys[j])`. |
| GridSampler.CandidatesLength | crawler.py:117-118 | The walk visits `len(xs) * len(ys)` candidates. |
| GridSampler.EmitAppend | crawler.py:116-122 | The points from a concatenation of candidate runs are the points of each run, in order. |
| GridSampler.EmitSound | crawler.py:119-122 | Each emitted point is the image of a contained candidate, and there are no more points than candidates. |
| GridSampler.EmitComplete | crawler.py:119-122 | Each contained candidate's image is emitted. |
| GridSampler.GridPointsBound | crawler.py:113-124 | The sampler returns at most `len(xs) * len(ys)` points. |
| GridSampler.GridPointsSound | crawler.py:113-124 | Each returned point is `toLonLat(x, y)` for a grid x, a grid y and a contained (x, y). |
| GridSampler.GridPointsComplete | crawler.py:113-124 | Each grid point `(minx + i*step, miny + j*step)` that the region contains is returned. |
| GridSampler.CandidatesInGrid | crawler.py:117-118 | Each candidate pairs a value of `xs` with a value of `ys`. |
| GridSampler.SmallRegionYieldsNothing | crawler.py:111-122 | For any bounding box no larger than one step in each direction, whose corner `(minx, miny)` the region does not contain, the sampler returns no point. |
| GridSampler.SquareExample | crawler.py:111-122 | The 5000 m square with step 3000 m yields exactly the one point (3000, 3000). |
| RecordStore.Accepted | crawler.py:197-206 | An item is kept exactly when `id`, `longitude` and `latitude` are present and truthy, and the region contains that longitude and latitude. |
| RecordStore.Put | crawler.py:208 | `all_items[pid] = item` stores `item` under `pid`. Every other key keeps its presence and value. The old order stays a prefix, and a well-formed dict stays well formed. The order is unchanged exactly when the key was already present. |
| RecordStore.LastAccepted | crawler.py:196-208 | Reference for last-write-wins. It finds nothing if and only if no item is an accepted item with id `k`; otherwise it finds an accepted item with id `k`. |
| RecordStore.LastAcceptedIsLast | crawler.py:196-208 | The found item occurs in the page, and no later item is an accepted item with the same id. |
| RecordStore.MergePage | crawler.py:196-208 | The item loop, including its two `continue` branches, equals `MergeAll`. It keeps the dict well formed, never reorders existing keys, and stores only filtered items under their own ids. |
| RecordStore.MergeLookup | crawler.py:196-208 | After a merge, a key is present if and only if it was present before or some accepted item carries it. Its value is the last such item, or else the old value. |
| RecordStore.MergePreservesWf | crawler.py:208 | The merge keeps every key exactly once in the iteration order, and only appends new keys. |
| RecordStore.FreshIds | crawler.py:196-208 | Reference for the keys a merge appends. They are the ids of accepted items scanned from the front, each at its first occurrence. None of them is already known, and none repeats. |
| RecordStore.MergeOrder | crawler.py:196-208 | After a merge, the dict's iteration order is the old order followed by `FreshIds`. This is the order the list file (crawler.py:214) and the detail loop (crawler.py:219) follow. |
| RecordStore.MergePreservesSound | crawler.py:201-208 | After a merge, every stored record still passed the filter and sits under its own id. |
| RecordStore.MergeAppend | crawler.py:196-208 | Merging `a + b` equals merging `a` and then `b`. |
| RecordStore.RejectedItemIgnored | crawler.py:201-206 | An item that fails the filter has no effect, wherever it occurs. |
| RecordStore.LaterBatchWins | crawler.py:208 | If a later batch holds an accepted item with id `k`, the stored record is that batch's last such item. |
| RecordStore.UntouchedKeysUnchanged | crawler.py:208 | A key that no accepted item carries keeps its presence and its value. |
| ListAggregator.Classify | crawler.py:189-194 | No reply, or a falsy one, ends the page loop. A raise needs a truthy reply. Items come only from a dict reply with `detail`, and are non-empty. |
| ListAggregator.ClassifyPage | crawler.py:192-196 | A reply yields items if and only if it is a dict whose `detail` is a dict whose `data` is a non-empty list of dicts. The items are exactly those dicts. |
| ListAggregator.ClassifyEnd | crawler.py:189-194 | The loop breaks exactly when there is no reply or a falsy reply, or when the reply is a dict whose `detail` (default `{}`) is a dict whose `data` (default `[]`) is falsy. |
| ListAggregator.EmptyListEnds | crawler.py:192-194 | A reply whose `detail.data` is the empty list, the ordinary last page, ends the loop and does not raise. |
| ListAggregator.NonDictReplyCrashes | crawler.py:189-192 | A truthy reply that is not a dict makes the first `.get` raise. |
| ListAggregator.NonDictItemCrashes | crawler.py:196-197 | A list element that is not a dict makes `item.get` raise. |
| ListAggregator.MissingListEnds | crawler.py:192-194 | A dict reply without `detail`, or whose `detail` lacks `data`, ends the loop through the defaults and does not raise. |
| ListAggregator.NonDictDetailCrashes | crawler.py:192 | A present `detail` that is not a dict makes the second `.get` raise. |
| ListAggregator.Objects | crawler.py:196 | The items are the list's dict elements, one for one. |
| ListAggregator.FetchPage | crawler.py:183-194 | A page request through `safe_post` with the default budget, classified; the items it yields are that page's items. |
| ListAggregator.PaginatePoint | crawler.py:180-211 | Stops at `last`, the first page that ends the loop: no earlier page ends it. Reports a raise exactly when page `last` raises. Returns the store with pages `1 .. last-1` merged in order. |
| ListAggregator.LastPageUnique | crawler.py:182-194 | The first ending page is unique. |
| ListAggregator.MergedPagesIsMerge | crawler.py:180-210 | Merging pages one by one equals merging their concatenated items. |
| ListAggregator.PointResultOfLoop | crawler.py:180-211 | The loop raises if and only if the point's result is an abort. Otherwise its store is the point's result. |
| ListAggregator.PointStoreIsMerge | crawler.py:180-210 | A point's store is the merge of all items of its pages before the last. |
| ListAggregator.AbortIsFinal | crawler.py:178-211 | Once a point aborts, the whole list phase aborts. |
| ListAggregator.ListResultIsMerge | crawler.py:175-211 | A list phase that completes yields the merge of the items of every point's pages, in point order, into the empty dict. |
| ListAggregator.ListResultSound | crawler.py:175-211 | A completed list phase leaves a well-formed dict of filtered records keyed by their ids. |
| ListAggregator.ListPhase | crawler.py:175-211 | The loop over points equals `ListResult`. Its store is well formed and sound. |
| DetailCollector.FetchDetail | crawler.py:141-147 | `fetch_detail` returns what `safe_get` returns with the default budget. |
| DetailCollector.CollectDetails | crawler.py:219-227 | Requests every stored id once, in the dict's insertion order. The files written are `Written` of that order. |
| DetailCollector.WrittenSound | crawler.py:219-226 | Each written file belongs to a visited id whose reply is truthy, and holds that reply. |
| DetailCollector.WrittenComplete | crawler.py:221-226 | Each visited id with a truthy reply gets its file. |
| DetailCollector.WrittenOnce | crawler.py:219-226 | Distinct ids give distinct files: no id is written twice. |
| Crawler.Values | crawler.py:214 | `list(d.values())` follows the key order, one value per key. |
| Crawler.ListFileSound | crawler.py:213-216 | The list file holds one record per stored id, each passing the filter, with no id repeated. |
| Crawler.OrderCoversEntries | crawler.py:175-208 | The dict's iteration order has exactly as many entries as the dict. |
| Crawler.CrawlCity | crawler.py:163-227 | One city: the sampled points go to the list phase. On an abort nothing is written. Otherwise the list file is the store's values in insertion order, and the detail files are `Written` over the stored ids. Page liveness is required only at the sampled points. |

## Left out

- **HTTP transport.** TLS, timeouts, headers, the request payload of `fetch_list` / `fetch_detail` and `r.json()` parsing are not modelled. Each attempt's outcome is an input.
- **Timing.** `time.sleep` pacing and the random back-off are not modelled; they do not change any result.
- **Geometry libraries.** Reading the GeoJSON, the polygon union (`load_city_polygon`), the pyproj projections, `round(…, 6)` and shapely's `contains` belong to external libraries. They are parameters: `Box`, `inside`, `contains` and `toLonLat`.
- **Coordinates.** Grid coordinates are whole metres. The real bounds are floating-point, and `np.arange` on floats can differ by one element at the upper edge.
- **Files and output.** `save_json`, directory creation, file paths, the timestamp and `print` are not modelled. A written detail file is the pair (id, reply).
- **The `CITIES` loop.** One city is modelled; cities are independent except that an abort in one ends `run`.
- **Python key equality.** Ids compare by their JSON value. Python's `True == 1` / `1 == 1.0` key collisions, unhashable ids (a TypeError), and file-name collisions between ids such as `1` and `"1"` are not modelled.
- **Non-numeric coordinates.** A truthy longitude or latitude that `Point` rejects would raise. Here it is just another argument to `contains`.
- ListAggregator.PaginatePoint: requires that the queried point's pages eventually end (`Live`). The source loop has no page cap and would run forever otherwise. `Crawler.CrawlCity` asks this only of the sampled points.
- ListAggregator.PaginatePoint: does not list the page numbers it requested. Its contract gives only `last`; the pages are `1 .. last` because the loop starts at 1 and adds one per iteration.
- ListAggregator.PaginatePoint: on an abort, the returned store holds the merges up to the previous page. The script would have merged the raising page's earlier items first. The run ends there and writes nothing, so no output depends on this.
