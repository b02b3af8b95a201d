/**
 * The detail phase of `run`: for every key of `all_items`, in the dict's
 * iteration order, fetch the product detail through `safe_get` and write it
 * to its own file when the reply is truthy.
 *
 * The endpoint is a parameter giving, per id, the outcomes of the successive
 * attempts `safe_get` would make. A written file is modelled as the pair
 * (id, detail) it is written for; paths and the JSON serialisation are not
 * part of this model.
 */
module DetailCollector {
  import opened Wrappers
  import opened JsonValue
  import opened SafeRequest
  import opened RecordStore

  /** Attempt outcomes of `fetch_detail(pid)`, per id. */
  type DetailEndpoint = Json -> seq<Option<Json>>

  /** The reply `safe_get` returns for one id. */
  function DetailReply(fetch: DetailEndpoint, pid: Json): Option<Json>
  {
    FirstSuccess(fetch(pid), 0, DefaultRetries)
  }

  /** `if detail:` — the reply arrived and is truthy, so a file is written. */
  predicate Saved(fetch: DetailEndpoint, pid: Json)
  {
    DetailReply(fetch, pid).Some? && Truthy(DetailReply(fetch, pid).value)
  }

  /** The files written for `ids`, in visiting order. */
  function Written(ids: seq<Json>, fetch: DetailEndpoint): (w: seq<(Json, Json)>)
    ensures |w| <= |ids|
  {
    if ids == [] then []
    else
      var pid := ids[|ids| - 1];
      Written(ids[..|ids| - 1], fetch) + (if Saved(fetch, pid) then [(pid, DetailReply(fetch, pid).value)] else [])
  }

  /** `fetch_detail` for one id through `safe_get`. */
  method FetchDetail(fetch: DetailEndpoint, pid: Json) returns (detail: Option<Json>)
    ensures detail == DetailReply(fetch, pid)
  {
    var attempts;
    detail, attempts := Attempt(fetch(pid), DefaultRetries);
  }

  /**
   * `for pid in all_items:` — `requested` lists the ids passed to
   * `fetch_detail`, `written` the files saved, both in visiting order.
   */
  method CollectDetails(store: Store, fetch: DetailEndpoint) returns (written: seq<(Json, Json)>, requested: seq<Json>)
    ensures requested == store.order
    ensures Wf(store) ==> forall k :: k in store.entries <==> k in requested
    ensures Wf(store) ==> forall i, j :: 0 <= i < j < |requested| ==> requested[i] != requested[j]
    ensures written == Written(store.order, fetch)
  {
    var ids := store.order;
    written := [];
    requested := [];
    var i := 0;
    while i < |ids|
      invariant 0 <= i <= |ids|
      invariant requested == ids[..i]
      invariant written == Written(ids[..i], fetch)
    {
      var pid := ids[i];
      assert ids[..i + 1][..i] == ids[..i];
      var detail := FetchDetail(fetch, pid);
      requested := requested + [pid];
      if detail.Some? && Truthy(detail.value) {
        written := written + [(pid, detail.value)];
      }
      i := i + 1;
    }
    assert ids[..i] == ids;
  }

  /** Every written file holds the truthy reply for an id that was visited. */
  lemma {:induction false} WrittenSound(ids: seq<Json>, fetch: DetailEndpoint, n: nat)
    requires n < |Written(ids, fetch)|
    ensures Written(ids, fetch)[n].0 in ids
    ensures Saved(fetch, Written(ids, fetch)[n].0)
    ensures Written(ids, fetch)[n].1 == DetailReply(fetch, Written(ids, fetch)[n].0).value
  {
    var init := ids[..|ids| - 1];
    var before := Written(init, fetch);
    if n < |before| {
      WrittenSound(init, fetch, n);
      assert Written(ids, fetch)[n] == before[n];
      assert before[n].0 in init;
    }
  }

  /** Every visited id whose reply is truthy gets its file. */
  lemma {:induction false} WrittenComplete(ids: seq<Json>, fetch: DetailEndpoint, i: nat)
    requires i < |ids| && Saved(fetch, ids[i])
    ensures (ids[i], DetailReply(fetch, ids[i]).value) in Written(ids, fetch)
  {
    var init := ids[..|ids| - 1];
    if i < |ids| - 1 {
      WrittenComplete(init, fetch, i);
      assert init[i] == ids[i];
    }
  }

  /** Distinct ids give distinct files: no id is written twice. */
  lemma {:induction false} WrittenOnce(ids: seq<Json>, fetch: DetailEndpoint)
    requires forall i, j :: 0 <= i < j < |ids| ==> ids[i] != ids[j]
    ensures forall m, n :: 0 <= m < n < |Written(ids, fetch)| ==> Written(ids, fetch)[m].0 != Written(ids, fetch)[n].0
  {
    if ids != [] {
      var init, pid := ids[..|ids| - 1], ids[|ids| - 1];
      var before := Written(init, fetch);
      WrittenOnce(init, fetch);
      forall m | 0 <= m < |before|
        ensures before[m].0 != pid
      {
        WrittenSound(init, fetch, m);
      }
    }
  }
}
