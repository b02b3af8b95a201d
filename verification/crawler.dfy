/**
 * One city of `run`: sample the grid, run the list phase over the samples,
 * write the list file, then run the detail phase over the collected records.
 */
module Crawler {
  import opened Wrappers
  import opened JsonValue
  import opened GridSampler
  import opened RecordStore
  import opened ListAggregator
  import opened DetailCollector

  /** `list(all_items.values())`: the values of `ids`' entries, in that order. */
  function Values(ids: seq<Json>, entries: map<Json, Item>): (r: seq<Item>)
    requires forall i :: 0 <= i < |ids| ==> ids[i] in entries
    ensures |r| == |ids|
    ensures forall i :: 0 <= i < |ids| ==> r[i] == entries[ids[i]]
  {
    if ids == [] then []
    else Values(ids[..|ids| - 1], entries) + [entries[ids[|ids| - 1]]]
  }

  /** The records written to the list file, in the order their ids were first stored. */
  function ListFile(s: Store): seq<Item>
    requires Wf(s)
  {
    Values(s.order, s.entries)
  }

  /**
   * Every record in the list file passed the item filter, carries the id it
   * was stored under, and no id occurs twice.
   */
  lemma ListFileSound(s: Store, contains: Region)
    requires Wf(s) && Sound(s, contains)
    ensures |ListFile(s)| == |s.entries|
    ensures forall i :: 0 <= i < |ListFile(s)| ==> Accepted(ListFile(s)[i], contains)
    ensures forall i, j :: 0 <= i < j < |ListFile(s)| ==> Field(ListFile(s)[i], "id") != Field(ListFile(s)[j], "id")
  {
    var r := ListFile(s);
    forall i | 0 <= i < |r|
      ensures Hit(r[i], s.order[i], contains)
    {
      assert r[i] == s.entries[s.order[i]];
    }
    OrderCoversEntries(s);
  }

  /** The key order of a well-formed store lists exactly its keys, once each. */
  lemma OrderCoversEntries(s: Store)
    requires Wf(s)
    ensures |s.order| == |s.entries|
  {
    var keys := set i | 0 <= i < |s.order| :: s.order[i];
    assert keys == s.entries.Keys;
    DistinctSize(s.order);
  }

  /** A sequence without repeats has as many distinct elements as it is long. */
  lemma {:induction false} DistinctSize(xs: seq<Json>)
    requires forall i, j :: 0 <= i < j < |xs| ==> xs[i] != xs[j]
    ensures |set i | 0 <= i < |xs| :: xs[i]| == |xs|
  {
    if xs != [] {
      var init := xs[..|xs| - 1];
      DistinctSize(init);
      var before := set i | 0 <= i < |init| :: init[i];
      var after := set i | 0 <= i < |xs| :: xs[i];
      assert after == before + {xs[|xs| - 1]};
      assert xs[|xs| - 1] !in before;
    }
  }

  /** What one city produces: the list file and the detail files. */
  datatype CityOutput = CityOutput(listFile: seq<Item>, details: seq<(Json, Json)>)

  /**
   * The body of `for city, cfg in CITIES.items()` for one city. None means a
   * reply raised during the list phase, which aborts `run`.
   */
  method CrawlCity(box: Box, step: int, inside: (int, int) -> bool, toLonLat: (int, int) -> LonLat,
                   contains: Region, listFetch: ListEndpoint, detailFetch: DetailEndpoint)
    returns (out: Option<CityOutput>)
    requires step > 0
    requires forall pt :: pt in GridPoints(box, step, inside, toLonLat) ==> Live(listFetch, pt)
    ensures var points := GridPoints(box, step, inside, toLonLat);
            var stored := ListResult(Empty, points, listFetch, contains);
            && (out.None? <==> stored.None?)
            && (out.Some? ==> && Wf(stored.value)
                              && out.value.listFile == ListFile(stored.value)
                              && out.value.details == Written(stored.value.order, detailFetch))
  {
    var points := GeneratePoints(box, step, inside, toLonLat);
    var stored := ListPhase(points, listFetch, contains);
    if stored.None? {
      return None;
    }
    var s := stored.value;
    var details, requested := CollectDetails(s, detailFetch);
    return Some(CityOutput(ListFile(s), details));
  }
}
