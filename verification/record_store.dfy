/**
 * The record store `all_items` and the filtered merge of one result page into
 * it. An item is kept only when its `id`, `longitude` and `latitude` are all
 * truthy and the region independently contains its point; a kept item is
 * stored under its id, and a later write of the same id replaces the earlier
 * one.
 *
 * `all_items` is a Python dict, whose iteration order is the order in which
 * keys were first inserted; the store records that order beside the entries,
 * because the list file and the detail phase both follow it.
 */
module RecordStore {
  import opened Wrappers
  import opened JsonValue

  /** `city_polygon.contains(Point(lon, lat))`, applied to the raw field values. */
  type Region = (Json, Json) -> bool

  /** A dict from item id to item, with its key iteration order. */
  datatype Store = Store(order: seq<Json>, entries: map<Json, Item>)

  /** `all_items = {}` */
  const Empty: Store := Store([], map[])

  /** The order lists every key exactly once. */
  predicate Wf(s: Store)
  {
    && (forall i, j :: 0 <= i < j < |s.order| ==> s.order[i] != s.order[j])
    && (forall k :: k in s.entries ==> k in s.order)
    && (forall i :: 0 <= i < |s.order| ==> s.order[i] in s.entries)
  }

  /** The item filter: truthy id, longitude and latitude, and a point inside the region. */
  predicate Accepted(item: Item, contains: Region)
    ensures Accepted(item, contains) <==>
              && "id" in item && Truthy(item["id"])
              && "longitude" in item && Truthy(item["longitude"])
              && "latitude" in item && Truthy(item["latitude"])
              && contains(item["longitude"], item["latitude"])
  {
    && Truthy(Field(item, "id"))
    && Truthy(Field(item, "longitude"))
    && Truthy(Field(item, "latitude"))
    && contains(Field(item, "longitude"), Field(item, "latitude"))
  }

  /** An accepted item carrying id `k`. */
  predicate Hit(item: Item, k: Json, contains: Region)
  {
    Accepted(item, contains) && Field(item, "id") == k
  }

  /** Every stored record passed the filter and is stored under its own id. */
  predicate Sound(s: Store, contains: Region)
  {
    forall k :: k in s.entries ==> Hit(s.entries[k], k, contains)
  }

  /** `all_items[k] = v`: an existing key keeps its place, a new key goes last. */
  function Put(s: Store, k: Json, v: Item): (r: Store)
    ensures k in r.entries && r.entries[k] == v
    ensures forall k' :: k' != k ==> (k' in r.entries <==> k' in s.entries)
    ensures forall k' :: k' != k && k' in s.entries ==> r.entries[k'] == s.entries[k']
    ensures s.order <= r.order
    ensures Wf(s) ==> Wf(r) && (k in s.entries <==> r.order == s.order)
  {
    Store(if k in s.entries then s.order else s.order + [k], s.entries[k := v])
  }

  /** The store after merging `items` one after the other. */
  function MergeAll(s: Store, items: seq<Item>, contains: Region): Store
  {
    if items == [] then s
    else
      var item := items[|items| - 1];
      var before := MergeAll(s, items[..|items| - 1], contains);
      if Accepted(item, contains) then Put(before, Field(item, "id"), item) else before
  }

  /** Reference definition of last-write-wins: the last accepted item with id `k`, if any. */
  function LastAccepted(items: seq<Item>, k: Json, contains: Region): (r: Option<Item>)
    ensures r.None? <==> forall i :: 0 <= i < |items| ==> !Hit(items[i], k, contains)
    ensures r.Some? ==> Hit(r.value, k, contains)
  {
    if items == [] then None
    else
      var item, init := items[|items| - 1], items[..|items| - 1];
      assert forall i :: 0 <= i < |init| ==> init[i] == items[i];
      if Hit(item, k, contains) then Some(item) else LastAccepted(init, k, contains)
  }

  /** The item LastAccepted finds stands in `items`, and no later item is an accepted one with id `k`. */
  lemma {:induction false} LastAcceptedIsLast(items: seq<Item>, k: Json, contains: Region)
    requires LastAccepted(items, k, contains).Some?
    ensures exists i :: 0 <= i < |items| && items[i] == LastAccepted(items, k, contains).value
                        && forall j :: i < j < |items| ==> !Hit(items[j], k, contains)
  {
    var n := |items|;
    if Hit(items[n - 1], k, contains) {
      assert items[n - 1] == LastAccepted(items, k, contains).value;
    } else {
      var init := items[..n - 1];
      var found := LastAccepted(init, k, contains).value;
      assert LastAccepted(items, k, contains) == LastAccepted(init, k, contains);
      LastAcceptedIsLast(init, k, contains);
      var i :| 0 <= i < |init| && init[i] == found && forall j :: i < j < |init| ==> !Hit(init[j], k, contains);
      forall j | i < j < n
        ensures !Hit(items[j], k, contains)
      {
        if j < n - 1 {
          assert items[j] == init[j];
        }
      }
      assert items[i] == init[i];
    }
  }

  /** Merging one page, as the `for item in items` loop does it. */
  method MergePage(store: Store, items: seq<Item>, contains: Region) returns (s: Store)
    ensures s == MergeAll(store, items, contains)
    ensures Wf(store) ==> Wf(s) && store.order <= s.order
    ensures Sound(store, contains) ==> Sound(s, contains)
  {
    s := store;
    var i := 0;
    while i < |items|
      invariant 0 <= i <= |items|
      invariant s == MergeAll(store, items[..i], contains)
    {
      var item := items[i];
      assert items[..i + 1][..i] == items[..i];
      i := i + 1;
      var pid := Field(item, "id");
      var ilon := Field(item, "longitude");
      var ilat := Field(item, "latitude");
      if !Truthy(pid) || !Truthy(ilon) || !Truthy(ilat) {
        continue;
      }
      if !contains(ilon, ilat) {
        continue;
      }
      s := Put(s, pid, item);
    }
    assert items[..i] == items;
    if Wf(store) {
      MergePreservesWf(store, items, contains);
    }
    if Sound(store, contains) {
      MergePreservesSound(store, items, contains);
    }
  }

  /**
   * What a merge leaves under each key: the last accepted item with that id,
   * and otherwise the value the key had before (absent if it was absent).
   */
  lemma {:induction false} MergeLookup(s: Store, items: seq<Item>, k: Json, contains: Region)
    ensures k in MergeAll(s, items, contains).entries <==> k in s.entries || LastAccepted(items, k, contains).Some?
    ensures k in MergeAll(s, items, contains).entries ==>
              MergeAll(s, items, contains).entries[k] ==
                match LastAccepted(items, k, contains)
                case Some(item) => item
                case None => s.entries[k]
  {
    if items != [] {
      MergeLookup(s, items[..|items| - 1], k, contains);
    }
  }

  /** A merge keeps keys unique and only appends new keys to the order. */
  lemma {:induction false} MergePreservesWf(s: Store, items: seq<Item>, contains: Region)
    requires Wf(s)
    ensures Wf(MergeAll(s, items, contains))
    ensures s.order <= MergeAll(s, items, contains).order
  {
    if items != [] {
      MergePreservesWf(s, items[..|items| - 1], contains);
    }
  }

  /**
   * Reference definition of the keys a merge appends: scanning `items` from
   * the front, the id of every accepted item not already in `known`, each
   * taken at its first occurrence.
   */
  function FreshIds(known: seq<Json>, items: seq<Item>, contains: Region): (r: seq<Json>)
    ensures forall k :: k in r ==> k !in known
    ensures forall i, j :: 0 <= i < j < |r| ==> r[i] != r[j]
    decreases |items|
  {
    if items == [] then []
    else
      var id := Field(items[0], "id");
      if Accepted(items[0], contains) && id !in known then
        var rest := FreshIds(known + [id], items[1..], contains);
        assert id !in rest;
        [id] + rest
      else FreshIds(known, items[1..], contains)
  }

  /**
   * The iteration order after a merge: the old order, then the new ids in
   * order of their first accepted occurrence.
   */
  lemma {:induction false} MergeOrder(s: Store, items: seq<Item>, contains: Region)
    requires Wf(s)
    ensures MergeAll(s, items, contains).order == s.order + FreshIds(s.order, items, contains)
    decreases |items|
  {
    if items != [] {
      var x, rest := items[0], items[1..];
      assert items == [x] + rest;
      MergeAppend(s, [x], rest, contains);
      assert [x][..0] == [];
      var s1 := MergeAll(s, [x], contains);
      MergePreservesWf(s, [x], contains);
      MergeOrder(s1, rest, contains);
      var id := Field(x, "id");
      if Accepted(x, contains) && id !in s.order {
        assert s1.order == s.order + [id];
      } else if Accepted(x, contains) {
        assert s1.order == s.order;
      }
    }
  }

  /** After a merge every record is an accepted item stored under its own id. */
  lemma {:induction false} MergePreservesSound(s: Store, items: seq<Item>, contains: Region)
    requires Sound(s, contains)
    ensures Sound(MergeAll(s, items, contains), contains)
  {
    if items != [] {
      MergePreservesSound(s, items[..|items| - 1], contains);
    }
  }

  /** Merging two batches in turn is merging their concatenation. */
  lemma {:induction false} MergeAppend(s: Store, a: seq<Item>, b: seq<Item>, contains: Region)
    ensures MergeAll(s, a + b, contains) == MergeAll(MergeAll(s, a, contains), b, contains)
    decreases |b|
  {
    if b == [] {
      assert a + b == a;
    } else {
      assert (a + b)[..|a + b| - 1] == a + b[..|b| - 1];
      MergeAppend(s, a, b[..|b| - 1], contains);
    }
  }

  /** An item the filter rejects leaves the store as it would be without it, wherever it stands. */
  lemma RejectedItemIgnored(s: Store, a: seq<Item>, item: Item, b: seq<Item>, contains: Region)
    requires !Accepted(item, contains)
    ensures MergeAll(s, a + [item] + b, contains) == MergeAll(s, a + b, contains)
  {
    MergeAppend(s, a + [item], b, contains);
    MergeAppend(s, a, [item], contains);
    assert [item][..0] == [];
    MergeAppend(s, a, b, contains);
  }

  /**
   * Two batches that share an id: the store holds exactly one entry for it,
   * the later batch's last accepted item.
   */
  lemma LaterBatchWins(s: Store, a: seq<Item>, b: seq<Item>, k: Json, contains: Region)
    requires exists i :: 0 <= i < |b| && Hit(b[i], k, contains)
    ensures k in MergeAll(s, a + b, contains).entries
    ensures MergeAll(s, a + b, contains).entries[k] == LastAccepted(b, k, contains).value
  {
    MergeAppend(s, a, b, contains);
    MergeLookup(MergeAll(s, a, contains), b, k, contains);
  }

  /** Keys that no accepted item carries keep their previous value, or stay absent. */
  lemma UntouchedKeysUnchanged(s: Store, items: seq<Item>, k: Json, contains: Region)
    requires forall i :: 0 <= i < |items| ==> !Hit(items[i], k, contains)
    ensures k in MergeAll(s, items, contains).entries <==> k in s.entries
    ensures k in s.entries ==> MergeAll(s, items, contains).entries[k] == s.entries[k]
  {
    MergeLookup(s, items, k, contains);
  }
}
