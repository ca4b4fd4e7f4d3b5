/**
 * The records the table shows and the map operations the selection manager
 * builds on (src/components/ArtDatatable.tsx:10-18).
 */
module Artworks {
  import opened Wrappers

  /** One artwork row. Only `id` takes part in selection; the rest is carried along. */
  datatype ArtItem = ArtItem(
    id: string,
    title: string,
    placeOfOrigin: string,
    artistDisplay: string,
    inscriptions: string,
    dateStart: int,
    dateEnd: int)

  /** One page as the data source reports it: its rows and the dataset's total. */
  datatype Page = Page(data: seq<ArtItem>, total: nat)

  /**
   * The data source: given a 1-based page index and a page size it returns a page,
   * or None when the request fails (network error, non-ok status, unreadable body).
   */
  type Source = (nat, nat) -> Option<Page>

  /** The persistent, dataset-wide selection: id to record (`Map<string, ArtItem>`). */
  type Selection = map<string, ArtItem>

  /** The ids occurring in a row sequence. */
  function Ids(items: seq<ArtItem>): set<string>
  {
    set item | item in items :: item.id
  }

  /** `items.some(x => x.id === id)`. */
  predicate HasId(items: seq<ArtItem>, id: string)
  {
    exists j :: 0 <= j < |items| && items[j].id == id
  }

  /** No two rows share an id (the table is keyed by `id`). */
  predicate DistinctIds(items: seq<ArtItem>)
  {
    forall i, j :: 0 <= i < j < |items| ==> items[i].id != items[j].id
  }

  lemma HasIdIsIds(items: seq<ArtItem>, id: string)
    ensures HasId(items, id) <==> id in Ids(items)
  {
    if HasId(items, id) {
      var j :| 0 <= j < |items| && items[j].id == id;
      assert items[j] in items;
    }
  }

  lemma IdsAppend(a: seq<ArtItem>, b: seq<ArtItem>)
    ensures Ids(a + b) == Ids(a) + Ids(b)
  {
    forall k | k in Ids(a + b) ensures k in Ids(a) + Ids(b) {
      var x :| x in a + b && x.id == k;
      if x in a {} else { assert x in b; }
    }
    forall k | k in Ids(a) + Ids(b) ensures k in Ids(a + b) {
      if k in Ids(a) { var x :| x in a && x.id == k; assert x in a + b; }
      else { var x :| x in b && x.id == k; assert x in a + b; }
    }
  }

  /**
   * The map after `m.set(x.id, x)` for each x of `items` in order: later rows
   * overwrite earlier ones with the same id. Its properties are stated by the
   * lemmas below rather than as postconditions, so that every proof mentioning
   * a map built this way does not pay for them.
   */
  function SetAll(m: Selection, items: seq<ArtItem>): Selection
  {
    if items == [] then m
    else
      var init, last := items[..|items| - 1], items[|items| - 1];
      SetAll(m, init)[last.id := last]
  }

  /** The keys afterwards are the old keys and the ids of `items`. */
  lemma {:induction false} SetAllKeys(m: Selection, items: seq<ArtItem>)
    ensures SetAll(m, items).Keys == m.Keys + Ids(items)
  {
    if items != [] {
      var init, last := items[..|items| - 1], items[|items| - 1];
      assert items == init + [last];
      IdsAppend(init, [last]);
      assert Ids([last]) == {last.id};
      SetAllKeys(m, init);
    }
  }

  /**
   * Keys `items` does not mention keep their old binding; every id `items`
   * mentions is bound to a row of `items` with that id.
   */
  lemma {:induction false} SetAllValues(m: Selection, items: seq<ArtItem>)
    ensures SetAll(m, items).Keys == m.Keys + Ids(items)
    ensures forall k :: k in m && k !in Ids(items) ==> k in SetAll(m, items) && SetAll(m, items)[k] == m[k]
    ensures forall k :: k in Ids(items) ==>
      k in SetAll(m, items) && SetAll(m, items)[k] in items && SetAll(m, items)[k].id == k
  {
    SetAllKeys(m, items);
    if items != [] {
      var init, last := items[..|items| - 1], items[|items| - 1];
      assert items == init + [last];
      IdsAppend(init, [last]);
      assert Ids([last]) == {last.id};
      SetAllValues(m, init);
    }
  }

  /** Setting one more row is one more `set` call on the map so far. */
  lemma SetAllSnoc(m: Selection, items: seq<ArtItem>, x: ArtItem)
    ensures SetAll(m, items + [x]) == SetAll(m, items)[x.id := x]
  {
    assert (items + [x])[..|items|] == items;
  }

  /** Setting `a` and then `b` is setting `a + b`. */
  lemma {:induction false} SetAllAppend(m: Selection, a: seq<ArtItem>, b: seq<ArtItem>)
    ensures SetAll(m, a + b) == SetAll(SetAll(m, a), b)
  {
    if b == [] {
      assert a + b == a;
    } else {
      var init, last := b[..|b| - 1], b[|b| - 1];
      assert a + b == (a + init) + [last];
      SetAllSnoc(m, a + init, last);
      SetAllAppend(m, a, init);
    }
  }

  /** The map made from nothing but `items`: `new Map()` followed by the `set` calls. */
  function BuildMap(items: seq<ArtItem>): Selection
  {
    SetAll(map[], items)
  }

  /** A map built from `items` has their ids as keys, each bound to a row of `items` with that id. */
  lemma BuildMapContents(items: seq<ArtItem>)
    ensures BuildMap(items).Keys == Ids(items)
    ensures forall k :: k in BuildMap(items) ==> BuildMap(items)[k] in items && BuildMap(items)[k].id == k
  {
    SetAllValues(map[], items);
  }

  /** For the ids `items` sets, the result does not depend on what the map held before. */
  lemma {:induction false} SetAllOverrides(m1: Selection, m2: Selection, items: seq<ArtItem>, k: string)
    requires k in Ids(items)
    ensures k in SetAll(m1, items) && k in SetAll(m2, items)
    ensures SetAll(m1, items)[k] == SetAll(m2, items)[k]
  {
    var init, last := items[..|items| - 1], items[|items| - 1];
    assert items == init + [last];
    IdsAppend(init, [last]);
    assert Ids([last]) == {last.id};
    if k != last.id {
      SetAllOverrides(m1, m2, init, k);
    }
  }

  /** With distinct ids every row of `items` ends up bound to its own id. */
  lemma {:induction false} SetAllDistinct(m: Selection, items: seq<ArtItem>)
    requires DistinctIds(items)
    ensures forall i :: 0 <= i < |items| ==>
      items[i].id in SetAll(m, items) && SetAll(m, items)[items[i].id] == items[i]
  {
    if items != [] {
      var init, last := items[..|items| - 1], items[|items| - 1];
      assert DistinctIds(init);
      SetAllDistinct(m, init);
      forall i | 0 <= i < |items|
        ensures items[i].id in SetAll(m, items) && SetAll(m, items)[items[i].id] == items[i]
      {
        if i < |items| - 1 {
          assert init[i] == items[i];
          assert items[i].id != last.id;
        }
      }
    }
  }

  /** With distinct ids the last row's id does not occur among the earlier rows. */
  lemma LastIdFresh(items: seq<ArtItem>)
    requires items != [] && DistinctIds(items)
    ensures items[|items| - 1].id !in Ids(items[..|items| - 1])
  {
    var init := items[..|items| - 1];
    forall x | x in init ensures x.id != items[|items| - 1].id {
      var i :| 0 <= i < |init| && init[i] == x;
      assert items[i] == x;
    }
  }

  /**
   * With distinct ids the map built from `items` has exactly |items| entries,
   * each row bound to its own id.
   */
  lemma {:induction false} BuildMapSize(items: seq<ArtItem>)
    requires DistinctIds(items)
    ensures |BuildMap(items)| == |items|
    ensures forall i :: 0 <= i < |items| ==>
      items[i].id in BuildMap(items) && BuildMap(items)[items[i].id] == items[i]
  {
    SetAllDistinct(map[], items);
    if items != [] {
      var init, last := items[..|items| - 1], items[|items| - 1];
      assert DistinctIds(init);
      BuildMapSize(init);
      LastIdFresh(items);
      SetAllKeys(map[], init);
      var m0 := BuildMap(init);
      assert BuildMap(items) == m0[last.id := last];
      assert |m0.Keys + {last.id}| == |m0.Keys| + 1;
    }
  }
}
