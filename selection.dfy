/**
 * The two per-page operations of the selection manager: deriving the visible
 * selection of a fetched page from the persistent map (src/components/ArtDatatable.tsx:52-58)
 * and folding a user's checkbox change on the current page back into the map
 * (src/components/ArtDatatable.tsx:73-92).
 */
module PageSelection {
  import opened Artworks

  // ---------------------------------------------------------------------------
  // Reconciliation: visible selection = rows of the page whose id is persistent
  // ---------------------------------------------------------------------------

  /** The rows of `page`, in page order, whose id is a key of `persistent`. */
  function Reconciled(page: seq<ArtItem>, persistent: Selection): (visible: seq<ArtItem>)
    ensures |visible| <= |page|
  {
    if page == [] then []
    else
      var last := page[|page| - 1];
      Reconciled(page[..|page| - 1], persistent) + (if last.id in persistent then [last] else [])
  }

  /** A row is visible exactly when it is on the page and its id is persistent. */
  lemma {:induction false} ReconciledMembers(page: seq<ArtItem>, persistent: Selection)
    ensures forall x :: x in Reconciled(page, persistent) <==> x in page && x.id in persistent
  {
    if page != [] {
      var init, last := page[..|page| - 1], page[|page| - 1];
      ReconciledMembers(init, persistent);
      assert page == init + [last];
    }
  }

  /** Reconciliation keeps page order: it distributes over concatenation of pages. */
  lemma {:induction false} ReconciledAppend(a: seq<ArtItem>, b: seq<ArtItem>, persistent: Selection)
    ensures Reconciled(a + b, persistent) == Reconciled(a, persistent) + Reconciled(b, persistent)
  {
    if b == [] {
      assert a + b == a;
    } else {
      var init, last := b[..|b| - 1], b[|b| - 1];
      assert (a + b)[..|a + b| - 1] == a + init;
      assert (a + b)[|a + b| - 1] == last;
      ReconciledAppend(a, init, persistent);
    }
  }

  /** The visible ids are exactly the page ids that are persistent keys. */
  lemma ReconciledIds(page: seq<ArtItem>, persistent: Selection)
    ensures Ids(Reconciled(page, persistent)) == Ids(page) * persistent.Keys
  {
    ReconciledMembers(page, persistent);
    var visible := Reconciled(page, persistent);
    forall k | k in Ids(page) * persistent.Keys ensures k in Ids(visible) {
      var x :| x in page && x.id == k;
      assert x in visible;
    }
  }

  /**
   * The `forEach`/`push` loop of `fetchData`: builds the visible selection of a
   * freshly fetched page without touching the persistent map.
   */
  method ReconcilePage(page: seq<ArtItem>, persistent: Selection) returns (newSelection: seq<ArtItem>)
    ensures newSelection == Reconciled(page, persistent)
  {
    newSelection := [];
    for i := 0 to |page|
      invariant newSelection == Reconciled(page[..i], persistent)
    {
      var item := page[i];
      assert page[..i + 1][..i] == page[..i];
      if item.id in persistent {
        newSelection := newSelection + [item];
      }
    }
    assert page[..|page|] == page;
  }

  // ---------------------------------------------------------------------------
  // onSelectionChange: the new map after the user changes the current page
  // ---------------------------------------------------------------------------

  /**
   * The map `onSelectionChange` returns: ids of the page that are not in the new
   * selection are deleted, then every selected row is set under its id.
   */
  function Applied(page: seq<ArtItem>, prev: Selection, selected: seq<ArtItem>): (next: Selection)
    // selected ids are bound to a selected row with that id
    ensures forall k :: k in Ids(selected) ==> k in next && next[k] in selected && next[k].id == k
    // ids of the page that are no longer selected are gone
    ensures forall k :: k in Ids(page) && k !in Ids(selected) ==> k !in next
    // every other key keeps its old binding, and no other key appears
    ensures forall k :: k !in Ids(page) && k !in Ids(selected) ==>
      (k in next <==> k in prev) && (k in prev ==> next[k] == prev[k])
  {
    SetAllValues(prev - (Ids(page) - Ids(selected)), selected);
    SetAll(prev - (Ids(page) - Ids(selected)), selected)
  }

  /** With distinct selected ids, each selected row is bound to its own id. */
  lemma AppliedBindsSelected(page: seq<ArtItem>, prev: Selection, selected: seq<ArtItem>)
    requires DistinctIds(selected)
    ensures forall i :: 0 <= i < |selected| ==> Applied(page, prev, selected)[selected[i].id] == selected[i]
  {
    SetAllDistinct(prev - (Ids(page) - Ids(selected)), selected);
  }

  /**
   * When the selection is drawn from the current page (the table only offers the
   * page's rows), nothing off the page changes.
   */
  lemma AppliedOffPageUnchanged(page: seq<ArtItem>, prev: Selection, selected: seq<ArtItem>)
    requires forall x :: x in selected ==> x in page
    ensures forall k :: k !in Ids(page) ==>
      (k in Applied(page, prev, selected) <==> k in prev)
      && (k in prev ==> Applied(page, prev, selected)[k] == prev[k])
  {
    assert Ids(selected) <= Ids(page);
  }

  /** Applying the same change twice for the same page gives the map of applying it once. */
  lemma AppliedIdempotent(page: seq<ArtItem>, prev: Selection, selected: seq<ArtItem>)
    ensures Applied(page, Applied(page, prev, selected), selected) == Applied(page, prev, selected)
  {
    var once := Applied(page, prev, selected);
    var twice := Applied(page, once, selected);
    forall k | k in Ids(selected)
      ensures twice[k] == once[k]
    {
      SetAllOverrides(once - (Ids(page) - Ids(selected)), prev - (Ids(page) - Ids(selected)), selected, k);
    }
  }

  /**
   * Leaving the page and coming back to the same rows shows, as visible
   * selection, exactly the page rows whose ids the user had selected.
   */
  lemma ReturnToPageRestoresSelection(page: seq<ArtItem>, prev: Selection, selected: seq<ArtItem>)
    ensures Ids(Reconciled(page, Applied(page, prev, selected))) == Ids(page) * Ids(selected)
    ensures forall x :: x in Reconciled(page, Applied(page, prev, selected)) <==> x in page && x.id in Ids(selected)
  {
    var next := Applied(page, prev, selected);
    ReconciledIds(page, next);
    ReconciledMembers(page, next);
    forall x | x in page ensures x.id in next <==> x.id in Ids(selected) {
      assert x.id in Ids(page);
    }
  }

  /**
   * The `onSelectionChange` updater: copy the map, delete the page's rows that are
   * no longer selected, then set every selected row.
   */
  method ApplySelectionChange(page: seq<ArtItem>, prev: Selection, selected: seq<ArtItem>)
    returns (newMap: Selection)
    ensures newMap == Applied(page, prev, selected)
  {
    newMap := prev;
    for i := 0 to |page|
      invariant newMap == prev - (Ids(page[..i]) - Ids(selected))
    {
      var item := page[i];
      IdsAppend(page[..i], [item]);
      assert page[..i + 1] == page[..i] + [item];
      assert Ids([item]) == {item.id};
      HasIdIsIds(selected, item.id);
      if !HasId(selected, item.id) && item.id in prev {
        newMap := newMap - {item.id};
      }
    }
    assert page[..|page|] == page;
    var deleted := newMap;
    for i := 0 to |selected|
      invariant newMap == SetAll(deleted, selected[..i])
    {
      assert selected[..i + 1][..i] == selected[..i];
      newMap := newMap[selected[i].id := selected[i]];
    }
    assert selected[..|selected|] == selected;
  }
}
