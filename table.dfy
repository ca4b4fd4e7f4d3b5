/**
 * The `ArtDataTable` component (src/components/ArtDatatable.tsx:20-178) as an
 * object: its state hooks are fields, and each handler is a method that
 * updates them. Every method is specified by a pure function from the state
 * before to the state after (`AfterFetch`, `AfterPage`, ...); the lemmas below
 * state what those transitions promise.
 */
module ArtTable {
  import opened Wrappers
  import opened Artworks
  import opened Paging
  import opened PageSelection
  import opened BulkInput
  import opened BulkWalk

  /** The toasts the component shows, in the order it shows them. */
  datatype Notice =
    | FetchError                                   // a page fetch for the table failed
    | InvalidInputWarning                          // the bulk count is NaN or negative
    | TooManyRowsWarning(num: int, total: nat)     // the bulk count exceeds the total
    | SelectionError(page: nat)                    // the bulk walk could not fetch `page`
    | SelectionUpdated(count: nat)                 // the bulk walk finished, marking `count` rows

  /** A snapshot of the component's state hooks, plus the overlay's visibility and the toasts shown. */
  datatype TableState = TableState(
    data: seq<ArtItem>,
    loading: bool,
    totalRecords: nat,
    first: nat,
    rows: nat,
    selection: seq<ArtItem>,
    persistent: Selection,
    numRowsToSelect: string,
    overlayOpen: bool,
    toasts: seq<Notice>)

  /**
   * What the component relies on: a positive page size with `first` on a page
   * boundary (the paginator only reports such offsets), and an input box
   * holding digits only.
   */
  predicate ValidState(s: TableState)
  {
    s.rows > 0 && s.first % s.rows == 0 && AllDigits(s.numRowsToSelect)
  }

  /** The state after mounting, before the first fetch completes. */
  const Initial := TableState([], true, 0, 0, 12, [], map[], "", false, [])

  // ---------------------------------------------------------------------------
  // Transitions
  // ---------------------------------------------------------------------------

  /**
   * `fetchData(page, limit)` when the visible selection is derived from the map
   * `against`: a delivered page replaces the rows, the total and the visible
   * selection; a failed one leaves them and adds an error toast. Loading ends either way.
   */
  function FetchWith(s: TableState, page: nat, limit: nat, source: Source, against: Selection): (t: TableState)
    ensures t.persistent == s.persistent && t.first == s.first && t.rows == s.rows
    ensures t.numRowsToSelect == s.numRowsToSelect && t.overlayOpen == s.overlayOpen
    ensures !t.loading
  {
    match source(page, limit)
    case None => s.(loading := false, toasts := s.toasts + [FetchError])
    case Some(result) =>
      s.(data := result.data, totalRecords := result.total,
         selection := Reconciled(result.data, against), loading := false)
  }

  /** `fetchData` reading the map of the state it runs in. */
  function AfterFetch(s: TableState, page: nat, limit: nat, source: Source): TableState
  {
    FetchWith(s, page, limit, source, s.persistent)
  }

  /**
   * `onPage` followed by the `[first, rows]` effect: the new offset and size are
   * stored, and the page they point at is fetched when either changed.
   */
  function AfterPage(s: TableState, newFirst: nat, newRows: nat, source: Source): (t: TableState)
    requires newRows > 0 && newFirst % newRows == 0
    ensures t.first == newFirst && t.rows == newRows
    ensures t.persistent == s.persistent
  {
    var moved := s.(first := newFirst, rows := newRows);
    if newFirst == s.first && newRows == s.rows then moved
    else AfterFetch(moved, CurrentPage(newFirst, newRows), newRows, source)
  }

  /** `onSelectionChange`: the table's new selection is shown and folded into the map. */
  function AfterSelectionChange(s: TableState, current: seq<ArtItem>): TableState
  {
    s.(selection := current, persistent := Applied(s.data, s.persistent, current))
  }

  /** The input's `onChange`: only all-digit text is taken. */
  function AfterInput(s: TableState, proposed: string): TableState
  {
    s.(numRowsToSelect := FilterInput(s.numRowsToSelect, proposed))
  }

  /** The header button: the input is cleared and the overlay toggled. */
  function AfterToggleOverlay(s: TableState): TableState
  {
    s.(numRowsToSelect := "", overlayOpen := !s.overlayOpen)
  }

  /** The error toast of a walk that stopped at a failed page, if it did. */
  function WalkNotices(failedAt: Option<nat>): seq<Notice>
  {
    if failedAt.Some? then [SelectionError(failedAt.value)] else []
  }

  /**
   * An accepted count of `num` rows, with the refreshed page reconciled against
   * the map `against`: the map is replaced by the walk's, the visible selection
   * cleared, the current page refetched, the number of rows marked reported, and
   * the input cleared and closed.
   */
  function WalkWith(s: TableState, num: nat, source: Source, against: Selection -> Selection): TableState
    requires s.rows > 0 && s.first % s.rows == 0
  {
    var walk := SelectFirstN(num, s.totalRecords, s.rows, source);
    SelectFirstNBounds(num, s.totalRecords, s.rows, source);
    var walked := Walked(s, num, source);
    var refreshed := FetchWith(walked, CurrentPage(s.first, s.rows), s.rows, source, against(BuildMap(walk.taken)));
    refreshed.(toasts := refreshed.toasts + [SelectionUpdated(num - walk.counter)],
               numRowsToSelect := "", overlayOpen := false)
  }

  /** Just after the walk: the map replaced by the walk's, nothing visibly selected, a failure reported. */
  function Walked(s: TableState, num: nat, source: Source): TableState
    requires s.rows > 0
  {
    var walk := SelectFirstN(num, s.totalRecords, s.rows, source);
    s.(persistent := BuildMap(walk.taken), selection := [], toasts := s.toasts + WalkNotices(walk.failedAt))
  }

  /** The submit button: a rejected count only adds a warning; an accepted one runs the walk. */
  function SubmitWith(s: TableState, source: Source, against: Selection -> Selection): TableState
    requires ValidState(s)
  {
    match Validate(s.numRowsToSelect, s.totalRecords)
    case Err(InvalidNumber) => s.(toasts := s.toasts + [InvalidInputWarning])
    case Err(TooManyRows(n, total)) => s.(toasts := s.toasts + [TooManyRowsWarning(n, total)])
    case Ok(num) => WalkWith(s, num, source, against)
  }

  /** Submit as intended: the refreshed page shows the new map's rows as selected. */
  function AfterSubmit(s: TableState, source: Source): TableState
    requires ValidState(s)
  {
    SubmitWith(s, source, (m: Selection) => m)
  }

  /**
   * Submit as written: `fetchData` is the one captured when the button was
   * clicked, so it reconciles against the map of that moment.
   */
  function AfterSubmitAsWritten(s: TableState, source: Source): TableState
    requires ValidState(s)
  {
    SubmitWith(s, source, (m: Selection) => s.persistent)
  }

  // ---------------------------------------------------------------------------
  // What the transitions promise
  // ---------------------------------------------------------------------------

  /**
   * A delivered page is shown with exactly its rows whose ids are in the map as
   * selected; a failed fetch keeps the rows and selection and raises an error
   * toast. The map itself is never touched by a fetch.
   */
  lemma FetchShowsPersistent(s: TableState, page: nat, limit: nat, source: Source)
    ensures var t := AfterFetch(s, page, limit, source);
      && t.persistent == s.persistent
      && (source(page, limit).Some? ==>
            t.data == source(page, limit).value.data
            && t.totalRecords == source(page, limit).value.total
            && Ids(t.selection) == Ids(t.data) * s.persistent.Keys
            && (forall x :: x in t.selection <==> x in t.data && x.id in s.persistent))
      && (source(page, limit).None? ==>
            t.data == s.data && t.selection == s.selection && t.toasts == s.toasts + [FetchError])
  {
    if source(page, limit).Some? {
      ReconciledIds(source(page, limit).value.data, s.persistent);
      ReconciledMembers(source(page, limit).value.data, s.persistent);
    }
  }

  /** Paging keeps the component valid, and reporting the current page again fetches nothing. */
  lemma PageKeepsValid(s: TableState, newFirst: nat, newRows: nat, source: Source)
    requires ValidState(s) && newRows > 0 && newFirst % newRows == 0
    ensures ValidState(AfterPage(s, newFirst, newRows, source))
    ensures AfterPage(s, s.first, s.rows, source) == s
  {
  }

  /**
   * Leaving the page after changing its selection and coming back to the same
   * rows shows exactly the rows the user had selected there.
   */
  lemma SelectionSurvivesPaging(s: TableState, current: seq<ArtItem>, away: nat, source: Source)
    requires ValidState(s) && away != s.first && away % s.rows == 0
    requires source(CurrentPage(s.first, s.rows), s.rows) == Some(Page(s.data, s.totalRecords))
    ensures var changed := AfterSelectionChange(s, current);
      var left := AfterPage(changed, away, s.rows, source);
      var back := AfterPage(left, s.first, s.rows, source);
      back.data == s.data
      && (forall x :: x in back.selection <==> x in s.data && x.id in Ids(current))
  {
    var changed := AfterSelectionChange(s, current);
    var left := AfterPage(changed, away, s.rows, source);
    assert left.persistent == changed.persistent;
    ReturnToPageRestoresSelection(s.data, s.persistent, current);
  }

  /** Reporting the same table selection twice leaves the state of reporting it once. */
  lemma SelectionChangeIdempotent(s: TableState, current: seq<ArtItem>)
    ensures AfterSelectionChange(AfterSelectionChange(s, current), current) == AfterSelectionChange(s, current)
  {
    AppliedIdempotent(s.data, s.persistent, current);
  }

  /** The input box only ever holds digits, and the header button empties it. */
  lemma InputKeepsValid(s: TableState, proposed: string)
    requires ValidState(s)
    ensures ValidState(AfterInput(s, proposed))
    ensures ValidState(AfterToggleOverlay(s)) && AfterToggleOverlay(s).numRowsToSelect == ""
  {
  }

  /**
   * A refused count changes nothing but the toasts: an empty box is refused as
   * invalid, a count above the total as too many.
   */
  lemma SubmitRejects(s: TableState, source: Source)
    requires ValidState(s)
    requires Validate(s.numRowsToSelect, s.totalRecords).Err?
    ensures AfterSubmit(s, source) == s.(toasts := AfterSubmit(s, source).toasts)
    ensures s.numRowsToSelect == [] ==> AfterSubmit(s, source).toasts == s.toasts + [InvalidInputWarning]
    ensures s.numRowsToSelect != [] ==>
      AfterSubmit(s, source).toasts == s.toasts + [TooManyRowsWarning(DecimalValue(s.numRowsToSelect), s.totalRecords)]
  {
    ValidateDigits(s.numRowsToSelect, s.totalRecords);
  }

  /**
   * An accepted count replaces the map by the walk's: what was selected before
   * has no influence on the new map, and the success toast counts exactly the
   * rows the walk set.
   */
  lemma SubmitReplacesMap(s: TableState, other: Selection, source: Source)
    requires ValidState(s)
    requires Validate(s.numRowsToSelect, s.totalRecords).Ok?
    ensures var num := Validate(s.numRowsToSelect, s.totalRecords).value;
      var walk := SelectFirstN(num, s.totalRecords, s.rows, source);
      && AfterSubmit(s, source).persistent == BuildMap(walk.taken)
      && AfterSubmit(s.(persistent := other), source).persistent == BuildMap(walk.taken)
      && AfterSubmit(s, source).toasts[|AfterSubmit(s, source).toasts| - 1] == SelectionUpdated(|walk.taken|)
      && AfterSubmit(s, source).numRowsToSelect == "" && !AfterSubmit(s, source).overlayOpen
  {
    var num := Validate(s.numRowsToSelect, s.totalRecords).value;
    SelectFirstNBounds(num, s.totalRecords, s.rows, source);
  }

  /**
   * After an accepted count whose refetch succeeds, the current page shows as
   * selected exactly its rows that are in the new map.
   */
  lemma SubmitShowsNewSelection(s: TableState, source: Source)
    requires ValidState(s)
    requires Validate(s.numRowsToSelect, s.totalRecords).Ok?
    requires source(CurrentPage(s.first, s.rows), s.rows).Some?
    ensures var t := AfterSubmit(s, source);
      t.data == source(CurrentPage(s.first, s.rows), s.rows).value.data
      && (forall x :: x in t.selection <==> x in t.data && x.id in t.persistent)
  {
    var t := AfterSubmit(s, source);
    ReconciledMembers(t.data, t.persistent);
  }

  /**
   * When pages 1..k are delivered with distinct ids and hold at least the
   * accepted count `num`, the new map has exactly `num` rows, the first `num`
   * in (page, position) order, and the only toasts added are the refetch's
   * error, if it fails, and the report of `num` rows.
   */
  lemma SubmitSelectsCount(s: TableState, source: Source, k: nat)
    requires ValidState(s)
    requires Validate(s.numRowsToSelect, s.totalRecords).Ok?
    requires k <= LastPage(s.totalRecords, s.rows)
    requires AllFetched(source, s.rows, 1, k)
    requires Validate(s.numRowsToSelect, s.totalRecords).value <= |Rows(source, s.rows, 1, k)|
    requires DistinctIds(Rows(source, s.rows, 1, k))
    ensures var num := Validate(s.numRowsToSelect, s.totalRecords).value;
      var t := AfterSubmit(s, source);
      && |t.persistent| == num
      && (forall i :: 0 <= i < num ==> Rows(source, s.rows, 1, k)[i] in t.persistent.Values)
      && t.toasts == s.toasts
           + (if source(CurrentPage(s.first, s.rows), s.rows).None? then [FetchError] else [])
           + [SelectionUpdated(num)]
  {
    var num := Validate(s.numRowsToSelect, s.totalRecords).value;
    SelectFirstNSucceeds(num, s.totalRecords, s.rows, k, source);
    SelectFirstNMapSize(num, s.totalRecords, s.rows, k, source);
    var t := AfterSubmit(s, source);
    forall i | 0 <= i < num ensures Rows(source, s.rows, 1, k)[i] in t.persistent.Values {
      var x := Rows(source, s.rows, 1, k)[i];
      assert t.persistent[x.id] == x;
    }
  }

  /** Submitting keeps the component valid. */
  lemma SubmitKeepsValid(s: TableState, source: Source)
    requires ValidState(s)
    ensures ValidState(AfterSubmit(s, source))
  {
  }

  // ---------------------------------------------------------------------------
  // The stale `fetchData` of the submit handler
  // ---------------------------------------------------------------------------

  const SampleRow := ArtItem("1", "", "", "", "", 0, 0)

  /** A data source with one row in all: every request returns it. */
  function OneRowSource(): Source
  {
    (page: nat, limit: nat) => Some(Page([SampleRow], 1))
  }

  /** A table showing the one row, nothing selected, and "1" typed into the box. */
  const OneRowTable := TableState([SampleRow], false, 1, 0, 12, [], map[], "1", true, [])

  /**
   * As written, selecting the first row marks it in the map but its checkbox
   * on the current page stays clear: the refetch reconciles against the empty
   * map of the click. As intended it shows as selected.
   */
  lemma SubmitAsWrittenHidesNewSelection()
    ensures ValidState(OneRowTable)
    ensures AfterSubmitAsWritten(OneRowTable, OneRowSource()).persistent == map["1" := SampleRow]
    ensures AfterSubmitAsWritten(OneRowTable, OneRowSource()).selection == []
    ensures AfterSubmit(OneRowTable, OneRowSource()).selection == [SampleRow]
  {
    var s, source := OneRowTable, OneRowSource();
    ValidateDigits(s.numRowsToSelect, s.totalRecords);
    assert DecimalValue("1") == 1 by {
      assert "1"[..0] == "";
    }
    var walk := SelectFirstN(1, 1, 12, source);
    assert LastPage(1, 12) == 1;
    var start := Progress([], 1, 1, None);
    assert Take([SampleRow], 1) == [SampleRow];
    assert Advance(start, 12, source) == Progress([SampleRow], 0, 2, None);
    assert walk == Progress([SampleRow], 0, 2, None);
    assert BuildMap([SampleRow]) == map["1" := SampleRow] by {
      assert [SampleRow][..0] == [];
      assert SetAll(map[], [SampleRow]) == SetAll(map[], [])[SampleRow.id := SampleRow];
    }
    assert CurrentPage(0, 12) == 1;
    assert Reconciled([SampleRow], map[]) == [] by {
      assert [SampleRow][..0] == [];
    }
    assert Reconciled([SampleRow], map["1" := SampleRow]) == [SampleRow] by {
      assert [SampleRow][..0] == [];
    }
  }

  // ---------------------------------------------------------------------------
  // The component
  // ---------------------------------------------------------------------------

  class ArtDataTable {
    var data: seq<ArtItem>
    var loading: bool
    var totalRecords: nat
    var first: nat
    var rows: nat
    var selection: seq<ArtItem>
    var persistent: Selection
    var numRowsToSelect: string
    var overlayOpen: bool
    var toasts: seq<Notice>

    function State(): TableState
      reads this
    {
      TableState(data, loading, totalRecords, first, rows, selection, persistent,
                 numRowsToSelect, overlayOpen, toasts)
    }

    predicate Valid()
      reads this
    {
      ValidState(State())
    }

    /** The hooks' initial values: no rows yet, loading, page size 12, nothing selected. */
    constructor()
      ensures State() == Initial && Valid()
    {
      data, loading, totalRecords := [], true, 0;
      first, rows := 0, 12;
      selection, persistent := [], map[];
      numRowsToSelect, overlayOpen, toasts := "", false, [];
    }

    /** `fetchData(page, limit)`. */
    method FetchData(page: nat, limit: nat, source: Source)
      requires Valid()
      modifies this
      ensures State() == AfterFetch(old(State()), page, limit, source)
      ensures Valid()
    {
      ghost var before := State();
      loading := true;
      var response := source(page, limit);
      if response.Some? {
        data := response.value.data;
        totalRecords := response.value.total;
        selection := ReconcilePage(response.value.data, persistent);
        loading := false;
        assert State() == before.(data := data, totalRecords := totalRecords, selection := selection, loading := false);
      } else {
        toasts := toasts + [FetchError];
        loading := false;
        assert State() == before.(loading := false, toasts := toasts);
      }
    }

    /** The `[first, rows]` effect as it runs on mount: fetch the page `first` points at. */
    method Mount(source: Source)
      requires Valid()
      modifies this
      ensures State() == AfterFetch(old(State()), CurrentPage(old(first), old(rows)), old(rows), source)
      ensures Valid()
    {
      FetchData(CurrentPage(first, rows), rows, source);
    }

    /** `onPage`, followed by the effect when the offset or the size changed. */
    method OnPage(newFirst: nat, newRows: nat, source: Source)
      requires Valid() && newRows > 0 && newFirst % newRows == 0
      modifies this
      ensures State() == AfterPage(old(State()), newFirst, newRows, source)
      ensures Valid()
    {
      var changed := newFirst != first || newRows != rows;
      first, rows := newFirst, newRows;
      if changed {
        FetchData(CurrentPage(first, rows), rows, source);
      }
    }

    /** `onSelectionChange`. */
    method OnSelectionChange(current: seq<ArtItem>)
      requires Valid()
      modifies this
      ensures State() == AfterSelectionChange(old(State()), current)
      ensures Valid()
    {
      selection := current;
      persistent := ApplySelectionChange(data, persistent, current);
    }

    /** The input's `onChange`. */
    method OnInputChange(proposed: string)
      requires Valid()
      modifies this
      ensures State() == AfterInput(old(State()), proposed) && Valid()
    {
      if AllDigits(proposed) {
        numRowsToSelect := proposed;
      }
    }

    /** The header button's `onClick`. */
    method ToggleOverlay()
      requires Valid()
      modifies this
      ensures State() == AfterToggleOverlay(old(State())) && Valid()
    {
      numRowsToSelect := "";
      overlayOpen := !overlayOpen;
    }

    /** The submit button's `onClick`, with the refetch reading the new map. */
    method Submit(source: Source)
      requires Valid()
      modifies this
      ensures State() == AfterSubmit(old(State()), source) && Valid()
    {
      var checked := Validate(numRowsToSelect, totalRecords);
      if checked == Err(InvalidNumber) {
        toasts := toasts + [InvalidInputWarning];
        return;
      } else if checked.Err? {
        toasts := toasts + [TooManyRowsWarning(checked.error.requested, checked.error.total)];
        return;
      }
      SelectAndRefresh(checked.value, source);
    }

    /** The accepted branch of the submit handler: the walk, then the refetch and the report. */
    method SelectAndRefresh(num: nat, source: Source)
      requires Valid()
      modifies this
      ensures State() == WalkWith(old(State()), num, source, (m: Selection) => m)
      ensures Valid()
    {
      ghost var s0 := State();
      ghost var newMap := BuildMap(SelectFirstN(num, totalRecords, rows, source).taken);
      var counter := RunWalk(num, source);
      ghost var s1 := State();
      assert s1.persistent == ((m: Selection) => m)(newMap);
      FetchData(CurrentPage(first, rows), rows, source);
      assert State() == FetchWith(Walked(s0, num, source), CurrentPage(s0.first, s0.rows), s0.rows, source, newMap);
      toasts := toasts + [SelectionUpdated(num - counter)];
      numRowsToSelect, overlayOpen := "", false;
    }

    /** The walk itself: the map is cleared, rebuilt page by page, and a failure reported. */
    method RunWalk(num: nat, source: Source) returns (counter: nat)
      requires Valid()
      modifies this
      ensures State() == Walked(old(State()), num, source)
      ensures counter == SelectFirstN(num, old(totalRecords), old(rows), source).counter <= num
      ensures Valid()
    {
      persistent, selection := map[], [];
      var selected, requested, failedAt;
      selected, counter, requested, failedAt := BulkSelect(num, LastPage(totalRecords, rows), rows, source);
      SelectFirstNBounds(num, totalRecords, rows, source);
      toasts := toasts + WalkNotices(failedAt);
      persistent := selected;
    }
  }
}
