/**
 * Page-index arithmetic of the table: the paginator reports a row offset `first`
 * and a page size `rows`; the data source is asked for 1-based page numbers
 * (src/components/ArtDatatable.tsx:36, 147, 172).
 */
module Paging {

  /** Row offset of the first row of a 1-based page. */
  function PageOffset(page: nat, rows: nat): (offset: nat)
    requires page >= 1
  {
    (page - 1) * rows
  }

  /**
   * `first / rows + 1`: the page the paginator's offset points at. The paginator
   * only emits offsets that are multiples of the page size, so the division is exact.
   */
  function CurrentPage(first: nat, rows: nat): (page: nat)
    requires rows > 0 && first % rows == 0
    ensures page >= 1
    ensures PageOffset(page, rows) == first
  {
    first / rows + 1
  }

  /** Going from a page to its offset and back gives the same page. */
  lemma CurrentPageOfOffset(page: nat, rows: nat)
    requires page >= 1 && rows > 0
    ensures PageOffset(page, rows) % rows == 0
    ensures CurrentPage(PageOffset(page, rows), rows) == page
  {
    var k: nat := page - 1;
    assert PageOffset(page, rows) == k * rows;
    MultipleDivides(k, rows);
  }

  lemma MultipleDivides(k: nat, rows: nat)
    requires rows > 0
    ensures (k * rows) % rows == 0 && (k * rows) / rows == k
  {
    DivModUnique(k * rows, rows, k, 0);
  }

  /** Euclidean division has one quotient and one remainder. */
  lemma DivModUnique(a: nat, rows: nat, q: nat, r: nat)
    requires rows > 0 && r < rows && a == q * rows + r
    ensures a / rows == q && a % rows == r
  {
    var q', r' := a / rows, a % rows;
    assert a == q' * rows + r';
    if q' > q {
      MulMonotone(q + 1, q', rows);
    } else if q' < q {
      MulMonotone(q' + 1, q, rows);
    }
  }

  lemma MulMonotone(x: nat, y: nat, rows: nat)
    requires x <= y
    ensures x * rows <= y * rows
  {
    var d: nat := y - x;
    assert y * rows == x * rows + d * rows;
  }

  /**
   * `Math.ceil(totalRecords / rows)`: the number of pages needed to hold
   * `total` rows, the last page index the bulk walk may fetch.
   */
  function LastPage(total: nat, rows: nat): (last: nat)
    requires rows > 0
    ensures last * rows >= total
    ensures last > 0 ==> (last - 1) * rows < total
  {
    var q, r := total / rows, total % rows;
    assert total == q * rows + r;
    if r == 0 then q
    else
      q + 1
  }
}
