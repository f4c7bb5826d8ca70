/**
 * The pagination arithmetic of the `/api/history` handler: the row offset of a page and
 * the page count `(total + per_page - 1) // per_page`, with Python's floor division.
 */
module Pagination {
  import opened Wrappers

  /** Python's `a // b`: the quotient rounded toward negative infinity. */
  function FloorDiv(a: int, b: int): (q: int)
    requires b != 0
    ensures b > 0 ==> b * q <= a < b * q + b
    ensures b < 0 ==> b * q >= a > b * q + b
  {
    if b > 0 then a / b else (-a) / (-b)
  }

  /** `offset = (page - 1) * per_page`: the number of rows before page `page`. */
  function Offset(page: int, perPage: int): int {
    (page - 1) * perPage
  }

  /**
   * `(total + per_page - 1) // per_page`; a zero page size raises `ZeroDivisionError`,
   * which the handler reports as a failed request.
   */
  function PageCount(total: int, perPage: int): (r: Result<int>)
    ensures r.Err? <==> perPage == 0
    ensures perPage > 0 && total >= 0 ==>
      r.Ok? && r.value >= 0 && (r.value - 1) * perPage < total <= r.value * perPage
  {
    if perPage == 0 then Err("integer division or modulo by zero")
    else Ok(FloorDiv(total + perPage - 1, perPage))
  }

  /** The page count is the ceiling of `total / per_page`: the least `p` with `p * per_page >= total`. */
  lemma PageCountIsLeast(total: nat, perPage: int, p: int)
    requires perPage > 0 && p >= 0 && p * perPage >= total
    ensures PageCount(total, perPage).value <= p
  {
    var pages := PageCount(total, perPage).value;
    if pages > p {
      assert (pages - 1) * perPage >= p * perPage by {
        assert pages - 1 >= p;
        MulMonotone(p, pages - 1, perPage);
      }
      assert false;
    }
  }

  lemma MulMonotone(a: int, b: int, c: int)
    requires a <= b && c >= 0
    ensures a * c <= b * c
  {
    assert b * c - a * c == (b - a) * c;
  }

  /** Every row index `0 <= r < total` lies on page `r / per_page + 1`, which is one of the pages. */
  lemma RowOnPage(total: nat, perPage: int, r: int)
    requires perPage > 0 && 0 <= r < total
    ensures var p := r / perPage + 1;
      1 <= p <= PageCount(total, perPage).value &&
      Offset(p, perPage) <= r < Offset(p, perPage) + perPage
  {
    var p := r / perPage + 1;
    var pages := PageCount(total, perPage).value;
    assert Offset(p, perPage) == (r / perPage) * perPage;
    assert Offset(p, perPage) + perPage == (r / perPage) * perPage + perPage;
    if p > pages {
      MulMonotone(pages, p - 1, perPage);
      assert false;
    }
  }

  /** Two pages that both hold row `r` are the same page: pages do not overlap. */
  lemma PageOfRowUnique(perPage: int, p: int, q: int, r: int)
    requires perPage > 0
    requires Offset(p, perPage) <= r < Offset(p, perPage) + perPage
    requires Offset(q, perPage) <= r < Offset(q, perPage) + perPage
    ensures p == q
  {
    if p < q {
      MulMonotone(p, q - 1, perPage);
      assert false;
    } else if q < p {
      MulMonotone(q, p - 1, perPage);
      assert false;
    }
  }

  /** No page among `1..pages` is empty: each starts before the last row. */
  lemma NoEmptyPage(total: nat, perPage: int, p: int)
    requires perPage > 0 && 1 <= p <= PageCount(total, perPage).value
    ensures Offset(p, perPage) < total
  {
    var pages := PageCount(total, perPage).value;
    MulMonotone(p - 1, pages - 1, perPage);
  }

  /** The rows that `LIMIT per_page OFFSET offset` selects from the ordered result `rows`. */
  function PageRows<T>(rows: seq<T>, page: int, perPage: nat): (r: seq<T>)
    requires page >= 1
    ensures |r| <= perPage
  {
    var lo := Offset(page, perPage);
    var from := if lo < |rows| then lo else |rows|;
    var to := if lo + perPage < |rows| then lo + perPage else |rows|;
    MulMonotone(0, page - 1, perPage);
    rows[from..to]
  }

  /** Pages `1..k` one after another. */
  function PagesUpTo<T>(rows: seq<T>, perPage: nat, k: nat): seq<T> {
    if k == 0 then [] else PagesUpTo(rows, perPage, k - 1) + PageRows(rows, k, perPage)
  }

  lemma {:induction false} PagesUpToPrefix<T>(rows: seq<T>, perPage: nat, k: nat)
    ensures var n := if k * perPage < |rows| then k * perPage else |rows|;
      PagesUpTo(rows, perPage, k) == rows[..n]
  {
    if k > 0 {
      PagesUpToPrefix(rows, perPage, k - 1);
      assert Offset(k, perPage) == (k - 1) * perPage;
      assert (k - 1) * perPage + perPage == k * perPage;
      MulMonotone(k - 1, k, perPage);
      MulMonotone(0, k - 1, perPage);
    }
  }

  /** Reading pages `1..pages` in order gives back every row exactly once, in order. */
  lemma AllPagesReproduceRows<T>(rows: seq<T>, perPage: nat)
    requires perPage > 0
    ensures PagesUpTo(rows, perPage, PageCount(|rows|, perPage).value) == rows
  {
    var pages := PageCount(|rows|, perPage).value;
    PagesUpToPrefix(rows, perPage, pages);
  }
}
