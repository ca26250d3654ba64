// The candidate-window state of the uim bridge (uim-vim/autoload/uim-vim.c):
// each input context remembers the selected candidate, the number of
// candidates and the page size, and candidate_shift_page_cb moves the
// selection one page left or right with C integer arithmetic.
module Uim {
  import opened CLib

  /**
   * The index candidate_shift_page_cb leaves behind: left subtracts a page
   * and wraps by adding the count, right adds a page unless the index is on
   * the last page, where it keeps its column on the first page; the result
   * is then clamped to the last candidate.  `/` and `%` are C's.
   */
  function ShiftedIndex(index: int, nr: int, limit: int, direction: int): int
    requires direction >= 0 ==> limit != 0
  {
    var moved :=
      if direction < 0 then
        if index - limit < 0 then index - limit + nr else index - limit
      else if CDiv(index, limit) == CDiv(nr - 1, limit) then CMod(index, limit)
      else index + limit;
    if moved >= nr then nr - 1 else moved
  }

  /** The page a candidate is shown on, for a positive page size. */
  function Page(index: nat, limit: nat): nat
    requires limit > 0
  {
    index / limit
  }

  /** A selection on the list, with pages no longer than the list. */
  predicate OnList(index: int, nr: int, limit: int)
  {
    0 <= index < nr && 0 < limit <= nr
  }

  /** On the list, C's `/` and `%` are Euclidean, and the shift reads as pages. */
  lemma {:induction false} ShiftedOnList(index: int, nr: int, limit: int, direction: int)
    requires OnList(index, nr, limit)
    ensures ShiftedIndex(index, nr, limit, direction) ==
      var moved :=
        if direction < 0 then
          if index - limit < 0 then index - limit + nr else index - limit
        else if Page(index, limit) == Page(nr - 1, limit) then index % limit
        else index + limit;
      if moved >= nr then nr - 1 else moved
  {
    assert CDiv(index, limit) == index / limit;
    assert CDiv(nr - 1, limit) == (nr - 1) / limit;
    assert CMod(index, limit) == index % limit;
  }

  /** Shifting either way keeps a selection on the list. */
  lemma {:induction false} ShiftStaysOnList(index: int, nr: int, limit: int, direction: int)
    requires OnList(index, nr, limit)
    ensures OnList(ShiftedIndex(index, nr, limit, direction), nr, limit)
  {
    ShiftedOnList(index, nr, limit, direction);
  }

  /** Right, off the last page: the next page, same column, or the last candidate. */
  lemma {:induction false} RightShiftNextPage(index: int, nr: int, limit: int)
    requires OnList(index, nr, limit)
    requires Page(index, limit) != Page(nr - 1, limit)
    ensures ShiftedIndex(index, nr, limit, 1) == if index + limit < nr then index + limit else nr - 1
    ensures Page(ShiftedIndex(index, nr, limit, 1), limit) == Page(index, limit) + 1
  {
    ShiftedOnList(index, nr, limit, 1);
    var p := index / limit;
    DivModUnique(index + limit, limit, p + 1, index % limit);
    DivMonotone(index, nr - 1, limit);
    if index + limit >= nr {
      DivMonotone(nr - 1, index + limit, limit);
    }
  }

  lemma {:induction false} MulMono(x: int, y: int, d: int)
    requires x <= y && d >= 0
    ensures x * d <= y * d
  {
    assert y * d - x * d == (y - x) * d;
  }

  lemma {:induction false} MulCancelLt(x: int, y: int, d: int)
    requires d > 0 && x * d < y * d
    ensures x < y
  {
  }

  /** Euclidean division has one quotient and remainder. */
  lemma {:induction false} DivModUnique(x: int, d: int, q: int, r: int)
    requires d > 0 && 0 <= r < d && x == q * d + r
    ensures x / d == q && x % d == r
  {
    var Q, R := x / d, x % d;
    assert Q * d + R == q * d + r;
    assert (Q - q) * d == r - R;
    MulCancelLt(Q - q, 1, d);
    MulCancelLt(q - Q, 1, d);
  }

  lemma {:induction false} DivMonotone(a: int, b: int, d: int)
    requires 0 <= a <= b && d > 0
    ensures a / d <= b / d
  {
    assert (a / d) * d <= a;
    assert b < (b / d + 1) * d;
    MulCancelLt(a / d, b / d + 1, d);
  }

  /** Right, on the last page: the same column of the first page. */
  lemma {:induction false} RightShiftWraps(index: int, nr: int, limit: int)
    requires OnList(index, nr, limit)
    requires Page(index, limit) == Page(nr - 1, limit)
    ensures ShiftedIndex(index, nr, limit, 1) == index % limit
    ensures Page(ShiftedIndex(index, nr, limit, 1), limit) == 0
  {
    ShiftedOnList(index, nr, limit, 1);
    DivModUnique(index % limit, limit, 0, index % limit);
  }

  /** Left, off the first page: the previous page, same column. */
  lemma {:induction false} LeftShiftPreviousPage(index: int, nr: int, limit: int)
    requires OnList(index, nr, limit) && index >= limit
    ensures ShiftedIndex(index, nr, limit, -1) == index - limit
    ensures Page(ShiftedIndex(index, nr, limit, -1), limit) == Page(index, limit) - 1
  {
    ShiftedOnList(index, nr, limit, -1);
    var q := (index - limit) / limit;
    DivModUnique(index, limit, q + 1, (index - limit) % limit);
  }

  /**
   * Left, on the first page: the index moves back by a page from the end of
   * the list, which is the same column of the last page only when the page
   * size divides the count.
   */
  lemma {:induction false} LeftShiftWraps(index: int, nr: int, limit: int)
    requires OnList(index, nr, limit) && index < limit
    ensures ShiftedIndex(index, nr, limit, -1) == index + nr - limit
    ensures nr % limit == 0 ==>
      Page(index + nr - limit, limit) == Page(nr - 1, limit) && (index + nr - limit) % limit == index
  {
    ShiftedOnList(index, nr, limit, -1);
    if nr % limit == 0 {
      var m := nr / limit;
      assert nr == m * limit;
      MulCancelLt(0, m, limit);
      DivModUnique(index + nr - limit, limit, m - 1, index);
      DivModUnique(nr - 1, limit, m - 1, limit - 1);
    }
  }

  /** Five candidates in pages of two: left from the first page lands on the middle page. */
  lemma LeftWrapUnevenPages()
    ensures ShiftedIndex(0, 5, 2, -1) == 3
    ensures Page(3, 2) == 1 && Page(4, 2) == 2
  {
  }

  /** A right shift that neither wraps nor clamps is undone by a left shift. */
  lemma {:induction false} RightThenLeft(index: int, nr: int, limit: int)
    requires OnList(index, nr, limit) && index + limit < nr
    ensures ShiftedIndex(ShiftedIndex(index, nr, limit, 1), nr, limit, -1) == index
  {
    DivModUnique(index + limit, limit, index / limit + 1, index % limit);
    DivMonotone(index + limit, nr - 1, limit);
    RightShiftNextPage(index, nr, limit);
    LeftShiftPreviousPage(index + limit, nr, limit);
  }

  /** A left shift off the first page is undone by a right shift. */
  lemma {:induction false} LeftThenRight(index: int, nr: int, limit: int)
    requires OnList(index, nr, limit) && index >= limit
    ensures ShiftedIndex(ShiftedIndex(index, nr, limit, -1), nr, limit, 1) == index
  {
    LeftShiftPreviousPage(index, nr, limit);
    DivMonotone(index, nr - 1, limit);
    RightShiftNextPage(index - limit, nr, limit);
  }

  /** The candidate fields of `ic_t`; the uim context pointer is left out. */
  class Context {
    var candIndex: int
    var candNr: int
    var candLimit: int

    /** A selection on the list, as uim keeps it while the window is shown. */
    ghost predicate Paged()
      reads this
    {
      OnList(candIndex, candNr, candLimit)
    }

    /** create_context: the three candidate fields start at zero. */
    constructor ()
      ensures candIndex == 0 && candNr == 0 && candLimit == 0
    {
      candIndex := 0;
      candNr := 0;
      candLimit := 0;
    }

    /** candidate_activate_cb: the count and the page size are stored. */
    method CandidateActivate(nr: int, displayLimit: int)
      modifies this
      ensures candNr == nr && candLimit == displayLimit
      ensures candIndex == old(candIndex)
    {
      candNr := nr;
      candLimit := displayLimit;
    }

    /** candidate_select_cb: the selected index is stored. */
    method CandidateSelect(index: int)
      modifies this
      ensures candIndex == index
      ensures candNr == old(candNr) && candLimit == old(candLimit)
    {
      candIndex := index;
    }

    /**
     * candidate_shift_page_cb: the index is updated in place, then the
     * callback re-announces the window and the selection with the values it
     * already holds.  A right shift divides by the page size.
     */
    method CandidateShiftPage(direction: int)
      requires direction >= 0 ==> candLimit != 0
      modifies this
      ensures candIndex == ShiftedIndex(old(candIndex), old(candNr), old(candLimit), direction)
      ensures candNr == old(candNr) && candLimit == old(candLimit)
      ensures old(Paged()) ==> Paged()
    {
      ghost var index, nr, limit := candIndex, candNr, candLimit;
      if direction < 0 {
        candIndex := candIndex - candLimit;
        if candIndex < 0 {
          candIndex := candIndex + candNr;
        }
      } else {
        if CDiv(candIndex, candLimit) == CDiv(candNr - 1, candLimit) {
          candIndex := CMod(candIndex, candLimit);
        } else {
          candIndex := candIndex + candLimit;
        }
      }
      if candIndex >= candNr {
        candIndex := candNr - 1;
      }
      CandidateActivate(candNr, candLimit);
      CandidateSelect(candIndex);
      if OnList(index, nr, limit) {
        ShiftStaysOnList(index, nr, limit, direction);
      }
    }
  }
}
