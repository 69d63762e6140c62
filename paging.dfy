/**
 * `PageInfo` (lib.go:91-114), extended with the fields server.go sets on it
 * (`ItemLimit`, `DateFilter`): the page a listing asks for and, once
 * `GetContents` has filled it in, what it found.
 */
module Paging {
  import opened Blog
  import opened GoNumbers

  class PageInfo {
    var current: int
    var previous: int
    var next: int
    var total: int
    var itemTotal: int
    var itemCount: int
    var itemLimit: int
    var postType: PostType
    var tag: string
    var dateFilter: Time

    /** The zero `PageInfo` that `var page PageInfo` declares. */
    constructor ()
      ensures current == 0 && previous == 0 && next == 0 && total == 0
      ensures itemTotal == 0 && itemCount == 0 && itemLimit == 0
      ensures postType == TypeDefault && tag == "" && dateFilter == ZeroTime
    {
      current, previous, next, total := 0, 0, 0, 0;
      itemTotal, itemCount, itemLimit := 0, 0, 0;
      postType, tag, dateFilter := TypeDefault, "", ZeroTime;
    }

    /** `HasPrevious`: there is a page before this one. */
    predicate HasPrevious()
      reads this
    {
      current > 1
    }

    /** `HasNext`: there is a page after this one. */
    predicate HasNext()
      reads this
    {
      current < total
    }

    /**
     * `CalculateTotal`: the number of pages is the ceiling of `itemCount`
     * divided by `itemTotal`, and the neighbouring page numbers are one less
     * and one more than the current one (with Go's wrap-around). For
     * `itemTotal == 0` the float quotient is not a number and the conversion
     * to `int` is left unspecified.
     */
    method CalculateTotal()
      modifies this`total, this`previous, this`next
      ensures itemTotal != 0 ==> total == CeilDiv(itemCount, itemTotal)
      ensures previous == Wrap64(current - 1) && next == Wrap64(current + 1)
    {
      if itemTotal != 0 {
        total := CeilDiv(itemCount, itemTotal);
      } else {
        total := *;
      }
      previous := Wrap64(current - 1);
      next := Wrap64(current + 1);
    }
  }

  /**
   * Once `CalculateTotal` has run, there is a previous page exactly when the
   * previous page number is a page (at least 1), and a next page exactly when
   * the next page number is within the total; at the extreme 64-bit page
   * numbers wrap-around breaks this, which the bounds on `current` exclude.
   */
  lemma NeighboursArePages(p: PageInfo)
    requires p.previous == Wrap64(p.current - 1) && p.next == Wrap64(p.current + 1)
    requires MinInt64 < p.current < MaxInt64
    ensures p.HasPrevious() <==> p.previous >= 1
    ensures p.HasNext() <==> p.next <= p.total
  {
  }

  /** The `ItemCount` that `GetContents` derives from the number of matching rows. */
  function ClampedCount(count: int): (n: int)
    ensures n <= 50 && n <= count
    ensures n == count || n == 50
  {
    if count >= 50 then 50 else count
  }

  /**
   * With `ItemCount = min(count, 50)` as the dividend and `ItemTotal = count`
   * as the divisor, every positive count makes exactly one page, however many
   * rows match.
   */
  lemma OnePageForAnyCount(count: int)
    requires count > 0
    ensures CeilDiv(ClampedCount(count), count) == 1
  {
  }
}
