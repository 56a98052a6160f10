/**
 * Page arithmetic for list endpoints: reading `per_page` and `page` query
 * parameters into an offset, and counting the pages a total fills.
 * Go's integer division truncates toward zero and panics on a zero divisor;
 * a panic is the `None` result here.
 */
module Pagination {
  import opened Wrappers
  import opened Strconv

  datatype Paginator = Paginator(offset: int, perPage: int, page: int)

  const DefaultPerPage: int := 10
  const FirstPage: int := 1

  /** Go's `/` on `int`: the quotient truncated toward zero, wrapped into
      64 bits (the one overflow, the most negative value divided by -1,
      wraps back to itself). */
  function GoDiv(a: int, b: int): (q: int)
    requires b != 0
    requires InInt64(a) && InInt64(b)
    ensures InInt64(q)
    ensures a >= 0 && b > 0 ==> q == a / b
  {
    var m := (if a < 0 then -a else a) / (if b < 0 then -b else b);
    Wrap64(if (a < 0) != (b < 0) then -m else m)
  }

  /** Go's `%` on `int`: the remainder takes the sign of the dividend. */
  function GoMod(a: int, b: int): (r: int)
    requires b != 0
    requires InInt64(a) && InInt64(b)
    ensures a >= 0 && b > 0 ==> r == a % b
    ensures a < 0 ==> r <= 0
    ensures a > 0 ==> r >= 0
  {
    var m := (if a < 0 then -a else a) % (if b < 0 then -b else b);
    if a < 0 then -m else m
  }

  /** Truncation toward zero, unlike Dafny's Euclidean division: -7 / 2 is
      -3 with remainder -1. */
  lemma NegativeDividendTruncates()
    ensures GoDiv(-7, 2) == -3 && GoMod(-7, 2) == -1
    ensures GoDiv(7, -2) == -3 && GoMod(7, -2) == 1
  {
  }

  /** Reads the two query parameters: an unparsable `per_page` becomes 10, an
      unparsable or non-positive `page` becomes 1, and the offset skips the
      rows of the earlier pages (in 64-bit arithmetic). */
  function PaginationBuilder(perPage: string, page: string): (p: Paginator)
    ensures p.page >= 1 && InInt64(p.page) && InInt64(p.perPage) && InInt64(p.offset)
    ensures Atoi(perPage).None? ==> p.perPage == DefaultPerPage
    ensures Atoi(perPage).Some? ==> p.perPage == Atoi(perPage).value
    ensures Atoi(page).Some? && Atoi(page).value >= 1 ==> p.page == Atoi(page).value
    ensures Atoi(page).None? || Atoi(page).value < 1 ==> p.page == FirstPage
  {
    var perPageInt := match Atoi(perPage) case Some(n) => n case None => DefaultPerPage;
    var pageInt := match Atoi(page) case Some(n) => n case None => FirstPage;
    var pageInt := if pageInt < 1 then FirstPage else pageInt;
    Paginator(Wrap64((pageInt - 1) * perPageInt), perPageInt, pageInt)
  }

  /** The number of pages `totalRows` rows fill at `perPage` per page: the
      quotient, plus one for a positive remainder. `None` is the division
      panic, which happens exactly when `perPage` is zero. */
  function TotalPage(totalRows: int, perPage: int): (r: Option<int>)
    requires InInt64(totalRows) && InInt64(perPage)
    ensures r.None? <==> perPage == 0
    ensures r.Some? ==> InInt64(r.value)
  {
    if perPage == 0 then None
    else
      var totalPage := GoDiv(totalRows, perPage);
      Some(if GoMod(totalRows, perPage) > 0 then Wrap64(totalPage + 1) else totalPage)
  }

  /** For a non-negative total and a positive page size the page count is the
      ceiling of the quotient: the pages hold every row, and dropping the
      last page would leave some row out. */
  lemma TotalPageIsCeiling(totalRows: int, perPage: int)
    requires InInt64(totalRows) && InInt64(perPage)
    requires totalRows >= 0 && perPage > 0
    ensures TotalPage(totalRows, perPage).Some?
    ensures var n := TotalPage(totalRows, perPage).value;
            n >= 0 && (n - 1) * perPage < totalRows <= n * perPage
  {
    var q := totalRows / perPage;
    var r := totalRows % perPage;
    QuotientBounds(totalRows, perPage, q, r);
    if r > 0 {
      assert TotalPage(totalRows, perPage) == Some(q + 1);
    } else {
      assert TotalPage(totalRows, perPage) == Some(q);
    }
  }

  /** The arithmetic behind `TotalPageIsCeiling`, for any quotient and
      remainder of a non-negative dividend. */
  lemma QuotientBounds(a: int, b: int, q: int, r: int)
    requires a >= 0 && b > 0 && a == q * b + r && 0 <= r < b
    ensures 0 <= q <= a
    ensures r > 0 ==> q * b < a <= (q + 1) * b
    ensures r == 0 ==> (q - 1) * b < a <= q * b
  {
    assert (q + 1) * b == q * b + b;
    assert (q - 1) * b == q * b - b;
    if q < 0 {
      MulNonNegative(-q - 1, b);
    }
    MulNonNegative(q, b - 1);
    assert q * b == q * (b - 1) + q;
  }

  lemma MulNonNegative(x: int, y: int)
    requires x >= 0 && y >= 0
    ensures x * y >= 0
  {
  }

  /** A page count of zero means there are no rows. */
  lemma EmptyListHasNoPages(perPage: int)
    requires InInt64(perPage) && perPage != 0
    ensures TotalPage(0, perPage) == Some(0)
  {
  }

  /** Offsets of consecutive pages differ by exactly one page, as long as the
      arithmetic stays inside Go's `int`. */
  lemma OffsetsAreConsecutive(perPage: int, page: int)
    requires InInt64(perPage) && perPage > 0
    requires 1 <= page && InInt64(page + 1) && InInt64(page * perPage)
    ensures PaginationBuilder(Itoa(perPage), Itoa(page + 1)).offset
            == PaginationBuilder(Itoa(perPage), Itoa(page)).offset + perPage
    ensures PaginationBuilder(Itoa(perPage), Itoa(page)).offset == (page - 1) * perPage
  {
    AtoiItoa(perPage);
    AtoiItoa(page);
    AtoiItoa(page + 1);
    PreviousPageProduct(page, perPage);
  }

  lemma PreviousPageProduct(page: int, perPage: int)
    requires 1 <= page && perPage > 0
    ensures 0 <= (page - 1) * perPage <= page * perPage
    ensures page * perPage == (page - 1) * perPage + perPage
  {
  }

  /** As written, a parsable `per_page` of zero passes the builder unchanged,
      and the page count then panics. */
  lemma ZeroPerPagePanics(page: string, totalRows: int)
    requires InInt64(totalRows)
    ensures PaginationBuilder("0", page).perPage == 0
    ensures TotalPage(totalRows, PaginationBuilder("0", page).perPage).None?
  {
    assert Atoi("0") == Some(0) by {
      assert "0"[0..] == "0";
    }
  }

  /** The evidently intended reading of `per_page`: a value below one falls
      back to the default, like an unparsable one. */
  function ClampedPaginationBuilder(perPage: string, page: string): (p: Paginator)
    ensures p.perPage >= 1 && p.page >= 1 && InInt64(p.perPage) && InInt64(p.page)
    ensures Atoi(perPage).Some? && Atoi(perPage).value >= 1 ==> p.perPage == Atoi(perPage).value
    ensures Atoi(perPage).None? || Atoi(perPage).value < 1 ==> p.perPage == DefaultPerPage
    ensures p.page == PaginationBuilder(perPage, page).page
  {
    var p := PaginationBuilder(perPage, page);
    var perPageInt := if p.perPage < 1 then DefaultPerPage else p.perPage;
    Paginator(Wrap64((p.page - 1) * perPageInt), perPageInt, p.page)
  }

  /** With the clamped builder the page count never panics. */
  lemma ClampedNeverPanics(perPage: string, page: string, totalRows: int)
    requires InInt64(totalRows)
    ensures TotalPage(totalRows, ClampedPaginationBuilder(perPage, page).perPage).Some?
  {
  }
}
