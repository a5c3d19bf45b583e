/** Paged query results: the derived fields of PagedResultDto, LINQ's
    Skip/Take over an in-memory list, and SQLite's LIMIT/OFFSET, which is what
    the repositories' Skip/Take becomes in the database. */
module Paging {

  /** Integer ceiling of n / d. For a positive d and the int range the source
      works in, this is what (int)Math.Ceiling(n / (double)d) computes: a
      double quotient of two such integers is exact when it is whole, and
      otherwise too far from the next whole number for rounding to reach it.
      r * d is the least multiple of d that is at least n. */
  function CeilDiv(n: nat, d: int): (r: nat)
    requires d > 0
    ensures n <= r * d < n + d
  {
    var q, m := (n + d - 1) / d, (n + d - 1) % d;
    assert n + d - 1 == q * d + m && 0 <= m < d;
    q
  }

  /** a <= b gives a * d <= b * d for a positive d. */
  lemma MulMonotone(a: int, b: int, d: int)
    requires a <= b && d > 0
    ensures a * d <= b * d
  {
    assert b * d - a * d == (b - a) * d;
  }

  datatype PagedResult<T> = PagedResult(items: seq<T>, totalCount: nat, pageNumber: int, pageSize: int) {
    /** There are no more pages than items, and none exactly when there are no items. */
    function TotalPages(): (t: nat)
      requires pageSize > 0
      ensures t <= totalCount
      ensures t == 0 <==> totalCount == 0
    {
      var t := CeilDiv(totalCount, pageSize);
      if t > 0 then
        MulMonotone(1, pageSize, t);
        assert (t - 1) * pageSize == t * pageSize - pageSize;
        t
      else t
    }

    /** With a positive page size: this page starts after at least one row. */
    function HasPreviousPage(): (b: bool)
      ensures pageSize > 0 ==> (b <==> (pageNumber - 1) * pageSize > 0)
    {
      if pageSize <= 0 then pageNumber > 1
      else if pageNumber > 1 then
        MulMonotone(1, pageNumber - 1, pageSize);
        true
      else
        MulMonotone(pageNumber - 1, 0, pageSize);
        false
    }

    /** Some row lies beyond the end of this page. */
    function HasNextPage(): (b: bool)
      requires pageSize > 0
      ensures b <==> pageNumber * pageSize < totalCount
    {
      var t := TotalPages();
      if pageNumber < t then
        MulMonotone(pageNumber, t - 1, pageSize);
        assert (t - 1) * pageSize == t * pageSize - pageSize;
        true
      else
        MulMonotone(t, pageNumber, pageSize);
        false
    }
  }

  /** TotalPages is the least number of pages of `pageSize` items that holds
      `totalCount` items. */
  lemma TotalPagesIsCeiling<T>(r: PagedResult<T>)
    requires r.pageSize > 0
    ensures r.totalCount == 0 ==> r.TotalPages() == 0
    ensures r.totalCount > 0 ==>
      (r.TotalPages() - 1) * r.pageSize < r.totalCount <= r.TotalPages() * r.pageSize
  {
    var n, d := r.totalCount, r.pageSize;
    var q, m := (n + d - 1) / d, (n + d - 1) % d;
    assert n + d - 1 == q * d + m && 0 <= m < d;
    assert (q - 1) * d == q * d - d;
  }

  /** With no items there are no pages, and no page has a next one. */
  lemma EmptyResultHasNoPages<T>(r: PagedResult<T>)
    requires r.pageSize > 0 && r.totalCount == 0 && r.pageNumber >= 0
    ensures r.TotalPages() == 0 && !r.HasNextPage()
  {
  }

  /** 25 items in pages of 10: three pages, and page 3 is the last. */
  lemma ThirdOfThreePages<T>(items: seq<T>)
    ensures var r := PagedResult(items, 25, 3, 10);
      r.TotalPages() == 3 && !r.HasNextPage() && r.HasPreviousPage()
  {
  }

  function Clamp(x: int, lo: int, hi: int): int
    requires lo <= hi
  {
    if x < lo then lo else if x > hi then hi else x
  }

  /** LINQ-to-objects `s.Skip(skip).Take(take)`: a negative skip skips nothing,
      a non-positive take yields nothing. */
  function SkipTake<T>(s: seq<T>, skip: int, take: int): (r: seq<T>)
    ensures take <= 0 ==> r == []
    ensures take > 0 ==> |r| <= take
    ensures var from := Clamp(skip, 0, |s|);
      && |r| == (if take <= 0 then 0 else if take < |s| - from then take else |s| - from)
      && forall k :: 0 <= k < |r| ==> r[k] == s[from + k]
  {
    var from := Clamp(skip, 0, |s|);
    var n := if take <= 0 then 0 else if take < |s| - from then take else |s| - from;
    s[from..from + n]
  }

  /** SQLite `LIMIT limit OFFSET offset`: a negative offset counts as zero and a
      negative limit means no limit at all. */
  function LimitOffset<T>(s: seq<T>, offset: int, limit: int): (r: seq<T>)
    ensures limit >= 0 ==> |r| <= limit
    ensures limit >= 0 ==> r == SkipTake(s, offset, limit)
    ensures limit < 0 ==> r == s[Clamp(offset, 0, |s|)..]
  {
    if limit < 0 then s[Clamp(offset, 0, |s|)..] else SkipTake(s, offset, limit)
  }

  /** Whatever the offset and limit, the rows taken are a run of
      consecutive rows of `s`. */
  lemma LimitOffsetIsRun<T>(s: seq<T>, offset: int, limit: int)
    ensures var from := Clamp(offset, 0, |s|);
      var r := LimitOffset(s, offset, limit);
      && from + |r| <= |s|
      && forall k :: 0 <= k < |r| ==> r[k] == s[from + k]
  {
  }

  /** The page `pageNumber` (1-based) of `pageSize` items, as the in-memory
      low-stock report slices it. */
  function Page<T>(s: seq<T>, pageNumber: int, pageSize: int): seq<T> {
    SkipTake(s, (pageNumber - 1) * pageSize, pageSize)
  }

  /** The page an index falls in is one of the CeilDiv(n, d) pages. */
  lemma PageOfIndexInRange(n: nat, d: int, i: int)
    requires d > 0 && 0 <= i < n
    ensures 1 <= i / d + 1 <= CeilDiv(n, d)
  {
    var q, c := i / d, (n + d - 1) / d;
    QuotientBounds(i, d);
    QuotientBounds(n + d - 1, d);
    LessByFactor(q, c, d);
  }

  /** The quotient times the divisor lies within one divisor below x. */
  lemma QuotientBounds(x: int, d: int)
    requires d > 0
    ensures (x / d) * d <= x < (x / d) * d + d
    ensures x >= 0 ==> x / d >= 0
  {
  }

  /** Multiplying by a positive factor keeps a strict order. */
  lemma LessByFactor(a: int, b: int, d: int)
    requires d > 0 && a * d < b * d
    ensures a < b
  {
  }

  /** Every item of a list is on exactly the page its index falls in: page
      i / pageSize + 1, which is one of the TotalPages pages, at position
      i % pageSize. */
  lemma ItemOnItsPage<T>(s: seq<T>, pageSize: int, i: int)
    requires pageSize > 0 && 0 <= i < |s|
    ensures var page := i / pageSize + 1;
      && 1 <= page <= CeilDiv(|s|, pageSize)
      && i % pageSize < |Page(s, page, pageSize)|
      && Page(s, page, pageSize)[i % pageSize] == s[i]
  {
    PageOfIndexInRange(|s|, pageSize, i);
    PageAt(s, pageSize, i / pageSize, i % pageSize, i);
  }

  /** Item `i = q * pageSize + m` is at position `m` of page q + 1. */
  lemma PageAt<T>(s: seq<T>, pageSize: int, q: int, m: int, i: int)
    requires pageSize > 0 && q >= 0 && 0 <= m < pageSize && i == q * pageSize + m && i < |s|
    ensures m < |Page(s, q + 1, pageSize)| && Page(s, q + 1, pageSize)[m] == s[i]
  {
    var from := q * pageSize;
    assert (q + 1 - 1) * pageSize == from;
    assert Clamp(from, 0, |s|) == from;
  }
}
