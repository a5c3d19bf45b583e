/** ReportsController: the stock report, the low-stock report (paged in memory)
    and the movement history with its whole-day date bounds. Date parsing and
    the server's time zone are parameters: `tryParse` is DateTime.TryParse
    giving ticks, `offsetAt(local)` is the zone's offset (local minus UTC) at
    a local time. */
module ReportsController {
  import opened Wrappers
  import opened Text
  import opened Domain
  import opened Dtos
  import opened Persistence
  import Paging
  import Repo = ProductRepository
  import ProductService
  import StockService

  /** A report body: one page of rows with its counts, or the whole list. */
  datatype Report<T> = Paged(page: Paging.PagedResult<T>) | Whole(items: seq<T>)

  /** GetStockReport: paged only when both query values are given. */
  function StockReport(db: Db, pageNumber: Option<int>, pageSize: Option<int>): (r: Report<ProductDto>)
    ensures r.Paged? <==> pageNumber.Some? && pageSize.Some?
    ensures r.Paged? ==> r.page == ProductService.GetPaged(db, pageNumber.value, pageSize.value)
    ensures r.Paged? ==> r.page.totalCount == |db.products|
    ensures r.Whole? ==> |r.items| == |db.products|
    ensures r.Whole? ==> r.items == ProductService.GetAll(db)
    ensures r.Whole? ==> forall p :: p in db.products ==> ProductService.View(db, p) in r.items
    ensures r.Whole? ==> forall i, j :: 0 <= i < j < |r.items| ==> StringLe(r.items[i].name, r.items[j].name)
  {
    if pageNumber.Some? && pageSize.Some? then
      Paged(ProductService.GetPaged(db, pageNumber.value, pageSize.value))
    else
      Whole(ProductService.GetAll(db))
  }

  /** GetLowStockReport: the whole low-stock list, or the page of it that
      skips (pageNumber - 1) * pageSize rows and takes pageSize, counted
      against the whole list. */
  function LowStockReport(db: Db, pageNumber: Option<int>, pageSize: Option<int>): (r: Report<ProductDto>)
    ensures r.Paged? <==> pageNumber.Some? && pageSize.Some?
    ensures r.Whole? ==> r.items == ProductService.GetLowStockProducts(db)
    ensures r.Paged? ==>
      && r.page.totalCount == |Repo.GetLowStockProducts(db)|
      && r.page.pageNumber == pageNumber.value && r.page.pageSize == pageSize.value
      && r.page.items == Paging.Page(ProductService.GetLowStockProducts(db), pageNumber.value, pageSize.value)
    ensures r.Paged? ==> forall i :: 0 <= i < |r.page.items| ==> r.page.items[i].isLowStock
  {
    var all := ProductService.GetLowStockProducts(db);
    if pageNumber.Some? && pageSize.Some? then
      var items := Paging.SkipTake(all, (pageNumber.value - 1) * pageSize.value, pageSize.value);
      assert forall k :: 0 <= k < |items| ==> items[k] in all;
      Paged(Paging.PagedResult(items, |all|, pageNumber.value, pageSize.value))
    else
      Whole(all)
  }

  /** With a positive page size the pages of the low-stock report cover the
      list: every low-stock row appears on one of the TotalPages pages. */
  lemma LowStockPagesCover(db: Db, pageSize: int, i: int)
    requires pageSize > 0 && 0 <= i < |ProductService.GetLowStockProducts(db)|
    ensures var page := i / pageSize + 1;
      var r := LowStockReport(db, Some(page), Some(pageSize));
      && 1 <= page <= r.page.TotalPages()
      && ProductService.GetLowStockProducts(db)[i] in r.page.items
  {
    var all := ProductService.GetLowStockProducts(db);
    Paging.ItemOnItsPage(all, pageSize, i);
  }

  // ---------------------------------------------------------------------------
  // Movement history

  /** The 500 response's message. */
  const MovementHistoryError: string := "Error retrieving movement history"

  /** The report's outcome: the movements, or the 500 result the catch block
      returns. */
  datatype MovementResponse = Ok(movements: seq<StockMovementDto>) | ServerError(message: string)

  /** DateTime.Date: midnight of the same day. */
  function StartOfDay(t: Instant): (r: Instant)
    requires t >= 0
    ensures 0 <= r <= t < r + TicksPerDay && r % TicksPerDay == 0
  {
    t - t % TicksPerDay
  }

  /** A query value is used only when it is non-blank and parses. */
  function ParsedDate(s: Option<string>, tryParse: string -> Option<Instant>): (r: Option<Instant>)
    ensures r.Some? <==> !IsNullOrWhiteSpace(s) && tryParse(s.value).Some?
    ensures r.Some? ==> r.value == tryParse(s.value).value
  {
    if IsNullOrWhiteSpace(s) then None else tryParse(s.value)
  }

  /** ToUniversalTime on a local time: subtract the zone offset, clamped to
      the DateTime range as .NET clamps it. */
  function ToUtc(local: Instant, offsetAt: Instant -> int): (r: Instant)
    ensures 0 <= r <= MaxTicks
    ensures 0 <= local - offsetAt(local) <= MaxTicks ==> r == local - offsetAt(local)
  {
    Paging.Clamp(local - offsetAt(local), 0, MaxTicks)
  }

  /** The lower bound: the start of the start day in local time, in UTC. */
  function LowerBound(start: Instant, offsetAt: Instant -> int): Instant
    requires 0 <= start <= MaxTicks
  {
    ToUtc(StartOfDay(start), offsetAt)
  }

  /** The upper bound: the start of the day after `end` in local time, in
      UTC, less one tick. AddDays(1) past the last day and AddTicks(-1) below
      the first instant throw. */
  function UpperBound(end: Instant, offsetAt: Instant -> int): (r: Option<Instant>)
    requires 0 <= end <= MaxTicks
    ensures r.None? <==> (StartOfDay(end) + TicksPerDay > MaxTicks
      || ToUtc(StartOfDay(end) + TicksPerDay, offsetAt) == 0)
    ensures r.Some? ==> r.value == ToUtc(StartOfDay(end) + TicksPerDay, offsetAt) - 1
  {
    var next := StartOfDay(end) + TicksPerDay;
    if next > MaxTicks then None
    else
      var utc := ToUtc(next, offsetAt);
      if utc == 0 then None else Some(utc - 1)
  }

  /** Every value DateTime.TryParse produces lies in the DateTime range. */
  ghost predicate ParsesInRange(tryParse: string -> Option<Instant>) {
    forall s :: tryParse(s).Some? ==> 0 <= tryParse(s).value <= MaxTicks
  }

  /** GetMovementHistory: filter by the two whole-day bounds when both dates
      are present and parse, otherwise every movement; an exception while
      building the end bound becomes the 500 response. */
  function MovementHistory(db: Db, startDate: Option<string>, endDate: Option<string>,
                           tryParse: string -> Option<Instant>, offsetAt: Instant -> int): (r: MovementResponse)
    requires DbValid(db) && ParsesInRange(tryParse)
    ensures var start := ParsedDate(startDate, tryParse);
      var end := ParsedDate(endDate, tryParse);
      && (r.ServerError? <==> end.Some? && UpperBound(end.value, offsetAt).None?)
      && (r.ServerError? ==> r.message == MovementHistoryError)
      && (r.Ok? && (start.None? || end.None?) ==> r.movements == StockService.GetAllMovements(db))
      && (r.Ok? && start.Some? && end.Some? ==>
            r.movements == StockService.GetMovementsByDateRange(db,
              LowerBound(start.value, offsetAt), UpperBound(end.value, offsetAt).value))
  {
    var start := ParsedDate(startDate, tryParse);
    var end := ParsedDate(endDate, tryParse);
    if end.Some? && UpperBound(end.value, offsetAt).None? then
      ServerError(MovementHistoryError)
    else if start.Some? && end.Some? then
      Ok(StockService.GetMovementsByDateRange(db,
        LowerBound(start.value, offsetAt), UpperBound(end.value, offsetAt).value))
    else
      Ok(StockService.GetAllMovements(db))
  }

  /** A start date without an end date filters nothing: the report is the
      whole history. */
  lemma StartDateAloneIsIgnored(db: Db, startDate: string, tryParse: string -> Option<Instant>,
                                offsetAt: Instant -> int)
    requires DbValid(db) && ParsesInRange(tryParse)
    ensures MovementHistory(db, Some(startDate), None, tryParse, offsetAt)
      == Ok(StockService.GetAllMovements(db))
  {
  }

  /** In a zone with a fixed offset, the bounds cover whole local days: a
      movement stamped `c` (UTC) lies within them exactly when its local time
      falls on a day from the start day to the end day, both included (away
      from the ends of the DateTime range, where ToUniversalTime clamps). */
  lemma BoundsCoverWholeDays(start: Instant, end: Instant, offsetAt: Instant -> int, off: int, c: Instant)
    requires 0 <= start <= MaxTicks && 0 <= end <= MaxTicks
    requires forall t :: offsetAt(t) == off
    requires 0 <= StartOfDay(start) - off
    requires StartOfDay(end) + TicksPerDay <= MaxTicks
    requires 0 < StartOfDay(end) + TicksPerDay - off <= MaxTicks
    ensures UpperBound(end, offsetAt).Some?
    ensures LowerBound(start, offsetAt) <= c <= UpperBound(end, offsetAt).value
      <==> StartOfDay(start) <= c + off < StartOfDay(end) + TicksPerDay
  {
    assert offsetAt(StartOfDay(start)) == off;
    assert offsetAt(StartOfDay(end) + TicksPerDay) == off;
  }

  /** The last day of the calendar has no next day: an end date on it makes
      AddDays(1) throw, and the report answers 500 even without a start. */
  lemma LastDayEndIsServerError(db: Db, endDate: string, tryParse: string -> Option<Instant>,
                                offsetAt: Instant -> int)
    requires DbValid(db) && ParsesInRange(tryParse)
    requires !IsBlank(endDate) && tryParse(endDate) == Some(MaxTicks)
    ensures MovementHistory(db, None, Some(endDate), tryParse, offsetAt) == ServerError(MovementHistoryError)
  {
    assert StartOfDay(MaxTicks) + TicksPerDay > MaxTicks;
  }
}
