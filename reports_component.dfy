/** The web reports page: the stock and low-stock reports with a pager
    each, the movement report between two dates shown newest first, the
    reload when the language changes, and the CSV text of the three
    exports. Requests sent to the API are recorded in `requests`. */
module ReportsComponent {
  import opened Wrappers
  import opened Text
  import opened Domain
  import opened Dtos
  import opened PageWindow
  import opened WebLists
  import Csv

  datatype Tab = StockTab | LowStockTab | MovementsTab

  datatype Request =
    | StockReport(pageNumber: int, pageSize: int)
    | LowStockReport(pageNumber: int, pageSize: int)
    | MovementReport(startDate: string, endDate: string)

  /** `value || ''` on an optional string: a missing value is written as
      the empty string. */
  function OrEmpty(o: Option<string>): (r: string)
    ensures o.Some? ==> r == o.value
    ensures o.None? ==> r == ""
  {
    if o.Some? then o.value else ""
  }

  const StockHeaders: seq<string> := ["SKU", "Name", "Category", "Quantity", "Price", "Low Stock"]
  const LowStockHeaders: seq<string> := ["SKU", "Name", "Category", "Quantity", "Threshold", "Price"]
  const MovementHeaders: seq<string> := ["Date", "Product", "Type", "Quantity", "Reason", "Notes"]

  /** The stock export's cells for a product; `priceText` is the number's
      toString. */
  function StockRow(item: ProductDto, priceText: Money -> string): (r: seq<string>)
    ensures |r| == |StockHeaders|
    ensures r[0] == item.sku && r[1] == item.name && r[2] == OrEmpty(item.categoryName)
    ensures r[3] == IntToString(item.quantity) && r[4] == priceText(item.price)
    ensures r[5] == "Yes" <==> item.isLowStock
    ensures r[5] == "No" <==> !item.isLowStock
  {
    [item.sku, item.name, OrEmpty(item.categoryName), IntToString(item.quantity),
     priceText(item.price), if item.isLowStock then "Yes" else "No"]
  }

  /** The low-stock export's cells: the threshold in place of the flag. */
  function LowStockRow(item: ProductDto, priceText: Money -> string): (r: seq<string>)
    ensures |r| == |LowStockHeaders|
    ensures r[0] == item.sku && r[1] == item.name && r[2] == OrEmpty(item.categoryName)
    ensures r[3] == IntToString(item.quantity) && r[4] == IntToString(item.minimumStockLevel)
    ensures r[5] == priceText(item.price)
  {
    [item.sku, item.name, OrEmpty(item.categoryName), IntToString(item.quantity),
     IntToString(item.minimumStockLevel), priceText(item.price)]
  }

  /** The movement export's cells; `dateText` is toLocaleString of the
      creation time. The type is written by name, and a movement's type is
      always one of the three named ones. */
  function MovementRow(item: StockMovementDto, dateText: Instant -> string): (r: seq<string>)
    ensures |r| == |MovementHeaders|
    ensures r[0] == dateText(item.createdAt) && r[1] == item.productName
    ensures r[2] == item.movementType.Name() && r[2] != "Unknown"
    ensures r[3] == IntToString(item.quantity)
    ensures r[4] == OrEmpty(item.reason) && r[5] == OrEmpty(item.notes)
  {
    [dateText(item.createdAt), item.productName, MovementTypeName(item.movementType.Value()),
     IntToString(item.quantity), OrEmpty(item.reason), OrEmpty(item.notes)]
  }

  /** The rows of each export, one per item in order. */
  function StockRows(items: seq<ProductDto>, priceText: Money -> string): (r: seq<seq<string>>)
    ensures |r| == |items| && forall i :: 0 <= i < |items| ==> r[i] == StockRow(items[i], priceText)
  {
    if |items| == 0 then [] else [StockRow(items[0], priceText)] + StockRows(items[1..], priceText)
  }

  function LowStockRows(items: seq<ProductDto>, priceText: Money -> string): (r: seq<seq<string>>)
    ensures |r| == |items| && forall i :: 0 <= i < |items| ==> r[i] == LowStockRow(items[i], priceText)
  {
    if |items| == 0 then [] else [LowStockRow(items[0], priceText)] + LowStockRows(items[1..], priceText)
  }

  function MovementRows(items: seq<StockMovementDto>, dateText: Instant -> string): (r: seq<seq<string>>)
    ensures |r| == |items| && forall i :: 0 <= i < |items| ==> r[i] == MovementRow(items[i], dateText)
  {
    if |items| == 0 then [] else [MovementRow(items[0], dateText)] + MovementRows(items[1..], dateText)
  }

  /** exportStockReport's text. */
  function StockExport(items: seq<ProductDto>, priceText: Money -> string): string {
    Csv.Content(StockHeaders, StockRows(items, priceText))
  }

  /** exportLowStockReport's text. */
  function LowStockExport(items: seq<ProductDto>, priceText: Money -> string): string {
    Csv.Content(LowStockHeaders, LowStockRows(items, priceText))
  }

  /** exportMovementReport's text. */
  function MovementExport(items: seq<StockMovementDto>, dateText: Instant -> string): string {
    Csv.Content(MovementHeaders, MovementRows(items, dateText))
  }

  /** An empty report exports its header line alone: the column names
      joined by commas, without quotes. */
  lemma EmptyExports(priceText: Money -> string, dateText: Instant -> string)
    ensures StockExport([], priceText) == Join(StockHeaders, ",")
    ensures LowStockExport([], priceText) == Join(LowStockHeaders, ",")
    ensures MovementExport([], dateText) == Join(MovementHeaders, ",")
  {
    Csv.ContentLines(StockHeaders, [], []);
    Csv.ContentLines(LowStockHeaders, [], []);
    Csv.ContentLines(MovementHeaders, [], []);
  }

  /** Each item adds a newline and its line at the end of the stock export,
      each cell between quotes as it is. */
  lemma StockExportLines(items: seq<ProductDto>, item: ProductDto, priceText: Money -> string)
    ensures StockExport(items + [item], priceText)
         == StockExport(items, priceText) + "\n" + Csv.LineAsWritten(StockRow(item, priceText))
  {
    Csv.ContentLines(StockHeaders, StockRows(items, priceText), StockRow(item, priceText));
    StockRowsSnoc(items, item, priceText);
  }

  lemma LowStockExportLines(items: seq<ProductDto>, item: ProductDto, priceText: Money -> string)
    ensures LowStockExport(items + [item], priceText)
         == LowStockExport(items, priceText) + "\n" + Csv.LineAsWritten(LowStockRow(item, priceText))
  {
    Csv.ContentLines(LowStockHeaders, LowStockRows(items, priceText), LowStockRow(item, priceText));
    LowStockRowsSnoc(items, item, priceText);
  }

  lemma MovementExportLines(items: seq<StockMovementDto>, item: StockMovementDto, dateText: Instant -> string)
    ensures MovementExport(items + [item], dateText)
         == MovementExport(items, dateText) + "\n" + Csv.LineAsWritten(MovementRow(item, dateText))
  {
    Csv.ContentLines(MovementHeaders, MovementRows(items, dateText), MovementRow(item, dateText));
    MovementRowsSnoc(items, item, dateText);
  }

  lemma {:induction false} StockRowsSnoc(items: seq<ProductDto>, item: ProductDto, priceText: Money -> string)
    ensures StockRows(items + [item], priceText) == StockRows(items, priceText) + [StockRow(item, priceText)]
    decreases |items|
  {
    if |items| == 0 {
      assert items + [item] == [item];
    } else {
      StockRowsSnoc(items[1..], item, priceText);
      assert (items + [item])[1..] == items[1..] + [item];
    }
  }

  lemma {:induction false} LowStockRowsSnoc(items: seq<ProductDto>, item: ProductDto, priceText: Money -> string)
    ensures LowStockRows(items + [item], priceText) == LowStockRows(items, priceText) + [LowStockRow(item, priceText)]
    decreases |items|
  {
    if |items| == 0 {
      assert items + [item] == [item];
    } else {
      LowStockRowsSnoc(items[1..], item, priceText);
      assert (items + [item])[1..] == items[1..] + [item];
    }
  }

  lemma {:induction false} MovementRowsSnoc(items: seq<StockMovementDto>, item: StockMovementDto, dateText: Instant -> string)
    ensures MovementRows(items + [item], dateText) == MovementRows(items, dateText) + [MovementRow(item, dateText)]
    decreases |items|
  {
    if |items| == 0 {
      assert items + [item] == [item];
    } else {
      MovementRowsSnoc(items[1..], item, dateText);
      assert (items + [item])[1..] == items[1..] + [item];
    }
  }

  class ReportsComponent {
    const stockPager: Pager
    const lowStockPager: Pager
    var stockReport: seq<ProductDto>
    var lowStockReport: seq<ProductDto>
    var movementReport: seq<StockMovementDto>
    var startDate: string
    var endDate: string
    var activeTab: Tab
    var requests: seq<Request>

    ghost predicate Valid()
      reads this, stockPager, lowStockPager
    {
      stockPager.Valid() && lowStockPager.Valid() && stockPager != lowStockPager
    }

    /** The component as created: the date range is the thirty days up to
        today, which the clock gives as `startDate` and `endDate`. */
    constructor(startDate: string, endDate: string)
      ensures Valid() && fresh(stockPager) && fresh(lowStockPager)
      ensures this.startDate == startDate && this.endDate == endDate && activeTab == StockTab
      ensures stockReport == [] && lowStockReport == [] && movementReport == [] && requests == []
      ensures stockPager.currentPage == 1 && stockPager.pageSize == 10
      ensures lowStockPager.currentPage == 1 && lowStockPager.pageSize == 10
    {
      stockPager := new Pager();
      lowStockPager := new Pager();
      stockReport := [];
      lowStockReport := [];
      movementReport := [];
      this.startDate := startDate;
      this.endDate := endDate;
      activeTab := StockTab;
      requests := [];
    }

    method GenerateStockReport()
      modifies this
      ensures requests == old(requests) + [StockReport(stockPager.currentPage, stockPager.pageSize)]
      ensures activeTab == old(activeTab)
      ensures stockReport == old(stockReport) && lowStockReport == old(lowStockReport)
      ensures movementReport == old(movementReport) && startDate == old(startDate) && endDate == old(endDate)
    {
      requests := requests + [StockReport(stockPager.currentPage, stockPager.pageSize)];
    }

    method GenerateLowStockReport()
      modifies this
      ensures requests == old(requests) + [LowStockReport(lowStockPager.currentPage, lowStockPager.pageSize)]
      ensures activeTab == old(activeTab)
      ensures stockReport == old(stockReport) && lowStockReport == old(lowStockReport)
      ensures movementReport == old(movementReport) && startDate == old(startDate) && endDate == old(endDate)
    {
      requests := requests + [LowStockReport(lowStockPager.currentPage, lowStockPager.pageSize)];
    }

    method GenerateMovementReport()
      modifies this
      ensures requests == old(requests) + [MovementReport(startDate, endDate)]
      ensures activeTab == old(activeTab) && startDate == old(startDate) && endDate == old(endDate)
    {
      requests := requests + [MovementReport(startDate, endDate)];
    }

    /** The stock report's answer is shown and its tab opened. */
    method ShowStockReport(response: ListResponse<ProductDto>)
      requires Valid()
      modifies this, stockPager
      ensures Valid() && activeTab == StockTab
      ensures response.Rows? ==> stockReport == response.rows && stockPager.totalCount == |response.rows|
      ensures response.Rows? ==> stockPager.totalPages == 1
      ensures response.Rows? ==> !stockPager.hasPreviousPage && !stockPager.hasNextPage
      ensures response.Page? ==> stockReport == response.items && stockPager.totalCount == response.totalCount
      ensures response.Page? ==> stockPager.totalPages == response.totalPages
      ensures response.Page? ==> stockPager.hasPreviousPage == response.hasPreviousPage
      ensures response.Page? ==> stockPager.hasNextPage == response.hasNextPage
      ensures stockPager.currentPage == old(stockPager.currentPage) && requests == old(requests)
      ensures lowStockReport == old(lowStockReport) && movementReport == old(movementReport)
    {
      match response {
        case Rows(rows) =>
          stockReport := rows;
          stockPager.ShowList(|rows|);
        case Page(items, count, pages, previous, next) =>
          stockReport := items;
          stockPager.ShowPage(count, pages, previous, next);
      }
      activeTab := StockTab;
    }

    /** The low-stock report's answer is shown and its tab opened. */
    method ShowLowStockReport(response: ListResponse<ProductDto>)
      requires Valid()
      modifies this, lowStockPager
      ensures Valid() && activeTab == LowStockTab
      ensures response.Rows? ==> lowStockReport == response.rows && lowStockPager.totalCount == |response.rows|
      ensures response.Rows? ==> lowStockPager.totalPages == 1
      ensures response.Rows? ==> !lowStockPager.hasPreviousPage && !lowStockPager.hasNextPage
      ensures response.Page? ==> lowStockReport == response.items
      ensures response.Page? ==> lowStockPager.totalCount == response.totalCount
      ensures response.Page? ==> lowStockPager.totalPages == response.totalPages
      ensures response.Page? ==> lowStockPager.hasPreviousPage == response.hasPreviousPage
      ensures response.Page? ==> lowStockPager.hasNextPage == response.hasNextPage
      ensures lowStockPager.currentPage == old(lowStockPager.currentPage) && requests == old(requests)
      ensures stockReport == old(stockReport) && movementReport == old(movementReport)
    {
      match response {
        case Rows(rows) =>
          lowStockReport := rows;
          lowStockPager.ShowList(|rows|);
        case Page(items, count, pages, previous, next) =>
          lowStockReport := items;
          lowStockPager.ShowPage(count, pages, previous, next);
      }
      activeTab := LowStockTab;
    }

    /** The movement report's answer, newest first, and its tab opened. */
    method ShowMovementReport(movements: seq<StockMovementDto>)
      modifies this
      ensures movementReport == NewestFirst(movements) && activeTab == MovementsTab
      ensures multiset(movementReport) == multiset(movements)
      ensures forall i, j :: 0 <= i < j < |movementReport| ==> movementReport[i].createdAt >= movementReport[j].createdAt
      ensures requests == old(requests) && stockReport == old(stockReport) && lowStockReport == old(lowStockReport)
    {
      movementReport := NewestFirst(movements);
      activeTab := MovementsTab;
    }

    method StockGoToPage(page: int)
      requires Valid()
      modifies this, stockPager
      ensures Valid()
      ensures stockPager.currentPage == (if 1 <= page <= old(stockPager.totalPages) then page else old(stockPager.currentPage))
      ensures requests == old(requests)
        + (if 1 <= page <= old(stockPager.totalPages) then [StockReport(page, stockPager.pageSize)] else [])
      ensures stockPager.pageSize == old(stockPager.pageSize)
      ensures lowStockPager.currentPage == old(lowStockPager.currentPage)
      ensures stockPager.totalPages == old(stockPager.totalPages) && stockPager.totalCount == old(stockPager.totalCount)
      ensures stockReport == old(stockReport) && lowStockReport == old(lowStockReport)
      ensures movementReport == old(movementReport) && startDate == old(startDate) && endDate == old(endDate)
      ensures activeTab == old(activeTab)
    {
      var moved := stockPager.GoToPage(page);
      if moved {
        GenerateStockReport();
      }
    }

    method StockChangePageSize(size: int)
      requires Valid()
      modifies this, stockPager
      ensures Valid()
      ensures stockPager.pageSize == size && stockPager.currentPage == 1
      ensures requests == old(requests) + [StockReport(1, size)]
      ensures lowStockPager.currentPage == old(lowStockPager.currentPage)
      ensures stockPager.totalPages == old(stockPager.totalPages) && stockPager.totalCount == old(stockPager.totalCount)
      ensures stockReport == old(stockReport) && lowStockReport == old(lowStockReport)
      ensures movementReport == old(movementReport) && startDate == old(startDate) && endDate == old(endDate)
      ensures activeTab == old(activeTab)
    {
      stockPager.ChangePageSize(size);
      GenerateStockReport();
    }

    method LowStockGoToPage(page: int)
      requires Valid()
      modifies this, lowStockPager
      ensures Valid()
      ensures lowStockPager.currentPage
           == (if 1 <= page <= old(lowStockPager.totalPages) then page else old(lowStockPager.currentPage))
      ensures requests == old(requests)
        + (if 1 <= page <= old(lowStockPager.totalPages) then [LowStockReport(page, lowStockPager.pageSize)] else [])
      ensures lowStockPager.pageSize == old(lowStockPager.pageSize)
      ensures stockPager.currentPage == old(stockPager.currentPage)
      ensures lowStockPager.totalPages == old(lowStockPager.totalPages) && lowStockPager.totalCount == old(lowStockPager.totalCount)
      ensures stockReport == old(stockReport) && lowStockReport == old(lowStockReport)
      ensures movementReport == old(movementReport) && startDate == old(startDate) && endDate == old(endDate)
      ensures activeTab == old(activeTab)
    {
      var moved := lowStockPager.GoToPage(page);
      if moved {
        GenerateLowStockReport();
      }
    }

    method LowStockChangePageSize(size: int)
      requires Valid()
      modifies this, lowStockPager
      ensures Valid()
      ensures lowStockPager.pageSize == size && lowStockPager.currentPage == 1
      ensures requests == old(requests) + [LowStockReport(1, size)]
      ensures stockPager.currentPage == old(stockPager.currentPage)
      ensures lowStockPager.totalPages == old(lowStockPager.totalPages) && lowStockPager.totalCount == old(lowStockPager.totalCount)
      ensures stockReport == old(stockReport) && lowStockReport == old(lowStockReport)
      ensures movementReport == old(movementReport) && startDate == old(startDate) && endDate == old(endDate)
      ensures activeTab == old(activeTab)
    {
      lowStockPager.ChangePageSize(size);
      GenerateLowStockReport();
    }

    /** The language changed: the open report is asked for again. */
    method LocaleChanged()
      modifies this
      ensures activeTab == StockTab ==> requests == old(requests) + [StockReport(stockPager.currentPage, stockPager.pageSize)]
      ensures activeTab == LowStockTab
          ==> requests == old(requests) + [LowStockReport(lowStockPager.currentPage, lowStockPager.pageSize)]
      ensures activeTab == MovementsTab ==> requests == old(requests) + [MovementReport(startDate, endDate)]
      ensures activeTab == old(activeTab)
    {
      if activeTab == StockTab {
        GenerateStockReport();
      } else if activeTab == LowStockTab {
        GenerateLowStockReport();
      } else {
        GenerateMovementReport();
      }
    }
  }
}
