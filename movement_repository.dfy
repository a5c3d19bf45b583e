/** StockMovementRepository's queries. Every listing is ordered newest first
    (ORDER BY CreatedAt DESC); the date range is inclusive at both ends. */
module MovementRepository {
  import opened Wrappers
  import opened Domain
  import opened Sorting
  import opened Paging
  import opened Persistence

  predicate NewestFirst(a: StockMovement, b: StockMovement) {
    a.createdAt >= b.createdAt
  }

  lemma NewestFirstIsTotalPreorder()
    ensures TotalPreorder(NewestFirst)
  {
  }

  /** Newest-first selection of the rows satisfying `keep`. */
  function SelectNewestFirst(s: seq<StockMovement>, keep: StockMovement -> bool): (r: seq<StockMovement>)
    ensures SortedBy(r, NewestFirst)
    ensures multiset(r) == multiset(Filter(s, keep))
    ensures forall m :: m in r <==> m in s && keep(m)
  {
    NewestFirstIsTotalPreorder();
    SortByIsSorted(Filter(s, keep), NewestFirst);
    SortByPermutes(Filter(s, keep), NewestFirst);
    var r := SortBy(Filter(s, keep), NewestFirst);
    assert forall m :: m in r <==> m in Filter(s, keep) by {
      forall m ensures m in r <==> m in Filter(s, keep) {
        assert m in r <==> m in multiset(r);
      }
    }
    r
  }

  function GetById(db: Db, id: int): (r: Option<StockMovement>)
    ensures r.Some? ==> r.value in db.movements && r.value.id == id
    ensures r.None? ==> forall i :: 0 <= i < |db.movements| ==> db.movements[i].id != id
  {
    FindIn(db.movements, id)
  }

  function FindIn(s: seq<StockMovement>, id: int): (r: Option<StockMovement>)
    ensures r.Some? ==> r.value in s && r.value.id == id
    ensures r.None? ==> forall i :: 0 <= i < |s| ==> s[i].id != id
  {
    if |s| == 0 then None
    else if s[0].id == id then Some(s[0])
    else
      var r := FindIn(s[1..], id);
      assert forall i :: 1 <= i < |s| ==> s[i] == s[1..][i - 1];
      r
  }

  function Everything(m: StockMovement): bool { true }

  /** GetAllAsync: every movement, newest first. */
  function GetAll(db: Db): (r: seq<StockMovement>)
    ensures SortedBy(r, NewestFirst)
    ensures forall m :: m in r <==> m in db.movements
    ensures |r| == |db.movements|
    ensures multiset(r) == multiset(db.movements)
  {
    var r := SelectNewestFirst(db.movements, Everything);
    FilterEverythingKeeps(db.movements);
    assert |r| == |multiset(r)| == |multiset(db.movements)|;
    r
  }

  lemma {:induction false} FilterEverythingKeeps(s: seq<StockMovement>)
    ensures Filter(s, Everything) == s
    decreases |s|
  {
    if |s| != 0 {
      FilterEverythingKeeps(s[1..]);
      assert s == [s[0]] + s[1..];
    }
  }

  /** GetPagedAsync: the total count, and the page of the newest-first list
      that starts at (pageNumber - 1) * pageSize. */
  function GetPaged(db: Db, pageNumber: int, pageSize: int): (r: (seq<StockMovement>, nat))
    ensures r.1 == |db.movements|
    ensures pageSize >= 0 ==> r.0 == SkipTake(GetAll(db), (pageNumber - 1) * pageSize, pageSize)
    ensures pageSize >= 0 ==> |r.0| <= pageSize
    ensures forall m :: m in r.0 ==> m in db.movements
  {
    var all := GetAll(db);
    (LimitOffset(all, (pageNumber - 1) * pageSize, pageSize), |db.movements|)
  }

  predicate OfProduct(productId: int, m: StockMovement) {
    m.productId == productId
  }

  /** GetByProductIdAsync: that product's movements, newest first. */
  function GetByProductId(db: Db, productId: int): (r: seq<StockMovement>)
    ensures SortedBy(r, NewestFirst)
    ensures forall m :: m in r <==> m in db.movements && m.productId == productId
  {
    SelectNewestFirst(db.movements, m => OfProduct(productId, m))
  }

  predicate InRange(startDate: Instant, endDate: Instant, m: StockMovement) {
    startDate <= m.createdAt <= endDate
  }

  /** GetByDateRangeAsync: the movements made between the two instants, both
      included, newest first. */
  function GetByDateRange(db: Db, startDate: Instant, endDate: Instant): (r: seq<StockMovement>)
    ensures SortedBy(r, NewestFirst)
    ensures forall m :: m in r <==> m in db.movements && startDate <= m.createdAt <= endDate
    ensures startDate > endDate ==> r == []
  {
    SelectNewestFirst(db.movements, m => InRange(startDate, endDate, m))
  }
}
