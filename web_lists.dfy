/** What the web components do with the lists the API returns: a list
    endpoint answers either a plain array or a paged result, movement lists
    shown unpaged are sorted newest first, and a movement type number is
    shown by name. */
module WebLists {
  import opened Domain
  import opened Dtos
  import Sorting

  /** A list response: a JSON array, or a PagedResultDto with its counts and
      flags as the server computed them. */
  datatype ListResponse<T> =
    | Rows(rows: seq<T>)
    | Page(items: seq<T>, totalCount: int, totalPages: int, hasPreviousPage: bool, hasNextPage: bool)

  /** getMovementTypeName: the StockMovementType name of 1, 2 and 3, and
      "Unknown" for any other number. */
  function MovementTypeName(movementType: int): (name: string)
    ensures MovementTypeOf(movementType).Some? ==> name == MovementTypeOf(movementType).value.Name()
    ensures MovementTypeOf(movementType).None? ==> name == "Unknown"
  {
    if movementType == 1 then "Add"
    else if movementType == 2 then "Remove"
    else if movementType == 3 then "Adjustment"
    else "Unknown"
  }

  /** The comparator `(a, b) => time(b) - time(a)`, as an order: `a` may come
      before `b` when it is no older. */
  function NewerOrSame(a: StockMovementDto, b: StockMovementDto): bool {
    a.createdAt >= b.createdAt
  }

  lemma NewerOrSameOrders()
    ensures Sorting.TotalPreorder(NewerOrSame)
  {
  }

  /** The movements sorted newest first. */
  function NewestFirst(ms: seq<StockMovementDto>): (r: seq<StockMovementDto>)
    ensures |r| == |ms| && multiset(r) == multiset(ms)
    ensures forall i, j :: 0 <= i < j < |r| ==> r[i].createdAt >= r[j].createdAt
  {
    NewerOrSameOrders();
    Sorting.SortByIsSorted(ms, NewerOrSame);
    Sorting.SortByPermutes(ms, NewerOrSame);
    var r := Sorting.SortBy(ms, NewerOrSame);
    assert forall i, j :: 0 <= i < j < |r| ==> NewerOrSame(r[i], r[j]);
    r
  }
}
