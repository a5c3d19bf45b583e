/** StockService: AddStock, RemoveStock and AdjustStock each check the request,
    look the product up, write its new quantity and append one movement whose
    signed quantity is the change. `op` names the service method called (the
    request's own MovementType field is not consulted by the service). The
    clock is the parameter `now`. */
module StockService {
  import opened Wrappers
  import opened Domain
  import opened Errors
  import opened Dtos
  import opened Persistence
  import MovementRepository
  import Paging
  import Validators

  /** The quantity test each operation makes first. */
  predicate QuantityAccepted(op: MovementType, quantity: int) {
    if op == Adjustment then quantity >= 0 else quantity > 0
  }

  /** The checks made before any write, in the source's order: the quantity,
      then the lookup, then (for a removal) the available stock. */
  function Check(db: Db, op: MovementType, dto: StockMovementRequestDto): (r: Result<Product, Error>)
    ensures r.Success? <==>
      && QuantityAccepted(op, dto.quantity)
      && FindProduct(db.products, dto.productId).Some?
      && (op == Remove ==> FindProduct(db.products, dto.productId).value.quantity >= dto.quantity)
    ensures r.Success? ==> FindProduct(db.products, dto.productId) == Some(r.value)
    ensures !QuantityAccepted(op, dto.quantity) ==>
      r == Failure(if op == Adjustment then NegativeAdjustment else QuantityNotPositive)
    ensures QuantityAccepted(op, dto.quantity) && FindProduct(db.products, dto.productId).None? ==>
      r == Failure(NotFound("Product", dto.productId))
    ensures r.Failure? ==> r.error.Kind() != DbUpdateException
  {
    if op != Adjustment && dto.quantity <= 0 then Failure(QuantityNotPositive)
    else if op == Adjustment && dto.quantity < 0 then Failure(NegativeAdjustment)
    else match FindProduct(db.products, dto.productId)
      case None => Failure(NotFound("Product", dto.productId))
      case Some(p) =>
        if op == Remove && p.quantity < dto.quantity then Failure(InsufficientStock(p.quantity, dto.quantity))
        else Success(p)
  }

  /** The quantity the product is left with. */
  function NewQuantity(op: MovementType, current: int, requested: int): int {
    match op
    case Add => current + requested
    case Remove => current - requested
    case Adjustment => requested
  }

  /** The signed quantity recorded in the movement: the change it makes. */
  function Delta(op: MovementType, current: int, requested: int): (d: int)
    ensures current + d == NewQuantity(op, current, requested)
    ensures op == Add && requested > 0 ==> d > 0
    ensures op == Remove && requested > 0 ==> d < 0
  {
    match op
    case Add => requested
    case Remove => -requested
    case Adjustment => requested - current
  }

  function MovementFor(op: MovementType, dto: StockMovementRequestDto, current: int, now: Instant): StockMovement {
    StockMovement(0, dto.productId, op, Delta(op, current, dto.quantity), dto.reason, dto.notes, dto.createdBy, now)
  }

  /** MapToDto: the movement with its product's name and SKU. */
  function MapToDto(m: StockMovement, p: Product): (r: StockMovementDto)
    ensures r.id == m.id && r.productId == m.productId && r.quantity == m.quantity
    ensures r.reason == m.reason && r.notes == m.notes && r.createdBy == m.createdBy
    ensures MovementTypeOf(r.movementType.Value()) == Some(m.movementType)
    ensures r.movementTypeName == r.movementType.Name()
  {
    StockMovementDto(m.id, m.productId, p.name, p.sku, m.movementType, m.movementType.Name(),
                     m.quantity, m.reason, m.notes, m.createdBy, m.createdAt)
  }

  /** The whole operation: the checks, the product update, then the append.
      The two writes are separate saves, as in the source. */
  function Apply(db: Db, op: MovementType, dto: StockMovementRequestDto, now: Instant): (out: (Result<StockMovementDto, Error>, Db))
    ensures DbValid(db) ==> DbValid(out.1)
    ensures Check(db, op, dto).Failure? ==> out == (Failure(Check(db, op, dto).error), db)
    ensures DbValid(db) ==> (out.0.Success? <==> Check(db, op, dto).Success?)
  {
    match Check(db, op, dto)
    case Failure(e) => (Failure(e), db)
    case Success(p) =>
      var p' := p.(quantity := NewQuantity(op, p.quantity, dto.quantity), updatedAt := now);
      var (u, db1) := UpdateProductRow(db, p');
      assert DbValid(db) ==> u.Success? by {
        if DbValid(db) {
          SameKeysFit(db.products, p, p');
          SameCategoryFits(db, p, p');
        }
      }
      if u.Failure? then (Failure(u.error), db1)
      else
        assert HasProduct(db1.products, dto.productId) by {
          var k :| 0 <= k < |db.products| && db.products[k] == p;
          assert db1.products[k] == p';
        }
        var (a, db2) := AppendMovement(db1, MovementFor(op, dto, p.quantity, now));
        (Success(MapToDto(a.value, p')), db2)
  }

  /** The product row with its new quantity and time stamp. */
  function Restocked(p: Product, op: MovementType, requested: int, now: Instant): Product {
    p.(quantity := NewQuantity(op, p.quantity, requested), updatedAt := now)
  }

  /** On a valid store a call that passes the checks replaces the product row
      and appends the movement with the next id. */
  lemma ApplySuccess(db: Db, op: MovementType, dto: StockMovementRequestDto, now: Instant)
    requires DbValid(db) && Check(db, op, dto).Success?
    ensures var before := Check(db, op, dto).value;
      var after := Restocked(before, op, dto.quantity, now);
      var row := MovementFor(op, dto, before.quantity, now).(id := db.nextMovementId);
      Apply(db, op, dto, now)
        == (Success(MapToDto(row, after)),
            db.(products := ReplaceProductRow(db.products, after),
                movements := db.movements + [row],
                nextMovementId := db.nextMovementId + 1))
  {
    var before := Check(db, op, dto).value;
    SameKeysFit(db.products, before, Restocked(before, op, dto.quantity, now));
    SameCategoryFits(db, before, Restocked(before, op, dto.quantity, now));
  }

  /** On a valid store, a successful operation leaves the product with its
      old quantity plus the recorded signed quantity, appends exactly that
      movement, and touches no other row. */
  lemma ApplyStep(db: Db, op: MovementType, dto: StockMovementRequestDto, now: Instant)
    requires DbValid(db) && Check(db, op, dto).Success?
    ensures Apply(db, op, dto, now).0.Success?
    ensures FindProduct(Apply(db, op, dto, now).1.products, dto.productId)
         == Some(Restocked(Check(db, op, dto).value, op, dto.quantity, now))
    ensures Restocked(Check(db, op, dto).value, op, dto.quantity, now).quantity
         == Check(db, op, dto).value.quantity + Apply(db, op, dto, now).0.value.quantity
    ensures forall id :: id != dto.productId ==> FindProduct(Apply(db, op, dto, now).1.products, id) == FindProduct(db.products, id)
    ensures Apply(db, op, dto, now).1.movements
         == db.movements + [StockMovement(Apply(db, op, dto, now).0.value.id, dto.productId, op, Apply(db, op, dto, now).0.value.quantity,
                                          dto.reason, dto.notes, dto.createdBy, now)]
    ensures Apply(db, op, dto, now).1.categories == db.categories && Apply(db, op, dto, now).1.users == db.users
  {
    ApplyStepRows(db, op, dto, now);
    ApplyStepProduct(db, op, dto, now);
  }

  /** The appended movement, and the tables a stock operation leaves alone. */
  lemma ApplyStepRows(db: Db, op: MovementType, dto: StockMovementRequestDto, now: Instant)
    requires DbValid(db) && Check(db, op, dto).Success?
    ensures var out := Apply(db, op, dto, now);
      && out.0.Success?
      && out.0.value.quantity == Delta(op, Check(db, op, dto).value.quantity, dto.quantity)
      && out.1.movements == db.movements + [StockMovement(out.0.value.id, dto.productId, op, out.0.value.quantity,
                                                           dto.reason, dto.notes, dto.createdBy, now)]
      && out.1.categories == db.categories && out.1.users == db.users
  {
    ApplySuccess(db, op, dto, now);
  }

  /** The product rows after a stock operation. */
  lemma ApplyStepProduct(db: Db, op: MovementType, dto: StockMovementRequestDto, now: Instant)
    requires DbValid(db) && Check(db, op, dto).Success?
    ensures var before := Check(db, op, dto).value;
      var ps := Apply(db, op, dto, now).1.products;
      && FindProduct(ps, dto.productId) == Some(Restocked(before, op, dto.quantity, now))
      && (forall id :: id != dto.productId ==> FindProduct(ps, id) == FindProduct(db.products, id))
  {
    var before := Check(db, op, dto).value;
    var after := Restocked(before, op, dto.quantity, now);
    ApplySuccess(db, op, dto, now);
    forall id ensures FindProduct(ReplaceProductRow(db.products, after), id)
                      == if id == after.id then Some(after) else FindProduct(db.products, id)
    {
      FindAfterReplace(db.products, after, id);
    }
  }

  /** What each operation leaves behind: Add raises the quantity by the
      request, Remove lowers it and never below zero, Adjust sets it. */
  lemma ApplyOutcome(db: Db, op: MovementType, dto: StockMovementRequestDto, now: Instant)
    requires DbValid(db) && Check(db, op, dto).Success?
    ensures var before := Check(db, op, dto).value.quantity;
      var after := FindProduct(Apply(db, op, dto, now).1.products, dto.productId).value.quantity;
      && (op == Add ==> after == before + dto.quantity > before)
      && (op == Remove ==> 0 <= after == before - dto.quantity < before)
      && (op == Adjustment ==> after == dto.quantity >= 0)
  {
    ApplyStep(db, op, dto, now);
  }

  /** C#'s unchecked 32-bit integer arithmetic: the result reduced into
      [-2^31, 2^31). */
  function Wrap32(x: int): (r: int)
    ensures -0x8000_0000 <= r < 0x8000_0000
    ensures -0x8000_0000 <= x < 0x8000_0000 ==> r == x
  {
    (x + 0x8000_0000) % 0x1_0000_0000 - 0x8000_0000
  }

  /** AddStock's `Quantity += request` on the 32-bit column, as written. */
  function AddedQuantityAsWritten(current: int, requested: int): int {
    Wrap32(current + requested)
  }

  /** A positive addition to a large stock wraps round to a negative
      quantity; the rest of the model uses the unbounded sum, for which
      ApplyOutcome proves that Add raises the quantity. */
  lemma AddStockWrapsAround()
    ensures AddedQuantityAsWritten(100, 2147483600) < 0
    ensures AddedQuantityAsWritten(100, 2147483600) == NewQuantity(Add, 100, 2147483600) - 0x1_0000_0000
  {
  }

  /** Removing exactly the quantity on hand is allowed and leaves zero. */
  lemma RemoveAllLeavesZero(db: Db, dto: StockMovementRequestDto, now: Instant)
    requires DbValid(db) && dto.quantity > 0
    requires FindProduct(db.products, dto.productId).Some?
    requires FindProduct(db.products, dto.productId).value.quantity == dto.quantity
    ensures Apply(db, Remove, dto, now).0.Success?
    ensures FindProduct(Apply(db, Remove, dto, now).1.products, dto.productId).value.quantity == 0
  {
    ApplyOutcome(db, Remove, dto, now);
  }

  /** A failed operation changes nothing and appends no movement. */
  lemma FailureChangesNothing(db: Db, op: MovementType, dto: StockMovementRequestDto, now: Instant)
    requires DbValid(db) && Apply(db, op, dto, now).0.Failure?
    ensures Apply(db, op, dto, now).1 == db
    ensures Apply(db, op, dto, now).0.error.Kind() in {ArgumentException, KeyNotFoundException, InvalidOperationException}
  {
  }

  // ---------------------------------------------------------------------------
  // The ledger: movements account for every change the stock operations make

  /** Sum of the signed quantities recorded for one product. */
  function MovementSum(ms: seq<StockMovement>, productId: int): int {
    if |ms| == 0 then 0
    else MovementSum(ms[..|ms| - 1], productId)
         + (if ms[|ms| - 1].productId == productId then ms[|ms| - 1].quantity else 0)
  }

  /** A product's quantity minus what its movements account for; None for a
      missing product. */
  function Unexplained(db: Db, productId: int): Option<int> {
    match FindProduct(db.products, productId)
    case None => None
    case Some(p) => Some(p.quantity - MovementSum(db.movements, productId))
  }

  /** Raising one product's quantity by `delta` while recording a movement of
      `delta` for it leaves every product's unexplained quantity as it was. */
  lemma RecordedChangeKeepsUnexplained(db: Db, db': Db, m: StockMovement, productId: int)
    requires FindProduct(db.products, m.productId).Some?
    requires FindProduct(db'.products, m.productId).Some?
    requires FindProduct(db'.products, m.productId).value.quantity
             == FindProduct(db.products, m.productId).value.quantity + m.quantity
    requires forall id :: id != m.productId ==> FindProduct(db'.products, id) == FindProduct(db.products, id)
    requires db'.movements == db.movements + [m]
    ensures Unexplained(db', productId) == Unexplained(db, productId)
  {
    assert db'.movements[..|db'.movements| - 1] == db.movements;
  }

  /** Every stock operation, failed or not, keeps each product's unexplained
      quantity: the change it makes is exactly the change it records. */
  lemma ApplyKeepsUnexplained(db: Db, op: MovementType, dto: StockMovementRequestDto, now: Instant, productId: int)
    requires DbValid(db)
    ensures Unexplained(Apply(db, op, dto, now).1, productId) == Unexplained(db, productId)
  {
    if Check(db, op, dto).Success? {
      ApplyStep(db, op, dto, now);
      var r := Apply(db, op, dto, now).0;
      var db' := Apply(db, op, dto, now).1;
      var m := StockMovement(r.value.id, dto.productId, op, r.value.quantity, dto.reason, dto.notes, dto.createdBy, now);
      RecordedChangeKeepsUnexplained(db, db', m, productId);
    }
  }

  /** One call to a stock endpoint. */
  datatype Request = Request(op: MovementType, dto: StockMovementRequestDto, now: Instant)

  /** The store after a sequence of stock calls, each on the result of the last. */
  function Run(db: Db, requests: seq<Request>): (r: Db)
    ensures DbValid(db) ==> DbValid(r)
    ensures DbValid(db) ==> |r.movements| >= |db.movements| && r.movements[..|db.movements|] == db.movements
    decreases |requests|
  {
    if |requests| == 0 then db
    else
      var q := requests[0];
      var db1 := Apply(db, q.op, q.dto, q.now).1;
      assert DbValid(db) ==> db1.movements[..|db.movements|] == db.movements by {
        if DbValid(db) && Check(db, q.op, q.dto).Success? {
          ApplyStep(db, q.op, q.dto, q.now);
        }
      }
      Run(db1, requests[1..])
  }

  /** Over any sequence of stock calls on a valid store, the movement log
      accounts for every change of every product's quantity. */
  lemma {:induction false} RunKeepsUnexplained(db: Db, requests: seq<Request>, productId: int)
    requires DbValid(db)
    ensures Unexplained(Run(db, requests), productId) == Unexplained(db, productId)
    decreases |requests|
  {
    if |requests| > 0 {
      var q := requests[0];
      ApplyKeepsUnexplained(db, q.op, q.dto, q.now, productId);
      RunKeepsUnexplained(Apply(db, q.op, q.dto, q.now).1, requests[1..], productId);
    }
  }

  /** ProductService's update may overwrite the quantity with no movement, so
      the accounting above holds for the stock endpoints only. */
  lemma DirectQuantityWriteIsUnrecorded(db: Db, p: Product, q: int)
    requires DbValid(db) && p in db.products && q != p.quantity
    ensures Unexplained(UpdateProductRow(db, p.(quantity := q)).1, p.id) != Unexplained(db, p.id)
  {
    var k :| 0 <= k < |db.products| && db.products[k] == p;
    FindProductRow(db.products, k);
    SameKeysFit(db.products, p, p.(quantity := q));
    SameCategoryFits(db, p, p.(quantity := q));
    FindAfterReplace(db.products, p.(quantity := q), p.id);
  }

  // ---------------------------------------------------------------------------
  // Composition with the request validator

  /** Auto-validation runs before the service, and it demands a positive
      quantity for every movement type: an adjustment to zero, which the
      service itself accepts, never reaches it through the API. */
  lemma ZeroAdjustmentStopsAtValidator(db: Db, dto: StockMovementRequestDto)
    requires dto.quantity == 0
    ensures Check(db, Adjustment, dto).Failure? ==> FindProduct(db.products, dto.productId).None?
    ensures !Validators.StockMovementRequestRules(dto)
    ensures "Quantity must be greater than zero" in Validators.StockMovementRequestErrors(dto)
  {
  }

  /** A request the validator accepts passes the quantity check of all three
      operations. */
  lemma ValidatedQuantityAccepted(dto: StockMovementRequestDto, op: MovementType)
    requires Validators.StockMovementRequestRules(dto)
    ensures QuantityAccepted(op, dto.quantity)
  {
  }

  // ---------------------------------------------------------------------------
  // Queries

  /** The movement with its product; the foreign key makes the product exist. */
  function View(db: Db, m: StockMovement): (r: StockMovementDto)
    requires DbValid(db) && m in db.movements
    ensures r.id == m.id && r.productId == m.productId && r.quantity == m.quantity && r.createdAt == m.createdAt
    ensures r.productSku == FindProduct(db.products, m.productId).value.sku
  {
    MapToDto(m, FindProduct(db.products, m.productId).value)
  }

  /** Each movement with its product, in order. */
  function Views(db: Db, ms: seq<StockMovement>): (r: seq<StockMovementDto>)
    requires DbValid(db) && forall m :: m in ms ==> m in db.movements
    ensures |r| == |ms|
    ensures forall i :: 0 <= i < |ms| ==> r[i] == View(db, ms[i])
  {
    seq(|ms|, i requires 0 <= i < |ms| => View(db, ms[i]))
  }

  /** A movement of a list is read in the list's views. */
  lemma ViewIn(db: Db, ms: seq<StockMovement>, m: StockMovement)
    requires DbValid(db) && (forall x :: x in ms ==> x in db.movements) && m in ms
    ensures View(db, m) in Views(db, ms)
  {
    var k :| 0 <= k < |ms| && ms[k] == m;
    assert Views(db, ms)[k] == View(db, m);
  }

  /** GetAllMovementsAsync: the log, reordered newest first (a permutation,
      as GetAllAsync promises), each movement read with its product. */
  function GetAllMovements(db: Db): (r: seq<StockMovementDto>)
    requires DbValid(db)
    ensures r == Views(db, MovementRepository.GetAll(db))
    ensures |r| == |db.movements|
    ensures forall m :: m in db.movements ==> View(db, m) in r
    ensures forall i, j :: 0 <= i < j < |r| ==> r[i].createdAt >= r[j].createdAt
  {
    var all := MovementRepository.GetAll(db);
    forall m | m in db.movements ensures View(db, m) in Views(db, all) {
      ViewIn(db, all, m);
    }
    Views(db, all)
  }

  /** GetMovementsByProductIdAsync: that product's movements, every one of
      them, newest first. */
  function GetMovementsByProductId(db: Db, productId: int): (r: seq<StockMovementDto>)
    requires DbValid(db)
    ensures r == Views(db, MovementRepository.GetByProductId(db, productId))
    ensures forall i :: 0 <= i < |r| ==> r[i].productId == productId
    ensures forall m :: m in db.movements && m.productId == productId ==> View(db, m) in r
    ensures forall i, j :: 0 <= i < j < |r| ==> r[i].createdAt >= r[j].createdAt
  {
    var ms := MovementRepository.GetByProductId(db, productId);
    forall m | m in db.movements && m.productId == productId ensures View(db, m) in Views(db, ms) {
      ViewIn(db, ms, m);
    }
    Views(db, ms)
  }

  /** GetMovementsByDateRangeAsync: the movements made within the two
      instants, both included, every one of them, newest first. */
  function GetMovementsByDateRange(db: Db, startDate: Instant, endDate: Instant): (r: seq<StockMovementDto>)
    requires DbValid(db)
    ensures r == Views(db, MovementRepository.GetByDateRange(db, startDate, endDate))
    ensures forall i :: 0 <= i < |r| ==> startDate <= r[i].createdAt <= endDate
    ensures forall m :: m in db.movements && startDate <= m.createdAt <= endDate ==> View(db, m) in r
    ensures forall i, j :: 0 <= i < j < |r| ==> r[i].createdAt >= r[j].createdAt
  {
    var ms := MovementRepository.GetByDateRange(db, startDate, endDate);
    forall m | m in db.movements && startDate <= m.createdAt <= endDate ensures View(db, m) in Views(db, ms) {
      ViewIn(db, ms, m);
    }
    Views(db, ms)
  }

  /** A page of the log keeps the log's newest-first order. */
  lemma PageNewestFirst(db: Db, pageNumber: int, pageSize: int)
    ensures var page := MovementRepository.GetPaged(db, pageNumber, pageSize);
      && page.1 == |db.movements|
      && forall i, j :: 0 <= i < j < |page.0| ==> page.0[i].createdAt >= page.0[j].createdAt
  {
    var offset := (pageNumber - 1) * pageSize;
    assert MovementRepository.GetPaged(db, pageNumber, pageSize).0
      == Paging.LimitOffset(MovementRepository.GetAll(db), offset, pageSize);
    RunNewestFirst(MovementRepository.GetAll(db), offset, pageSize);
  }

  /** Any run of a newest-first list is newest first. */
  lemma RunNewestFirst(all: seq<StockMovement>, offset: int, limit: int)
    requires Sorting.SortedBy(all, MovementRepository.NewestFirst)
    ensures var run := Paging.LimitOffset(all, offset, limit);
      forall i, j :: 0 <= i < j < |run| ==> run[i].createdAt >= run[j].createdAt
  {
    var run := Paging.LimitOffset(all, offset, limit);
    Paging.LimitOffsetIsRun(all, offset, limit);
    var from := Paging.Clamp(offset, 0, |all|);
    forall i, j | 0 <= i < j < |run|
      ensures run[i].createdAt >= run[j].createdAt
    {
      assert MovementRepository.NewestFirst(all[from + i], all[from + j]);
    }
  }

  /** GetPagedMovementsAsync: the newest-first page, with the total count and
      the request's page number and size. */
  function GetPagedMovements(db: Db, pageNumber: int, pageSize: int): (r: Paging.PagedResult<StockMovementDto>)
    requires DbValid(db)
    ensures r.totalCount == |db.movements| && r.pageNumber == pageNumber && r.pageSize == pageSize
    ensures pageSize >= 0 ==> |r.items| <= pageSize
    ensures r.items == Views(db, MovementRepository.GetPaged(db, pageNumber, pageSize).0)
    ensures pageSize >= 0 ==>
      r.items == Views(db, Paging.SkipTake(MovementRepository.GetAll(db), (pageNumber - 1) * pageSize, pageSize))
    ensures forall i, j :: 0 <= i < j < |r.items| ==> r.items[i].createdAt >= r.items[j].createdAt
  {
    var page := MovementRepository.GetPaged(db, pageNumber, pageSize).0;
    PageNewestFirst(db, pageNumber, pageSize);
    Paging.PagedResult(Views(db, page), |db.movements|, pageNumber, pageSize)
  }

  // ---------------------------------------------------------------------------
  // The service methods

  method AddStock(store: Store, dto: StockMovementRequestDto, now: Instant) returns (r: Result<StockMovementDto, Error>)
    requires store.Valid()
    modifies store
    ensures store.Valid()
    ensures (r, store.State()) == Apply(old(store.State()), Add, dto, now)
  {
    r := Execute(store, Add, dto, now);
  }

  method RemoveStock(store: Store, dto: StockMovementRequestDto, now: Instant) returns (r: Result<StockMovementDto, Error>)
    requires store.Valid()
    modifies store
    ensures store.Valid()
    ensures (r, store.State()) == Apply(old(store.State()), Remove, dto, now)
  {
    r := Execute(store, Remove, dto, now);
  }

  method AdjustStock(store: Store, dto: StockMovementRequestDto, now: Instant) returns (r: Result<StockMovementDto, Error>)
    requires store.Valid()
    modifies store
    ensures store.Valid()
    ensures (r, store.State()) == Apply(old(store.State()), Adjustment, dto, now)
  {
    r := Execute(store, Adjustment, dto, now);
  }

  /** The shared body of the three operations. */
  method Execute(store: Store, op: MovementType, dto: StockMovementRequestDto, now: Instant) returns (r: Result<StockMovementDto, Error>)
    requires store.Valid()
    modifies store
    ensures store.Valid()
    ensures (r, store.State()) == Apply(old(store.State()), op, dto, now)
  {
    if !QuantityAccepted(op, dto.quantity) {
      return Failure(if op == Adjustment then NegativeAdjustment else QuantityNotPositive);
    }
    var found := FindProduct(store.products, dto.productId);
    if found.None? {
      return Failure(NotFound("Product", dto.productId));
    }
    var product := found.value;
    if op == Remove && product.quantity < dto.quantity {
      return Failure(InsufficientStock(product.quantity, dto.quantity));
    }
    var movement := MovementFor(op, dto, product.quantity, now);
    product := product.(quantity := NewQuantity(op, product.quantity, dto.quantity), updatedAt := now);
    var updated := store.UpdateProduct(product);
    if updated.Failure? {
      return Failure(updated.error);
    }
    var created := store.AddMovement(movement);
    r := Success(MapToDto(created.value, product));
  }
}
