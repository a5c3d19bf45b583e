/** ProductService: create, update and delete with the SKU and barcode
    uniqueness checks (the product itself excluded on update), and the
    read-side mapping to ProductDto. */
module ProductService {
  import opened Wrappers
  import opened Text
  import opened Domain
  import opened Errors
  import opened Dtos
  import opened Persistence
  import Paging
  import Repo = ProductRepository
  import StockService
  import Validators

  /** MapToDto: `categoryName` is what the Category navigation holds. */
  function MapToDto(p: Product, categoryName: Option<string>): (r: ProductDto)
    ensures r.id == p.id && r.sku == p.sku && r.barcode == p.barcode && r.quantity == p.quantity
    ensures r.categoryId == p.categoryId && r.categoryName == categoryName
    ensures r.isLowStock <==> r.quantity <= r.minimumStockLevel
  {
    ProductDto(p.id, p.name, p.description, p.sku, p.barcode, p.price, p.cost, p.quantity,
               p.minimumStockLevel, p.categoryId, categoryName, p.IsLowStock(), p.createdAt, p.updatedAt)
  }

  /** The category name a query with Include(Category) loads for `p`. */
  function LoadedCategoryName(db: Db, p: Product): (r: Option<string>)
    ensures r.Some? ==> (p.categoryId.Some? && FindCategory(db.categories, p.categoryId.value).Some?
      && r.value == FindCategory(db.categories, p.categoryId.value).value.name)
    ensures CategoryLinkFits(db.categories, p) ==> (r.Some? <==> p.categoryId.Some?)
  {
    if p.categoryId.None? then None
    else match FindCategory(db.categories, p.categoryId.value)
      case None => None
      case Some(c) => Some(c.name)
  }

  /** A product read with its category. */
  function View(db: Db, p: Product): ProductDto {
    MapToDto(p, LoadedCategoryName(db, p))
  }

  /** A product of a list is read in the list's views. */
  lemma ViewIn(db: Db, ps: seq<Product>, p: Product)
    requires p in ps
    ensures View(db, p) in Views(db, ps)
  {
    var k :| 0 <= k < |ps| && ps[k] == p;
    assert Views(db, ps)[k] == View(db, p);
  }

  /** Each product read with its category, in order. */
  function Views(db: Db, ps: seq<Product>): (r: seq<ProductDto>)
    ensures |r| == |ps|
    ensures forall i :: 0 <= i < |ps| ==> r[i] == View(db, ps[i])
  {
    seq(|ps|, i requires 0 <= i < |ps| => View(db, ps[i]))
  }

  /** GetByIdAsync: the DTO of the product with that id, read with its
      category, or null. */
  function GetById(db: Db, id: int): (r: Option<ProductDto>)
    ensures r.None? <==> FindProduct(db.products, id).None?
    ensures r.Some? ==> r.value.id == id
    ensures r.Some? ==>
      r.value == MapToDto(FindProduct(db.products, id).value, LoadedCategoryName(db, FindProduct(db.products, id).value))
  {
    match Repo.GetById(db, id)
    case None => None
    case Some(p) => Some(View(db, p))
  }

  function GetBySku(db: Db, sku: string): (r: Option<ProductDto>)
    ensures r.Some? ==> r.value.sku == sku
    ensures r.None? ==> forall i :: 0 <= i < |db.products| ==> db.products[i].sku != sku
  {
    match Repo.GetBySku(db, sku)
    case None => None
    case Some(p) => Some(View(db, p))
  }

  function GetByBarcode(db: Db, barcode: string): (r: Option<ProductDto>)
    ensures r.Some? ==> r.value.barcode == Some(barcode)
    ensures r.None? ==> forall i :: 0 <= i < |db.products| ==> db.products[i].barcode != Some(barcode)
  {
    match Repo.GetByBarcode(db, barcode)
    case None => None
    case Some(p) => Some(View(db, p))
  }

  /** GetAllAsync: every product, by name, each read with its category. */
  function GetAll(db: Db): (r: seq<ProductDto>)
    ensures r == Views(db, Repo.GetAll(db))
    ensures |r| == |db.products|
    ensures forall p :: p in db.products ==> View(db, p) in r
  {
    var all := Repo.GetAll(db);
    assert forall p :: p in db.products ==> p in all by {
      forall p | p in db.products ensures p in all {
        assert p in multiset(db.products);
      }
    }
    forall p | p in db.products ensures View(db, p) in Views(db, all) {
      ViewIn(db, all, p);
    }
    Views(db, all)
  }

  /** GetLowStockProductsAsync: the low-stock products by name, each flagged
      low-stock, and every low-stock product among them. */
  function GetLowStockProducts(db: Db): (r: seq<ProductDto>)
    ensures r == Views(db, Repo.GetLowStockProducts(db))
    ensures forall i :: 0 <= i < |r| ==> r[i].isLowStock
    ensures forall p :: p in db.products && p.quantity <= p.minimumStockLevel ==> View(db, p) in r
  {
    var low := Repo.GetLowStockProducts(db);
    assert forall i :: 0 <= i < |low| ==> low[i] in low;
    forall p | p in db.products && p.quantity <= p.minimumStockLevel ensures View(db, p) in Views(db, low) {
      ViewIn(db, low, p);
    }
    Views(db, low)
  }

  /** GetByCategoryIdAsync: the products of that category by name, and every
      one of them. */
  function GetByCategoryId(db: Db, categoryId: int): (r: seq<ProductDto>)
    ensures r == Views(db, Repo.GetByCategoryId(db, categoryId))
    ensures forall i :: 0 <= i < |r| ==> r[i].categoryId == Some(categoryId)
    ensures forall p :: p in db.products && p.categoryId == Some(categoryId) ==> View(db, p) in r
  {
    var ps := Repo.GetByCategoryId(db, categoryId);
    assert forall i :: 0 <= i < |ps| ==> ps[i] in ps;
    forall p | p in db.products && p.categoryId == Some(categoryId) ensures View(db, p) in Views(db, ps) {
      ViewIn(db, ps, p);
    }
    Views(db, ps)
  }

  /** SearchAsync: the matching products by name, and every one of them. */
  function Search(db: Db, searchTerm: string): (r: seq<ProductDto>)
    ensures r == Views(db, Repo.Search(db, searchTerm))
    ensures forall p :: p in db.products && Repo.SearchMatches(p, ToLower(searchTerm)) ==> View(db, p) in r
  {
    var found := Repo.Search(db, searchTerm);
    forall p | p in db.products && Repo.SearchMatches(p, ToLower(searchTerm)) ensures View(db, p) in Views(db, found) {
      ViewIn(db, found, p);
    }
    Views(db, found)
  }

  /** The two uniqueness checks in the source's order; a blank barcode is not
      checked. `exclude` is the product being updated. */
  function UniquenessError(db: Db, sku: string, barcode: Option<string>, exclude: Option<int>): (r: Option<Error>)
    ensures r.None? <==>
      !Repo.SkuExists(db.products, sku, exclude)
      && (IsNullOrWhiteSpace(barcode) || !Repo.BarcodeExists(db.products, barcode.value, exclude))
    ensures Repo.SkuExists(db.products, sku, exclude) ==> r == Some(DuplicateSku(sku))
    ensures r.Some? ==> r.value.Kind() == InvalidOperationException
  {
    if Repo.SkuExists(db.products, sku, exclude) then Some(DuplicateSku(sku))
    else if !IsNullOrWhiteSpace(barcode) && Repo.BarcodeExists(db.products, barcode.value, exclude) then
      Some(DuplicateBarcode(barcode.value))
    else None
  }

  /** The row CreateAsync builds: every column from the request, the
      barcode as given (a blank one too), both time stamps `now`. */
  function NewRow(dto: CreateProductDto, now: Instant): (p: Product)
    ensures p.name == dto.name && p.description == dto.description && p.sku == dto.sku && p.barcode == dto.barcode
    ensures p.price == dto.price && p.cost == dto.cost && p.quantity == dto.initialQuantity
    ensures p.minimumStockLevel == dto.minimumStockLevel && p.categoryId == dto.categoryId
    ensures p.createdAt == now && p.updatedAt == now
  {
    Product(0, dto.name, dto.description, dto.sku, dto.barcode, dto.price, dto.cost,
            dto.initialQuantity, dto.minimumStockLevel, dto.categoryId, now, now)
  }

  /** CreateAsync. The new product's Category navigation is not loaded, so the
      returned CategoryName is null. */
  function Create(db: Db, dto: CreateProductDto, now: Instant): (out: (Result<ProductDto, Error>, Db))
    ensures DbValid(db) ==> DbValid(out.1)
    ensures out.0.Failure? ==> out.1 == db
    ensures UniquenessError(db, dto.sku, dto.barcode, None).Some? ==>
      out.0 == Failure(UniquenessError(db, dto.sku, dto.barcode, None).value)
    ensures out.0.Success? <==>
      && UniquenessError(db, dto.sku, dto.barcode, None).None?
      && ProductFits(db.products, NewRow(dto, now).(id := db.nextProductId))
      && CategoryLinkFits(db.categories, NewRow(dto, now))
    ensures out.0.Success? ==>
      && out.1 == db.(products := db.products + [NewRow(dto, now).(id := db.nextProductId)],
                      nextProductId := db.nextProductId + 1)
      && out.0.value == MapToDto(NewRow(dto, now).(id := db.nextProductId), None)
  {
    match UniquenessError(db, dto.sku, dto.barcode, None)
    case Some(e) => (Failure(e), db)
    case None =>
      var (r, db') := InsertProduct(db, NewRow(dto, now));
      if r.Failure? then (Failure(r.error), db') else (Success(MapToDto(r.value, None)), db')
  }

  /** The row after UpdateAsync's assignments: every column from the request
      (the barcode as given), the quantity only when one is given, the id and
      CreatedAt kept. */
  function Updated(p: Product, dto: UpdateProductDto, now: Instant): (r: Product)
    ensures r.id == p.id && r.createdAt == p.createdAt && r.updatedAt == now
    ensures r.quantity == if dto.quantity.Some? then dto.quantity.value else p.quantity
    ensures r.sku == dto.sku && r.barcode == dto.barcode && r.categoryId == dto.categoryId
    ensures r.name == dto.name && r.description == dto.description && r.price == dto.price
    ensures r.cost == dto.cost && r.minimumStockLevel == dto.minimumStockLevel
  {
    p.(name := dto.name, description := dto.description, sku := dto.sku, barcode := dto.barcode,
       price := dto.price, cost := dto.cost, minimumStockLevel := dto.minimumStockLevel,
       categoryId := dto.categoryId,
       quantity := if dto.quantity.Some? then dto.quantity.value else p.quantity,
       updatedAt := now)
  }

  /** The category name the response carries after an update: the loaded
      category while the id is unchanged; a changed id leaves the navigation
      unloaded. */
  function NameAfterUpdate(db: Db, before: Product, after: Product): (r: Option<string>)
    ensures after.categoryId == before.categoryId ==> r == LoadedCategoryName(db, after)
    ensures r.Some? ==> r == LoadedCategoryName(db, after)
  {
    if after.categoryId == before.categoryId then LoadedCategoryName(db, before) else None
  }

  /** UpdateAsync. */
  function Update(db: Db, dto: UpdateProductDto, now: Instant): (out: (Result<ProductDto, Error>, Db))
    ensures DbValid(db) ==> DbValid(out.1)
    ensures out.0.Failure? ==> out.1 == db
    ensures FindProduct(db.products, dto.id).None? ==> out.0 == Failure(NotFound("Product", dto.id))
    ensures FindProduct(db.products, dto.id).Some? && UniquenessError(db, dto.sku, dto.barcode, Some(dto.id)).Some? ==>
      out.0 == Failure(UniquenessError(db, dto.sku, dto.barcode, Some(dto.id)).value)
    ensures out.0.Success? ==>
      && FindProduct(db.products, dto.id).Some?
      && out.1 == db.(products := ReplaceProductRow(db.products, Updated(FindProduct(db.products, dto.id).value, dto, now)))
      && out.0.value.id == dto.id
    ensures out.0.Success? ==>
      var before := FindProduct(db.products, dto.id).value;
      out.0.value == MapToDto(Updated(before, dto, now), NameAfterUpdate(db, before, Updated(before, dto, now)))
  {
    match FindProduct(db.products, dto.id)
    case None => (Failure(NotFound("Product", dto.id)), db)
    case Some(p) =>
      match UniquenessError(db, dto.sku, dto.barcode, Some(dto.id))
      case Some(e) => (Failure(e), db)
      case None =>
        var row := Updated(p, dto, now);
        var (r, db') := UpdateProductRow(db, row);
        if r.Failure? then (Failure(r.error), db')
        else (Success(MapToDto(row, NameAfterUpdate(db, p, row))), db')
  }

  /** DeleteAsync: NotFound for an unknown id; otherwise the product goes and
      its movements with it. */
  function Delete(db: Db, id: int): (out: (Result<(), Error>, Db))
    ensures DbValid(db) ==> DbValid(out.1)
    ensures FindProduct(db.products, id).None? <==> out.0.Failure?
    ensures out.0.Failure? ==> out == (Failure(NotFound("Product", id)), db)
    ensures out.0.Success? ==>
      && (forall i :: 0 <= i < |out.1.products| ==> out.1.products[i].id != id)
      && (forall i :: 0 <= i < |out.1.movements| ==> out.1.movements[i].productId != id)
    ensures out.0.Success? ==>
      out.1 == db.(products := WithoutProduct(db.products, id), movements := WithoutMovementsOf(db.movements, id))
    ensures out.0.Success? ==> forall p :: p in db.products && p.id != id ==> p in out.1.products
    ensures out.0.Success? ==> forall m :: m in db.movements && m.productId != id ==> m in out.1.movements
  {
    if FindProduct(db.products, id).None? then (Failure(NotFound("Product", id)), db)
    else
      var db' := DeleteProductRow(db, id);
      assert forall i :: 0 <= i < |db'.products| ==> db'.products[i] in db.products && db'.products[i].id != id;
      (Success(()), db')
  }

  /** GetPagedAsync: the name-ordered page with its categories, the total
      count, and the request's page number and size. */
  function GetPaged(db: Db, pageNumber: int, pageSize: int): (r: Paging.PagedResult<ProductDto>)
    ensures r.totalCount == |db.products| && r.pageNumber == pageNumber && r.pageSize == pageSize
    ensures pageSize >= 0 ==> |r.items| <= pageSize
    ensures r.items == Views(db, Repo.GetPaged(db, pageNumber, pageSize).0)
    ensures pageSize >= 0 ==> r.items == Views(db, Paging.SkipTake(Repo.GetAll(db), (pageNumber - 1) * pageSize, pageSize))
  {
    var page := Repo.GetPaged(db, pageNumber, pageSize);
    Paging.PagedResult(Views(db, page.0), page.1, pageNumber, pageSize)
  }

  // ---------------------------------------------------------------------------
  // Properties of the checks

  /** A product is excluded from its own collision check: resubmitting its own
      SKU and barcode never fails the update's uniqueness test. */
  lemma OwnKeysPassUpdateCheck(db: Db, p: Product)
    requires DbValid(db) && p in db.products
    ensures UniquenessError(db, p.sku, p.barcode, Some(p.id)).None?
  {
    var k :| 0 <= k < |db.products| && db.products[k] == p;
    forall i | 0 <= i < |db.products| && db.products[i].id != p.id
      ensures db.products[i].sku != p.sku && (p.barcode.Some? ==> db.products[i].barcode != p.barcode)
    {
      if i < k {
        assert ProductPair(db.products[i], db.products[k]);
      } else {
        assert ProductPair(db.products[k], db.products[i]);
      }
    }
  }

  /** When the barcode is absent or not blank, passing the checks means the
      row fits the unique indexes, whether it is new (an id not yet used) or
      the product being updated. */
  lemma GuardImpliesFits(db: Db, row: Product, exclude: Option<int>)
    requires exclude.None? ==> forall i :: 0 <= i < |db.products| ==> db.products[i].id != row.id
    requires exclude.Some? ==> row.id == exclude.value
    requires row.barcode.None? || !IsBlank(row.barcode.value)
    requires UniquenessError(db, row.sku, row.barcode, exclude).None?
    ensures ProductFits(db.products, row)
  {
  }

  /** The barcode the evidently intended behaviour stores: the validator,
      the service's check and BarcodeExistsAsync all treat a blank barcode
      as no barcode, so it is stored as none, which the filtered unique
      index ignores. */
  function StoredBarcode(barcode: Option<string>): (r: Option<string>)
    ensures r.None? <==> IsNullOrWhiteSpace(barcode)
    ensures r.Some? ==> r == barcode && !IsBlank(r.value)
  {
    if IsNullOrWhiteSpace(barcode) then None else barcode
  }

  /** A product created through the service that passes its checks, into
      an existing category or none, is stored when its barcode is absent or
      not blank. With a blank barcode stored as none, as intended, the row
      is stored whatever its barcode. */
  lemma CreateWithCheckedKeysSucceeds(db: Db, dto: CreateProductDto, now: Instant)
    requires DbValid(db)
    requires UniquenessError(db, dto.sku, dto.barcode, None).None?
    requires CategoryLinkFits(db.categories, NewRow(dto, now))
    ensures dto.barcode.None? || !IsBlank(dto.barcode.value) ==> Create(db, dto, now).0.Success?
    ensures InsertProduct(db, NewRow(dto, now).(barcode := StoredBarcode(dto.barcode))).0.Success?
  {
    var intended := NewRow(dto, now).(barcode := StoredBarcode(dto.barcode));
    GuardImpliesFits(db, intended.(id := db.nextProductId), None);
    if dto.barcode.None? || !IsBlank(dto.barcode.value) {
      GuardImpliesFits(db, NewRow(dto, now).(id := db.nextProductId), None);
    }
  }

  /** Likewise an update of an existing product that passes its checks,
      into an existing category or none, is saved when its barcode is absent
      or not blank, and with a blank barcode stored as none whatever it is. */
  lemma UpdateWithCheckedKeysSucceeds(db: Db, dto: UpdateProductDto, now: Instant)
    requires DbValid(db) && FindProduct(db.products, dto.id).Some?
    requires UniquenessError(db, dto.sku, dto.barcode, Some(dto.id)).None?
    requires CategoryLinkFits(db.categories, Updated(FindProduct(db.products, dto.id).value, dto, now))
    ensures dto.barcode.None? || !IsBlank(dto.barcode.value) ==> Update(db, dto, now).0.Success?
    ensures var row := Updated(FindProduct(db.products, dto.id).value, dto, now);
      UpdateProductRow(db, row.(barcode := StoredBarcode(dto.barcode))).0.Success?
  {
    var row := Updated(FindProduct(db.products, dto.id).value, dto, now);
    GuardImpliesFits(db, row.(barcode := StoredBarcode(dto.barcode)), Some(dto.id));
    if dto.barcode.None? || !IsBlank(dto.barcode.value) {
      GuardImpliesFits(db, row, Some(dto.id));
    }
  }

  /** Overwriting the quantity through an update records no movement, so the
      stock ledger no longer explains the product's quantity. */
  lemma UpdateQuantityIsUnrecorded(db: Db, dto: UpdateProductDto, now: Instant)
    requires DbValid(db) && Update(db, dto, now).0.Success?
    requires dto.quantity.Some? && dto.quantity.value != FindProduct(db.products, dto.id).value.quantity
    ensures StockService.Unexplained(Update(db, dto, now).1, dto.id) != StockService.Unexplained(db, dto.id)
  {
    var p := FindProduct(db.products, dto.id).value;
    var row := Updated(p, dto, now);
    var k :| 0 <= k < |db.products| && db.products[k] == p;
    FindProductRow(db.products, k);
    FindAfterReplace(db.products, row, dto.id);
  }

  // ---------------------------------------------------------------------------
  // The blank barcode that slips past the checks

  /** An existing product stored with an empty (non-null) barcode, as the
      source lets happen. */
  function BlankBarcodeStore(): (db: Db)
    ensures DbValid(db)
  {
    var p := Product(1, "Cable", None, "CAB-1", Some(""), 1.0, 0.5, 0, 0, None, 0, 0);
    Db([p], [], [], [], 2, 1, 1, 1)
  }

  /** A second product with an empty barcode passes the validator and both
      service checks (a blank barcode is not checked), and the row CreateAsync
      builds, which keeps the empty barcode, is refused by the filtered unique
      index on Barcode, which indexes every non-null value: the creation
      fails with DbUpdateException. With the blank barcode stored as none the
      row is stored. */
  /** The request of the finding below passes CreateProductDtoValidator. */
  lemma PlugRequestValid(dto: CreateProductDto)
    requires dto == CreateProductDto("Plug", None, "PLG-1", Some(""), 2.0, 1.0, 0, 0, None)
    ensures Validators.CreateProductRules(dto)
  {
    assert !IsWhiteSpace(dto.name[0]);
    assert Validators.SkuAcceptable(dto.sku) by {
      assert !IsWhiteSpace(dto.sku[0]);
      assert Validators.AllChars(dto.sku, Validators.SkuChar) by {
        forall i | 0 <= i < |dto.sku| ensures Validators.SkuChar(dto.sku[i]) {
          assert i in {0, 1, 2, 3, 4};
        }
      }
    }
  }

  lemma BlankBarcodeSlipsPastGuard()
    ensures var dto := CreateProductDto("Plug", None, "PLG-1", Some(""), 2.0, 1.0, 0, 0, None);
      && Validators.CreateProductRules(dto)
      && UniquenessError(BlankBarcodeStore(), dto.sku, dto.barcode, None).None?
      && Create(BlankBarcodeStore(), dto, 0).0 == Failure(DbUpdate("UNIQUE constraint failed: Products.Barcode"))
      && InsertProduct(BlankBarcodeStore(), NewRow(dto, 0).(barcode := StoredBarcode(dto.barcode))).0.Success?
  {
    var dto := CreateProductDto("Plug", None, "PLG-1", Some(""), 2.0, 1.0, 0, 0, None);
    var db := BlankBarcodeStore();
    PlugRequestValid(dto);
    var row := NewRow(dto, 0).(id := db.nextProductId);
    assert |db.products| == 1 && db.products[0].sku != dto.sku;
    assert UniquenessError(db, dto.sku, dto.barcode, None).None?;
    assert !ProductFits(db.products, row) by {
      assert db.products[0].barcode == row.barcode;
    }
    assert ProductIndexViolation(db.products, row) == DbUpdate("UNIQUE constraint failed: Products.Barcode");
    assert InsertProduct(db, NewRow(dto, 0)).0 == Failure(ProductIndexViolation(db.products, row));
    CreateWithCheckedKeysSucceeds(db, dto, 0);
  }

  // ---------------------------------------------------------------------------
  // The service methods

  method CreateProduct(store: Store, dto: CreateProductDto, now: Instant) returns (r: Result<ProductDto, Error>)
    requires store.Valid()
    modifies store
    ensures store.Valid()
    ensures (r, store.State()) == Create(old(store.State()), dto, now)
  {
    if Repo.SkuExists(store.products, dto.sku, None) {
      return Failure(DuplicateSku(dto.sku));
    }
    if !IsNullOrWhiteSpace(dto.barcode) && Repo.BarcodeExists(store.products, dto.barcode.value, None) {
      return Failure(DuplicateBarcode(dto.barcode.value));
    }
    var created := store.AddProduct(NewRow(dto, now));
    if created.Failure? {
      return Failure(created.error);
    }
    r := Success(MapToDto(created.value, None));
  }

  method UpdateProduct(store: Store, dto: UpdateProductDto, now: Instant) returns (r: Result<ProductDto, Error>)
    requires store.Valid()
    modifies store
    ensures store.Valid()
    ensures (r, store.State()) == Update(old(store.State()), dto, now)
  {
    var found := FindProduct(store.products, dto.id);
    if found.None? {
      return Failure(NotFound("Product", dto.id));
    }
    if Repo.SkuExists(store.products, dto.sku, Some(dto.id)) {
      return Failure(DuplicateSku(dto.sku));
    }
    if !IsNullOrWhiteSpace(dto.barcode) && Repo.BarcodeExists(store.products, dto.barcode.value, Some(dto.id)) {
      return Failure(DuplicateBarcode(dto.barcode.value));
    }
    var before := store.State();
    var product := Updated(found.value, dto, now);
    var saved := store.UpdateProduct(product);
    if saved.Failure? {
      return Failure(saved.error);
    }
    r := Success(MapToDto(product, NameAfterUpdate(before, found.value, product)));
  }

  method DeleteProduct(store: Store, id: int) returns (r: Result<(), Error>)
    requires store.Valid()
    modifies store
    ensures store.Valid()
    ensures (r, store.State()) == Delete(old(store.State()), id)
  {
    if FindProduct(store.products, id).None? {
      return Failure(NotFound("Product", id));
    }
    store.DeleteProduct(id);
    r := Success(());
  }
}
