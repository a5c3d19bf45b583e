/** CategoryService: create, rename and delete categories. Only the delete
    has a service-level check (no products may remain); a duplicate name is
    left to the database's unique index. */
module CategoryService {
  import opened Wrappers
  import opened Domain
  import opened Errors
  import opened Dtos
  import opened Persistence
  import opened CategoryRepository
  import Sorting
  import Text

  /** MapToDto: ProductCount is the size of the loaded Products collection. */
  function MapToDto(l: Loaded): (r: CategoryDto)
    ensures r.id == l.category.id && r.name == l.category.name
    ensures r.description == l.category.description && r.createdAt == l.category.createdAt
    ensures r.productCount == |l.products| >= 0
  {
    CategoryDto(l.category.id, l.category.name, l.category.description, |l.products|, l.category.createdAt)
  }

  /** GetByIdAsync with its products counted. */
  function GetById(db: Db, id: int): (r: Option<CategoryDto>)
    ensures r.None? <==> FindCategory(db.categories, id).None?
    ensures r.Some? ==> (r.value.id == id
      && r.value.productCount == |ProductsOf(db, id)|)
  {
    match CategoryRepository.GetById(db, id)
    case None => None
    case Some(l) => Some(MapToDto(l))
  }

  /** GetAllAsync: the DTO of each category, loaded with its products, in
      the name order of the repository's listing; every category is among
      them, counting its own products. */
  function GetAll(db: Db): (r: seq<CategoryDto>)
    ensures |r| == |db.categories| == |CategoryRepository.GetAll(db)|
    ensures forall i :: 0 <= i < |r| ==> r[i] == MapToDto(Load(db, CategoryRepository.GetAll(db)[i]))
    ensures forall c :: c in db.categories ==> MapToDto(Load(db, c)) in r
    ensures forall i, j :: 0 <= i < j < |r| ==> Text.StringLe(r[i].name, r[j].name)
    ensures forall i :: 0 <= i < |r| ==>
      r[i].productCount == |ProductsOf(db, r[i].id)|
  {
    var loaded := GetAllLoaded(db);
    var r := seq(|loaded|, i requires 0 <= i < |loaded| => MapToDto(loaded[i]));
    assert forall c :: c in db.categories ==> MapToDto(Load(db, c)) in r by {
      forall c | c in db.categories ensures MapToDto(Load(db, c)) in r {
        var k := CategoryListed(db, c);
        assert r[k] == MapToDto(Load(db, c));
      }
    }
    r
  }

  /** Every category is in the repository's loaded listing. */
  lemma CategoryListed(db: Db, c: Category) returns (k: int)
    requires c in db.categories
    ensures |GetAllLoaded(db)| == |CategoryRepository.GetAll(db)|
    ensures 0 <= k < |GetAllLoaded(db)| && GetAllLoaded(db)[k] == Load(db, c)
  {
    var all := CategoryRepository.GetAll(db);
    assert |all| == |multiset(all)| == |multiset(db.categories)|;
    assert c in multiset(all);
    k :| 0 <= k < |all| && all[k] == c;
  }

  /** CreateAsync. A new category has an empty Products collection. */
  function Create(db: Db, dto: CategoryDto, now: Instant): (out: (Result<CategoryDto, Error>, Db))
    ensures DbValid(db) ==> DbValid(out.1)
    ensures out.0.Failure? ==> out.1 == db && out.0.error.Kind() == DbUpdateException
    ensures DbValid(db) ==> (out.0.Success? <==> forall i :: 0 <= i < |db.categories| ==> db.categories[i].name != dto.name)
    ensures out.0.Success? ==> out.0.value.productCount == 0 && out.0.value.id == db.nextCategoryId
    ensures out.0.Success? ==>
      && out.0.value == CategoryDto(db.nextCategoryId, dto.name, dto.description, 0, now)
      && out.1 == db.(categories := db.categories + [Category(db.nextCategoryId, dto.name, dto.description, now)],
                      nextCategoryId := db.nextCategoryId + 1)
  {
    var (r, db') := InsertCategory(db, Category(0, dto.name, dto.description, now));
    if r.Failure? then (Failure(r.error), db')
    else (Success(MapToDto(Loaded(r.value, []))), db')
  }

  /** UpdateAsync: NotFound for an unknown id; otherwise the name and
      description are replaced and CreatedAt kept. */
  function Update(db: Db, dto: CategoryDto): (out: (Result<CategoryDto, Error>, Db))
    ensures DbValid(db) ==> DbValid(out.1)
    ensures out.0.Failure? ==> out.1 == db
    ensures FindCategory(db.categories, dto.id).None? ==> out.0 == Failure(NotFound("Category", dto.id))
    ensures out.0.Success? ==> (FindCategory(db.categories, dto.id).Some?
      && out.1.categories == ReplaceCategoryRow(db.categories,
           FindCategory(db.categories, dto.id).value.(name := dto.name, description := dto.description))
      && out.1.products == db.products)
    ensures out.0.Success? ==>
      var c := FindCategory(db.categories, dto.id).value.(name := dto.name, description := dto.description);
      && out.1 == db.(categories := ReplaceCategoryRow(db.categories, c))
      && out.0.value == MapToDto(Load(db, c))
  {
    match CategoryRepository.GetById(db, dto.id)
    case None => (Failure(NotFound("Category", dto.id)), db)
    case Some(l) =>
      var c := l.category.(name := dto.name, description := dto.description);
      var (r, db') := UpdateCategoryRow(db, c);
      if r.Failure? then (Failure(r.error), db')
      else (Success(MapToDto(Loaded(c, l.products))), db')
  }

  /** DeleteAsync: NotFound for an unknown id; refused while any product
      belongs to the category; otherwise the row is removed. */
  function Delete(db: Db, id: int): (out: (Result<(), Error>, Db))
    ensures DbValid(db) ==> DbValid(out.1)
    ensures out.0.Failure? ==> out.1 == db
    ensures FindCategory(db.categories, id).None? ==> out.0 == Failure(NotFound("Category", id))
    ensures out.0.Success? <==>
      FindCategory(db.categories, id).Some?
      && forall i :: 0 <= i < |db.products| ==> db.products[i].categoryId != Some(id)
    ensures out.0.Failure? && FindCategory(db.categories, id).Some? ==>
      out.0 == Failure(CategoryHasProducts(FindCategory(db.categories, id).value.name))
    ensures out.0.Success? ==> out.1 == DeleteCategoryRow(db, id)
  {
    match CategoryRepository.GetById(db, id)
    case None => (Failure(NotFound("Category", id)), db)
    case Some(l) =>
      if |l.products| > 0 then
        assert l.products[0] in l.products;
        (Failure(CategoryHasProducts(l.category.name)), db)
      else
        (Success(()), DeleteCategoryRow(db, id))
  }

  /** The service's guard means the schema's ON DELETE SET NULL never fires
      through it: a successful delete leaves every product as it was. */
  lemma DeleteTouchesNoProduct(db: Db, id: int)
    requires Delete(db, id).0.Success?
    ensures Delete(db, id).1.products == db.products
    ensures forall i :: 0 <= i < |Delete(db, id).1.categories| ==> Delete(db, id).1.categories[i].id != id
  {
    var ps := DetachCategory(db.products, id);
    assert ps == db.products;
    var cs := WithoutCategory(db.categories, id);
    assert forall i :: 0 <= i < |cs| ==> cs[i].id != id;
  }

  /** Deleting a category directly at the database (bypassing the service)
      detaches its products instead: the conflicting schema rule. */
  lemma RepositoryDeleteDetaches(db: Db, id: int, i: int)
    requires FindCategory(db.categories, id).Some?
    requires 0 <= i < |db.products| && db.products[i].categoryId == Some(id)
    ensures DeleteCategoryRow(db, id).products[i] == db.products[i].(categoryId := None)
  {
  }

  // ---------------------------------------------------------------------------
  // The service methods

  method CreateCategory(store: Store, dto: CategoryDto, now: Instant) returns (r: Result<CategoryDto, Error>)
    requires store.Valid()
    modifies store
    ensures store.Valid()
    ensures (r, store.State()) == Create(old(store.State()), dto, now)
  {
    var created := store.AddCategory(Category(0, dto.name, dto.description, now));
    if created.Failure? {
      return Failure(created.error);
    }
    r := Success(MapToDto(Loaded(created.value, [])));
  }

  method UpdateCategory(store: Store, dto: CategoryDto) returns (r: Result<CategoryDto, Error>)
    requires store.Valid()
    modifies store
    ensures store.Valid()
    ensures (r, store.State()) == Update(old(store.State()), dto)
  {
    var loaded := CategoryRepository.GetById(store.State(), dto.id);
    if loaded.None? {
      return Failure(NotFound("Category", dto.id));
    }
    var category := loaded.value.category.(name := dto.name, description := dto.description);
    var saved := store.UpdateCategory(category);
    if saved.Failure? {
      return Failure(saved.error);
    }
    r := Success(MapToDto(Loaded(category, loaded.value.products)));
  }

  method DeleteCategory(store: Store, id: int) returns (r: Result<(), Error>)
    requires store.Valid()
    modifies store
    ensures store.Valid()
    ensures (r, store.State()) == Delete(old(store.State()), id)
  {
    var loaded := CategoryRepository.GetById(store.State(), id);
    if loaded.None? {
      return Failure(NotFound("Category", id));
    }
    if |loaded.value.products| > 0 {
      return Failure(CategoryHasProducts(loaded.value.category.name));
    }
    store.DeleteCategory(id);
    r := Success(());
  }
}
