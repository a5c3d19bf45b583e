/** CategoryRepository's queries. Both load the category's products with it;
    the listing is ordered by name. */
module CategoryRepository {
  import opened Wrappers
  import opened Text
  import opened Domain
  import opened Sorting
  import opened Persistence

  predicate ByName(a: Category, b: Category) {
    StringLe(a.name, b.name)
  }

  lemma ByNameIsTotalPreorder()
    ensures TotalPreorder(ByName)
  {
    forall a: Category, b: Category
      ensures ByName(a, b) || ByName(b, a)
    {
      StringLeTotal(a.name, b.name);
    }
    forall a: Category, b: Category, c: Category | ByName(a, b) && ByName(b, c)
      ensures ByName(a, c)
    {
      StringLeTransitive(a.name, b.name, c.name);
    }
  }

  /** A category with the products whose CategoryId points at it. */
  datatype Loaded = Loaded(category: Category, products: seq<Product>)

  predicate BelongsTo(categoryId: int, p: Product) {
    p.categoryId == Some(categoryId)
  }

  /** The products whose CategoryId points at `categoryId`, in table order. */
  function ProductsOf(db: Db, categoryId: int): seq<Product> {
    Filter(db.products, p => BelongsTo(categoryId, p))
  }

  function Load(db: Db, c: Category): (r: Loaded)
    ensures r.category == c && r.products == ProductsOf(db, c.id)
    ensures forall p :: p in r.products <==> p in db.products && p.categoryId == Some(c.id)
  {
    Loaded(c, ProductsOf(db, c.id))
  }

  function GetById(db: Db, id: int): (r: Option<Loaded>)
    ensures r.Some? ==> r.value.category in db.categories && r.value.category.id == id
    ensures r.None? ==> forall i :: 0 <= i < |db.categories| ==> db.categories[i].id != id
    ensures r.Some? ==> forall p :: p in r.value.products <==> p in db.products && p.categoryId == Some(id)
    ensures r.Some? ==> r.value == Load(db, FindCategory(db.categories, id).value)
  {
    match FindCategory(db.categories, id)
    case None => None
    case Some(c) => Some(Load(db, c))
  }

  /** GetAllAsync: every category, ordered by name. */
  function GetAll(db: Db): (r: seq<Category>)
    ensures SortedBy(r, ByName)
    ensures multiset(r) == multiset(db.categories)
  {
    ByNameIsTotalPreorder();
    SortByIsSorted(db.categories, ByName);
    SortByPermutes(db.categories, ByName);
    SortBy(db.categories, ByName)
  }

  function GetAllLoaded(db: Db): (r: seq<Loaded>)
    ensures |r| == |db.categories|
    ensures forall i :: 0 <= i < |r| ==> r[i] == Load(db, GetAll(db)[i])
  {
    var all := GetAll(db);
    assert |all| == |multiset(all)| == |multiset(db.categories)|;
    Map(all, c => Load(db, c))
  }
}
