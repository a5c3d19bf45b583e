/** ProductRepository's queries: lookups, the name-ordered listings, the page
    slice, the low-stock and search filters, and the exists-with-exclusion
    checks the services use before a write. The writes are Store methods. */
module ProductRepository {
  import opened Wrappers
  import opened Text
  import opened Domain
  import opened Sorting
  import opened Paging
  import opened Persistence

  /** ORDER BY Name (ordinal). */
  predicate ByName(a: Product, b: Product) {
    StringLe(a.name, b.name)
  }

  lemma ByNameIsTotalPreorder()
    ensures TotalPreorder(ByName)
  {
    forall a: Product, b: Product
      ensures ByName(a, b) || ByName(b, a)
    {
      StringLeTotal(a.name, b.name);
    }
    forall a: Product, b: Product, c: Product | ByName(a, b) && ByName(b, c)
      ensures ByName(a, c)
    {
      StringLeTransitive(a.name, b.name, c.name);
    }
  }

  /** `r` lists exactly the rows of `s` that satisfy `keep`, ordered by name. */
  predicate NameOrderedSelection(r: seq<Product>, s: seq<Product>, keep: Product -> bool) {
    && SortedBy(r, ByName)
    && multiset(r) == multiset(Filter(s, keep))
  }

  /** Name-ordered selection of the rows satisfying `keep`. */
  function SelectByName(s: seq<Product>, keep: Product -> bool): (r: seq<Product>)
    ensures NameOrderedSelection(r, s, keep)
    ensures forall x :: x in r <==> x in s && keep(x)
  {
    ByNameIsTotalPreorder();
    SortByIsSorted(Filter(s, keep), ByName);
    SortByPermutes(Filter(s, keep), ByName);
    var r := SortBy(Filter(s, keep), ByName);
    assert forall x :: x in r <==> x in Filter(s, keep) by {
      forall x ensures x in r <==> x in Filter(s, keep) {
        assert x in r <==> x in multiset(r);
      }
    }
    r
  }

  function GetById(db: Db, id: int): (r: Option<Product>)
    ensures r.Some? ==> r.value in db.products && r.value.id == id
    ensures r.None? <==> forall i :: 0 <= i < |db.products| ==> db.products[i].id != id
  {
    FindProduct(db.products, id)
  }

  /** GetBySkuAsync: the row with exactly this SKU (unique, so at most one). */
  function GetBySku(db: Db, sku: string): (r: Option<Product>)
    ensures r.Some? ==> r.value in db.products && r.value.sku == sku
    ensures r.None? ==> forall i :: 0 <= i < |db.products| ==> db.products[i].sku != sku
  {
    FirstWhere(db.products, (p: Product) => p.sku == sku)
  }

  /** GetByBarcodeAsync: the row with exactly this barcode. */
  function GetByBarcode(db: Db, barcode: string): (r: Option<Product>)
    ensures r.Some? ==> r.value in db.products && r.value.barcode == Some(barcode)
    ensures r.None? ==> forall i :: 0 <= i < |db.products| ==> db.products[i].barcode != Some(barcode)
  {
    FirstWhere(db.products, (p: Product) => p.barcode == Some(barcode))
  }

  function FirstWhere(ps: seq<Product>, wanted: Product -> bool): (r: Option<Product>)
    ensures r.Some? ==> r.value in ps && wanted(r.value)
    ensures r.None? ==> forall i :: 0 <= i < |ps| ==> !wanted(ps[i])
  {
    if |ps| == 0 then None
    else if wanted(ps[0]) then Some(ps[0])
    else
      var r := FirstWhere(ps[1..], wanted);
      assert forall i :: 1 <= i < |ps| ==> ps[i] == ps[1..][i - 1];
      r
  }

  function All(p: Product): bool { true }

  /** GetAllAsync: every product, ordered by name. */
  function GetAll(db: Db): (r: seq<Product>)
    ensures SortedBy(r, ByName)
    ensures multiset(r) == multiset(db.products)
    ensures |r| == |db.products|
  {
    var r := SelectByName(db.products, All);
    assert Filter(db.products, All) == db.products by {
      FilterAllKeeps(db.products);
    }
    assert |r| == |multiset(r)| == |multiset(db.products)|;
    r
  }

  lemma {:induction false} FilterAllKeeps(s: seq<Product>)
    ensures Filter(s, All) == s
    decreases |s|
  {
    if |s| != 0 {
      FilterAllKeeps(s[1..]);
      assert s == [s[0]] + s[1..];
    }
  }

  /** GetPagedAsync: the total count, and the slice of the name-ordered list
      that starts at (pageNumber - 1) * pageSize and holds at most pageSize
      rows (SQLite LIMIT/OFFSET). */
  function GetPaged(db: Db, pageNumber: int, pageSize: int): (r: (seq<Product>, nat))
    ensures r.1 == |db.products|
    ensures pageSize >= 0 ==> r.0 == SkipTake(GetAll(db), (pageNumber - 1) * pageSize, pageSize)
    ensures pageSize >= 0 ==> |r.0| <= pageSize
    ensures forall x :: x in r.0 ==> x in db.products
  {
    var all := GetAll(db);
    var items := LimitOffset(all, (pageNumber - 1) * pageSize, pageSize);
    assert forall x :: x in items ==> x in all;
    assert forall x :: x in all ==> x in multiset(db.products);
    (items, |db.products|)
  }

  predicate InCategory(categoryId: int, p: Product) {
    p.categoryId == Some(categoryId)
  }

  /** GetByCategoryIdAsync: that category's products, ordered by name. */
  function GetByCategoryId(db: Db, categoryId: int): (r: seq<Product>)
    ensures NameOrderedSelection(r, db.products, p => InCategory(categoryId, p))
    ensures forall x :: x in r <==> x in db.products && x.categoryId == Some(categoryId)
  {
    SelectByName(db.products, p => InCategory(categoryId, p))
  }

  predicate LowStockRow(p: Product) {
    p.IsLowStock()
  }

  /** GetLowStockProductsAsync: exactly the products at or below their
      minimum level, ordered by name. */
  function GetLowStockProducts(db: Db): (r: seq<Product>)
    ensures NameOrderedSelection(r, db.products, LowStockRow)
    ensures forall x :: x in r <==> x in db.products && x.quantity <= x.minimumStockLevel
  {
    SelectByName(db.products, LowStockRow)
  }

  /** The search predicate with the term already lower-cased: the lower-cased
      name or SKU, or a non-null barcode or description, contains it. */
  predicate SearchMatches(p: Product, term: string) {
    || Contains(ToLower(p.name), term)
    || Contains(ToLower(p.sku), term)
    || (p.barcode.Some? && Contains(ToLower(p.barcode.value), term))
    || (p.description.Some? && Contains(ToLower(p.description.value), term))
  }

  /** SearchAsync: the matching products, ordered by name. */
  function Search(db: Db, searchTerm: string): (r: seq<Product>)
    ensures forall x :: x in r <==> x in db.products && SearchMatches(x, ToLower(searchTerm))
    ensures SortedBy(r, ByName)
  {
    var term := ToLower(searchTerm);
    SelectByName(db.products, p => SearchMatches(p, term))
  }

  /** An empty term matches every product. */
  lemma EmptySearchMatchesAll(db: Db, p: Product)
    requires p in db.products
    ensures p in Search(db, "")
  {
    assert OccursAt(ToLower(p.name), "", 0);
  }

  /** SkuExistsAsync: some row other than `exclude` has exactly this SKU. */
  function SkuExists(ps: seq<Product>, sku: string, exclude: Option<int>): (r: bool)
    ensures r <==> exists i :: 0 <= i < |ps| && ps[i].sku == sku && (exclude.None? || ps[i].id != exclude.value)
  {
    if |ps| == 0 then false
    else if ps[0].sku == sku && (exclude.None? || ps[0].id != exclude.value) then
      assert ps[0].sku == sku;
      true
    else
      var rest := SkuExists(ps[1..], sku, exclude);
      assert rest <==> exists i :: 1 <= i < |ps| && ps[i].sku == sku && (exclude.None? || ps[i].id != exclude.value) by {
        if rest {
          var i :| 0 <= i < |ps[1..]| && ps[1..][i].sku == sku && (exclude.None? || ps[1..][i].id != exclude.value);
          assert ps[i + 1] == ps[1..][i];
        }
        forall i | 1 <= i < |ps| && ps[i].sku == sku && (exclude.None? || ps[i].id != exclude.value)
          ensures rest
        {
          assert ps[1..][i - 1] == ps[i];
        }
      }
      rest
  }

  /** BarcodeExistsAsync: false for a blank barcode; otherwise some row other
      than `exclude` has exactly this barcode. */
  function BarcodeExists(ps: seq<Product>, barcode: string, exclude: Option<int>): (r: bool)
    ensures r <==> !IsBlank(barcode) && exists i :: 0 <= i < |ps| && ps[i].barcode == Some(barcode) && (exclude.None? || ps[i].id != exclude.value)
  {
    if IsBlank(barcode) then false else BarcodeUsed(ps, barcode, exclude)
  }

  function BarcodeUsed(ps: seq<Product>, barcode: string, exclude: Option<int>): (r: bool)
    ensures r <==> exists i :: 0 <= i < |ps| && ps[i].barcode == Some(barcode) && (exclude.None? || ps[i].id != exclude.value)
  {
    if |ps| == 0 then false
    else if ps[0].barcode == Some(barcode) && (exclude.None? || ps[0].id != exclude.value) then
      assert ps[0].barcode == Some(barcode);
      true
    else
      var rest := BarcodeUsed(ps[1..], barcode, exclude);
      assert rest <==> exists i :: 1 <= i < |ps| && ps[i].barcode == Some(barcode) && (exclude.None? || ps[i].id != exclude.value) by {
        if rest {
          var i :| 0 <= i < |ps[1..]| && ps[1..][i].barcode == Some(barcode) && (exclude.None? || ps[1..][i].id != exclude.value);
          assert ps[i + 1] == ps[1..][i];
        }
        forall i | 1 <= i < |ps| && ps[i].barcode == Some(barcode) && (exclude.None? || ps[i].id != exclude.value)
          ensures rest
        {
          assert ps[1..][i - 1] == ps[i];
        }
      }
      rest
  }
}
