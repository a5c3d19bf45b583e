/** The database behind the repositories (InventoryDbContext over SQLite):
    four tables kept in primary-key order, the identity counters, the unique
    indexes and the two foreign keys with their delete rules. `Store` is the
    context object the repositories share; each of its methods is one
    repository write followed by SaveChanges, and each is specified by a pure
    transition on the `Db` snapshot, which the services' specifications
    compose. */
module Persistence {
  import opened Wrappers
  import opened Domain
  import opened Errors
  import opened Sorting

  // ---------------------------------------------------------------------------
  // Table invariants

  /** Every earlier row stands in relation `rel` to every later row. */
  predicate Pairwise<T>(s: seq<T>, rel: (T, T) -> bool) {
    forall i, j :: 0 <= i < j < |s| ==> rel(s[i], s[j])
  }

  lemma {:induction false} FilterPairwise<T>(s: seq<T>, keep: T -> bool, rel: (T, T) -> bool)
    requires Pairwise(s, rel)
    ensures Pairwise(Filter(s, keep), rel)
    decreases |s|
  {
    if |s| != 0 {
      FilterPairwise(s[1..], keep, rel);
      var r := Filter(s[1..], keep);
      forall j | 0 <= j < |r|
        ensures rel(s[0], r[j])
      {
        var k :| 0 <= k < |s[1..]| && s[1..][k] == r[j];
        assert s[1 + k] == r[j];
      }
    }
  }

  lemma PairwiseSnoc<T>(s: seq<T>, x: T, rel: (T, T) -> bool)
    requires Pairwise(s, rel)
    requires forall i :: 0 <= i < |s| ==> rel(s[i], x)
    ensures Pairwise(s + [x], rel)
  {
  }

  /** Rows in increasing id order with distinct SKUs and distinct non-null
      barcodes (the unique index on Products.SKU and the filtered unique index
      on Products.Barcode). */
  predicate ProductPair(a: Product, b: Product) {
    a.id < b.id && a.sku != b.sku && (a.barcode.Some? ==> a.barcode != b.barcode)
  }

  /** Category names are unique. */
  predicate CategoryPair(a: Category, b: Category) {
    a.id < b.id && a.name != b.name
  }

  /** Usernames and emails are unique. */
  predicate UserPair(a: User, b: User) {
    a.id < b.id && a.username != b.username && a.email != b.email
  }

  predicate MovementPair(a: StockMovement, b: StockMovement) {
    a.id < b.id
  }

  predicate HasProduct(ps: seq<Product>, id: int) {
    exists k :: 0 <= k < |ps| && ps[k].id == id
  }

  predicate ProductTableOk(ps: seq<Product>, next: int) {
    next > 0 && Pairwise(ps, ProductPair) && forall i :: 0 <= i < |ps| ==> 0 < ps[i].id < next
  }

  predicate CategoryTableOk(cs: seq<Category>, next: int) {
    next > 0 && Pairwise(cs, CategoryPair) && forall i :: 0 <= i < |cs| ==> 0 < cs[i].id < next
  }

  predicate UserTableOk(us: seq<User>, next: int) {
    next > 0 && Pairwise(us, UserPair) && forall i :: 0 <= i < |us| ==> 0 < us[i].id < next
  }

  predicate HasCategory(cs: seq<Category>, id: int) {
    exists k :: 0 <= k < |cs| && cs[k].id == id
  }

  /** A product's non-null CategoryId names an existing category (the foreign key). */
  predicate CategoryLinksOk(ps: seq<Product>, cs: seq<Category>) {
    forall i :: 0 <= i < |ps| && ps[i].categoryId.Some? ==> HasCategory(cs, ps[i].categoryId.value)
  }

  /** Every movement belongs to an existing product (the foreign key). */
  predicate MovementTableOk(ms: seq<StockMovement>, next: int, ps: seq<Product>) {
    && next > 0
    && Pairwise(ms, MovementPair)
    && (forall i :: 0 <= i < |ms| ==> 0 < ms[i].id < next)
    && (forall i :: 0 <= i < |ms| ==> HasProduct(ps, ms[i].productId))
  }

  datatype Db = Db(
    products: seq<Product>,
    categories: seq<Category>,
    movements: seq<StockMovement>,
    users: seq<User>,
    nextProductId: int,
    nextCategoryId: int,
    nextMovementId: int,
    nextUserId: int)

  predicate DbValid(db: Db) {
    && ProductTableOk(db.products, db.nextProductId)
    && CategoryTableOk(db.categories, db.nextCategoryId)
    && UserTableOk(db.users, db.nextUserId)
    && MovementTableOk(db.movements, db.nextMovementId, db.products)
    && CategoryLinksOk(db.products, db.categories)
  }

  function EmptyDb(): (db: Db)
    ensures DbValid(db)
  {
    Db([], [], [], [], 1, 1, 1, 1)
  }

  // ---------------------------------------------------------------------------
  // Row lookup, replacement and removal

  function FindProduct(ps: seq<Product>, id: int): (r: Option<Product>)
    ensures r.Some? ==> r.value in ps && r.value.id == id
    ensures r.None? <==> forall i :: 0 <= i < |ps| ==> ps[i].id != id
  {
    if |ps| == 0 then None else if ps[0].id == id then Some(ps[0]) else FindProduct(ps[1..], id)
  }

  /** With distinct ids, a lookup finds the one row with that id. */
  lemma {:induction false} FindProductRow(ps: seq<Product>, i: int)
    requires Pairwise(ps, ProductPair) && 0 <= i < |ps|
    ensures FindProduct(ps, ps[i].id) == Some(ps[i])
    decreases |ps|
  {
    if i > 0 {
      assert ProductPair(ps[0], ps[i]);
      assert ps[1..][i - 1] == ps[i];
      FindProductRow(ps[1..], i - 1);
    }
  }

  function FindCategory(cs: seq<Category>, id: int): (r: Option<Category>)
    ensures r.Some? ==> r.value in cs && r.value.id == id
    ensures r.None? <==> forall i :: 0 <= i < |cs| ==> cs[i].id != id
  {
    if |cs| == 0 then None else if cs[0].id == id then Some(cs[0]) else FindCategory(cs[1..], id)
  }

  function FindUser(us: seq<User>, id: int): (r: Option<User>)
    ensures r.Some? ==> r.value in us && r.value.id == id
    ensures r.None? <==> forall i :: 0 <= i < |us| ==> us[i].id != id
  {
    if |us| == 0 then None else if us[0].id == id then Some(us[0]) else FindUser(us[1..], id)
  }

  function FindUserByUsername(us: seq<User>, username: string): (r: Option<User>)
    ensures r.Some? ==> r.value in us && r.value.username == username
    ensures r.None? <==> forall i :: 0 <= i < |us| ==> us[i].username != username
  {
    if |us| == 0 then None
    else if us[0].username == username then Some(us[0])
    else FindUserByUsername(us[1..], username)
  }

  function FindUserByEmail(us: seq<User>, email: string): (r: Option<User>)
    ensures r.Some? ==> r.value in us && r.value.email == email
    ensures r.None? <==> forall i :: 0 <= i < |us| ==> us[i].email != email
  {
    if |us| == 0 then None
    else if us[0].email == email then Some(us[0])
    else FindUserByEmail(us[1..], email)
  }

  function ReplaceProductRow(ps: seq<Product>, p: Product): (r: seq<Product>)
    ensures |r| == |ps|
    ensures forall i :: 0 <= i < |ps| ==> r[i] == if ps[i].id == p.id then p else ps[i]
  {
    Map(ps, (q: Product) => if q.id == p.id then p else q)
  }

  function ReplaceCategoryRow(cs: seq<Category>, c: Category): (r: seq<Category>)
    ensures |r| == |cs|
    ensures forall i :: 0 <= i < |cs| ==> r[i] == if cs[i].id == c.id then c else cs[i]
  {
    Map(cs, (q: Category) => if q.id == c.id then c else q)
  }

  function ReplaceUserRow(us: seq<User>, u: User): (r: seq<User>)
    ensures |r| == |us|
    ensures forall i :: 0 <= i < |us| ==> r[i] == if us[i].id == u.id then u else us[i]
  {
    Map(us, (q: User) => if q.id == u.id then u else q)
  }

  function WithoutProduct(ps: seq<Product>, id: int): seq<Product> {
    Filter(ps, (q: Product) => q.id != id)
  }

  function WithoutCategory(cs: seq<Category>, id: int): seq<Category> {
    Filter(cs, (q: Category) => q.id != id)
  }

  function WithoutUser(us: seq<User>, id: int): seq<User> {
    Filter(us, (q: User) => q.id != id)
  }

  /** ON DELETE CASCADE from Products to StockMovements. */
  function WithoutMovementsOf(ms: seq<StockMovement>, productId: int): seq<StockMovement> {
    Filter(ms, (m: StockMovement) => m.productId != productId)
  }

  /** ON DELETE SET NULL from Categories to Products.CategoryId. */
  function DetachCategory(ps: seq<Product>, categoryId: int): (r: seq<Product>)
    ensures |r| == |ps|
    ensures forall i :: 0 <= i < |ps| ==>
      r[i] == if ps[i].categoryId == Some(categoryId) then ps[i].(categoryId := None) else ps[i]
  {
    Map(ps, (q: Product) => if q.categoryId == Some(categoryId) then q.(categoryId := None) else q)
  }

  // ---------------------------------------------------------------------------
  // Unique-index checks the database applies to a row being written

  /** `p` clashes with no other row on SKU or on a non-null barcode. */
  predicate ProductFits(ps: seq<Product>, p: Product) {
    forall i :: 0 <= i < |ps| && ps[i].id != p.id ==>
      ps[i].sku != p.sku && (p.barcode.Some? ==> ps[i].barcode != p.barcode)
  }

  /** The foreign key a product row must satisfy. */
  predicate CategoryLinkFits(cs: seq<Category>, p: Product) {
    p.categoryId.Some? ==> HasCategory(cs, p.categoryId.value)
  }

  predicate CategoryFits(cs: seq<Category>, c: Category) {
    forall i :: 0 <= i < |cs| && cs[i].id != c.id ==> cs[i].name != c.name
  }

  predicate UserFits(us: seq<User>, u: User) {
    forall i :: 0 <= i < |us| && us[i].id != u.id ==> us[i].username != u.username && us[i].email != u.email
  }

  function ProductIndexViolation(ps: seq<Product>, p: Product): Error
    requires !ProductFits(ps, p)
  {
    if exists i :: 0 <= i < |ps| && ps[i].id != p.id && ps[i].sku == p.sku
    then DbUpdate("UNIQUE constraint failed: Products.SKU")
    else DbUpdate("UNIQUE constraint failed: Products.Barcode")
  }

  function UserIndexViolation(us: seq<User>, u: User): Error
    requires !UserFits(us, u)
  {
    if exists i :: 0 <= i < |us| && us[i].id != u.id && us[i].username == u.username
    then DbUpdate("UNIQUE constraint failed: Users.Username")
    else DbUpdate("UNIQUE constraint failed: Users.Email")
  }

  const CategoryNameViolation := DbUpdate("UNIQUE constraint failed: Categories.Name")
  const ForeignKeyViolation := DbUpdate("FOREIGN KEY constraint failed")
  /** Updating a row that is no longer in the table. */
  const RowMissing := DbUpdate("The database operation was expected to affect 1 row(s), but actually affected 0 row(s)")

  lemma ReplaceProductKeepsPairs(ps: seq<Product>, p: Product)
    requires Pairwise(ps, ProductPair) && ProductFits(ps, p)
    ensures Pairwise(ReplaceProductRow(ps, p), ProductPair)
  {
    var r := ReplaceProductRow(ps, p);
    forall i, j | 0 <= i < j < |r|
      ensures ProductPair(r[i], r[j])
    {
      assert ProductPair(ps[i], ps[j]);
      if ps[i].id == p.id {
        assert ps[j].id != p.id;
      } else if ps[j].id == p.id {
        assert ps[i].id != p.id;
      }
    }
  }

  /** After replacing the row with `p`'s id, a lookup of that id finds `p` and
      every other lookup is as before. */
  lemma {:induction false} FindAfterReplace(ps: seq<Product>, p: Product, id: int)
    requires Pairwise(ps, ProductPair) && FindProduct(ps, p.id).Some?
    ensures FindProduct(ReplaceProductRow(ps, p), id) == if id == p.id then Some(p) else FindProduct(ps, id)
    decreases |ps|
  {
    var r := ReplaceProductRow(ps, p);
    PairwiseTail(ps, ProductPair);
    if ps[0].id == p.id {
      assert r[0] == p;
      forall k | 1 <= k < |ps|
        ensures r[k] == ps[k]
      {
        assert ProductPair(ps[0], ps[k]);
      }
      assert r[1..] == ps[1..];
    } else {
      assert r[0] == ps[0];
      assert r[1..] == ReplaceProductRow(ps[1..], p);
      FindAfterReplace(ps[1..], p, id);
    }
  }

  /** A tail of a pairwise-related sequence is pairwise related. */
  lemma PairwiseTail<T>(s: seq<T>, rel: (T, T) -> bool)
    requires Pairwise(s, rel) && s != []
    ensures Pairwise(s[1..], rel)
  {
    forall i, j | 0 <= i < j < |s[1..]|
      ensures rel(s[1..][i], s[1..][j])
    {
      assert rel(s[i + 1], s[j + 1]);
    }
  }

  /** A row whose id, SKU and barcode are those of a stored row fits the
      indexes, whatever its other columns hold. */
  lemma SameKeysFit(ps: seq<Product>, stored: Product, p: Product)
    requires Pairwise(ps, ProductPair) && stored in ps
    requires p.id == stored.id && p.sku == stored.sku && p.barcode == stored.barcode
    ensures ProductFits(ps, p)
  {
    var k :| 0 <= k < |ps| && ps[k] == stored;
    forall i | 0 <= i < |ps| && ps[i].id != p.id
      ensures ps[i].sku != p.sku && (p.barcode.Some? ==> ps[i].barcode != p.barcode)
    {
      if i < k {
        assert ProductPair(ps[i], ps[k]);
      } else {
        assert ProductPair(ps[k], ps[i]);
      }
    }
  }

  /** A row pointing at the category of a stored row satisfies the foreign key. */
  lemma SameCategoryFits(db: Db, stored: Product, p: Product)
    requires DbValid(db) && stored in db.products && p.categoryId == stored.categoryId
    ensures CategoryLinkFits(db.categories, p)
  {
    var k :| 0 <= k < |db.products| && db.products[k] == stored;
  }

  /** Replacing a row keeps every id, so the movements' foreign keys still hold. */
  lemma ReplaceProductKeepsIds(ps: seq<Product>, p: Product, ms: seq<StockMovement>)
    requires forall i :: 0 <= i < |ms| ==> HasProduct(ps, ms[i].productId)
    ensures forall i :: 0 <= i < |ms| ==> HasProduct(ReplaceProductRow(ps, p), ms[i].productId)
  {
    var r := ReplaceProductRow(ps, p);
    forall i | 0 <= i < |ms|
      ensures HasProduct(r, ms[i].productId)
    {
      var k :| 0 <= k < |ps| && ps[k].id == ms[i].productId;
      assert r[k].id == ps[k].id;
    }
  }

  lemma ReplaceCategoryKeepsPairs(cs: seq<Category>, c: Category)
    requires Pairwise(cs, CategoryPair) && CategoryFits(cs, c)
    ensures Pairwise(ReplaceCategoryRow(cs, c), CategoryPair)
  {
    var r := ReplaceCategoryRow(cs, c);
    forall i, j | 0 <= i < j < |r|
      ensures CategoryPair(r[i], r[j])
    {
      assert CategoryPair(cs[i], cs[j]);
      if cs[i].id == c.id {
        assert cs[j].id != c.id;
      } else if cs[j].id == c.id {
        assert cs[i].id != c.id;
      }
    }
  }

  lemma ReplaceUserKeepsPairs(us: seq<User>, u: User)
    requires Pairwise(us, UserPair) && UserFits(us, u)
    ensures Pairwise(ReplaceUserRow(us, u), UserPair)
  {
    var r := ReplaceUserRow(us, u);
    forall i, j | 0 <= i < j < |r|
      ensures UserPair(r[i], r[j])
    {
      assert UserPair(us[i], us[j]);
      if us[i].id == u.id {
        assert us[j].id != u.id;
      } else if us[j].id == u.id {
        assert us[i].id != u.id;
      }
    }
  }

  lemma CategoryLinksGrow(ps: seq<Product>, cs: seq<Category>, c: Category)
    requires CategoryLinksOk(ps, cs)
    ensures CategoryLinksOk(ps, cs + [c])
  {
    forall i | 0 <= i < |ps| && ps[i].categoryId.Some?
      ensures HasCategory(cs + [c], ps[i].categoryId.value)
    {
      var k :| 0 <= k < |cs| && cs[k].id == ps[i].categoryId.value;
      assert (cs + [c])[k] == cs[k];
    }
  }

  lemma CategoryLinksReplace(ps: seq<Product>, cs: seq<Category>, c: Category)
    requires CategoryLinksOk(ps, cs)
    ensures CategoryLinksOk(ps, ReplaceCategoryRow(cs, c))
  {
    var r := ReplaceCategoryRow(cs, c);
    forall i | 0 <= i < |ps| && ps[i].categoryId.Some?
      ensures HasCategory(r, ps[i].categoryId.value)
    {
      var k :| 0 <= k < |cs| && cs[k].id == ps[i].categoryId.value;
      assert r[k].id == cs[k].id;
    }
  }

  /** SET NULL keeps the foreign key: the products that pointed at the deleted
      category point nowhere, the others at a category that remains. */
  lemma DetachKeepsLinks(ps: seq<Product>, cs: seq<Category>, id: int)
    requires CategoryLinksOk(ps, cs)
    ensures CategoryLinksOk(DetachCategory(ps, id), WithoutCategory(cs, id))
  {
    var r := DetachCategory(ps, id);
    var rest := WithoutCategory(cs, id);
    forall i | 0 <= i < |r| && r[i].categoryId.Some?
      ensures HasCategory(rest, r[i].categoryId.value)
    {
      assert r[i] == ps[i];
      var k :| 0 <= k < |cs| && cs[k].id == ps[i].categoryId.value;
      assert cs[k] in rest;
    }
  }

  /** SET NULL changes no id, SKU or barcode: the product indexes and the
      movements' foreign keys still hold. */
  lemma DetachKeepsProducts(ps: seq<Product>, id: int, ms: seq<StockMovement>)
    requires Pairwise(ps, ProductPair)
    requires forall i :: 0 <= i < |ms| ==> HasProduct(ps, ms[i].productId)
    ensures Pairwise(DetachCategory(ps, id), ProductPair)
    ensures forall i :: 0 <= i < |ms| ==> HasProduct(DetachCategory(ps, id), ms[i].productId)
  {
    var r := DetachCategory(ps, id);
    forall i, j | 0 <= i < j < |r|
      ensures ProductPair(r[i], r[j])
    {
      assert ProductPair(ps[i], ps[j]);
    }
    forall i | 0 <= i < |ms|
      ensures HasProduct(r, ms[i].productId)
    {
      var k :| 0 <= k < |ps| && ps[k].id == ms[i].productId;
      assert r[k].id == ps[k].id;
    }
  }

  /** Removing products keeps the remaining products' links. */
  lemma CategoryLinksShrink(ps: seq<Product>, cs: seq<Category>, id: int)
    requires CategoryLinksOk(ps, cs)
    ensures CategoryLinksOk(WithoutProduct(ps, id), cs)
  {
    var r := WithoutProduct(ps, id);
    forall i | 0 <= i < |r| && r[i].categoryId.Some?
      ensures HasCategory(cs, r[i].categoryId.value)
    {
      assert r[i] in ps;
    }
  }

  // ---------------------------------------------------------------------------
  // Transitions: one repository write and its SaveChanges

  /** DbSet.Add + SaveChanges: the row gets the next identity value, unless a
      unique index refuses it. */
  function InsertProduct(db: Db, p: Product): (out: (Result<Product, Error>, Db))
    ensures DbValid(db) ==> DbValid(out.1)
    ensures out.0.Success? <==> ProductFits(db.products, p.(id := db.nextProductId)) && CategoryLinkFits(db.categories, p)
    ensures out.0.Success? ==> (out.0.value == p.(id := db.nextProductId)
      && out.1 == db.(products := db.products + [out.0.value], nextProductId := db.nextProductId + 1))
    ensures out.0.Failure? ==> out.0.error.Kind() == DbUpdateException && out.1 == db
  {
    var row := p.(id := db.nextProductId);
    if !ProductFits(db.products, row) then
      (Failure(ProductIndexViolation(db.products, row)), db)
    else if !CategoryLinkFits(db.categories, row) then
      (Failure(ForeignKeyViolation), db)
    else
      var db' := db.(products := db.products + [row], nextProductId := db.nextProductId + 1);
      assert DbValid(db) ==> DbValid(db') by {
        if DbValid(db) {
          PairwiseSnoc(db.products, row, ProductPair);
          forall i | 0 <= i < |db.movements|
            ensures HasProduct(db'.products, db.movements[i].productId)
          {
            var k :| 0 <= k < |db.products| && db.products[k].id == db.movements[i].productId;
            assert db'.products[k] == db.products[k];
          }
        }
      }
      (Success(row), db')
  }

  /** DbSet.Update + SaveChanges on a tracked product: the row with the same id
      is overwritten, unless a unique index refuses the new values. */
  function UpdateProductRow(db: Db, p: Product): (out: (Result<Product, Error>, Db))
    ensures DbValid(db) ==> DbValid(out.1)
    ensures out.0.Success? <==>
      FindProduct(db.products, p.id).Some? && ProductFits(db.products, p) && CategoryLinkFits(db.categories, p)
    ensures out.0.Success? ==> (out.0.value == p
      && out.1 == db.(products := ReplaceProductRow(db.products, p)))
    ensures out.0.Failure? ==> out.0.error.Kind() == DbUpdateException && out.1 == db
  {
    if FindProduct(db.products, p.id).None? then (Failure(RowMissing), db)
    else if !ProductFits(db.products, p) then (Failure(ProductIndexViolation(db.products, p)), db)
    else if !CategoryLinkFits(db.categories, p) then (Failure(ForeignKeyViolation), db)
    else
      var ps := ReplaceProductRow(db.products, p);
      var db' := db.(products := ps);
      assert DbValid(db) ==> DbValid(db') by {
        if DbValid(db) {
          ReplaceProductKeepsPairs(db.products, p);
          ReplaceProductKeepsIds(db.products, p, db.movements);
        }
      }
      (Success(p), db')
  }

  /** ProductRepository.DeleteAsync: a no-op for an unknown id; otherwise the row
      goes, and its movements with it (ON DELETE CASCADE). */
  function DeleteProductRow(db: Db, id: int): (db': Db)
    ensures DbValid(db) ==> DbValid(db')
    ensures FindProduct(db.products, id).None? ==> db' == db
    ensures FindProduct(db.products, id).Some? ==>
      db' == db.(products := WithoutProduct(db.products, id),
                 movements := WithoutMovementsOf(db.movements, id))
  {
    if FindProduct(db.products, id).None? then db
    else
      var ps := WithoutProduct(db.products, id);
      var ms := WithoutMovementsOf(db.movements, id);
      var db' := db.(products := ps, movements := ms);
      assert DbValid(db) ==> DbValid(db') by {
        if DbValid(db) {
          FilterPairwise(db.products, (q: Product) => q.id != id, ProductPair);
          CategoryLinksShrink(db.products, db.categories, id);
          FilterPairwise(db.movements, (m: StockMovement) => m.productId != id, MovementPair);
          forall i | 0 <= i < |ms|
            ensures HasProduct(ps, ms[i].productId)
          {
            var k :| 0 <= k < |db.movements| && db.movements[k] == ms[i];
            var j :| 0 <= j < |db.products| && db.products[j].id == ms[i].productId;
            assert db.products[j] in ps;
          }
        }
      }
      db'
  }

  function InsertCategory(db: Db, c: Category): (out: (Result<Category, Error>, Db))
    ensures DbValid(db) ==> DbValid(out.1)
    ensures out.0.Success? <==> CategoryFits(db.categories, c.(id := db.nextCategoryId))
    ensures out.0.Success? ==> (out.0.value == c.(id := db.nextCategoryId)
      && out.1 == db.(categories := db.categories + [out.0.value], nextCategoryId := db.nextCategoryId + 1))
    ensures out.0.Failure? ==> out.0.error.Kind() == DbUpdateException && out.1 == db
  {
    var row := c.(id := db.nextCategoryId);
    if CategoryFits(db.categories, row) then
      var db' := db.(categories := db.categories + [row], nextCategoryId := db.nextCategoryId + 1);
      assert DbValid(db) ==> DbValid(db') by {
        if DbValid(db) {
          PairwiseSnoc(db.categories, row, CategoryPair);
          CategoryLinksGrow(db.products, db.categories, row);
        }
      }
      (Success(row), db')
    else
      (Failure(CategoryNameViolation), db)
  }

  function UpdateCategoryRow(db: Db, c: Category): (out: (Result<Category, Error>, Db))
    ensures DbValid(db) ==> DbValid(out.1)
    ensures out.0.Success? <==> FindCategory(db.categories, c.id).Some? && CategoryFits(db.categories, c)
    ensures out.0.Success? ==> (out.0.value == c && FindCategory(db.categories, c.id).Some?
      && out.1 == db.(categories := ReplaceCategoryRow(db.categories, c)))
    ensures out.0.Failure? ==> out.0.error.Kind() == DbUpdateException && out.1 == db
  {
    if FindCategory(db.categories, c.id).None? then (Failure(RowMissing), db)
    else if !CategoryFits(db.categories, c) then (Failure(CategoryNameViolation), db)
    else
      var cs := ReplaceCategoryRow(db.categories, c);
      var db' := db.(categories := cs);
      assert DbValid(db) ==> DbValid(db') by {
        if DbValid(db) {
          ReplaceCategoryKeepsPairs(db.categories, c);
          CategoryLinksReplace(db.products, db.categories, c);
        }
      }
      (Success(c), db')
  }

  /** CategoryRepository.DeleteAsync: a no-op for an unknown id; otherwise the
      row goes and its products lose their category (ON DELETE SET NULL). */
  function DeleteCategoryRow(db: Db, id: int): (db': Db)
    ensures DbValid(db) ==> DbValid(db')
    ensures FindCategory(db.categories, id).None? ==> db' == db
    ensures FindCategory(db.categories, id).Some? ==>
      db' == db.(categories := WithoutCategory(db.categories, id),
                 products := DetachCategory(db.products, id))
  {
    if FindCategory(db.categories, id).None? then db
    else
      var cs := WithoutCategory(db.categories, id);
      var ps := DetachCategory(db.products, id);
      var db' := db.(categories := cs, products := ps);
      assert DbValid(db) ==> DbValid(db') by {
        if DbValid(db) {
          FilterPairwise(db.categories, (q: Category) => q.id != id, CategoryPair);
          DetachKeepsLinks(db.products, db.categories, id);
          DetachKeepsProducts(db.products, id, db.movements);
        }
      }
      db'
  }

  /** StockMovementRepository.AddAsync: appends, refused only by the foreign key. */
  function AppendMovement(db: Db, m: StockMovement): (out: (Result<StockMovement, Error>, Db))
    ensures DbValid(db) ==> DbValid(out.1)
    ensures out.0.Success? <==> HasProduct(db.products, m.productId)
    ensures out.0.Success? ==> (out.0.value == m.(id := db.nextMovementId)
      && out.1 == db.(movements := db.movements + [out.0.value], nextMovementId := db.nextMovementId + 1))
    ensures out.0.Failure? ==> out.0.error.Kind() == DbUpdateException && out.1 == db
  {
    var row := m.(id := db.nextMovementId);
    if HasProduct(db.products, m.productId) then
      var db' := db.(movements := db.movements + [row], nextMovementId := db.nextMovementId + 1);
      assert DbValid(db) ==> DbValid(db') by {
        if DbValid(db) {
          PairwiseSnoc(db.movements, row, MovementPair);
        }
      }
      (Success(row), db')
    else
      (Failure(ForeignKeyViolation), db)
  }

  function InsertUser(db: Db, u: User): (out: (Result<User, Error>, Db))
    ensures DbValid(db) ==> DbValid(out.1)
    ensures out.0.Success? <==> UserFits(db.users, u.(id := db.nextUserId))
    ensures out.0.Success? ==> (out.0.value == u.(id := db.nextUserId)
      && out.1 == db.(users := db.users + [out.0.value], nextUserId := db.nextUserId + 1))
    ensures out.0.Failure? ==> out.0.error.Kind() == DbUpdateException && out.1 == db
  {
    var row := u.(id := db.nextUserId);
    if UserFits(db.users, row) then
      var db' := db.(users := db.users + [row], nextUserId := db.nextUserId + 1);
      assert DbValid(db) ==> DbValid(db') by {
        if DbValid(db) {
          PairwiseSnoc(db.users, row, UserPair);
        }
      }
      (Success(row), db')
    else
      (Failure(UserIndexViolation(db.users, row)), db)
  }

  function UpdateUserRow(db: Db, u: User): (out: (Result<User, Error>, Db))
    ensures DbValid(db) ==> DbValid(out.1)
    ensures out.0.Success? <==> FindUser(db.users, u.id).Some? && UserFits(db.users, u)
    ensures out.0.Success? ==> (out.0.value == u && FindUser(db.users, u.id).Some?
      && out.1 == db.(users := ReplaceUserRow(db.users, u)))
    ensures out.0.Failure? ==> out.0.error.Kind() == DbUpdateException && out.1 == db
  {
    if FindUser(db.users, u.id).None? then (Failure(RowMissing), db)
    else if !UserFits(db.users, u) then (Failure(UserIndexViolation(db.users, u)), db)
    else
      var us := ReplaceUserRow(db.users, u);
      var db' := db.(users := us);
      assert DbValid(db) ==> DbValid(db') by {
        if DbValid(db) {
          ReplaceUserKeepsPairs(db.users, u);
        }
      }
      (Success(u), db')
  }

  function DeleteUserRow(db: Db, id: int): (db': Db)
    ensures DbValid(db) ==> DbValid(db')
    ensures FindUser(db.users, id).None? ==> db' == db
    ensures FindUser(db.users, id).Some? ==> db' == db.(users := WithoutUser(db.users, id))
  {
    if FindUser(db.users, id).None? then db
    else
      var us := WithoutUser(db.users, id);
      assert DbValid(db) ==> UserTableOk(us, db.nextUserId) by {
        if DbValid(db) {
          FilterPairwise(db.users, (q: User) => q.id != id, UserPair);
        }
      }
      db.(users := us)
  }

  // ---------------------------------------------------------------------------
  // The context

  /** The DbContext the repositories share within one request. Each method is
      one repository write followed by SaveChanges. */
  class Store {
    var products: seq<Product>
    var categories: seq<Category>
    var movements: seq<StockMovement>
    var users: seq<User>
    var nextProductId: int
    var nextCategoryId: int
    var nextMovementId: int
    var nextUserId: int

    function State(): Db
      reads this
    {
      Db(products, categories, movements, users, nextProductId, nextCategoryId, nextMovementId, nextUserId)
    }

    ghost predicate Valid()
      reads this
    {
      DbValid(State())
    }

    /** A freshly migrated, empty database. */
    constructor ()
      ensures Valid() && State() == EmptyDb()
    {
      products, categories, movements, users := [], [], [], [];
      nextProductId, nextCategoryId, nextMovementId, nextUserId := 1, 1, 1, 1;
    }

    /** ProductRepository.AddAsync. */
    method AddProduct(p: Product) returns (r: Result<Product, Error>)
      requires Valid()
      modifies this
      ensures Valid()
      ensures (r, State()) == InsertProduct(old(State()), p)
    {
      var row := p.(id := nextProductId);
      if !ProductFits(products, row) {
        r := Failure(ProductIndexViolation(products, row));
      } else if !CategoryLinkFits(categories, row) {
        r := Failure(ForeignKeyViolation);
      } else {
        products := products + [row];
        nextProductId := nextProductId + 1;
        r := Success(row);
      }
      assert (r, State()) == InsertProduct(old(State()), p);
    }

    /** ProductRepository.UpdateAsync. */
    method UpdateProduct(p: Product) returns (r: Result<Product, Error>)
      requires Valid()
      modifies this
      ensures Valid()
      ensures (r, State()) == UpdateProductRow(old(State()), p)
    {
      if FindProduct(products, p.id).None? {
        r := Failure(RowMissing);
      } else if !ProductFits(products, p) {
        r := Failure(ProductIndexViolation(products, p));
      } else if !CategoryLinkFits(categories, p) {
        r := Failure(ForeignKeyViolation);
      } else {
        products := ReplaceProductRow(products, p);
        r := Success(p);
      }
      assert (r, State()) == UpdateProductRow(old(State()), p);
    }

    /** ProductRepository.DeleteAsync. */
    method DeleteProduct(id: int)
      requires Valid()
      modifies this
      ensures Valid()
      ensures State() == DeleteProductRow(old(State()), id)
    {
      if FindProduct(products, id).Some? {
        products := WithoutProduct(products, id);
        movements := WithoutMovementsOf(movements, id);
      }
      assert State() == DeleteProductRow(old(State()), id);
    }

    /** CategoryRepository.AddAsync. */
    method AddCategory(c: Category) returns (r: Result<Category, Error>)
      requires Valid()
      modifies this
      ensures Valid()
      ensures (r, State()) == InsertCategory(old(State()), c)
    {
      var row := c.(id := nextCategoryId);
      if CategoryFits(categories, row) {
        categories := categories + [row];
        nextCategoryId := nextCategoryId + 1;
        r := Success(row);
      } else {
        r := Failure(CategoryNameViolation);
      }
      assert (r, State()) == InsertCategory(old(State()), c);
    }

    /** CategoryRepository.UpdateAsync. */
    method UpdateCategory(c: Category) returns (r: Result<Category, Error>)
      requires Valid()
      modifies this
      ensures Valid()
      ensures (r, State()) == UpdateCategoryRow(old(State()), c)
    {
      if FindCategory(categories, c.id).None? {
        r := Failure(RowMissing);
      } else if !CategoryFits(categories, c) {
        r := Failure(CategoryNameViolation);
      } else {
        categories := ReplaceCategoryRow(categories, c);
        r := Success(c);
      }
      assert (r, State()) == UpdateCategoryRow(old(State()), c);
    }

    /** CategoryRepository.DeleteAsync. */
    method DeleteCategory(id: int)
      requires Valid()
      modifies this
      ensures Valid()
      ensures State() == DeleteCategoryRow(old(State()), id)
    {
      if FindCategory(categories, id).Some? {
        categories := WithoutCategory(categories, id);
        products := DetachCategory(products, id);
      }
      assert State() == DeleteCategoryRow(old(State()), id);
    }

    /** StockMovementRepository.AddAsync, the only write the ledger offers. */
    method AddMovement(m: StockMovement) returns (r: Result<StockMovement, Error>)
      requires Valid()
      modifies this
      ensures Valid()
      ensures (r, State()) == AppendMovement(old(State()), m)
    {
      var row := m.(id := nextMovementId);
      if HasProduct(products, m.productId) {
        movements := movements + [row];
        nextMovementId := nextMovementId + 1;
        r := Success(row);
      } else {
        r := Failure(ForeignKeyViolation);
      }
      assert (r, State()) == AppendMovement(old(State()), m);
    }

    /** UserRepository.CreateAsync. */
    method AddUser(u: User) returns (r: Result<User, Error>)
      requires Valid()
      modifies this
      ensures Valid()
      ensures (r, State()) == InsertUser(old(State()), u)
    {
      var row := u.(id := nextUserId);
      if UserFits(users, row) {
        users := users + [row];
        nextUserId := nextUserId + 1;
        r := Success(row);
      } else {
        r := Failure(UserIndexViolation(users, row));
      }
      assert (r, State()) == InsertUser(old(State()), u);
    }

    /** UserRepository.UpdateAsync. */
    method UpdateUser(u: User) returns (r: Result<User, Error>)
      requires Valid()
      modifies this
      ensures Valid()
      ensures (r, State()) == UpdateUserRow(old(State()), u)
    {
      if FindUser(users, u.id).None? {
        r := Failure(RowMissing);
      } else if !UserFits(users, u) {
        r := Failure(UserIndexViolation(users, u));
      } else {
        users := ReplaceUserRow(users, u);
        r := Success(u);
      }
      assert (r, State()) == UpdateUserRow(old(State()), u);
    }

    /** UserRepository.DeleteAsync. */
    method DeleteUser(id: int)
      requires Valid()
      modifies this
      ensures Valid()
      ensures State() == DeleteUserRow(old(State()), id)
    {
      if FindUser(users, id).Some? {
        users := WithoutUser(users, id);
      }
      assert State() == DeleteUserRow(old(State()), id);
    }
  }
}
