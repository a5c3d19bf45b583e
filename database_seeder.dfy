/** DatabaseSeeder.SeedAsync: users, then categories, then products, then
    stock movements, each pass inserting only what is missing. A write that
    throws ends the seeding with the rows written so far kept. The password
    digest, the clock and the pseudo-random draws are parameters. */
module DatabaseSeeder {
  import opened Wrappers
  import opened Text
  import opened Domain
  import opened Errors
  import opened Persistence
  import opened SeedData
  import CategoryRepository
  import ProductRepository

  // ---------------------------------------------------------------------------
  // Users

  /** The seed accounts as rows: each password stored as its digest. Every
      seed password is the username followed by "123", and there is one
      account per role. */
  function SeedUsers(digest: string -> string, now: Instant): (us: seq<User>)
    ensures |us| == |Accounts|
    ensures forall i :: 0 <= i < |us| ==>
      && us[i].passwordHash == digest(us[i].username + "123")
      && us[i].isActive && us[i].lastLoginDate.None?
    ensures forall i, j :: 0 <= i < j < |us| ==> us[i].role != us[j].role && us[i].username != us[j].username
    ensures (set u | u in us :: u.role) == {Cashier, Moderator, SuperAdmin}
  {
    var us := [AccountRow(Accounts[0], digest, now), AccountRow(Accounts[1], digest, now),
               AccountRow(Accounts[2], digest, now)];
    assert Accounts[0].password == Accounts[0].username + "123";
    assert Accounts[1].password == Accounts[1].username + "123";
    assert Accounts[2].password == Accounts[2].username + "123";
    us
  }

  /** `new User { ... }` for one seed account, its password digested. */
  function AccountRow(a: AccountSeed, digest: string -> string, now: Instant): (u: User)
    ensures u.username == a.username && u.role == a.role && u.passwordHash == digest(a.password)
    ensures u.isActive && u.lastLoginDate.None?
  {
    User(0, a.username, a.email, digest(a.password), a.role, true, None, now, now)
  }

  /** The user pass over the accounts still to visit: an account is inserted
      only when no user has its username. */
  function SeedUsersLoop(db: Db, users: seq<User>): (out: (Result<(), Error>, Db))
    ensures DbValid(db) ==> DbValid(out.1)
    ensures db.users <= out.1.users
    ensures out.1.products == db.products && out.1.categories == db.categories && out.1.movements == db.movements
    ensures out.0.Success? ==>
      forall u :: u in users ==> FindUserByUsername(out.1.users, u.username).Some?
    decreases |users|
  {
    if users == [] then (Success(()), db)
    else if FindUserByUsername(db.users, users[0].username).Some? then
      var rest := SeedUsersLoop(db, users[1..]);
      UsernameStaysTaken(db.users, rest.1.users, users[0].username);
      rest
    else
      var ins := InsertUser(db, users[0]);
      if ins.0.Failure? then (Failure(ins.0.error), ins.1)
      else
        var rest := SeedUsersLoop(ins.1, users[1..]);
        assert ins.1.users[|db.users|].username == users[0].username;
        UsernameStaysTaken(ins.1.users, rest.1.users, users[0].username);
        rest
  }

  /** A taken username stays taken when users are only added. */
  lemma UsernameStaysTaken(us: seq<User>, us': seq<User>, username: string)
    requires us <= us' && FindUserByUsername(us, username).Some?
    ensures FindUserByUsername(us', username).Some?
  {
    var i :| 0 <= i < |us| && us[i].username == username;
    assert us'[i] == us[i];
  }

  /** Accounts whose usernames are all taken insert nothing. */
  lemma {:induction false} KnownUsersNotReinserted(db: Db, users: seq<User>)
    requires forall u :: u in users ==> FindUserByUsername(db.users, u.username).Some?
    ensures SeedUsersLoop(db, users) == (Success(()), db)
    decreases |users|
  {
    if users != [] {
      assert users[0] in users;
      KnownUsersNotReinserted(db, users[1..]);
    }
  }

  /** Seeding users twice adds no duplicate: the second pass changes nothing. */
  lemma ReseedingUsersChangesNothing(db: Db, users: seq<User>)
    ensures var once := SeedUsersLoop(db, users);
      once.0.Success? ==> SeedUsersLoop(once.1, users) == (Success(()), once.1)
  {
    var once := SeedUsersLoop(db, users);
    if once.0.Success? {
      KnownUsersNotReinserted(once.1, users);
    }
  }

  /** SeedUsersAsync. */
  method SeedUsersPass(store: Store, digest: string -> string, now: Instant) returns (r: Result<(), Error>)
    requires store.Valid()
    modifies store
    ensures store.Valid()
    ensures (r, store.State()) == SeedUsersLoop(old(store.State()), SeedUsers(digest, now))
  {
    var users := SeedUsers(digest, now);
    var i := 0;
    while i < |users|
      invariant 0 <= i <= |users| && store.Valid()
      invariant SeedUsersLoop(store.State(), users[i..]) == SeedUsersLoop(old(store.State()), users)
    {
      assert users[i..][1..] == users[i + 1..];
      var existing := FindUserByUsername(store.users, users[i].username);
      if existing.None? {
        var created := store.AddUser(users[i]);
        if created.Failure? {
          return Failure(created.error);
        }
      }
      i := i + 1;
    }
    r := Success(());
  }

  // ---------------------------------------------------------------------------
  // Categories

  /** The seed categories as rows. */
  function SeedCategories(now: Instant): (cs: seq<Category>)
    ensures |cs| == |Categories|
    ensures forall i :: 0 <= i < |cs| ==> cs[i].name == Categories[i].name
  {
    seq(|Categories|, i requires 0 <= i < |Categories| =>
      Category(0, Categories[i].name, Some(Categories[i].description), now))
  }

  /** FirstOrDefault(c => c.Name == name): the first category with exactly
      that name. */
  function FirstNamed(cs: seq<Category>, name: string): (r: Option<Category>)
    ensures r.Some? ==> r.value in cs && r.value.name == name
    ensures r.None? <==> forall i :: 0 <= i < |cs| ==> cs[i].name != name
  {
    if cs == [] then None
    else if cs[0].name == name then Some(cs[0])
    else FirstNamed(cs[1..], name)
  }

  /** The category pass over the seeds still to visit, against the snapshot
      `existing` read once before the loop; `acc` is the list built so far.
      Each seed yields one category, in seed order: the existing one with
      its name, or the row just inserted. */
  function SeedCategoriesLoop(db: Db, existing: seq<Category>, seeds: seq<Category>, acc: seq<Category>)
    : (out: (Result<seq<Category>, Error>, Db))
    ensures DbValid(db) ==> DbValid(out.1)
    ensures db.categories <= out.1.categories
    ensures out.1.products == db.products && out.1.users == db.users && out.1.movements == db.movements
    ensures out.0.Success? ==>
      && |out.0.value| == |acc| + |seeds| && out.0.value[..|acc|] == acc
      && (forall k :: 0 <= k < |seeds| ==> out.0.value[|acc| + k].name == seeds[k].name)
    decreases |seeds|
  {
    if seeds == [] then (Success(acc), db)
    else
      match FirstNamed(existing, seeds[0].name)
      case Some(c) =>
        SeedCategoriesLoop(db, existing, seeds[1..], acc + [c])
      case None =>
        var ins := InsertCategory(db, seeds[0]);
        if ins.0.Failure? then (Failure(ins.0.error), ins.1)
        else
          SeedCategoriesLoop(ins.1, existing, seeds[1..], acc + [ins.0.value])
  }

  /** A seed whose name exists in the snapshot is answered with that very
      category, not a new row. */
  lemma {:induction false} ExistingCategoriesReused(db: Db, existing: seq<Category>, seeds: seq<Category>, acc: seq<Category>)
    ensures var out := SeedCategoriesLoop(db, existing, seeds, acc);
      out.0.Success? ==> forall k :: 0 <= k < |seeds| && FirstNamed(existing, seeds[k].name).Some? ==>
        out.0.value[|acc| + k] == FirstNamed(existing, seeds[k].name).value
    decreases |seeds|
  {
    if seeds != [] {
      var out := SeedCategoriesLoop(db, existing, seeds, acc);
      var db', acc' := db, acc;
      match FirstNamed(existing, seeds[0].name) {
        case Some(c) =>
          db', acc' := db, acc + [c];
        case None =>
          var ins := InsertCategory(db, seeds[0]);
          if ins.0.Failure? {
            return;
          }
          db', acc' := ins.1, acc + [ins.0.value];
      }
      assert out == SeedCategoriesLoop(db', existing, seeds[1..], acc');
      ExistingCategoriesReused(db', existing, seeds[1..], acc');
      if out.0.Success? {
        forall k | 0 <= k < |seeds| && FirstNamed(existing, seeds[k].name).Some?
          ensures out.0.value[|acc| + k] == FirstNamed(existing, seeds[k].name).value
        {
          if k == 0 {
            assert out.0.value[..|acc'|] == acc';
            assert out.0.value[|acc|] == acc'[|acc|];
          } else {
            assert seeds[1..][k - 1] == seeds[k];
          }
        }
      }
    }
  }

  /** Every category the pass returns is stored once the pass succeeds, when
      the snapshot was read from the same database. */
  lemma {:induction false} SeededCategoriesStored(db: Db, existing: seq<Category>, seeds: seq<Category>, acc: seq<Category>)
    requires forall c :: c in existing ==> c in db.categories
    ensures var out := SeedCategoriesLoop(db, existing, seeds, acc);
      out.0.Success? ==> forall k :: |acc| <= k < |out.0.value| ==> out.0.value[k] in out.1.categories
    decreases |seeds|
  {
    if seeds != [] {
      var out := SeedCategoriesLoop(db, existing, seeds, acc);
      var db', acc' := db, acc;
      var first: Category;
      match FirstNamed(existing, seeds[0].name) {
        case Some(c) =>
          db', acc', first := db, acc + [c], c;
          assert c in db.categories;
        case None =>
          var ins := InsertCategory(db, seeds[0]);
          if ins.0.Failure? {
            return;
          }
          db', acc', first := ins.1, acc + [ins.0.value], ins.0.value;
          assert ins.1.categories[|db.categories|] == first;
      }
      assert first in db'.categories;
      assert db.categories <= db'.categories;
      assert out == SeedCategoriesLoop(db', existing, seeds[1..], acc');
      SeededCategoriesStored(db', existing, seeds[1..], acc');
      if out.0.Success? {
        forall k | |acc| <= k < |out.0.value|
          ensures out.0.value[k] in out.1.categories
        {
          if k == |acc| {
            assert out.0.value[..|acc'|] == acc';
            assert out.0.value[k] == acc'[k] == first;
            assert first in out.1.categories by {
              assert db'.categories <= out.1.categories;
            }
          }
        }
      }
    }
  }

  /** Seeds whose names all exist already insert nothing. */
  lemma {:induction false} KnownCategoriesNotReinserted(db: Db, existing: seq<Category>, seeds: seq<Category>, acc: seq<Category>)
    requires forall k :: 0 <= k < |seeds| ==> FirstNamed(existing, seeds[k].name).Some?
    ensures SeedCategoriesLoop(db, existing, seeds, acc).1 == db
    ensures SeedCategoriesLoop(db, existing, seeds, acc).0.Success?
    decreases |seeds|
  {
    if seeds != [] {
      assert FirstNamed(existing, seeds[0].name).Some?;
      KnownCategoriesNotReinserted(db, existing, seeds[1..], acc + [FirstNamed(existing, seeds[0].name).value]);
    }
  }

  /** Every category of a list that is stored is found by name in the sorted
      snapshot of the table. */
  lemma StoredNamesFound(db: Db, cs: seq<Category>, seeds: seq<Category>)
    requires |cs| == |seeds|
    requires forall k :: 0 <= k < |cs| ==> cs[k] in db.categories && cs[k].name == seeds[k].name
    ensures forall k :: 0 <= k < |seeds| ==> FirstNamed(CategoryRepository.GetAll(db), seeds[k].name).Some?
  {
    var existing := CategoryRepository.GetAll(db);
    forall k | 0 <= k < |seeds|
      ensures FirstNamed(existing, seeds[k].name).Some?
    {
      assert cs[k] in multiset(db.categories);
      assert cs[k] in existing;
      var j :| 0 <= j < |existing| && existing[j] == cs[k];
    }
  }

  /** The sorted snapshot holds only stored categories. */
  lemma SnapshotStored(db: Db)
    ensures forall c :: c in CategoryRepository.GetAll(db) ==> c in db.categories
  {
    var before := CategoryRepository.GetAll(db);
    forall c | c in before
      ensures c in db.categories
    {
      assert c in multiset(before);
    }
  }

  /** Seeding categories twice adds no category: after a successful pass
      every seed name exists, so the second pass reuses them all. */
  lemma ReseedingCategoriesChangesNothing(db: Db, seeds: seq<Category>)
    ensures var once := SeedCategoriesLoop(db, CategoryRepository.GetAll(db), seeds, []);
      once.0.Success? ==>
        var twice := SeedCategoriesLoop(once.1, CategoryRepository.GetAll(once.1), seeds, []);
        twice.0.Success? && twice.1 == once.1
  {
    var once := SeedCategoriesLoop(db, CategoryRepository.GetAll(db), seeds, []);
    if once.0.Success? {
      SnapshotStored(db);
      SeededCategoriesStored(db, CategoryRepository.GetAll(db), seeds, []);
      StoredNamesFound(once.1, once.0.value, seeds);
      KnownCategoriesNotReinserted(once.1, CategoryRepository.GetAll(once.1), seeds, []);
    }
  }

  /** One step of the category pass: a seed found in the snapshot. */
  lemma CategoryStepReuse(db: Db, existing: seq<Category>, seeds: seq<Category>, acc: seq<Category>, c: Category)
    requires seeds != [] && FirstNamed(existing, seeds[0].name) == Some(c)
    ensures SeedCategoriesLoop(db, existing, seeds, acc) == SeedCategoriesLoop(db, existing, seeds[1..], acc + [c])
  {
  }

  /** One step of the category pass: a seed inserted. */
  lemma CategoryStepInsert(db: Db, existing: seq<Category>, seeds: seq<Category>, acc: seq<Category>)
    requires seeds != [] && FirstNamed(existing, seeds[0].name).None?
    ensures var ins := InsertCategory(db, seeds[0]);
      SeedCategoriesLoop(db, existing, seeds, acc) ==
        if ins.0.Failure? then (Failure(ins.0.error), ins.1)
        else SeedCategoriesLoop(ins.1, existing, seeds[1..], acc + [ins.0.value])
  {
  }

  /** One turn of SeedCategoriesAsync's loop: the first seed still to visit
      is answered from the snapshot or inserted; `stop` is the exception an
      insert raised. */
  method SeedCategoryStep(store: Store, existing: seq<Category>, seeds: seq<Category>, created: seq<Category>)
    returns (stop: Option<Error>, created': seq<Category>)
    requires store.Valid() && seeds != []
    modifies store
    ensures store.Valid()
    ensures stop.Some? ==>
      SeedCategoriesLoop(old(store.State()), existing, seeds, created) == (Failure(stop.value), store.State())
    ensures stop.None? ==>
      SeedCategoriesLoop(old(store.State()), existing, seeds, created)
        == SeedCategoriesLoop(store.State(), existing, seeds[1..], created')
  {
    var found := FirstNamed(existing, seeds[0].name);
    if found.Some? {
      CategoryStepReuse(store.State(), existing, seeds, created, found.value);
      return None, created + [found.value];
    }
    CategoryStepInsert(store.State(), existing, seeds, created);
    var added := store.AddCategory(seeds[0]);
    if added.Failure? {
      return Some(added.error), created;
    }
    return None, created + [added.value];
  }

  /** The loop of SeedCategoriesAsync over the given seeds and snapshot. */
  method SeedCategoriesFrom(store: Store, existing: seq<Category>, seeds: seq<Category>)
    returns (r: Result<seq<Category>, Error>)
    requires store.Valid()
    modifies store
    ensures store.Valid()
    ensures (r, store.State()) == SeedCategoriesLoop(old(store.State()), existing, seeds, [])
  {
    ghost var spec := SeedCategoriesLoop(store.State(), existing, seeds, []);
    var created: seq<Category> := [];
    var i := 0;
    while i < |seeds|
      invariant 0 <= i <= |seeds| && store.Valid()
      invariant SeedCategoriesLoop(store.State(), existing, seeds[i..], created) == spec
    {
      assert seeds[i..][1..] == seeds[i + 1..];
      var stop;
      stop, created := SeedCategoryStep(store, existing, seeds[i..], created);
      if stop.Some? {
        return Failure(stop.value);
      }
      i := i + 1;
    }
    r := Success(created);
  }

  /** SeedCategoriesAsync: one category per seed, in seed order, against the
      name-ordered snapshot of the table. */
  method SeedCategoriesPass(store: Store, now: Instant) returns (r: Result<seq<Category>, Error>)
    requires store.Valid()
    modifies store
    ensures store.Valid()
    ensures (r, store.State()) ==
      SeedCategoriesLoop(old(store.State()), CategoryRepository.GetAll(old(store.State())), SeedCategories(now), [])
  {
    var existing := CategoryRepository.GetAll(store.State());
    r := SeedCategoriesFrom(store, existing, SeedCategories(now));
  }

  // ---------------------------------------------------------------------------
  // Products

  /** A catalog entry as a row under the category `categoryId`. */
  function SeedProduct(s: ProductSeed, categoryId: int, now: Instant): (p: Product)
    ensures p.sku == s.sku && p.categoryId == Some(categoryId)
  {
    Product(0, s.name, None, s.sku, Some(s.barcode), s.price, s.cost, s.quantity,
            s.minimumStockLevel, Some(categoryId), now, now)
  }

  /** One catalog group's rows under the category `c`. */
  function GroupRows(g: CatalogGroup, c: Category, now: Instant): (r: seq<Product>)
    ensures |r| == |g.items|
    ensures forall i :: 0 <= i < |r| ==> r[i] == SeedProduct(g.items[i], c.id, now)
  {
    seq(|g.items|, i requires 0 <= i < |g.items| => SeedProduct(g.items[i], c.id, now))
  }

  /** The product list SeedProductsAsync builds: each group's products, in
      catalog order, under the category of its name when the category list
      holds one; a group whose category is missing contributes nothing. */
  function CatalogFor(categories: seq<Category>, groups: seq<CatalogGroup>, now: Instant): (r: seq<Product>)
    ensures forall p :: p in r ==> exists c :: c in categories && p.categoryId == Some(c.id)
  {
    if groups == [] then []
    else
      match FirstNamed(categories, groups[0].categoryName)
      case None => CatalogFor(categories, groups[1..], now)
      case Some(c) =>
        var head := GroupRows(groups[0], c, now);
        assert forall p :: p in head ==> p.categoryId == Some(c.id);
        head + CatalogFor(categories, groups[1..], now)
  }

  /** The set of SKUs compared ignoring case, each kept in its folded form.
      StringComparer.OrdinalIgnoreCase also folds non-ASCII letters; the fold
      here is ASCII only, which agrees on the all-ASCII seed SKUs. */
  function FoldedSkus(ps: seq<Product>): set<string> {
    set p | p in ps :: ToLower(p.sku)
  }

  /** The first product whose SKU equals `sku` ignoring case. */
  function FirstSkuIgnoringCase(ps: seq<Product>, sku: string): (r: Option<Product>)
    ensures r.Some? ==> r.value in ps && ToLower(r.value.sku) == ToLower(sku)
    ensures r.None? <==> forall i :: 0 <= i < |ps| ==> ToLower(ps[i].sku) != ToLower(sku)
  {
    if ps == [] then None
    else if ToLower(ps[0].sku) == ToLower(sku) then Some(ps[0])
    else FirstSkuIgnoringCase(ps[1..], sku)
  }

  /** Every row after the first `n` has a SKU that differs, ignoring case,
      from every row before it. */
  predicate AddedSkusDistinct(ps: seq<Product>, n: int) {
    forall i, j :: 0 <= i < j < |ps| && n <= j ==> ToLower(ps[i].sku) != ToLower(ps[j].sku)
  }

  /** The product pass over the products still to visit. `existing` is the
      snapshot read before the loop, `skus` the case-insensitive SKU set,
      `acc` the list built so far. A product whose SKU is in the set is taken
      from the snapshot (or dropped when only this run added it); any other
      is inserted and its SKU joins the set. */
  function SeedProductsLoop(db: Db, existing: seq<Product>, skus: set<string>, todo: seq<Product>, acc: seq<Product>)
    : (out: (Result<seq<Product>, Error>, Db))
    ensures DbValid(db) ==> DbValid(out.1)
    ensures db.products <= out.1.products
    ensures out.1.categories == db.categories && out.1.users == db.users && out.1.movements == db.movements
    ensures skus <= FoldedSkus(db.products) && out.0.Success? ==>
      forall p :: p in todo ==> ToLower(p.sku) in FoldedSkus(out.1.products)
    decreases |todo|
  {
    if todo == [] then (Success(acc), db)
    else
      var p := todo[0];
      if ToLower(p.sku) in skus then
        var out := match FirstSkuIgnoringCase(existing, p.sku)
          case Some(e) => SeedProductsLoop(db, existing, skus, todo[1..], acc + [e])
          case None => SeedProductsLoop(db, existing, skus, todo[1..], acc);
        FoldedGrows(db.products, out.1.products);
        out
      else
        var ins := InsertProduct(db, p);
        if ins.0.Failure? then (Failure(ins.0.error), ins.1)
        else
          var out := SeedProductsLoop(ins.1, existing, skus + {ToLower(ins.0.value.sku)}, todo[1..], acc + [ins.0.value]);
          FoldedGrows(db.products, ins.1.products);
          FoldedGrows(ins.1.products, out.1.products);
          assert ToLower(p.sku) in FoldedSkus(ins.1.products) by {
            assert ins.1.products[|db.products|] == ins.0.value;
          }
          out
  }

  /** Appending rows keeps every folded SKU. */
  lemma FoldedGrows(a: seq<Product>, b: seq<Product>)
    requires a <= b
    ensures FoldedSkus(a) <= FoldedSkus(b)
  {
    forall x | x in FoldedSkus(a)
      ensures x in FoldedSkus(b)
    {
      var q :| q in a && ToLower(q.sku) == x;
      var k :| 0 <= k < |a| && a[k] == q;
      assert b[k] == q;
    }
  }

  /** No SKU is inserted twice, ignoring case: every row the pass adds
      differs, ignoring case, from every row before it, whether it was there
      before the pass or added earlier in it. */
  lemma {:induction false} SeedProductsKeepsSkusDistinct(db: Db, existing: seq<Product>, skus: set<string>,
                                                         todo: seq<Product>, acc: seq<Product>, n: int)
    requires skus == FoldedSkus(db.products) && AddedSkusDistinct(db.products, n)
    ensures AddedSkusDistinct(SeedProductsLoop(db, existing, skus, todo, acc).1.products, n)
    decreases |todo|
  {
    if todo != [] {
      var p := todo[0];
      if ToLower(p.sku) in skus {
        match FirstSkuIgnoringCase(existing, p.sku)
        case Some(e) => SeedProductsKeepsSkusDistinct(db, existing, skus, todo[1..], acc + [e], n);
        case None => SeedProductsKeepsSkusDistinct(db, existing, skus, todo[1..], acc, n);
      } else {
        var ins := InsertProduct(db, p);
        if ins.0.Success? {
          var ps' := ins.1.products;
          assert ps' == db.products + [ins.0.value];
          forall i | 0 <= i < |db.products|
            ensures ToLower(ps'[i].sku) != ToLower(ins.0.value.sku)
          {
            assert db.products[i] in db.products;
          }
          assert FoldedSkus(ps') == skus + {ToLower(ins.0.value.sku)} by {
            forall x ensures x in FoldedSkus(ps') <==> x in skus + {ToLower(ins.0.value.sku)} {
              if x in FoldedSkus(ps') {
                var q :| q in ps' && ToLower(q.sku) == x;
              }
            }
          }
          SeedProductsKeepsSkusDistinct(ins.1, existing, skus + {ToLower(ins.0.value.sku)}, todo[1..],
                                        acc + [ins.0.value], n);
        }
      }
    }
  }

  /** Products whose SKUs are all known already insert nothing. */
  lemma {:induction false} KnownProductsNotReinserted(db: Db, existing: seq<Product>, skus: set<string>,
                                                      todo: seq<Product>, acc: seq<Product>)
    requires forall p :: p in todo ==> ToLower(p.sku) in skus
    ensures SeedProductsLoop(db, existing, skus, todo, acc).1 == db
    ensures SeedProductsLoop(db, existing, skus, todo, acc).0.Success?
    decreases |todo|
  {
    if todo != [] {
      assert todo[0] in todo;
      match FirstSkuIgnoringCase(existing, todo[0].sku)
      case Some(e) => KnownProductsNotReinserted(db, existing, skus, todo[1..], acc + [e]);
      case None => KnownProductsNotReinserted(db, existing, skus, todo[1..], acc);
    }
  }

  /** Seeding the same products twice adds nothing the second time. */
  lemma ReseedingProductsChangesNothing(db: Db, todo: seq<Product>)
    ensures var once := SeedProductsLoop(db, ProductRepository.GetAll(db), FoldedSkus(db.products), todo, []);
      once.0.Success? ==>
        SeedProductsLoop(once.1, ProductRepository.GetAll(once.1), FoldedSkus(once.1.products), todo, []).1 == once.1
  {
    var once := SeedProductsLoop(db, ProductRepository.GetAll(db), FoldedSkus(db.products), todo, []);
    if once.0.Success? {
      KnownProductsNotReinserted(once.1, ProductRepository.GetAll(once.1), FoldedSkus(once.1.products), todo, []);
    }
  }

  /** One step of the product pass: a SKU already in the set; `found` is
      what the snapshot holds for it. */
  lemma ProductStepKnown(db: Db, existing: seq<Product>, skus: set<string>, todo: seq<Product>, acc: seq<Product>,
                         found: Option<Product>)
    requires todo != [] && ToLower(todo[0].sku) in skus
    requires found == FirstSkuIgnoringCase(existing, todo[0].sku)
    ensures SeedProductsLoop(db, existing, skus, todo, acc) ==
      SeedProductsLoop(db, existing, skus, todo[1..], if found.Some? then acc + [found.value] else acc)
  {
  }

  /** One step of the product pass: a product inserted. */
  lemma ProductStepInsert(db: Db, existing: seq<Product>, skus: set<string>, todo: seq<Product>, acc: seq<Product>)
    requires todo != [] && ToLower(todo[0].sku) !in skus
    ensures var ins := InsertProduct(db, todo[0]);
      SeedProductsLoop(db, existing, skus, todo, acc) ==
        if ins.0.Failure? then (Failure(ins.0.error), ins.1)
        else SeedProductsLoop(ins.1, existing, skus + {ToLower(ins.0.value.sku)}, todo[1..], acc + [ins.0.value])
  {
  }

  /** One turn of SeedProductsAsync's loop: the first product still to
      visit is taken from the snapshot, dropped or inserted; `stop` is the
      exception an insert raised. */
  method SeedProductStep(store: Store, existing: seq<Product>, skus: set<string>, todo: seq<Product>,
                         created: seq<Product>)
    returns (stop: Option<Error>, skus': set<string>, created': seq<Product>)
    requires store.Valid() && todo != []
    modifies store
    ensures store.Valid()
    ensures stop.Some? ==>
      SeedProductsLoop(old(store.State()), existing, skus, todo, created) == (Failure(stop.value), store.State())
    ensures stop.None? ==>
      SeedProductsLoop(old(store.State()), existing, skus, todo, created)
        == SeedProductsLoop(store.State(), existing, skus', todo[1..], created')
  {
    skus', created' := skus, created;
    if ToLower(todo[0].sku) in skus {
      var found := FirstSkuIgnoringCase(existing, todo[0].sku);
      ProductStepKnown(store.State(), existing, skus, todo, created, found);
      if found.Some? {
        created' := created + [found.value];
      }
      stop := None;
    } else {
      ProductStepInsert(store.State(), existing, skus, todo, created);
      var added := store.AddProduct(todo[0]);
      if added.Failure? {
        return Some(added.error), skus, created;
      }
      created' := created + [added.value];
      skus' := skus + {ToLower(added.value.sku)};
      stop := None;
    }
  }

  /** The loop of SeedProductsAsync over the given products and snapshot. */
  method SeedProductsFrom(store: Store, existing: seq<Product>, skus0: set<string>, todo: seq<Product>)
    returns (r: Result<seq<Product>, Error>)
    requires store.Valid()
    modifies store
    ensures store.Valid()
    ensures (r, store.State()) == SeedProductsLoop(old(store.State()), existing, skus0, todo, [])
  {
    ghost var spec := SeedProductsLoop(store.State(), existing, skus0, todo, []);
    var skus := skus0;
    var created: seq<Product> := [];
    var i := 0;
    while i < |todo|
      invariant 0 <= i <= |todo| && store.Valid()
      invariant SeedProductsLoop(store.State(), existing, skus, todo[i..], created) == spec
    {
      assert todo[i..][1..] == todo[i + 1..];
      var stop;
      stop, skus, created := SeedProductStep(store, existing, skus, todo[i..], created);
      if stop.Some? {
        return Failure(stop.value);
      }
      i := i + 1;
    }
    r := Success(created);
  }

  /** The snapshot GetAllAsync reads has the SKUs of the whole table. */
  lemma SnapshotSkus(db: Db)
    ensures FoldedSkus(ProductRepository.GetAll(db)) == FoldedSkus(db.products)
  {
    var existing := ProductRepository.GetAll(db);
    forall x | x in FoldedSkus(existing)
      ensures x in FoldedSkus(db.products)
    {
      var q :| q in existing && ToLower(q.sku) == x;
      assert q in multiset(existing);
    }
    forall x | x in FoldedSkus(db.products)
      ensures x in FoldedSkus(existing)
    {
      var q :| q in db.products && ToLower(q.sku) == x;
      assert q in multiset(db.products);
      assert q in existing;
    }
  }

  /** SeedProductsAsync: the catalog rows under the given categories, each
      inserted unless its SKU is already known ignoring case. The SKU set
      starts as the SKUs of every stored product. */
  method SeedProductsPass(store: Store, categories: seq<Category>, now: Instant) returns (r: Result<seq<Product>, Error>)
    requires store.Valid()
    modifies store
    ensures store.Valid()
    ensures (r, store.State()) == SeedProductsLoop(old(store.State()), ProductRepository.GetAll(old(store.State())),
      FoldedSkus(old(store.State()).products), CatalogFor(categories, Catalog, now), [])
  {
    var existing := ProductRepository.GetAll(store.State());
    var skus := FoldedSkus(existing);
    SnapshotSkus(store.State());
    r := SeedProductsFrom(store, existing, skus, CatalogFor(categories, Catalog, now));
  }

  // ---------------------------------------------------------------------------
  // Stock movements

  const TicksPerMinute: int := 600_000_000

  /** The pseudo-random values one seeded movement draws: days ago, hour,
      minute, type code, quantity, adjustment delta (drawn only for type 3)
      and the indexes of its user, reason and note. */
  datatype Draw = Draw(daysAgo: int, hour: int, minute: int, kind: int, quantity: int, delta: int,
                       user: int, reason: int, note: int)

  /** The ranges System.Random.Next(min, max) gives each draw. */
  predicate DrawInRange(d: Draw) {
    && 0 <= d.daysAgo < 90 && 0 <= d.hour < 24 && 0 <= d.minute < 60
    && 1 <= d.kind < 4
    && (d.kind == 1 ==> 10 <= d.quantity < 100)
    && (d.kind == 2 ==> 5 <= d.quantity < 50)
    && (d.kind == 3 ==> 20 <= d.quantity < 200)
    && -20 <= d.delta < 50
    && 0 <= d.user < |MovementUsers| && 0 <= d.reason < |Reasons| && 0 <= d.note < |Notes|
  }

  /** `random(k)` is what the generator yields for the k-th product: two to
      five draws, each in range. */
  ghost predicate DrawsInRange(random: int -> seq<Draw>) {
    forall k :: 2 <= |random(k)| <= 5 && forall d :: d in random(k) ==> DrawInRange(d)
  }

  /** The seeded movement's signed quantity: +q for Add, -q for Remove, the
      separately drawn delta for Adjustment. */
  function SeededQuantity(d: Draw): (q: int)
    requires DrawInRange(d)
    ensures d.kind == 1 ==> q > 0
    ensures d.kind == 2 ==> q < 0
    ensures d.kind == 1 || d.kind == 2 ==> (q == d.quantity || q == -d.quantity)
  {
    if d.kind == 1 then d.quantity
    else if d.kind == 2 then -d.quantity
    else d.delta
  }

  /** One seeded movement of product `p`, stamped within the 90 days before
      `now`. */
  function SeededMovement(p: Product, d: Draw, now: Instant): (m: StockMovement)
    requires DrawInRange(d)
    ensures m.productId == p.id && m.movementType.Value() == d.kind
    ensures m.movementType == Add ==> m.quantity > 0
    ensures m.movementType == Remove ==> m.quantity < 0
    ensures now - 90 * TicksPerDay <= m.createdAt < now
    ensures m.createdBy.Some? && m.createdBy.value in MovementUsers && m.reason.Some?
  {
    var createdAt := now - 90 * TicksPerDay + d.daysAgo * TicksPerDay + d.hour * TicksPerHour
      + d.minute * TicksPerMinute;
    StockMovement(0, p.id, MovementTypeOf(d.kind).value, SeededQuantity(d), Some(Reasons[d.reason]),
                  Notes[d.note], Some(MovementUsers[d.user]), createdAt)
  }

  /** The movements drawn for one product. */
  function ProductMovements(p: Product, ds: seq<Draw>, now: Instant): (ms: seq<StockMovement>)
    requires forall d :: d in ds ==> DrawInRange(d)
    ensures |ms| == |ds|
    ensures forall j :: 0 <= j < |ds| ==> ms[j] == SeededMovement(p, ds[j], now)
  {
    seq(|ds|, j requires 0 <= j < |ds| => SeededMovement(p, ds[j], now))
  }

  /** The movements the seeder builds for `ps`, product by product: two to
      five per product, each for a listed product, Add positive and Remove
      negative, all within the last 90 days. */
  function Planned(ps: seq<Product>, random: int -> seq<Draw>, now: Instant): (ms: seq<StockMovement>)
    requires DrawsInRange(random)
    ensures 2 * |ps| <= |ms| <= 5 * |ps|
    ensures forall m :: m in ms ==>
      && (exists p :: p in ps && m.productId == p.id)
      && (m.movementType == Add ==> m.quantity > 0)
      && (m.movementType == Remove ==> m.quantity < 0)
      && now - 90 * TicksPerDay <= m.createdAt < now
    decreases |ps|
  {
    if ps == [] then []
    else
      var last := ps[|ps| - 1];
      var before := Planned(ps[..|ps| - 1], random, now);
      var mine := ProductMovements(last, random(|ps| - 1), now);
      assert forall m :: m in before ==> exists p :: p in ps && m.productId == p.id by {
        forall m | m in before
          ensures exists p :: p in ps && m.productId == p.id
        {
          var p :| p in ps[..|ps| - 1] && m.productId == p.id;
          assert p in ps;
        }
      }
      assert forall m :: m in mine ==> m.productId == last.id && last in ps;
      before + mine
  }

  /** AddAsync for each movement in turn; a failed insert ends the run. */
  function AppendLoop(db: Db, ms: seq<StockMovement>): (out: (Result<(), Error>, Db))
    ensures DbValid(db) ==> DbValid(out.1)
    ensures out.1.products == db.products && out.1.categories == db.categories && out.1.users == db.users
    ensures db.movements <= out.1.movements
    ensures out.0.Success? ==> |out.1.movements| == |db.movements| + |ms|
    decreases |ms|
  {
    if ms == [] then (Success(()), db)
    else
      var a := AppendMovement(db, ms[0]);
      if a.0.Failure? then (Failure(a.0.error), a.1)
      else AppendLoop(a.1, ms[1..])
  }

  /** SeedStockMovementsAsync: nothing when the log already has an entry;
      otherwise the planned movements appended in order. */
  function SeedMovements(db: Db, products: seq<Product>, random: int -> seq<Draw>, now: Instant)
    : (out: (Result<(), Error>, Db))
    requires DrawsInRange(random)
    ensures DbValid(db) ==> DbValid(out.1)
    ensures out.1.products == db.products && out.1.categories == db.categories && out.1.users == db.users
    ensures db.movements <= out.1.movements
    ensures |db.movements| > 0 ==> out == (Success(()), db)
    ensures |db.movements| == 0 && out.0.Success? ==> |out.1.movements| >= 2 * |products|
  {
    if |db.movements| > 0 then (Success(()), db)
    else AppendLoop(db, Planned(products, random, now))
  }

  /** Seeding movements twice writes nothing the second time, once the first
      run has put at least one product's movements in the log. */
  lemma ReseedingMovementsChangesNothing(db: Db, products: seq<Product>, random: int -> seq<Draw>, now: Instant)
    requires DrawsInRange(random) && |products| > 0
    ensures var once := SeedMovements(db, products, random, now);
      once.0.Success? ==> SeedMovements(once.1, products, random, now) == (Success(()), once.1)
  {
    var once := SeedMovements(db, products, random, now);
    if once.0.Success? {
      assert |once.1.movements| > 0;
    }
  }

  /** The movements for the products before `k`, then the first `i` draws of
      product `k`, as the nested loops have built them. */
  method BuildMovements(products: seq<Product>, random: int -> seq<Draw>, now: Instant)
    returns (ms: seq<StockMovement>)
    requires DrawsInRange(random)
    ensures ms == Planned(products, random, now)
  {
    ms := [];
    var k := 0;
    while k < |products|
      invariant 0 <= k <= |products|
      invariant ms == Planned(products[..k], random, now)
    {
      var p := products[k];
      var ds := random(k);
      ghost var before := ms;
      var i := 0;
      while i < |ds|
        invariant 0 <= i <= |ds|
        invariant ms == before + ProductMovements(p, ds[..i], now)
      {
        assert ds[i] in ds;
        ms := ms + [SeededMovement(p, ds[i], now)];
        assert ProductMovements(p, ds[..i + 1], now) == ProductMovements(p, ds[..i], now) + [SeededMovement(p, ds[i], now)];
        i := i + 1;
      }
      assert ds[..i] == ds;
      assert products[..k + 1][..k] == products[..k];
      k := k + 1;
    }
    assert products[..k] == products;
  }

  /** The batch of AddAsync calls. */
  method AppendAll(store: Store, ms: seq<StockMovement>) returns (r: Result<(), Error>)
    requires store.Valid()
    modifies store
    ensures store.Valid()
    ensures (r, store.State()) == AppendLoop(old(store.State()), ms)
  {
    ghost var spec := AppendLoop(store.State(), ms);
    var i := 0;
    while i < |ms|
      invariant 0 <= i <= |ms| && store.Valid()
      invariant AppendLoop(store.State(), ms[i..]) == spec
    {
      assert ms[i..][1..] == ms[i + 1..];
      var added := store.AddMovement(ms[i]);
      if added.Failure? {
        return Failure(added.error);
      }
      i := i + 1;
    }
    r := Success(());
  }

  /** SeedStockMovementsAsync. */
  method SeedMovementsPass(store: Store, products: seq<Product>, random: int -> seq<Draw>, now: Instant)
    returns (r: Result<(), Error>)
    requires store.Valid() && DrawsInRange(random)
    modifies store
    ensures store.Valid()
    ensures (r, store.State()) == SeedMovements(old(store.State()), products, random, now)
  {
    if |store.movements| > 0 {
      return Success(());
    }
    var ms := BuildMovements(products, random, now);
    r := AppendAll(store, ms);
  }

  // ---------------------------------------------------------------------------
  // The whole seeding

  /** SeedAsync: the four passes in order, stopping at the first that throws.
      Seeding never removes or rewrites a row: every table of the result
      extends the table before it. */
  function SeedAll(db: Db, digest: string -> string, now: Instant, random: int -> seq<Draw>)
    : (out: (Result<(), Error>, Db))
    requires DrawsInRange(random)
    ensures DbValid(db) ==> DbValid(out.1)
    ensures db.users <= out.1.users && db.categories <= out.1.categories
    ensures db.products <= out.1.products && db.movements <= out.1.movements
  {
    var u := SeedUsersLoop(db, SeedUsers(digest, now));
    if u.0.Failure? then u
    else
      var c := SeedCategoriesLoop(u.1, CategoryRepository.GetAll(u.1), SeedCategories(now), []);
      if c.0.Failure? then (Failure(c.0.error), c.1)
      else
        var p := SeedProductsLoop(c.1, ProductRepository.GetAll(c.1), FoldedSkus(c.1.products),
                                  CatalogFor(c.0.value, Catalog, now), []);
        if p.0.Failure? then (Failure(p.0.error), p.1)
        else SeedMovements(p.1, p.0.value, random, now)
  }

  /** DatabaseSeeder.SeedAsync. */
  method Seed(store: Store, digest: string -> string, now: Instant, random: int -> seq<Draw>)
    returns (r: Result<(), Error>)
    requires store.Valid() && DrawsInRange(random)
    modifies store
    ensures store.Valid()
    ensures (r, store.State()) == SeedAll(old(store.State()), digest, now, random)
  {
    ghost var db0 := store.State();
    r := SeedUsersPass(store, digest, now);
    if r.Failure? {
      return;
    }
    ghost var db1 := store.State();
    var categories := SeedCategoriesPass(store, now);
    ghost var c := SeedCategoriesLoop(db1, CategoryRepository.GetAll(db1), SeedCategories(now), []);
    assert (categories, store.State()) == c;
    if categories.Failure? {
      return Failure(categories.error);
    }
    ghost var db2 := store.State();
    var products := SeedProductsPass(store, categories.value, now);
    ghost var p := SeedProductsLoop(db2, ProductRepository.GetAll(db2), FoldedSkus(db2.products),
                                    CatalogFor(categories.value, Catalog, now), []);
    assert (products, store.State()) == p;
    if products.Failure? {
      return Failure(products.error);
    }
    r := SeedMovementsPass(store, products.value, random, now);
  }
}
