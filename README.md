# AAM.InventorySuite in Dafny

A model of the core of AAM.InventorySuite, a stock-keeping system with three parts:
an ASP.NET Core back end over SQLite, a WPF desktop client and an Angular web
client. The back end keeps products, categories, users and an append-only log of
stock movements. The model covers these parts:

- **Stock ledger** (`StockService`): add, remove and adjust stock. Each operation
  checks its request, looks the product up, writes the new quantity and appends
  one movement whose signed quantity is exactly the change. The request validator
  and the service are composed at the API boundary.
- **Catalog** (`ProductService`, `CategoryService`, `ProductRepository`,
  `CategoryRepository`): creation, update and deletion with the SKU and barcode
  uniqueness checks, the product itself excluded on update. Also the
  name-ordered listings, the page slices, the low-stock and search filters, and
  the guard that refuses to delete a category that still has products.
- **Database** (`Persistence`): `class Store` is the shared database context. It
  holds four tables in primary-key order, the identity counters, the unique
  indexes (SKU, non-null barcode, category name, username, e-mail) as its
  invariant, and the foreign-key delete rules (movements cascade, category
  SetNull). Each store method is one repository write followed by SaveChanges. It
  is proved against a pure transition on the `Db` snapshot, and the service
  methods are proved against the composition of those transitions.
- **Users and login** (`UserService`, `AuthService`): create, update and delete
  with the uniqueness checks; the password kept only as a digest; the login
  decision that gives one error for an unknown user, an inactive user and a
  wrong password; token generation and validation around an abstract signer.
- **Paging** (`Paging`, `PageWindow`): the derived fields of PagedResultDto,
  Skip/Take, SQLite's LIMIT/OFFSET, and the web clients' five-page link window
  with the navigation state each web component keeps.
- **Validators** (`Validators`): the six FluentValidation rule sets, each a
  function returning its failure messages and tied both ways to a predicate
  stating its rules.
- **Reports** (`ReportsController`): the stock and low-stock reports and the
  movement history with whole-day date bounds.
- **Seeding** (`DatabaseSeeder`, `SeedData`): insert-if-missing passes for users,
  categories and products, and movements seeded only into an empty log. Running
  each pass twice writes nothing the second time.
- **Clients**:
  - the role codecs of both clients (`RoleCodecs`);
  - the two translation services (`DesktopTranslation`, `WebTranslation`);
  - the web client's signed-in state (`WebAuth`);
  - its products, users, stock-movements and reports pages (`ProductsComponent`,
    `UsersComponent`, `StockMovementsComponent`, `ReportsComponent`, `WebLists`);
  - the CSV export text (`Csv`);
  - the date-string zoning of `utcToLocalDate` and the `localDate` pipe
    (`DateUtils`, `LocalDatePipe`).

Entities and DTOs are datatypes. State the source changes in place is a class: the
database context, each web component and the web auth service. A C# exception is
a `Failure` carrying an `Error`, which records the exception type and message. The
password digest, the JWT signer and validator, the clock, date parsing, the time
zone, the pseudo-random draws, Angular's DatePipe and the browser's
`toLocaleString` are all parameters.

## Model

| member | source | states |
|---|---|---|
| Domain.MovementType.Value | src/Inventory.Core.Domain/Enums/StockMovementType.cs:6-22 | the numeric value of a movement type is 1, 2 or 3 |
| Domain.UserRole.Value | src/Inventory.Core.Domain/Enums/UserRole.cs:6-22 | the numeric value of a role is 1, 2 or 3 |
| Domain.MovementTypeOf | src/Inventory.Core.Domain/Enums/StockMovementType.cs:6-22 | a number names a movement type exactly when it is 1, 2 or 3, and then the type's value is that number |
| Domain.UserRoleOf | src/Inventory.Core.Domain/Enums/UserRole.cs:6-22 | a number names a role exactly when it is 1, 2 or 3, and then the role's value is that number |
| Domain.RoleNamesDistinct | src/Inventory.Core.Domain/Enums/UserRole.cs:11-21 | two roles have the same name exactly when they are the same role |
| Domain.NewProduct | src/Inventory.Core.Domain/Entities/Product.cs:13-73 | a new product has an empty name and SKU, no description, barcode or category, zero quantity and minimum level, and both timestamps at the creation time |
| Domain.LowStockAtThreshold | src/Inventory.Core.Domain/Entities/Product.cs:78 | a quantity equal to the minimum level is low stock and one above it is not |
| Domain.LowStockIgnoresOtherFields | src/Inventory.Core.Domain/Entities/Product.cs:78 | two products with the same quantity and minimum level agree on IsLowStock, whatever their other fields |
| Paging.CeilDiv | src/Inventory.Core.Application/DTOs/PagedResultDto.cs:12 | for a positive divisor d, r·d is the least multiple of d at or above n: n ≤ r·d < n + d |
| Paging.PagedResult.TotalPages | src/Inventory.Core.Application/DTOs/PagedResultDto.cs:12 | for a positive page size there are never more pages than items, and no pages exactly when there are no items |
| Paging.PagedResult.HasPreviousPage | src/Inventory.Core.Application/DTOs/PagedResultDto.cs:13 | for a positive page size, a previous page exists exactly when the page's offset (PageNumber − 1)·PageSize is positive |
| Paging.PagedResult.HasNextPage | src/Inventory.Core.Application/DTOs/PagedResultDto.cs:14 | for a positive page size, a next page exists exactly when some item lies beyond this page: PageNumber·PageSize < TotalCount |
| Paging.TotalPagesIsCeiling | src/Inventory.Core.Application/DTOs/PagedResultDto.cs:12 | no items give no pages; otherwise TotalPages is the least page count holding every item: (TotalPages − 1)·PageSize < TotalCount ≤ TotalPages·PageSize |
| Paging.EmptyResultHasNoPages | src/Inventory.Core.Application/DTOs/PagedResultDto.cs:12-14 | TotalCount 0 gives TotalPages 0 and no next page on any non-negative page |
| Paging.ThirdOfThreePages | src/Inventory.Core.Application/DTOs/PagedResultDto.cs:12-14 | 25 items in pages of 10 make 3 pages, and page 3 has a previous page but no next |
| Paging.SkipTake | src/Inventory.API/Controllers/ReportsController.cs:64-66 | LINQ Skip/Take yields nothing for a non-positive take, otherwise at most `take` items, and they are the consecutive items starting at the clamped skip |
| Paging.LimitOffset | src/Inventory.Core.Infrastructure/Repositories/ProductRepository.cs:56-59 | the database's LIMIT/OFFSET: a non-negative limit takes like Skip/Take, a negative one takes everything after the offset |
| Paging.LimitOffsetIsRun | src/Inventory.Core.Infrastructure/Repositories/StockMovementRepository.cs:42-45 | a page taken by offset and limit is a run of consecutive rows of the ordered list |
| Paging.PageOfIndexInRange | src/Inventory.Core.Application/DTOs/PagedResultDto.cs:12 | the page an item's index falls in is one of the TotalPages pages |
| Paging.ItemOnItsPage | src/Inventory.API/Controllers/ReportsController.cs:64-66 | every item of the list appears on page index / pageSize + 1, at position index mod pageSize |
| Paging.PageAt | src/Inventory.API/Controllers/ReportsController.cs:64-66 | item q * pageSize + m of the list is at position m of page q + 1 |
| Persistence.EmptyDb | src/Inventory.Core.Infrastructure/Data/InventoryDbContext.cs:15-18 | the freshly created database satisfies every key, unique-index and foreign-key invariant |
| Persistence.FindProduct | src/Inventory.Core.Infrastructure/Data/InventoryDbContext.cs:27 | a lookup by primary key finds a stored row with that id, and finds nothing exactly when no row has it |
| Persistence.FindProductRow | src/Inventory.Core.Infrastructure/Data/InventoryDbContext.cs:27 | with distinct ids, looking up a stored row's id finds that very row |
| Persistence.FindCategory | src/Inventory.Core.Infrastructure/Data/InventoryDbContext.cs:47 | a category lookup finds a stored row with that id, and nothing exactly when none has it |
| Persistence.FindUser | src/Inventory.Core.Infrastructure/Data/InventoryDbContext.cs:72 | a user lookup finds a stored row with that id, and nothing exactly when none has it |
| Persistence.FindUserByUsername | src/Inventory.Core.Infrastructure/Data/InventoryDbContext.cs:73-74 | a lookup by username finds a stored user with exactly that name, and nothing exactly when none has it |
| Persistence.FindUserByEmail | src/Inventory.Core.Infrastructure/Data/InventoryDbContext.cs:75-76 | a lookup by email finds a stored user with exactly that email, and nothing exactly when none has it |
| Persistence.ReplaceProductRow | src/Inventory.Core.Infrastructure/Repositories/ProductRepository.cs:102-106 | writing a tracked product overwrites the row with its id and leaves every other row as it was |
| Persistence.ReplaceCategoryRow | src/Inventory.Core.Infrastructure/Repositories/CategoryRepository.cs:42-46 | writing a tracked category overwrites the row with its id and no other |
| Persistence.ReplaceUserRow | src/Inventory.Core.Infrastructure/Data/InventoryDbContext.cs:70-79 | writing a tracked user overwrites the row with its id and no other |
| Persistence.DetachCategory | src/Inventory.Core.Infrastructure/Data/InventoryDbContext.cs:38-41 | ON DELETE SET NULL: exactly the products of the deleted category lose their category, all other rows are unchanged |
| Persistence.ReplaceProductKeepsPairs | src/Inventory.Core.Infrastructure/Data/InventoryDbContext.cs:30-32 | overwriting a row with values that clash with no other row keeps SKUs and non-null barcodes unique |
| Persistence.FindAfterReplace | src/Inventory.Core.Infrastructure/Repositories/ProductRepository.cs:102-106 | after an overwrite, the product's id finds the new row and every other id finds what it found before |
| Persistence.SameKeysFit | src/Inventory.Core.Infrastructure/Data/InventoryDbContext.cs:30-32 | a row keeping a stored row's id, SKU and barcode satisfies the unique indexes whatever else changes |
| Persistence.SameCategoryFits | src/Inventory.Core.Infrastructure/Data/InventoryDbContext.cs:38-40 | a row keeping a stored row's category satisfies the foreign key |
| Persistence.ReplaceProductKeepsIds | src/Inventory.Core.Infrastructure/Data/InventoryDbContext.cs:60-62 | overwriting a product keeps every movement's product reference valid |
| Persistence.ReplaceCategoryKeepsPairs | src/Inventory.Core.Infrastructure/Data/InventoryDbContext.cs:49 | overwriting a category with a non-clashing name keeps category names unique |
| Persistence.ReplaceUserKeepsPairs | src/Inventory.Core.Infrastructure/Data/InventoryDbContext.cs:74-76 | overwriting a user with non-clashing values keeps usernames and emails unique |
| Persistence.CategoryLinksGrow | src/Inventory.Core.Infrastructure/Data/InventoryDbContext.cs:38-40 | adding a category keeps every product's category reference valid |
| Persistence.CategoryLinksReplace | src/Inventory.Core.Infrastructure/Data/InventoryDbContext.cs:38-40 | overwriting a category keeps every product's category reference valid |
| Persistence.DetachKeepsLinks | src/Inventory.Core.Infrastructure/Data/InventoryDbContext.cs:38-41 | after SET NULL, every remaining category reference names a category that remains |
| Persistence.DetachKeepsProducts | src/Inventory.Core.Infrastructure/Data/InventoryDbContext.cs:30-32 | SET NULL keeps the product unique indexes and every movement's product reference |
| Persistence.CategoryLinksShrink | src/Inventory.Core.Infrastructure/Data/InventoryDbContext.cs:38-40 | removing products keeps the others' category references valid |
| Persistence.InsertProduct | src/Inventory.Core.Infrastructure/Repositories/ProductRepository.cs:95-100 | Add succeeds exactly when the row with the next id clashes with no SKU or non-null barcode and its category exists; it then appends that row, otherwise it fails with a DbUpdateException and changes nothing; the invariants hold after |
| Persistence.UpdateProductRow | src/Inventory.Core.Infrastructure/Repositories/ProductRepository.cs:102-106 | Update succeeds exactly when the row exists and its new values fit the indexes and the foreign key; it then overwrites that row, otherwise it fails with a DbUpdateException and changes nothing |
| Persistence.DeleteProductRow | src/Inventory.Core.Infrastructure/Repositories/ProductRepository.cs:108-116 | Delete of an unknown id changes nothing; otherwise the product goes and its movements with it (cascade); the invariants hold after |
| Persistence.InsertCategory | src/Inventory.Core.Infrastructure/Repositories/CategoryRepository.cs:35-40 | Add succeeds exactly when the name is unused; it then appends the row with the next id, otherwise it fails with a DbUpdateException and changes nothing |
| Persistence.UpdateCategoryRow | src/Inventory.Core.Infrastructure/Repositories/CategoryRepository.cs:42-46 | Update succeeds exactly when the row exists and its name clashes with no other; it then overwrites that row only |
| Persistence.DeleteCategoryRow | src/Inventory.Core.Infrastructure/Repositories/CategoryRepository.cs:48-56 | Delete of an unknown id changes nothing; otherwise only that category goes and its products lose their category |
| Persistence.AppendMovement | src/Inventory.Core.Infrastructure/Repositories/StockMovementRepository.cs:68-73 | AddAsync appends the movement with the next id and returns it, refused only when its product does not exist; nothing before it changes |
| Persistence.InsertUser | src/Inventory.Core.Infrastructure/Data/InventoryDbContext.cs:70-79 | inserting a user succeeds exactly when username and email are unused; it then appends the row with the next id |
| Persistence.UpdateUserRow | src/Inventory.Core.Infrastructure/Data/InventoryDbContext.cs:70-79 | updating a user succeeds exactly when the row exists and its username and email clash with no other user; it then overwrites that row only |
| Persistence.DeleteUserRow | src/Inventory.Core.Infrastructure/Data/InventoryDbContext.cs:70-79 | deleting an unknown user changes nothing; otherwise only that user goes |
| Persistence.Store.constructor | src/Inventory.Core.Infrastructure/Data/InventoryDbContext.cs:11-18 | a new context is an empty, valid database |
| Persistence.Store.AddProduct | src/Inventory.Core.Infrastructure/Repositories/ProductRepository.cs:95-100 | the context's product insert has exactly the effect and answer of InsertProduct and keeps the invariants |
| Persistence.Store.UpdateProduct | src/Inventory.Core.Infrastructure/Repositories/ProductRepository.cs:102-106 | the context's product update has exactly the effect and answer of UpdateProductRow |
| Persistence.Store.DeleteProduct | src/Inventory.Core.Infrastructure/Repositories/ProductRepository.cs:108-116 | the context's product delete has exactly the effect of DeleteProductRow |
| Persistence.Store.AddCategory | src/Inventory.Core.Infrastructure/Repositories/CategoryRepository.cs:35-40 | the context's category insert has exactly the effect and answer of InsertCategory |
| Persistence.Store.UpdateCategory | src/Inventory.Core.Infrastructure/Repositories/CategoryRepository.cs:42-46 | the context's category update has exactly the effect and answer of UpdateCategoryRow |
| Persistence.Store.DeleteCategory | src/Inventory.Core.Infrastructure/Repositories/CategoryRepository.cs:48-56 | the context's category delete has exactly the effect of DeleteCategoryRow |
| Persistence.Store.AddMovement | src/Inventory.Core.Infrastructure/Repositories/StockMovementRepository.cs:68-73 | the ledger's only write has exactly the effect and answer of AppendMovement |
| Persistence.Store.AddUser | src/Inventory.Core.Infrastructure/Data/InventoryDbContext.cs:70-79 | the context's user insert has exactly the effect and answer of InsertUser |
| Persistence.Store.UpdateUser | src/Inventory.Core.Infrastructure/Data/InventoryDbContext.cs:70-79 | the context's user update has exactly the effect and answer of UpdateUserRow |
| Persistence.Store.DeleteUser | src/Inventory.Core.Infrastructure/Data/InventoryDbContext.cs:70-79 | the context's user delete has exactly the effect of DeleteUserRow |
| ProductRepository.ByNameIsTotalPreorder | src/Inventory.Core.Infrastructure/Repositories/ProductRepository.cs:45 | ordering products by name (ordinal string order) is total and transitive, so the ordered listings are well defined |
| ProductRepository.SelectByName | src/Inventory.Core.Infrastructure/Repositories/ProductRepository.cs:66-70 | a filtered listing holds exactly the rows passing the filter, each as often as stored, ordered by name |
| ProductRepository.GetById | src/Inventory.Core.Infrastructure/Repositories/ProductRepository.cs:20-25 | the row with that id if there is one, null exactly when none has it |
| ProductRepository.GetBySku | src/Inventory.Core.Infrastructure/Repositories/ProductRepository.cs:27-32 | a stored row with exactly that SKU, or null when no row has it |
| ProductRepository.GetByBarcode | src/Inventory.Core.Infrastructure/Repositories/ProductRepository.cs:34-39 | a stored row with exactly that barcode, or null when no row has it |
| ProductRepository.FirstWhere | src/Inventory.Core.Infrastructure/Repositories/ProductRepository.cs:24 | FirstOrDefault: a stored row satisfying the condition, or null when none does |
| ProductRepository.GetAll | src/Inventory.Core.Infrastructure/Repositories/ProductRepository.cs:41-47 | every product exactly once, ordered by name |
| ProductRepository.FilterAllKeeps | src/Inventory.Core.Infrastructure/Repositories/ProductRepository.cs:43-46 | the unfiltered listing keeps every row in place |
| ProductRepository.GetPaged | src/Inventory.Core.Infrastructure/Repositories/ProductRepository.cs:49-62 | the total count of all products, and the at most pageSize name-ordered rows starting at (pageNumber − 1)·pageSize |
| ProductRepository.GetByCategoryId | src/Inventory.Core.Infrastructure/Repositories/ProductRepository.cs:64-71 | exactly the products of that category, ordered by name |
| ProductRepository.GetLowStockProducts | src/Inventory.Core.Infrastructure/Repositories/ProductRepository.cs:73-80 | exactly the products with quantity ≤ minimum level, each as often as stored, ordered by name |
| ProductRepository.Search | src/Inventory.Core.Infrastructure/Repositories/ProductRepository.cs:82-93 | exactly the products whose lower-cased name or SKU, or non-null barcode or description, contains the lower-cased term, ordered by name |
| ProductRepository.EmptySearchMatchesAll | src/Inventory.Core.Infrastructure/Repositories/ProductRepository.cs:84-90 | an empty term finds every product |
| ProductRepository.SkuExists | src/Inventory.Core.Infrastructure/Repositories/ProductRepository.cs:118-128 | true exactly when a product other than the excluded one has exactly that SKU |
| ProductRepository.BarcodeExists | src/Inventory.Core.Infrastructure/Repositories/ProductRepository.cs:130-145 | false for a blank barcode; otherwise true exactly when a product other than the excluded one has exactly that barcode |
| ProductRepository.BarcodeUsed | src/Inventory.Core.Infrastructure/Repositories/ProductRepository.cs:137-144 | true exactly when a product other than the excluded one has exactly that barcode |
| MovementRepository.NewestFirstIsTotalPreorder | src/Inventory.Core.Infrastructure/Repositories/StockMovementRepository.cs:31 | ordering by CreatedAt descending is total and transitive |
| MovementRepository.SelectNewestFirst | src/Inventory.Core.Infrastructure/Repositories/StockMovementRepository.cs:52-56 | a filtered listing holds exactly the movements passing the filter, each as often as stored, newest first |
| MovementRepository.GetById | src/Inventory.Core.Infrastructure/Repositories/StockMovementRepository.cs:20-25 | a stored movement with that id, or null when none has it |
| MovementRepository.FindIn | src/Inventory.Core.Infrastructure/Repositories/StockMovementRepository.cs:24 | FirstOrDefault by id: a stored movement with that id, or null when none has it |
| MovementRepository.GetAll | src/Inventory.Core.Infrastructure/Repositories/StockMovementRepository.cs:27-33 | every movement exactly once, newest first |
| MovementRepository.FilterEverythingKeeps | src/Inventory.Core.Infrastructure/Repositories/StockMovementRepository.cs:29-32 | the unfiltered listing keeps every movement |
| MovementRepository.GetPaged | src/Inventory.Core.Infrastructure/Repositories/StockMovementRepository.cs:35-48 | the total count, and the at most pageSize newest-first movements starting at (pageNumber − 1)·pageSize |
| MovementRepository.GetByProductId | src/Inventory.Core.Infrastructure/Repositories/StockMovementRepository.cs:50-57 | exactly that product's movements, newest first |
| MovementRepository.GetByDateRange | src/Inventory.Core.Infrastructure/Repositories/StockMovementRepository.cs:59-66 | exactly the movements with start ≤ CreatedAt ≤ end, both ends included, newest first; an inverted range gives nothing |
| CategoryRepository.ByNameIsTotalPreorder | src/Inventory.Core.Infrastructure/Repositories/CategoryRepository.cs:31 | ordering categories by name is total and transitive |
| CategoryRepository.Load | src/Inventory.Core.Infrastructure/Repositories/CategoryRepository.cs:23 | Include(Products): a category comes with exactly the products whose CategoryId points at it |
| CategoryRepository.GetById | src/Inventory.Core.Infrastructure/Repositories/CategoryRepository.cs:20-25 | the category with that id together with all of its products (exactly its loaded form), or null when no category has it |
| CategoryRepository.GetAll | src/Inventory.Core.Infrastructure/Repositories/CategoryRepository.cs:27-33 | every category exactly once, ordered by name |
| CategoryRepository.GetAllLoaded | src/Inventory.Core.Infrastructure/Repositories/CategoryRepository.cs:27-33 | the name-ordered categories, each with its products |
| StockService.Check | src/Inventory.Core.Application/Services/StockService.cs:30-41 | a request passes exactly when its quantity is accepted (positive, or non-negative for an adjustment), the product exists and, for a removal, enough stock is on hand; the quantity test comes first (ArgumentException), then the lookup (KeyNotFoundException) |
| StockService.Delta | src/Inventory.Core.Application/Services/StockService.cs:43-137 | the recorded signed quantity is exactly the change the operation makes; positive for Add, negative for Remove |
| StockService.MapToDto | src/Inventory.Core.Application/Services/StockService.cs:178-194 | the DTO copies the movement's id, product id, signed quantity, reason, notes and creator, and names the type by its enum name |
| StockService.Apply | src/Inventory.Core.Application/Services/StockService.cs:26-146 | an operation succeeds exactly when the checks pass; a failed check changes nothing; the store's invariants hold after |
| StockService.ApplySuccess | src/Inventory.Core.Application/Services/StockService.cs:43-63 | a successful operation overwrites the product with its new quantity and time stamp and appends exactly one movement with the next id, and returns that movement |
| StockService.ApplyStep | src/Inventory.Core.Application/Services/StockService.cs:54-60 | after a success the product's quantity is its old quantity plus the returned signed quantity, no other product changes, exactly one movement is appended, and categories and users are untouched |
| StockService.ApplyStepRows | src/Inventory.Core.Application/Services/StockService.cs:43-60 | the one appended movement carries the product, the operation, the signed change and the request's reason, notes and creator |
| StockService.ApplyStepProduct | src/Inventory.Core.Application/Services/StockService.cs:54-58 | the product row is replaced by its restocked version and every other product row stays |
| StockService.ApplyOutcome | src/Inventory.Core.Application/Services/StockService.cs:54-142 | Add raises the quantity by the request, Remove lowers it by the request and never below zero, Adjust sets it to the non-negative target |
| StockService.Wrap32 | src/Inventory.Core.Application/Services/StockService.cs:56 | C# unchecked int arithmetic: the result is in the 32-bit range and equals the exact sum when that fits |
| StockService.AddStockWrapsAround | src/Inventory.Core.Application/Services/StockService.cs:56 | the 32-bit `Quantity += dto.Quantity` turns 100 + 2147483600 into a negative quantity, 2^32 below the intended sum |
| StockService.RemoveAllLeavesZero | src/Inventory.Core.Application/Services/StockService.cs:83-104 | removing exactly the quantity on hand is allowed and leaves zero |
| StockService.FailureChangesNothing | src/Inventory.Core.Application/Services/StockService.cs:30-121 | a failed operation leaves the store as it was, with an ArgumentException, KeyNotFoundException or InvalidOperationException |
| StockService.RecordedChangeKeepsUnexplained | src/Inventory.Core.Domain/Entities/StockMovement.cs:28 | changing a product's quantity by exactly the movement recorded for it keeps every product's quantity-minus-movement-sum |
| StockService.ApplyKeepsUnexplained | src/Inventory.Core.Application/Services/StockService.cs:26-146 | every stock operation, successful or not, keeps each product's quantity minus the sum of its movements |
| StockService.Run | src/Inventory.Core.Domain/Repositories/IStockMovementRepository.cs:8-39 | a sequence of stock calls keeps the invariants and only ever appends to the movement log |
| StockService.RunKeepsUnexplained | src/Inventory.Core.Domain/Entities/StockMovement.cs:28 | over any sequence of stock calls, every product's quantity changes by exactly the sum of the movements recorded for it |
| StockService.DirectQuantityWriteIsUnrecorded | src/Inventory.Core.Application/Services/ProductService.cs:151-154 | a product update that overwrites the quantity records no movement, so the log no longer accounts for the quantity |
| StockService.ZeroAdjustmentStopsAtValidator | src/Inventory.Core.Application/Validators/StockMovementRequestDtoValidator.cs:16-17 | an adjustment to 0 passes the service's own check for an existing product, but the request validator, which runs first, rejects quantity 0 with its message |
| StockService.ValidatedQuantityAccepted | src/Inventory.API/Program.cs:43-44 | a request the validator accepts passes the quantity check of all three operations |
| StockService.View | src/Inventory.Core.Application/Services/StockService.cs:151 | a listed movement is mapped with its own product, which the foreign key guarantees exists |
| StockService.Views | src/Inventory.Core.Application/Services/StockService.cs:151 | one DTO per movement, in the same order |
| StockService.GetAllMovements | src/Inventory.Core.Application/Services/StockService.cs:160-164 | the DTOs of exactly the repository's rows, in its order: one per movement in the log, every movement appears, newest first |
| StockService.GetMovementsByProductId | src/Inventory.Core.Application/Services/StockService.cs:148-152 | the DTOs of exactly the repository's rows for that product: only that product's movements, every one of them, newest first |
| StockService.GetMovementsByDateRange | src/Inventory.Core.Application/Services/StockService.cs:154-158 | the DTOs of exactly the repository's rows in the range: only movements within the inclusive range, every one of them, newest first |
| StockService.PageNewestFirst | src/Inventory.Core.Infrastructure/Repositories/StockMovementRepository.cs:35-48 | a page of the log counts every movement and keeps the newest-first order |
| StockService.RunNewestFirst | src/Inventory.Core.Infrastructure/Repositories/StockMovementRepository.cs:35-48 | any Skip/Take window of a newest-first list is itself newest first |
| StockService.GetPagedMovements | src/Inventory.Core.Application/Services/StockService.cs:166-176 | the page echoes the requested page number and size and the total count, holds at most pageSize items, newest first, and its items are the DTOs of the repository's page, i.e. of the (pageNumber-1)*pageSize offset slice of the newest-first log |
| StockService.AddStock | src/Inventory.Core.Application/Services/StockService.cs:26-64 | the method's answer and new store are exactly those of Apply with Add |
| StockService.RemoveStock | src/Inventory.Core.Application/Services/StockService.cs:66-108 | the method's answer and new store are exactly those of Apply with Remove |
| StockService.AdjustStock | src/Inventory.Core.Application/Services/StockService.cs:110-146 | the method's answer and new store are exactly those of Apply with Adjustment |
| StockService.Execute | src/Inventory.Core.Application/Services/StockService.cs:26-146 | the shared body checks, overwrites the product, appends the movement, and has exactly the effect of Apply |
| ProductService.MapToDto | src/Inventory.Core.Application/Services/ProductService.cs:176-195 | the DTO copies the product's id, SKU, barcode, quantity and category id, carries the loaded category's name, and flags low stock exactly when quantity ≤ minimum level |
| ProductService.LoadedCategoryName | src/Inventory.Core.Application/Services/ProductService.cs:190 | `Category?.Name`: a name only for a product with a category, and then that category's name; with the foreign key intact, a product has a name exactly when it has a category |
| ProductService.Views | src/Inventory.Core.Application/Services/ProductService.cs:46 | `Select(MapToDto)`: one DTO per product, in the same order |
| ProductService.GetById | src/Inventory.Core.Application/Services/ProductService.cs:25-29 | null exactly for an unknown id; otherwise the DTO of exactly that product, with its loaded category name |
| ProductService.GetBySku | src/Inventory.Core.Application/Services/ProductService.cs:31-35 | a DTO with exactly that SKU, or null when no product has it |
| ProductService.GetByBarcode | src/Inventory.Core.Application/Services/ProductService.cs:37-41 | a DTO with exactly that barcode, or null when no product has it |
| ProductService.GetAll | src/Inventory.Core.Application/Services/ProductService.cs:43-47 | the DTOs of exactly the rows the repository lists, in its order: one per stored product, and every stored product appears |
| ProductService.GetLowStockProducts | src/Inventory.Core.Application/Services/ProductService.cs:67-71 | the DTOs of exactly the repository's low-stock rows, each flagged IsLowStock, and every product with quantity ≤ minimum level appears |
| ProductService.GetByCategoryId | src/Inventory.Core.Application/Services/ProductService.cs:61-65 | the DTOs of exactly the repository's rows for that category; every DTO belongs to it and every product of that category appears |
| ProductService.Search | src/Inventory.Core.Application/Services/ProductService.cs:73-77 | the DTOs of exactly the rows the repository's search finds, in its order, and every product the lower-cased term matches appears |
| ProductService.UniquenessError | src/Inventory.Core.Application/Services/ProductService.cs:84-96 | the checks pass exactly when no other product has the SKU and the barcode is blank or unused by any other product; a taken SKU is reported first; each failure is an InvalidOperationException |
| ProductService.StoredBarcode | src/Inventory.Core.Application/Services/ProductService.cs:91-92 | the intended storage that the guard assumes: a null or blank barcode becomes no barcode and any other is kept, so no stored barcode is blank (the correction of the blank-barcode finding, used only by the lemmas beside it) |
| ProductService.NewRow | src/Inventory.Core.Application/Services/ProductService.cs:98-111 | the new product copies name, description, SKU, barcode (as given, blank or not), price, cost, minimum level and category from the request, takes the initial quantity, and stamps both times with the creation time |
| ProductService.Create | src/Inventory.Core.Application/Services/ProductService.cs:79-116 | a failed uniqueness check is reported and inserts nothing; otherwise creation succeeds exactly when the database indexes and foreign key accept the row; a success appends that row with the next id, advances the product counter, leaves every other table as it was, and answers the row's DTO without a category name |
| ProductService.Updated | src/Inventory.Core.Application/Services/ProductService.cs:141-156 | the update overwrites name, description, SKU, barcode (as given), price, cost, minimum level and category, changes the quantity only when one is given, keeps id and creation time, and stamps UpdatedAt |
| ProductService.NameAfterUpdate | src/Inventory.Core.Application/Services/ProductService.cs:158-159 | the category name the response carries after an update is the updated row's loaded category name when the category id is unchanged, and otherwise at most that name (the navigation is not reloaded) |
| ProductService.Update | src/Inventory.Core.Application/Services/ProductService.cs:118-160 | an unknown id fails with NotFound before any uniqueness check; a clash with another product fails next; any failure changes nothing; a success replaces exactly that product's row with its updated version, leaves every other table as it was, and answers the updated row's DTO |
| ProductService.Delete | src/Inventory.Core.Application/Services/ProductService.cs:162-174 | an unknown id fails with NotFound and changes nothing; otherwise exactly the product's row and its movements are removed: every other product and movement stays, and the categories, users and counters are untouched |
| ProductService.GetPaged | src/Inventory.Core.Application/Services/ProductService.cs:49-59 | the page echoes the requested page number and size and the total product count, holds at most pageSize items, and its items are the DTOs of the repository's page, i.e. of the (pageNumber-1)*pageSize offset slice of all products |
| ProductService.OwnKeysPassUpdateCheck | src/Inventory.Core.Application/Services/ProductService.cs:128-139 | a product is excluded from its own collision check: resubmitting its own SKU and barcode never fails |
| ProductService.GuardImpliesFits | src/Inventory.Core.Application/Services/ProductService.cs:84-96 | with a barcode that is absent or not blank, passing the service checks means the row fits the database's unique indexes |
| ProductService.CreateWithCheckedKeysSucceeds | src/Inventory.Core.Application/Services/ProductService.cs:79-116 | a creation whose checks pass and whose category exists (or is none) is stored when the barcode is absent or not blank; with the barcode stored in its intended form it is stored whatever the barcode |
| ProductService.UpdateWithCheckedKeysSucceeds | src/Inventory.Core.Application/Services/ProductService.cs:118-160 | an update of an existing product whose checks pass and whose category exists (or is none) is saved when the barcode is absent or not blank; with the barcode stored in its intended form it is saved whatever the barcode |
| ProductService.UpdateQuantityIsUnrecorded | src/Inventory.Core.Application/Services/ProductService.cs:150-154 | an update that changes the quantity records no movement, so the ledger stops explaining that product's quantity |
| ProductService.BlankBarcodeStore | src/Inventory.Core.Infrastructure/Data/InventoryDbContext.cs:32 | a valid store holding one product with an empty, non-null barcode |
| ProductService.BlankBarcodeSlipsPastGuard | src/Inventory.Core.Application/Services/ProductService.cs:91-111 | a second product with an empty barcode passes the validator and both service checks, and the row as the source builds it is refused by the barcode index with a DbUpdateException; stored with no barcode, the creation succeeds |
| ProductService.CreateProduct | src/Inventory.Core.Application/Services/ProductService.cs:79-116 | the method's answer and new store are exactly those of Create |
| ProductService.UpdateProduct | src/Inventory.Core.Application/Services/ProductService.cs:118-160 | the method's answer and new store are exactly those of Update |
| ProductService.DeleteProduct | src/Inventory.Core.Application/Services/ProductService.cs:162-174 | the method's answer and new store are exactly those of Delete |
| CategoryService.MapToDto | src/Inventory.Core.Application/Services/CategoryService.cs:87-97 | the DTO copies id, name, description and creation time, and ProductCount is the number of loaded products, never negative |
| CategoryService.GetById | src/Inventory.Core.Application/Services/CategoryService.cs:23-27 | null exactly for an unknown id; otherwise the category's DTO, counting exactly the products that belong to it |
| CategoryService.GetAll | src/Inventory.Core.Application/Services/CategoryService.cs:29-33 | one DTO per row the repository lists, position by position, so one per category, ordered by name; every category appears, and each DTO counts exactly its own products |
| CategoryService.Create | src/Inventory.Core.Application/Services/CategoryService.cs:35-48 | no check of its own: on a valid store creation succeeds exactly when no category has the name (the database index); a success appends the category with the next id, the request's name and description and the creation time, advances the counter, changes nothing else, and answers it with no products; a refusal is a DbUpdateException and changes nothing |
| CategoryService.Update | src/Inventory.Core.Application/Services/CategoryService.cs:50-63 | an unknown id fails with NotFound; a failure changes nothing; a success replaces exactly that category's name and description, keeps its id and creation time, leaves every other table as it was, and answers the DTO counting that category's products |
| CategoryService.Delete | src/Inventory.Core.Application/Services/CategoryService.cs:65-85 | an unknown id fails with NotFound; the delete succeeds exactly when the category exists and no product belongs to it, and the new store is then the database's delete of that category; otherwise it fails with InvalidOperationException naming the category and changes nothing |
| CategoryService.DeleteTouchesNoProduct | src/Inventory.Core.Application/Services/CategoryService.cs:76-83 | because of the guard, a successful delete leaves every product row as it was and removes the category |
| CategoryService.RepositoryDeleteDetaches | src/Inventory.Core.Infrastructure/Data/InventoryDbContext.cs:38-41 | a delete at the database, bypassing the service, detaches the category's products (SET NULL) instead of refusing |
| CategoryService.CreateCategory | src/Inventory.Core.Application/Services/CategoryService.cs:35-48 | the method's answer and new store are exactly those of Create |
| CategoryService.UpdateCategory | src/Inventory.Core.Application/Services/CategoryService.cs:50-63 | the method's answer and new store are exactly those of Update |
| CategoryService.DeleteCategory | src/Inventory.Core.Application/Services/CategoryService.cs:65-85 | the method's answer and new store are exactly those of Delete |
| UserService.MapToDto | src/Inventory.Core.Application/Services/UserService.cs:144-157 | the DTO copies id, username, email, role, active flag and last login, and has no password digest at all |
| UserService.NewRow | src/Inventory.Core.Application/Services/UserService.cs:73-82 | the new row stores the password's digest, never the password, copies username, email, role and active flag, has no last login, and stamps both times with the creation time |
| UserService.Create | src/Inventory.Core.Application/Services/UserService.cs:58-84 | a taken username is refused before the email is looked at; a taken email is refused next; on a valid store creation succeeds exactly when both are free; a success appends the new row with the next id, advances the user counter, changes nothing else and answers that row's DTO; a refusal changes nothing |
| UserService.Updated | src/Inventory.Core.Application/Services/UserService.cs:117-127 | the update takes username, email, role and active flag from the request, stamps UpdatedAt, keeps id, creation time and last login, and replaces the digest only when a non-blank password is supplied |
| UserService.Update | src/Inventory.Core.Application/Services/UserService.cs:91-130 | an unknown id fails with NotFound; a failure changes nothing; a success replaces exactly that user's row with its updated version, leaves every other table as it was, and answers that row's DTO |
| UserService.ChangedKeyClashes | src/Inventory.Core.Application/Services/UserService.cs:98-115 | a changed username held by another user is refused, then a changed email held by another user; on a valid store the user's own username never counts as a clash |
| UserService.UpdateChecksCoverIndexes | src/Inventory.Core.Application/Services/UserService.cs:98-129 | an update that passes the service's two checks on a valid store is always saved: the checks cover both unique indexes |
| UserService.FindByUsernameUnique | src/Inventory.Core.Infrastructure/Data/InventoryDbContext.cs:74-76 | under the unique username index a lookup by username finds exactly the row that holds it |
| UserService.FindByEmailUnique | src/Inventory.Core.Infrastructure/Data/InventoryDbContext.cs:74-76 | under the unique email index a lookup by email finds exactly the row that holds it |
| UserService.Delete | src/Inventory.Core.Application/Services/UserService.cs:135-141 | fails with NotFound, changing nothing, exactly for an unknown id; otherwise the new store is the old one with exactly the rows of that id removed: every other user stays, and on a valid store exactly one row goes |
| UserService.WithoutOneUser | src/Inventory.Core.Application/Services/UserService.cs:135-141 | under the unique id key, removing a stored user's id removes exactly one row |
| UserService.CreateUser | src/Inventory.Core.Application/Services/UserService.cs:53-87 | the method's answer and new store are exactly those of Create |
| UserService.UpdateUser | src/Inventory.Core.Application/Services/UserService.cs:89-131 | the method's answer and new store are exactly those of Update |
| UserService.DeleteUser | src/Inventory.Core.Application/Services/UserService.cs:133-142 | the method's answer and new store are exactly those of Delete |
| AuthService.GenerateToken | src/Inventory.Core.Application/Services/AuthService.cs:96-120 | fails with InvalidOperationException exactly when no key is configured (null or blank); otherwise the token signed with that key for the user, expiring eight hours after now |
| AuthService.ValidateToken | src/Inventory.Core.Application/Services/AuthService.cs:67-94 | true exactly when a non-blank key is configured and the handler accepts the token under it; never an error |
| AuthService.Login | src/Inventory.Core.Application/Services/AuthService.cs:31-65 | the single "invalid username or password" error comes exactly when the user is unknown, inactive or the password digest does not match, and then nothing changes; a success means the login was admitted and a key exists, and carries the user's id, username, email and role with a token for the row whose last login is now |
| AuthService.AdmittedLoginRecordsTime | src/Inventory.Core.Application/Services/AuthService.cs:49-53 | an admitted login on a valid store writes exactly the last-login time of that user, and then fails with the missing-key error exactly when no key is configured, succeeding otherwise |
| AuthService.StoredRowFits | src/Inventory.Core.Infrastructure/Data/InventoryDbContext.cs:74-76 | changing a stored user's fields other than username and email keeps the row within the unique indexes |
| AuthService.CreatedUserCanLogIn | src/Inventory.Core.Application/Services/UserService.cs:73-84 | an active user created through the user service can log in with the password given at creation |
| AuthService.UpdateWithoutPasswordKeepsLogin | src/Inventory.Core.Application/Services/UserService.cs:123-127 | an update that supplies no password leaves the old password working for the (possibly renamed) active user |
| AuthService.LogIn | src/Inventory.Core.Application/Services/AuthService.cs:31-65 | the method's answer and new store are exactly those of Login |
| Validators.NotEmpty | src/Inventory.Core.Application/Validators/CreateProductDtoValidator.cs:14 | the rule fails, with its one message, exactly for blank text |
| Validators.MaximumLength | src/Inventory.Core.Application/Validators/CreateProductDtoValidator.cs:15 | the rule fails, with its one message, exactly for text whose .NET length (UTF-16 code units) exceeds the bound |
| Text.Utf16Length | src/Inventory.Core.Application/Validators/CreateProductDtoValidator.cs:15 | the .NET length FluentValidation measures lies between the number of characters and twice it, equals it when every character is in the Basic Multilingual Plane, and is twice it when none is |
| Validators.AstralCharactersCountTwice | src/Inventory.Core.Application/Validators/CreateProductDtoValidator.cs:15 | a product name of 150 emoji, 300 UTF-16 code units, is refused by the 200-unit limit |
| Validators.Must | src/Inventory.Core.Application/Validators/CreateProductDtoValidator.cs:27 | a comparison rule fails, with its one message, exactly when its condition is false |
| Validators.OptionalMaximumLength | src/Inventory.Core.Application/Validators/CreateProductDtoValidator.cs:22-24 | the guarded length rule fails, with its one message, exactly for a non-blank value whose .NET length (UTF-16 code units) exceeds the bound |
| Validators.SkuPatternAcceptsTrailingNewline | src/Inventory.Core.Application/Validators/CreateProductDtoValidator.cs:20 | the SKU pattern as written accepts "AB-1\n", which the end-anchored pattern refuses; the username pattern likewise accepts "abc\n" |
| Validators.StrictPatternIsCharset | src/Inventory.Core.Application/Validators/CreateProductDtoValidator.cs:20 | the intended end-anchored pattern accepts exactly the non-empty strings of permitted characters, and anything it accepts the written pattern accepts |
| Validators.SkuRules | src/Inventory.Core.Application/Validators/CreateProductDtoValidator.cs:17-20 | the SKU rules pass exactly for a non-blank SKU of at most 100 UTF-16 code units that .NET's `^[A-Za-z0-9\-_]+$` matches: permitted characters only, optionally followed by one final newline; a blank SKU reports "SKU is required" |
| Validators.ProductTextErrors | src/Inventory.Core.Application/Validators/CreateProductDtoValidator.cs:13-24 | the name, SKU and barcode rules pass exactly when the name is non-blank and at most 200 UTF-16 code units, the SKU passes the SKU rules (pattern as .NET matches it) and a non-blank barcode has at most 100 code units |
| Validators.AmountErrors | src/Inventory.Core.Application/Validators/CreateProductDtoValidator.cs:26-36 | the amount rules pass exactly for a positive price, a non-negative cost, an acceptable quantity and a non-negative minimum level, and report the failing ones' messages |
| Validators.CreateProductErrors | src/Inventory.Core.Application/Validators/CreateProductDtoValidator.cs:11-41 | a create-product body is accepted exactly when it meets every rule of the validator, the SKU pattern as .NET matches it; a blank SKU and a non-positive price report their messages |
| Validators.UpdateProductErrors | src/Inventory.Core.Application/Validators/UpdateProductDtoValidator.cs:11-45 | an update-product body is accepted exactly when it meets every rule, the SKU pattern as .NET matches it and the quantity checked only when present; a negative quantity reports its message |
| Validators.StockMovementRequestErrors | src/Inventory.Core.Application/Validators/StockMovementRequestDtoValidator.cs:11-30 | a movement request is accepted exactly for a positive product id and quantity and reason, notes and creator each blank or within 500, 1000 and 100 UTF-16 code units; a non-positive quantity reports its message |
| Validators.UsernameErrors | src/Inventory.Core.Application/Validators/UpdateUserDtoValidator.cs:16-20 | the username rules pass exactly for a non-blank username of 3 to 100 UTF-16 code units that .NET's `^[a-zA-Z0-9_]+$` matches: letters, digits and '_', optionally followed by one final newline |
| Validators.EmailErrors | src/Inventory.Core.Application/Validators/UpdateUserDtoValidator.cs:22-25 | the email rules pass exactly for a non-blank email of at most 200 UTF-16 code units that the email check accepts |
| Validators.PasswordErrors | src/Inventory.Core.Application/Validators/UpdateUserDtoValidator.cs:27-30 | the password rules pass exactly for a null or blank password or one of 6 to 100 UTF-16 code units |
| Validators.UpdateUserErrors | src/Inventory.Core.Application/Validators/UpdateUserDtoValidator.cs:11-31 | an update-user body is accepted exactly when it meets every rule of the validator, the username pattern as .NET matches it |
| Validators.CategoryErrors | src/Inventory.Core.Application/Validators/CategoryDtoValidator.cs:11-20 | a category body is accepted exactly for a non-blank name of at most 100 UTF-16 code units and a description that is blank or at most 500; a blank description never reports its length |
| Validators.LoginErrors | src/Inventory.Core.Application/Validators/LoginDtoValidator.cs:11-18 | a login body is accepted exactly when username and password are both non-blank, with no length or format limit; the username's message comes first |
| RoleCodecs.RoleName | src/Inventory.Desktop/DTOs/CreateUserDto.cs:31-37 | a defined UserRole number reads as that role's name; every other number reads as "Cashier" |
| RoleCodecs.GetInt32 | src/Inventory.Desktop/DTOs/CreateUserDto.cs:30 | the reader yields the number exactly when its text is an integer literal (no decimal point, no exponent) that fits in 32 bits, and otherwise throws FormatException |
| RoleCodecs.RoleToEnumRead | src/Inventory.Desktop/DTOs/CreateUserDto.cs:25-40 | a number reads as its role name when GetInt32 accepts it and fails otherwise; a string is kept; null reads as "Cashier"; any other token kind throws InvalidOperationException |
| RoleCodecs.RoleToEnumWrite | src/Inventory.Desktop/DTOs/CreateUserDto.cs:42-53 | each role name is written as its UserRole number and any other string as 1; the result is always 1, 2 or 3 |
| RoleCodecs.RoleToEnumRoundTrip | src/Inventory.Desktop/DTOs/CreateUserDto.cs:25-53 | every role name survives a write followed by a read |
| RoleCodecs.RoleToEnumNumberRoundTrip | src/Inventory.Desktop/DTOs/CreateUserDto.cs:25-53 | every defined role number survives a read followed by a write |
| RoleCodecs.UnknownRoleReadsBackAsCashier | src/Inventory.Desktop/DTOs/CreateUserDto.cs:50 | a string naming no role is sent as Cashier and reads back as "Cashier" |
| RoleCodecs.RoleConverterRead | src/Inventory.Desktop/DTOs/AuthResponseDto.cs:24-45 | a number reads as with the create-user converter, a string is kept, and any other token kind, null included, throws JsonException |
| RoleCodecs.RoleConverterWrite | src/Inventory.Desktop/DTOs/AuthResponseDto.cs:47-50 | a role is always written as a JSON string |
| RoleCodecs.RoleConverterRoundTrip | src/Inventory.Desktop/DTOs/AuthResponseDto.cs:24-50 | every role string survives a write followed by a read |
| RoleCodecs.ReadersDifferOnNull | src/Inventory.Desktop/DTOs/CreateUserDto.cs:39 | the two desktop Read bodies differ only on a JSON null token: one gives "Cashier", the other throws |
| RoleCodecs.ConvertRoleToString | src/inventory-web/src/app/services/auth.service.ts:47-61 | a string role is returned as it is; a numeric role always becomes one of the three role names |
| RoleCodecs.ClientsAgreeOnRoleNumbers | src/inventory-web/src/app/services/auth.service.ts:47-61 | on every 32-bit integer literal the web client and both desktop readers give the same role name |
| RoleCodecs.FractionalRoleNumber | src/inventory-web/src/app/services/auth.service.ts:56-57 | a fractional role number reads as "Cashier" on the web and is rejected by both desktop readers |
| RoleCodecs.DecimalPointRoleNumber | src/Inventory.Desktop/DTOs/CreateUserDto.cs:30 | the role written `2.0` reads as "Moderator" on the web, while both desktop readers throw FormatException from GetInt32 |
| WebAuth.ToAuthUser | src/inventory-web/src/app/services/auth.service.ts:34-40 | the kept user copies id, username, email and token from the response and carries its role converted to a name |
| WebAuth.Stored | src/inventory-web/src/app/services/auth.service.ts:107-110 | a stored user reads back with its role as a string |
| WebAuth.StoredUser | src/inventory-web/src/app/services/auth.service.ts:95-105 | nothing stored gives null; a stored user reads back with a numeric role converted |
| WebAuth.StoredUserRoundTrip | src/inventory-web/src/app/services/auth.service.ts:95-110 | storing a kept user and reading it back gives the same user |
| WebAuth.RoleConversionIdempotent | src/inventory-web/src/app/services/auth.service.ts:101-103 | a role converted once is not converted again when the user is stored and read back |
| WebAuth.AuthService.constructor | src/inventory-web/src/app/services/auth.service.ts:24 | the service starts with the user that local storage holds, read back |
| WebAuth.AuthService.Login | src/inventory-web/src/app/services/auth.service.ts:29-45 | the response's user, its role converted, is stored, its token stored, and published as the current user |
| WebAuth.AuthService.Logout | src/inventory-web/src/app/services/auth.service.ts:63-67 | both storage entries are removed and nobody is signed in |
| WebAuth.AuthService.GetToken | src/inventory-web/src/app/services/auth.service.ts:73-76 | null exactly when nothing is stored or the stored token is empty; otherwise the stored token |
| WebAuth.AuthService.RoleChecks | src/inventory-web/src/app/services/auth.service.ts:78-93 | every role check implies being signed in; isModerator holds exactly for a moderator or super administrator, isSuperAdmin exactly for a super administrator |
| WebAuth.AuthService.RoleChecksAfterNumericLogin | src/inventory-web/src/app/services/auth.service.ts:47-61 | after a login with a numeric role, isSuperAdmin holds exactly for 3 and isModerator exactly for 2 or 3 |
| WebAuth.SignedOutHasNoRole | src/inventory-web/src/app/services/auth.service.ts:63-93 | after logout every role check fails |
| DesktopTranslation.TableFor | src/Inventory.Desktop/Services/TranslationService.cs:278-284 | a culture with its own table reads it; otherwise an Arabic culture reads "ar-SA" and any other "en-US"; with the two built-in tables the table read always exists |
| DesktopTranslation.TranslateIn | src/Inventory.Desktop/Services/TranslationService.cs:286-295 | the result is the key itself or an entry that some table holds for that key |
| DesktopTranslation.MissingKeyIsShown | src/Inventory.Desktop/Services/TranslationService.cs:294-295 | a key that no table has is shown as it is, whatever the culture |
| DesktopTranslation.FallbackReadsBaseCulture | src/Inventory.Desktop/Services/TranslationService.cs:280-284 | a culture without a table of its own reads exactly what its base culture reads |
| DesktopTranslation.TranslationService.constructor | src/Inventory.Desktop/Services/TranslationService.cs:271-274 | the service is built with the two culture tables and the given culture |
| DesktopTranslation.TranslationService.Translate | src/Inventory.Desktop/Services/TranslationService.cs:276-296 | the entry of the current culture's table (or its base culture's) when there is one, otherwise the key; it never fails |
| DesktopTranslation.TranslationService.SetCulture | src/Inventory.Desktop/Services/TranslationService.cs:298-301 | every later lookup reads the new culture's table |
| WebTranslation.Translate | src/inventory-web/src/app/services/translation.service.ts:331-334 | the locale's entry when it exists and is non-empty, otherwise the key; a non-empty key never translates to '' |
| WebTranslation.ValueText | src/inventory-web/src/app/services/translation.service.ts:339 | a string parameter is used as it is and a number as its decimal text |
| WebTranslation.Placeholder | src/inventory-web/src/app/services/translation.service.ts:339 | a parameter's placeholder is its name inside double braces |
| WebTranslation.TranslateWithParams | src/inventory-web/src/app/services/translation.service.ts:336-342 | the loop's result is the translation with the parameters substituted in turn |
| WebTranslation.SubstituteAppend | src/inventory-web/src/app/services/translation.service.ts:338-340 | substituting a list of parameters is substituting its first part and then the rest |
| WebTranslation.UnknownKeyIsFilledIn | src/inventory-web/src/app/services/translation.service.ts:333-337 | a key with no entry has the parameters substituted into the key text itself |
| WebTranslation.UnmatchedParameterChangesNothing | src/inventory-web/src/app/services/translation.service.ts:339 | a parameter whose placeholder is absent leaves the text unchanged |
| WebTranslation.ParameterFillsFirstPlaceholder | src/inventory-web/src/app/services/translation.service.ts:339 | a parameter replaces the first occurrence of its placeholder and keeps all the text around it |
| WebTranslation.NoParametersIsTranslate | src/inventory-web/src/app/services/translation.service.ts:336-342 | without parameters the result is the plain translation |
| WebTranslation.FirstPlaceholderOnly | src/inventory-web/src/app/services/translation.service.ts:339 | of two equal placeholders only the first is filled, and a placeholder without a parameter stays |
| PageWindow.Window | src/inventory-web/src/app/components/products/products.component.ts:85-99 | at most five consecutive real pages; exactly five when there are that many, every page when fewer, none when there are none; the current page is among them whenever it is a real page |
| PageWindow.PageNumbers | src/inventory-web/src/app/components/products/products.component.ts:85-99 | the push loop builds exactly the window |
| PageWindow.CentredWindow | src/inventory-web/src/app/components/products/products.component.ts:88 | away from both ends the window is the current page with two pages either side |
| PageWindow.WindowAtTheEnd | src/inventory-web/src/app/components/products/products.component.ts:91-93 | near the last page the window ends at the last page |
| PageWindow.Pager.constructor | src/inventory-web/src/app/components/products/products.component.ts:20-26 | the first page, ten rows a page, nothing counted, no neighbours |
| PageWindow.Pager.GoToPage | src/inventory-web/src/app/components/products/products.component.ts:72-77 | only a page from 1 to the page count is taken, and only then is the list reloaded; nothing else changes |
| PageWindow.Pager.ChangePageSize | src/inventory-web/src/app/components/products/products.component.ts:79-83 | the new size is taken and the list goes back to the first page |
| PageWindow.Pager.ShowList | src/inventory-web/src/app/components/products/products.component.ts:51-56 | an unpaged answer counts its rows as one page with no neighbours |
| PageWindow.Pager.ShowPage | src/inventory-web/src/app/components/products/products.component.ts:57-63 | a paged answer's counts and flags are copied |
| PageWindow.Pager.GetPageNumbers | src/inventory-web/src/app/components/products/products.component.ts:85-99 | the window around this component's current page |
| WebLists.MovementTypeName | src/inventory-web/src/app/components/stock-movements/stock-movements.component.ts:156-163 | a defined StockMovementType number is shown by its name and any other number as "Unknown" |
| WebLists.NewerOrSameOrders | src/inventory-web/src/app/components/stock-movements/stock-movements.component.ts:44-46 | the comparator orders the movements as a total preorder on their times |
| WebLists.NewestFirst | src/inventory-web/src/app/components/stock-movements/stock-movements.component.ts:44-46 | the sorted list is a permutation of the movements with every movement no older than the ones after it |
| ProductsComponent.SentCategory | src/inventory-web/src/app/components/products/products.component.ts:185-187 | undefined, null, 0 and '' are sent as null and every other category value as it is; never undefined |
| ProductsComponent.SentForm | src/inventory-web/src/app/components/products/products.component.ts:184-187 | the body sent is the form with only its category normalised |
| ProductsComponent.SentFormIdempotent | src/inventory-web/src/app/components/products/products.component.ts:184-187 | a form that has been normalised is sent unchanged |
| ProductsComponent.ProductsComponent.constructor | src/inventory-web/src/app/components/products/products.component.ts:13-35 | the page starts on the first page of ten rows with no products, an empty search box, the form closed and no request sent |
| ProductsComponent.ProductsComponent.GoToPage | src/inventory-web/src/app/components/products/products.component.ts:72-77 | a page from 1 to the page count is taken and its load is requested; any other page changes nothing and sends nothing; the list, the search term and the form stay as they were |
| ProductsComponent.ProductsComponent.ChangePageSize | src/inventory-web/src/app/components/products/products.component.ts:79-83 | the first page at the new size is requested; the list, the form and the page count stay as they were |
| ProductsComponent.ProductsComponent.Search | src/inventory-web/src/app/components/products/products.component.ts:114-133 | a blank term goes back to the first page and reloads the whole list; any other term is sent to the search endpoint as typed |
| ProductsComponent.ProductsComponent.ShowProducts | src/inventory-web/src/app/components/products/products.component.ts:48-64 | an array answer is shown as one page counting its rows with no neighbours; a paged answer is shown with its own counts and flags; the page number and size stay |
| ProductsComponent.ProductsComponent.SaveProduct | src/inventory-web/src/app/components/products/products.component.ts:182-216 | the normalised form is sent as an update when editing and as a creation otherwise |
| ProductsComponent.ProductsComponent.Saved | src/inventory-web/src/app/components/products/products.component.ts:191-195 | after a successful save the first page is reloaded and the form is closed |
| ProductsComponent.ProductsComponent.CancelForm | src/inventory-web/src/app/components/products/products.component.ts:234-238 | the form is closed, nothing selected, not editing, and nothing else changes |
| StockMovementsComponent.CreatedBy | src/inventory-web/src/app/components/stock-movements/stock-movements.component.ts:122-129 | the author is the signed-in user's username, else its email, else 'Unknown'; never empty |
| StockMovementsComponent.Dispatch | src/inventory-web/src/app/components/stock-movements/stock-movements.component.ts:132-136 | type 1 goes to the add endpoint, 2 to the remove endpoint and every other number to the adjust endpoint, with the body unchanged |
| StockMovementsComponent.ExecuteDecision | src/inventory-web/src/app/components/stock-movements/stock-movements.component.ts:116-136 | the "select a product and quantity" alert comes exactly when no product is selected or the quantity is not positive; otherwise the body with the user as author goes to the endpoint for its type |
| StockMovementsComponent.NoAdjustmentToZero | src/inventory-web/src/app/components/stock-movements/stock-movements.component.ts:117-120 | every quantity the page sends is non-zero, so it never asks for an adjustment to zero |
| StockMovementsComponent.StockMovementsComponent.constructor | src/inventory-web/src/app/components/stock-movements/stock-movements.component.ts:13-27 | the page starts on the first page with no movements, no product selected, type 1, quantity 1 and empty texts |
| StockMovementsComponent.StockMovementsComponent.GoToPage | src/inventory-web/src/app/components/stock-movements/stock-movements.component.ts:66-71 | a page from 1 to the page count is taken and its load is requested; any other page changes nothing; the list, the form and the page count stay as they were |
| StockMovementsComponent.StockMovementsComponent.ChangePageSize | src/inventory-web/src/app/components/stock-movements/stock-movements.component.ts:73-77 | the first page at the new size is requested; the list, the form and the page count stay as they were |
| StockMovementsComponent.StockMovementsComponent.ShowMovements | src/inventory-web/src/app/components/stock-movements/stock-movements.component.ts:40-64 | an array answer is shown newest first as one page; a paged answer is shown as the server ordered it with its counts and flags |
| StockMovementsComponent.StockMovementsComponent.ShowProducts | src/inventory-web/src/app/components/stock-movements/stock-movements.component.ts:97-114 | the product select holds the rows of the array or of the page |
| StockMovementsComponent.StockMovementsComponent.ExecuteMovement | src/inventory-web/src/app/components/stock-movements/stock-movements.component.ts:116-136 | on a failed guard the alert is raised and nothing is sent; otherwise exactly the dispatched request is sent |
| StockMovementsComponent.StockMovementsComponent.MovementSucceeded | src/inventory-web/src/app/components/stock-movements/stock-movements.component.ts:138-147 | after a success the form is reset, and the first page of movements and the product list are reloaded |
| UsersComponent.SaveDecision | src/inventory-web/src/app/components/users/users.component.ts:148-203 | the "username and email required" alert comes exactly when either is empty; the "password required" alert exactly for a new user without a password; an edit of a selected user is an update with no password, anything else a creation carrying the form's fields |
| UsersComponent.EditKeepsPasswordHash | src/inventory-web/src/app/components/users/users.component.ts:164 | an update sent by this page leaves the stored password hash unchanged on the server |
| UsersComponent.UsersComponent.constructor | src/inventory-web/src/app/components/users/users.component.ts:15-36 | the page starts with the form closed and at its defaults, nothing selected, on the first page of ten rows |
| UsersComponent.UsersComponent.GoToPage | src/inventory-web/src/app/components/users/users.component.ts:96-101 | a page from 1 to the page count is taken and its load is requested; any other page changes nothing; the list, the form and the page count stay as they were |
| UsersComponent.UsersComponent.ChangePageSize | src/inventory-web/src/app/components/users/users.component.ts:103-107 | the first page at the new size is requested; the list, the form and the page count stay as they were |
| UsersComponent.UsersComponent.AddUser | src/inventory-web/src/app/components/users/users.component.ts:127-132 | an empty creation form is opened |
| UsersComponent.UsersComponent.EditUser | src/inventory-web/src/app/components/users/users.component.ts:134-146 | the user's fields are loaded with an empty password and the form is opened for editing that user |
| UsersComponent.UsersComponent.SaveUser | src/inventory-web/src/app/components/users/users.component.ts:148-203 | on a failed check the alert is raised and nothing is sent; otherwise exactly the decided request is sent |
| UsersComponent.UsersComponent.CreationCarriesPassword | src/inventory-web/src/app/components/users/users.component.ts:154-157 | every creation the page sends carries a non-empty password |
| UsersComponent.UsersComponent.Saved | src/inventory-web/src/app/components/users/users.component.ts:170-174 | after a successful save the first page is reloaded and the form is closed and reset |
| UsersComponent.UsersComponent.CancelForm | src/inventory-web/src/app/components/users/users.component.ts:221-226 | the form is closed, nothing selected, not editing, and the fields are back to their defaults |
| ReportsComponent.OrEmpty | src/inventory-web/src/app/components/reports/reports.component.ts:212 | a missing text is written as the empty string and a present one as it is |
| ReportsComponent.StockRow | src/inventory-web/src/app/components/reports/reports.component.ts:211-214 | six cells: SKU, name, category or '', quantity, price, and "Yes" exactly for a low-stock product, "No" otherwise |
| ReportsComponent.LowStockRow | src/inventory-web/src/app/components/reports/reports.component.ts:220-223 | six cells: SKU, name, category or '', quantity, the minimum stock level as threshold, and price |
| ReportsComponent.MovementRow | src/inventory-web/src/app/components/reports/reports.component.ts:229-233 | six cells: the localised time, product name, the movement type's name (never "Unknown"), quantity, reason or '', notes or '' |
| ReportsComponent.StockRows | src/inventory-web/src/app/components/reports/reports.component.ts:239 | one stock row per product, in order |
| ReportsComponent.LowStockRows | src/inventory-web/src/app/components/reports/reports.component.ts:239 | one low-stock row per product, in order |
| ReportsComponent.MovementRows | src/inventory-web/src/app/components/reports/reports.component.ts:239 | one movement row per movement, in order |
| ReportsComponent.EmptyExports | src/inventory-web/src/app/components/reports/reports.component.ts:237-240 | an empty report exports only its header line, the column names joined by commas without quotes |
| ReportsComponent.StockExportLines | src/inventory-web/src/app/components/reports/reports.component.ts:208-215 | each product adds a newline and its line at the end of the stock export, each cell wrapped in double quotes as written |
| ReportsComponent.LowStockExportLines | src/inventory-web/src/app/components/reports/reports.component.ts:217-224 | each product adds a newline and its line at the end of the low-stock export, each cell wrapped in double quotes as written |
| ReportsComponent.MovementExportLines | src/inventory-web/src/app/components/reports/reports.component.ts:226-234 | each movement adds a newline and its line at the end of the movement export, each cell wrapped in double quotes as written |
| ReportsComponent.StockRowsSnoc | src/inventory-web/src/app/components/reports/reports.component.ts:239 | mapping a list with one more product gives one more row at the end |
| ReportsComponent.LowStockRowsSnoc | src/inventory-web/src/app/components/reports/reports.component.ts:239 | mapping a list with one more product gives one more row at the end |
| ReportsComponent.MovementRowsSnoc | src/inventory-web/src/app/components/reports/reports.component.ts:239 | mapping a list with one more movement gives one more row at the end |
| ReportsComponent.ReportsComponent.constructor | src/inventory-web/src/app/components/reports/reports.component.ts:14-37 | the page starts on the stock tab with empty reports, both pagers on the first page of ten rows, and the given date range |
| ReportsComponent.ReportsComponent.GenerateStockReport | src/inventory-web/src/app/components/reports/reports.component.ts:71-72 | the stock report is asked for at the stock pager's page and size |
| ReportsComponent.ReportsComponent.GenerateLowStockReport | src/inventory-web/src/app/components/reports/reports.component.ts:126-127 | the low-stock report is asked for at the low-stock pager's page and size |
| ReportsComponent.ReportsComponent.GenerateMovementReport | src/inventory-web/src/app/components/reports/reports.component.ts:181-183 | the movement report is asked for between the page's two dates |
| ReportsComponent.ReportsComponent.ShowStockReport | src/inventory-web/src/app/components/reports/reports.component.ts:73-88 | the stock answer is shown with its counts (an array as one page) and the stock tab opened; the other reports stay |
| ReportsComponent.ReportsComponent.ShowLowStockReport | src/inventory-web/src/app/components/reports/reports.component.ts:128-143 | the low-stock answer is shown with its counts (an array as one page) and the low-stock tab opened; the other reports stay |
| ReportsComponent.ReportsComponent.ShowMovementReport | src/inventory-web/src/app/components/reports/reports.component.ts:184-189 | the movements are shown newest first, a permutation of the answer, and the movements tab opened |
| ReportsComponent.ReportsComponent.StockGoToPage | src/inventory-web/src/app/components/reports/reports.component.ts:97-102 | a real page of the stock report is taken and asked for; any other changes nothing; the low-stock pager, the page count and the reports shown stay |
| ReportsComponent.ReportsComponent.StockChangePageSize | src/inventory-web/src/app/components/reports/reports.component.ts:104-108 | the first page of the stock report at the new size is asked for; the low-stock pager and the reports shown stay |
| ReportsComponent.ReportsComponent.LowStockGoToPage | src/inventory-web/src/app/components/reports/reports.component.ts:152-157 | a real page of the low-stock report is taken and asked for; any other changes nothing; the stock pager, the page count and the reports shown stay |
| ReportsComponent.ReportsComponent.LowStockChangePageSize | src/inventory-web/src/app/components/reports/reports.component.ts:159-163 | the first page of the low-stock report at the new size is asked for; the stock pager and the reports shown stay |
| ReportsComponent.ReportsComponent.LocaleChanged | src/inventory-web/src/app/components/reports/reports.component.ts:53-62 | a language change asks again for the report of the open tab, and only that one |
| ReportsController.StockReport | src/Inventory.API/Controllers/ReportsController.cs:27-40 | the stock report is paged exactly when both page number and page size are given, and then is the product service's page over the whole table; otherwise it is exactly the product service's GetAll list: every product's DTO, in name order |
| ReportsController.LowStockReport | src/Inventory.API/Controllers/ReportsController.cs:45-72 | the low-stock report is paged exactly when both values are given; a page skips (pageNumber - 1) * pageSize low-stock rows, takes pageSize, echoes the request and counts the whole low-stock list; every row on it is low on stock; without both values the whole low-stock list is returned |
| ReportsController.LowStockPagesCover | src/Inventory.API/Controllers/ReportsController.cs:56-68 | with a positive page size every low-stock row appears on page i / pageSize + 1, which lies within the page count |
| ReportsController.StartOfDay | src/Inventory.API/Controllers/ReportsController.cs:93 | DateTime.Date is the midnight at or before the time, less than a day before it |
| ReportsController.ParsedDate | src/Inventory.API/Controllers/ReportsController.cs:89 | a query date is used exactly when it is non-blank and parses, and then as parsed |
| ReportsController.ToUtc | src/Inventory.API/Controllers/ReportsController.cs:94 | ToUniversalTime subtracts the zone offset, staying within the DateTime range |
| ReportsController.UpperBound | src/Inventory.API/Controllers/ReportsController.cs:105-106 | the end bound is the next local midnight in UTC less one tick, and is missing (the call throws) exactly when there is no next day or the UTC midnight is the first instant |
| ReportsController.MovementHistory | src/Inventory.API/Controllers/ReportsController.cs:77-128 | the report is the 500 response exactly when the end date parses and its bound throws; when both dates parse it is the movements between the two whole-day bounds; otherwise it is every movement |
| ReportsController.StartDateAloneIsIgnored | src/Inventory.API/Controllers/ReportsController.cs:112-120 | a start date without an end date filters nothing |
| ReportsController.BoundsCoverWholeDays | src/Inventory.API/Controllers/ReportsController.cs:89-107 | in a zone with a fixed offset a movement lies within the bounds exactly when its local time falls on a day from the start day to the end day, both included |
| ReportsController.LastDayEndIsServerError | src/Inventory.API/Controllers/ReportsController.cs:105-127 | an end date on the last day of the DateTime range makes AddDays(1) throw, so the report answers 500 |
| DatabaseSeeder.SeedUsers | src/Inventory.Core.Infrastructure/Data/DatabaseSeeder.cs:37-63 | there is one seed account per role (Cashier, Moderator, SuperAdmin), usernames distinct, each active, never logged in, with the digest of the username followed by "123" as its password hash |
| DatabaseSeeder.AccountRow | src/Inventory.Core.Infrastructure/Data/DatabaseSeeder.cs:39-62 | a seed account's row keeps its username and role, is active and stores the digest of its password |
| DatabaseSeeder.SeedUsersLoop | src/Inventory.Core.Infrastructure/Data/DatabaseSeeder.cs:65-72 | the user pass only appends users, leaves the other tables alone, keeps the store's invariants, and on success every seed username is taken |
| DatabaseSeeder.UsernameStaysTaken | src/Inventory.Core.Infrastructure/Data/DatabaseSeeder.cs:65-72 | appending users never frees a taken username |
| DatabaseSeeder.KnownUsersNotReinserted | src/Inventory.Core.Infrastructure/Data/DatabaseSeeder.cs:67-71 | when every seed username is already taken the pass writes nothing |
| DatabaseSeeder.ReseedingUsersChangesNothing | src/Inventory.Core.Infrastructure/Data/DatabaseSeeder.cs:65-72 | running the user pass again after a successful run writes nothing |
| DatabaseSeeder.SeedUsersPass | src/Inventory.Core.Infrastructure/Data/DatabaseSeeder.cs:35-73 | the method's result and new store are those of the user pass over the seed accounts |
| DatabaseSeeder.SeedCategories | src/Inventory.Core.Infrastructure/Data/DatabaseSeeder.cs:77-84 | the five seed categories, in order, with their names |
| DatabaseSeeder.FirstNamed | src/Inventory.Core.Infrastructure/Data/DatabaseSeeder.cs:91 | FirstOrDefault by name: a category found is in the list and has the name; none is found exactly when no category has it |
| DatabaseSeeder.SeedCategoriesLoop | src/Inventory.Core.Infrastructure/Data/DatabaseSeeder.cs:86-103 | the category pass only appends categories, leaves the other tables alone, keeps the store's invariants, and on success returns one category per seed, in seed order, with the seed's name |
| DatabaseSeeder.ExistingCategoriesReused | src/Inventory.Core.Infrastructure/Data/DatabaseSeeder.cs:91-100 | a seed whose name is in the snapshot is answered with that snapshot's category |
| DatabaseSeeder.SeededCategoriesStored | src/Inventory.Core.Infrastructure/Data/DatabaseSeeder.cs:89-101 | every category the pass returns is stored afterwards, when the snapshot came from the same store |
| DatabaseSeeder.KnownCategoriesNotReinserted | src/Inventory.Core.Infrastructure/Data/DatabaseSeeder.cs:91-100 | when every seed name is in the snapshot the pass writes nothing and succeeds |
| DatabaseSeeder.StoredNamesFound | src/Inventory.Core.Infrastructure/Data/DatabaseSeeder.cs:87-91 | a snapshot read after a successful pass finds every seed name |
| DatabaseSeeder.SnapshotStored | src/Inventory.Core.Infrastructure/Data/DatabaseSeeder.cs:87 | every category of the snapshot read by GetAllAsync is stored |
| DatabaseSeeder.ReseedingCategoriesChangesNothing | src/Inventory.Core.Infrastructure/Data/DatabaseSeeder.cs:75-104 | running the category pass again after a successful run succeeds and writes nothing |
| DatabaseSeeder.CategoryStepReuse | src/Inventory.Core.Infrastructure/Data/DatabaseSeeder.cs:98-100 | one step of the pass: a seed found in the snapshot adds that category to the result and writes nothing |
| DatabaseSeeder.CategoryStepInsert | src/Inventory.Core.Infrastructure/Data/DatabaseSeeder.cs:92-96 | one step of the pass: a seed not found is inserted, and a failed insert ends the pass |
| DatabaseSeeder.SeedCategoryStep | src/Inventory.Core.Infrastructure/Data/DatabaseSeeder.cs:89-101 | one turn of the category loop: either the exception that ends the pass, with the pass's final store, or a new store and result list from which the rest of the pass gives the same outcome as the whole pass |
| DatabaseSeeder.SeedCategoriesFrom | src/Inventory.Core.Infrastructure/Data/DatabaseSeeder.cs:86-103 | the loop's result and new store are those of the category pass |
| DatabaseSeeder.SeedCategoriesPass | src/Inventory.Core.Infrastructure/Data/DatabaseSeeder.cs:75-104 | the method's result and new store are those of the category pass over the snapshot and the seed categories |
| DatabaseSeeder.SeedProduct | src/Inventory.Core.Infrastructure/Data/DatabaseSeeder.cs:115-126 | a catalog entry's row keeps its SKU and belongs to the given category |
| DatabaseSeeder.GroupRows | src/Inventory.Core.Infrastructure/Data/DatabaseSeeder.cs:113-127 | a group's rows are its catalog entries in order, each under the group's category |
| DatabaseSeeder.CatalogFor | src/Inventory.Core.Infrastructure/Data/DatabaseSeeder.cs:111-204 | every product built belongs to one of the categories the category pass returned |
| DatabaseSeeder.FirstSkuIgnoringCase | src/Inventory.Core.Infrastructure/Data/DatabaseSeeder.cs:217 | the product found has the SKU ignoring ASCII case and is in the snapshot; none is found exactly when no product has it |
| DatabaseSeeder.FoldedGrows | src/Inventory.Core.Infrastructure/Data/DatabaseSeeder.cs:228 | appending rows only adds to the set of SKUs compared ignoring case |
| DatabaseSeeder.SnapshotSkus | src/Inventory.Core.Infrastructure/Data/DatabaseSeeder.cs:207-208 | the SKU set built from the snapshot GetAllAsync reads is that of the whole table |
| DatabaseSeeder.SeedProductsLoop | src/Inventory.Core.Infrastructure/Data/DatabaseSeeder.cs:206-232 | the product pass only appends products, leaves the other tables alone, keeps the store's invariants, and on success every catalog SKU is stored, ignoring case |
| DatabaseSeeder.SeedProductsKeepsSkusDistinct | src/Inventory.Core.Infrastructure/Data/DatabaseSeeder.cs:214-229 | every product the pass inserts differs, ignoring case, in SKU from every row before it |
| DatabaseSeeder.KnownProductsNotReinserted | src/Inventory.Core.Infrastructure/Data/DatabaseSeeder.cs:214-222 | when every catalog SKU is already in the set the pass writes nothing and succeeds |
| DatabaseSeeder.ReseedingProductsChangesNothing | src/Inventory.Core.Infrastructure/Data/DatabaseSeeder.cs:206-232 | running the product pass again after a successful run writes nothing |
| DatabaseSeeder.ProductStepKnown | src/Inventory.Core.Infrastructure/Data/DatabaseSeeder.cs:214-222 | one step of the pass: a known SKU adds the snapshot's product when there is one, and writes nothing |
| DatabaseSeeder.ProductStepInsert | src/Inventory.Core.Infrastructure/Data/DatabaseSeeder.cs:223-229 | one step of the pass: an unknown SKU is inserted and joins the set, and a failed insert ends the pass |
| DatabaseSeeder.SeedProductStep | src/Inventory.Core.Infrastructure/Data/DatabaseSeeder.cs:212-229 | one turn of the product loop: either the exception that ends the pass, with the pass's final store, or a new store, SKU set and result list from which the rest of the pass gives the same outcome as the whole pass |
| DatabaseSeeder.SeedProductsFrom | src/Inventory.Core.Infrastructure/Data/DatabaseSeeder.cs:211-230 | the loop's result and new store are those of the product pass |
| DatabaseSeeder.SeedProductsPass | src/Inventory.Core.Infrastructure/Data/DatabaseSeeder.cs:106-233 | the method's result and new store are those of the product pass over the snapshot, its SKU set and the catalog |
| DatabaseSeeder.SeededQuantity | src/Inventory.Core.Infrastructure/Data/DatabaseSeeder.cs:305-311 | an Add records the drawn quantity, positive; a Remove its negation, negative |
| DatabaseSeeder.SeededMovement | src/Inventory.Core.Infrastructure/Data/DatabaseSeeder.cs:287-322 | a seeded movement belongs to its product, has the drawn type, a positive Add and a negative Remove, a time stamp within the 90 days before now, a seed user and a reason |
| DatabaseSeeder.ProductMovements | src/Inventory.Core.Infrastructure/Data/DatabaseSeeder.cs:285-325 | one movement per draw, in order |
| DatabaseSeeder.Planned | src/Inventory.Core.Infrastructure/Data/DatabaseSeeder.cs:277-326 | two to five movements per product, each for a listed product, Add positive, Remove negative, all within the last 90 days |
| DatabaseSeeder.BuildMovements | src/Inventory.Core.Infrastructure/Data/DatabaseSeeder.cs:277-326 | the nested loops build exactly the planned movements |
| DatabaseSeeder.AppendLoop | src/Inventory.Core.Infrastructure/Data/DatabaseSeeder.cs:328-332 | appending only adds movements, keeps the store's invariants, and on success adds one per planned movement |
| DatabaseSeeder.AppendAll | src/Inventory.Core.Infrastructure/Data/DatabaseSeeder.cs:328-332 | the loop's result and new store are those of appending in order |
| DatabaseSeeder.SeedMovements | src/Inventory.Core.Infrastructure/Data/DatabaseSeeder.cs:235-333 | a non-empty movement log is left as it is; otherwise at least two movements per product are appended on success, and no other table changes |
| DatabaseSeeder.ReseedingMovementsChangesNothing | src/Inventory.Core.Infrastructure/Data/DatabaseSeeder.cs:239-244 | seeding movements again after a successful run for at least one product writes nothing |
| DatabaseSeeder.SeedMovementsPass | src/Inventory.Core.Infrastructure/Data/DatabaseSeeder.cs:235-333 | the method's result and new store are those of the movement pass |
| DatabaseSeeder.SeedAll | src/Inventory.Core.Infrastructure/Data/DatabaseSeeder.cs:14-33 | seeding never removes or rewrites a row: every table after it extends the table before, and the store's invariants hold |
| DatabaseSeeder.Seed | src/Inventory.Core.Infrastructure/Data/DatabaseSeeder.cs:14-33 | the method's result and new store are those of the four passes in order, stopping at the first failure |
| Csv.QuotedAsWritten | src/inventory-web/src/app/components/reports/reports.component.ts:239 | the export as written wraps a cell in double quotes and leaves its text as it is |
| Csv.ContentLines | src/inventory-web/src/app/components/reports/reports.component.ts:237-240 | the export is the header line, then one line per row joined by '\n', each line the row's cells wrapped in double quotes as written (inner quotes not doubled) and joined by commas |
| Csv.Escape | src/inventory-web/src/app/components/reports/reports.component.ts:239 | escaping never shortens a cell and leaves a cell without quotes as it is |
| Csv.Quoted | src/inventory-web/src/app/components/reports/reports.component.ts:239 | the intended quoting (inner quotes doubled): a quoted cell starts and ends with a double quote |
| Csv.ReadEscaped | src/inventory-web/src/app/components/reports/reports.component.ts:239 | a reader of quoted fields reads an escaped cell followed by its closing quote back as the cell |
| Csv.ReadPlainPrefix | src/inventory-web/src/app/components/reports/reports.component.ts:239 | a reader of quoted fields passes text without quotes through unchanged |
| Csv.QuotedRoundTrip | src/inventory-web/src/app/components/reports/reports.component.ts:239 | with the intended quoting every cell reads back as itself |
| Csv.AsWrittenWithoutQuotes | src/inventory-web/src/app/components/reports/reports.component.ts:239 | on a cell without quotes the export as written is the corrected quoting, and reads back as the cell |
| Csv.LineAgreesWithoutQuotes | src/inventory-web/src/app/components/reports/reports.component.ts:239 | on cells without quotes a line as written equals the corrected line |
| Csv.QuoteInCellBreaksTheField | src/inventory-web/src/app/components/reports/reports.component.ts:239 | a product name holding a quote does not read back once quoted as written, and does once its quote is doubled |
| DateUtils.DateInputAsWritten | src/inventory-web/src/app/utils/date-utils.ts:17-19 | a string that looks zoned to utcToLocalDate (a 'Z', a '+', or a '-' in more than 19 characters) is kept, any other gets a 'Z' |
| DateUtils.DateInputAsWrittenIdempotent | src/inventory-web/src/app/utils/date-utils.ts:17-19 | the 'Z' is appended at most once: the result handed over again is unchanged |
| DateUtils.UtcToLocalDate | src/inventory-web/src/app/utils/date-utils.ts:10-22 | null, undefined and '' give null, any other string the Date of the form the written zone test gives it (kept when it holds a 'Z', a '+', or a '-' past 19 characters, otherwise with a 'Z' appended) |
| DateUtils.UtcToLocalDateAsIntended | src/inventory-web/src/app/utils/date-utils.ts:17-21 | on every string holding a 'Z' and on every string without a sign, utcToLocalDate parses what the intended zone test would give |
| DateUtils.DateInput | src/inventory-web/src/app/utils/date-utils.ts:17-19 | the intended zone test: the zoned form names a zone; a string with a zone is kept, any other gets a 'Z' |
| DateUtils.DateInputIdempotent | src/inventory-web/src/app/utils/date-utils.ts:17-19 | zoning a zoned string changes nothing |
| DateUtils.FractionalSecondsStayZoneless | src/inventory-web/src/app/utils/date-utils.ts:17 | a zone-less time with fractional seconds is kept without a zone by the written test and so read as local time, while the same time without fractions gets its 'Z'; the intended test gives it a 'Z' |
| DateUtils.AgreeOnZuluStrings | src/inventory-web/src/app/utils/date-utils.ts:17-19 | on a string holding a 'Z' the written and the intended test both keep it |
| DateUtils.FormatOptions | src/inventory-web/src/app/utils/date-utils.ts:37-45 | year and day are numeric and the clock 12-hour; the month is a short name exactly when the format says 'short'; hour and minute are shown exactly for 'time' or 'short'; seconds exactly for 'time' |
| DateUtils.ShortFormat | src/inventory-web/src/app/utils/date-utils.ts:30-45 | the default 'short' format shows a short month name and the time to the minute |
| DateUtils.FormatLocalDate | src/inventory-web/src/app/utils/date-utils.ts:30-48 | a missing or empty string formats as '', any other as the Date of its form under the written zone test, formatted with the format's options |
| DateUtils.EmptyOnlyWithoutDate | src/inventory-web/src/app/utils/date-utils.ts:31-34 | with a formatter that never answers '', the result is '' exactly for a missing or empty string |
| LocalDatePipe.LocaleString | src/inventory-web/src/app/pipes/local-date.pipe.ts:43 | Arabic formats as ar-SA and every other language as en-US |
| LocalDatePipe.Normalise | src/inventory-web/src/app/pipes/local-date.pipe.ts:51-69 | the string parsed names a zone, and is the value with its first space turned into 'T', given a 'Z' when it had no zone |
| LocalDatePipe.ZonedStringsKept | src/inventory-web/src/app/pipes/local-date.pipe.ts:54-59 | a value with a zone and no space is parsed as it came |
| LocalDatePipe.AgreesWithUtcToLocalDate | src/inventory-web/src/app/pipes/local-date.pipe.ts:51-69 | on a value without spaces the pipe zones the string as utcToLocalDate's intended test does, and on one holding a 'Z' as its written test does |
| LocalDatePipe.FirstSpaceOnly | src/inventory-web/src/app/pipes/local-date.pipe.ts:51 | only the first space becomes 'T'; the rest of the value is kept and at most a 'Z' follows |
| LocalDatePipe.SpaceSeparatedValue | src/inventory-web/src/app/pipes/local-date.pipe.ts:51-67 | a database-style value "2024-01-01 12:00:00" becomes the UTC time "2024-01-01T12:00:00Z" |
| LocalDatePipe.Transform | src/inventory-web/src/app/pipes/local-date.pipe.ts:36-87 | null for a missing or empty value or an invalid date; otherwise the date formatted in the language's locale, or in en-US when that throws; a failure of the fallback reaches the caller |
| LocalDatePipe.EnglishHasNoFallback | src/inventory-web/src/app/pipes/local-date.pipe.ts:78-86 | in English a date that fails to format fails the pipe, since the fallback repeats the same locale |
| LocalDatePipe.LocalDatePipe.constructor | src/inventory-web/src/app/pipes/local-date.pipe.ts:19-23 | the pipe starts with the formatting locale of the current language |
| LocalDatePipe.LocalDatePipe.LocaleChanged | src/inventory-web/src/app/pipes/local-date.pipe.ts:25-27 | after a locale announcement the pipe keeps that language's formatting locale, ar-SA or en-US |

## Left out

- Integer widths: page numbers, page sizes, offsets, ids and quantities are unbounded integers, and C#'s 32-bit `int` also wraps in places the main model does not follow. AddStock's `Quantity +=` is modelled both ways (see Findings). The JavaScript numbers of the web client are integers here.
- ProductRepository.GetPaged: the offset `(pageNumber - 1) * pageSize` is computed in unchecked 32-bit arithmetic at src/Inventory.Core.Infrastructure/Repositories/ProductRepository.cs:57, and the model computes it unbounded. With pageNumber 50000 and pageSize 50000 the source's offset wraps to a negative number and it returns the first page; the model returns an empty page.
- MovementRepository.GetPaged: the same unchecked offset at src/Inventory.Core.Infrastructure/Repositories/StockMovementRepository.cs:43 is computed unbounded.
- ReportsController.LowStockReport: the same unchecked offset at src/Inventory.API/Controllers/ReportsController.cs:59 is computed unbounded.
- Floating point: `(int)Math.Ceiling(n / (double)d)` in PagedResultDto is modelled as integer ceiling division, which gives the same value for a positive page size over the int range. Prices and costs are C# `decimal` values, which the core only copies and compares with 0, so exact reals model them.
- Paging.CeilDiv, Paging.PagedResult.TotalPages, Paging.PagedResult.HasNextPage: a page size of 0 or below is not modelled; these members require a positive size. The controllers pass the query's page size through unchecked (src/Inventory.API/Controllers/ProductsController.cs:27-33, src/Inventory.API/Controllers/ReportsController.cs:29-67), and PagedResultDto.cs:12-14 then divides by it: 0 gives an infinite or NaN quotient, whose conversion to int depends on the platform, and a negative size gives a page count of 0 or below.
- Domain.MovementTypeOf, Domain.UserRoleOf: out-of-range enum values are not represented. A C# enum holds any int, so the API can bind a numeric JSON role such as 7 with no IsInEnum rule, store it through the int conversion at src/Inventory.Core.Infrastructure/Data/InventoryDbContext.cs:78, and render it as "7" in the JWT role claim and the DTO. The model's MovementType and UserRole hold only the three named values, and MovementTypeOf and UserRoleOf give None for any other number.
- DatabaseSeeder.FirstSkuIgnoringCase: StringComparer.OrdinalIgnoreCase at src/Inventory.Core.Infrastructure/Data/DatabaseSeeder.cs:208,217 also folds non-ASCII letters, and the model folds ASCII letters only (Text.ToLower). Every seeded SKU is ASCII, so the seeded catalog gives the same result either way.
- SQLite's `lower()` and the web `toLowerCase()` are both modelled as ASCII-only case folding. The web fold is full Unicode, and the two differ only outside ASCII.
- ProductRepository.Search: `searchTerm.ToLower()` at src/Inventory.Core.Infrastructure/Repositories/ProductRepository.cs:84 folds case by the current culture (the Turkish dotted and dotless i, for instance), and the model folds ASCII letters only.
- ProductService.Search: the term it hands on is folded as in ProductRepository.Search, ASCII only.
- Entity Framework navigation properties, change tracking and lazy loading are not modelled. A tracked entity's field update is a replacement of its table row, and a category's products are computed from the product table.
- Concurrency: each request runs alone against the store, and the async/await structure and cancellation tokens are dropped.
- src/Inventory.Core.Infrastructure/Repositories/UserRepository.cs is not part of this model. The user lookups the services make are modelled from IUserRepository's contract: by id, by exact username and by exact e-mail.
- UserService.GetById, GetByUsername, GetAll and GetPaged are not modelled. They only map rows from that repository.
- Clock: every `DateTime.UtcNow` read within one operation is the single parameter `now`.
- The 500 response of the movement history carries `ex.Message`. The model keeps only the fixed message, since the exception text comes from .NET.
- DatabaseSeeder: `new Random(42)` is modelled as the draws `random(k)` for the k-th product, each in the range its `Next` call gives. The exact sequence the generator yields is not modelled, and neither is the out-of-range exception `AddDays` could raise near the end of the calendar.
- Web translation: `Object.keys` order of the parameter object is the order of the list passed in. `String.prototype.replace`'s special `$` patterns in replacement text and keys inherited from Object.prototype are not modelled. The contents of both clients' translation tables are parameters.
- RoleCodecs.ReadersDifferOnNull: System.Text.Json never calls either converter's Read on a JSON null, because neither overrides HandleNull, so the difference it states is between the two method bodies and not between what the two clients deserialise.
- Sorting: OrderBy and Array.prototype.sort are specified up to ties, so their stability is not modelled. Invalid dates, whose getTime() is NaN, do not occur, because a time stamp is an integer tick count.
- CSV export: the Blob, the object URL and the download link are browser I/O and are left out. The model stops at the text.
- The four web components each keep their own copy of the pagination fields and getPageNumbers. The model gives each component one `Pager` object with that code.
- HTTP: a web component's calls to the API are recorded in order in its `requests` field. The answers arrive through the component's Show/Saved methods. Error alerts and console logging are not modelled.
- Angular's DatePipe, the browser's `toLocaleString`/Intl formatting and `new Date(string)` are parameters.
- ngOnInit, ngOnDestroy and the rxjs subscriptions are not modelled. A locale announcement is a method call (`LocaleChanged`).
- JWT signing and validation, SHA-256 and Base64 are parameters. The token's claims and expiry are passed to the signer as given.
- UsersComponent: the form keeps the role as its name and sends it as a string. The API reads UserRole as its number, and the API registers no string-enum converter, so the role the server reads is left as a parameter (EditKeepsPasswordHash).
- UsersComponent.loadUsers: the list response is not modelled, and neither are deleteUser, isSuperAdmin or their confirm dialogs.
- ProductsComponent: addProduct, editProduct, showLowStock, deleteProduct and loadCategories are not modelled. They only open forms, call the API or ask for confirmation.

## Findings

For the first four rows the model follows the line as written, and the corrected member beside it states what the line evidently intends. AddStock's main model (StockService.Apply) keeps the unbounded sum of the last row; AddedQuantityAsWritten, with AddStockWrapsAround, states the 32-bit sum as written beside it.

| source | as written | input that shows it | evidently intended | confidence | as-written member | corrected member |
|---|---|---|---|---|---|---|
| src/inventory-web/src/app/utils/date-utils.ts:17 | a string containing '-' and longer than 19 characters counts as zoned, and every ISO date contains '-' | "2024-01-01T12:00:00.123" is not given a 'Z' and is parsed as local time | a string without a 'Z' or a trailing offset is UTC and gets a 'Z', as the localDate pipe does | high, not executed | DateUtils.FractionalSecondsStayZoneless | DateUtils.DateInput |
| src/inventory-web/src/app/components/reports/reports.component.ts:239 | each cell is wrapped in quotes without doubling the quotes inside it | a product named `Monitor 27" 4K` gives a field that ends early | quotes inside a cell are doubled, as section 2 of RFC 4180 asks | high, not executed | Csv.QuoteInCellBreaksTheField | Csv.QuotedRoundTrip |
| src/Inventory.Core.Application/Services/ProductService.cs:91-103 | a blank barcode skips the uniqueness check but is stored as given, non-null | a second product with barcode "" passes the validator and the uniqueness test, then violates the unique barcode index, so the insert throws DbUpdateException | a blank barcode is stored as none, so the filtered index ignores it | medium, not executed | ProductService.BlankBarcodeSlipsPastGuard | ProductService.CreateWithCheckedKeysSucceeds |
| src/Inventory.Core.Application/Validators/CreateProductDtoValidator.cs:20 | `^[A-Za-z0-9\-_]+$`, where .NET's `$` also matches before a final newline | the SKU "AB-1\n" is accepted, and so is the username "abc\n" | only letters, digits, '-' and '_' are accepted | high, not executed | Validators.SkuPatternAcceptsTrailingNewline | Validators.StrictPatternIsCharset |
| src/Inventory.Core.Application/Services/StockService.cs:56 | `product.Quantity += dto.Quantity` in unchecked 32-bit arithmetic | adding 2147483600 to a stock of 100 leaves a negative quantity | adding stock raises the quantity | medium, not executed | StockService.AddStockWrapsAround | StockService.ApplyOutcome |
