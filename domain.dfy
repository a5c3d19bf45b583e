/** The entities of the inventory domain and their enums. Entities are values
    here; the database (module Persistence) holds them in tables, and an
    in-place field update of a tracked entity is a replacement of its row. */
module Domain {
  import opened Wrappers

  /** A C# `decimal` price or cost. The core only copies these and compares
      them with 0, so exact reals model them faithfully. */
  type Money = real

  /** A DateTime, as a count of 100-nanosecond ticks. */
  type Instant = int

  const TicksPerDay: int := 864_000_000_000
  const TicksPerHour: int := 36_000_000_000
  /** DateTime.MaxValue.Ticks (9999-12-31 23:59:59.9999999). */
  const MaxTicks: int := 3_155_378_975_999_999_999

  /** StockMovementType: Add = 1, Remove = 2, Adjustment = 3. */
  datatype MovementType = Add | Remove | Adjustment {
    function Value(): (v: int)
      ensures 1 <= v <= 3
    {
      match this
      case Add => 1
      case Remove => 2
      case Adjustment => 3
    }

    /** Enum.ToString() of a defined value. */
    function Name(): string {
      match this
      case Add => "Add"
      case Remove => "Remove"
      case Adjustment => "Adjustment"
    }
  }

  /** UserRole: Cashier = 1, Moderator = 2, SuperAdmin = 3. */
  datatype UserRole = Cashier | Moderator | SuperAdmin {
    function Value(): (v: int)
      ensures 1 <= v <= 3
    {
      match this
      case Cashier => 1
      case Moderator => 2
      case SuperAdmin => 3
    }

    function Name(): string {
      match this
      case Cashier => "Cashier"
      case Moderator => "Moderator"
      case SuperAdmin => "SuperAdmin"
    }
  }

  /** The enum value with a given number, if it is defined. */
  function MovementTypeOf(v: int): (r: Option<MovementType>)
    ensures r.Some? <==> 1 <= v <= 3
    ensures r.Some? ==> r.value.Value() == v
  {
    if v == 1 then Some(Add) else if v == 2 then Some(Remove)
    else if v == 3 then Some(Adjustment) else None
  }

  function UserRoleOf(v: int): (r: Option<UserRole>)
    ensures r.Some? <==> 1 <= v <= 3
    ensures r.Some? ==> r.value.Value() == v
  {
    if v == 1 then Some(Cashier) else if v == 2 then Some(Moderator)
    else if v == 3 then Some(SuperAdmin) else None
  }

  /** The names of the enum values are distinct, so a name identifies its value. */
  lemma RoleNamesDistinct(a: UserRole, b: UserRole)
    ensures a.Name() == b.Name() <==> a == b
  {
  }

  /** A product row. Its category and its movements are navigations over the
      other tables (categoryId, and the movements whose productId is `id`). */
  datatype Product = Product(
    id: int,
    name: string,
    description: Option<string>,
    sku: string,
    barcode: Option<string>,
    price: Money,
    cost: Money,
    quantity: int,
    minimumStockLevel: int,
    categoryId: Option<int>,
    createdAt: Instant,
    updatedAt: Instant)
  {
    /** The product is at or below its reorder threshold. */
    predicate IsLowStock() {
      quantity <= minimumStockLevel
    }
  }

  /** `new Product()` at time `now`: empty name and SKU, no description, no
      barcode, no category, zero amounts. */
  function NewProduct(now: Instant): (p: Product)
    ensures p.name == "" && p.sku == "" && p.categoryId.None?
    ensures p.barcode.None? && p.description.None?
    ensures p.quantity == 0 && p.minimumStockLevel == 0
    ensures p.createdAt == now && p.updatedAt == now
  {
    Product(0, "", None, "", None, 0.0, 0.0, 0, 0, None, now, now)
  }

  /** Low stock is exactly "quantity at or below the minimum level"; in
      particular a quantity equal to the minimum counts as low. */
  lemma LowStockAtThreshold(p: Product)
    ensures p.quantity == p.minimumStockLevel ==> p.IsLowStock()
    ensures p.quantity == p.minimumStockLevel + 1 ==> !p.IsLowStock()
  {
  }

  /** IsLowStock reads only Quantity and MinimumStockLevel. */
  lemma LowStockIgnoresOtherFields(p: Product, q: Product)
    requires p.quantity == q.quantity && p.minimumStockLevel == q.minimumStockLevel
    ensures p.IsLowStock() == q.IsLowStock()
  {
  }

  datatype Category = Category(
    id: int,
    name: string,
    description: Option<string>,
    createdAt: Instant)

  /** One entry of the stock ledger. `quantity` is signed: positive for Add,
      negative for Remove, either sign (or zero) for Adjustment. */
  datatype StockMovement = StockMovement(
    id: int,
    productId: int,
    movementType: MovementType,
    quantity: int,
    reason: Option<string>,
    notes: Option<string>,
    createdBy: Option<string>,
    createdAt: Instant)

  datatype User = User(
    id: int,
    username: string,
    email: string,
    passwordHash: string,
    role: UserRole,
    isActive: bool,
    lastLoginDate: Option<Instant>,
    createdAt: Instant,
    updatedAt: Instant)
}
