/** The fixed rows DatabaseSeeder writes: three accounts, five categories,
    ten products per category, and the texts its seeded movements draw from. */
module SeedData {
  import opened Wrappers
  import opened Domain

  /** A seed account: its username, e-mail, plain password and role. */
  datatype AccountSeed = AccountSeed(username: string, email: string, password: string, role: UserRole)

  const Accounts: seq<AccountSeed> := [
    AccountSeed("admin", "admin@inventory.com", "admin123", SuperAdmin),
    AccountSeed("moderator", "moderator@inventory.com", "moderator123", Moderator),
    AccountSeed("cashier", "cashier@inventory.com", "cashier123", Cashier)
  ]

  /** A seed category: its name and description. */
  datatype CategorySeed = CategorySeed(name: string, description: string)

  const Categories: seq<CategorySeed> := [
    CategorySeed("Electronics", "Electronic devices and components"),
    CategorySeed("Clothing", "Apparel and fashion items"),
    CategorySeed("Food & Beverages", "Food products and drinks"),
    CategorySeed("Home & Garden", "Home improvement and garden supplies"),
    CategorySeed("Sports & Outdoors", "Sports equipment and outdoor gear")
  ]

  /** A seed product, before its category id is known. */
  datatype ProductSeed = ProductSeed(
    name: string, sku: string, barcode: string, price: Money, cost: Money,
    quantity: int, minimumStockLevel: int)

  /** The products seeded under the category with the given name. */
  datatype CatalogGroup = CatalogGroup(categoryName: string, items: seq<ProductSeed>)

  const Catalog: seq<CatalogGroup> := [
      CatalogGroup("Electronics", [
        ProductSeed("Laptop Pro 15", "ELEC-001", "1234567890123", 1299.99, 800.00, 25, 10),
        ProductSeed("Wireless Mouse", "ELEC-002", "1234567890124", 29.99, 12.00, 150, 50),
        ProductSeed("Mechanical Keyboard", "ELEC-003", "1234567890125", 89.99, 45.00, 75, 20),
        ProductSeed("USB-C Hub", "ELEC-004", "1234567890126", 49.99, 20.00, 100, 30),
        ProductSeed("Monitor 27\" 4K", "ELEC-005", "1234567890127", 399.99, 250.00, 40, 15),
        ProductSeed("Webcam HD", "ELEC-006", "1234567890128", 79.99, 35.00, 60, 20),
        ProductSeed("Bluetooth Speaker", "ELEC-007", "1234567890129", 59.99, 25.00, 90, 30),
        ProductSeed("Tablet Stand", "ELEC-008", "1234567890130", 24.99, 10.00, 120, 40),
        ProductSeed("Power Bank 20000mAh", "ELEC-009", "1234567890131", 39.99, 18.00, 80, 25),
        ProductSeed("USB Flash Drive 64GB", "ELEC-010", "1234567890132", 12.99, 6.00, 200, 50)
      ]),
      CatalogGroup("Clothing", [
        ProductSeed("Cotton T-Shirt", "CLTH-001", "2234567890123", 19.99, 8.00, 300, 100),
        ProductSeed("Denim Jeans", "CLTH-002", "2234567890124", 49.99, 25.00, 150, 50),
        ProductSeed("Hoodie", "CLTH-003", "2234567890125", 39.99, 18.00, 120, 40),
        ProductSeed("Running Shoes", "CLTH-004", "2234567890126", 79.99, 40.00, 80, 25),
        ProductSeed("Baseball Cap", "CLTH-005", "2234567890127", 14.99, 6.00, 200, 60),
        ProductSeed("Winter Jacket", "CLTH-006", "2234567890128", 99.99, 50.00, 60, 20),
        ProductSeed("Socks Pack (6)", "CLTH-007", "2234567890129", 12.99, 5.00, 400, 100),
        ProductSeed("Leather Belt", "CLTH-008", "2234567890130", 24.99, 10.00, 100, 30),
        ProductSeed("Backpack", "CLTH-009", "2234567890131", 34.99, 15.00, 90, 30),
        ProductSeed("Sunglasses", "CLTH-010", "2234567890132", 29.99, 12.00, 150, 50)
      ]),
      CatalogGroup("Food & Beverages", [
        ProductSeed("Bottled Water 500ml", "FOOD-001", "3234567890123", 1.99, 0.50, 1000, 300),
        ProductSeed("Energy Drink", "FOOD-002", "3234567890124", 2.99, 1.20, 500, 150),
        ProductSeed("Chocolate Bar", "FOOD-003", "3234567890125", 3.49, 1.50, 600, 200),
        ProductSeed("Potato Chips", "FOOD-004", "3234567890126", 4.99, 2.00, 400, 120),
        ProductSeed("Coffee Beans 500g", "FOOD-005", "3234567890127", 12.99, 6.00, 200, 60),
        ProductSeed("Tea Bags (50)", "FOOD-006", "3234567890128", 5.99, 2.50, 300, 100),
        ProductSeed("Cereal Box", "FOOD-007", "3234567890129", 6.99, 3.00, 250, 80),
        ProductSeed("Canned Soup", "FOOD-008", "3234567890130", 3.99, 1.50, 350, 100),
        ProductSeed("Pasta 500g", "FOOD-009", "3234567890131", 2.49, 1.00, 500, 150),
        ProductSeed("Olive Oil 500ml", "FOOD-010", "3234567890132", 8.99, 4.00, 180, 50)
      ]),
      CatalogGroup("Home & Garden", [
        ProductSeed("Garden Shovel", "HOME-001", "4234567890123", 24.99, 12.00, 50, 15),
        ProductSeed("Plant Pot 10\"", "HOME-002", "4234567890124", 9.99, 4.00, 200, 60),
        ProductSeed("Garden Hose 50ft", "HOME-003", "4234567890125", 34.99, 18.00, 80, 25),
        ProductSeed("LED Light Bulb", "HOME-004", "4234567890126", 6.99, 3.00, 300, 100),
        ProductSeed("Tool Set", "HOME-005", "4234567890127", 49.99, 25.00, 60, 20),
        ProductSeed("Paint Brush Set", "HOME-006", "4234567890128", 14.99, 7.00, 100, 30),
        ProductSeed("Extension Cord 25ft", "HOME-007", "4234567890129", 19.99, 9.00, 120, 40),
        ProductSeed("Storage Box Large", "HOME-008", "4234567890130", 16.99, 8.00, 90, 30),
        ProductSeed("Garden Gloves", "HOME-009", "4234567890131", 8.99, 4.00, 150, 50),
        ProductSeed("Watering Can", "HOME-010", "4234567890132", 12.99, 6.00, 110, 35)
      ]),
      CatalogGroup("Sports & Outdoors", [
        ProductSeed("Basketball", "SPRT-001", "5234567890123", 29.99, 15.00, 70, 25),
        ProductSeed("Yoga Mat", "SPRT-002", "5234567890124", 24.99, 12.00, 100, 30),
        ProductSeed("Dumbbells 10lb", "SPRT-003", "5234567890125", 34.99, 18.00, 60, 20),
        ProductSeed("Tennis Racket", "SPRT-004", "5234567890126", 79.99, 40.00, 40, 15),
        ProductSeed("Camping Tent 4-Person", "SPRT-005", "5234567890127", 149.99, 80.00, 25, 10),
        ProductSeed("Hiking Backpack", "SPRT-006", "5234567890128", 89.99, 45.00, 45, 15),
        ProductSeed("Fishing Rod", "SPRT-007", "5234567890129", 59.99, 30.00, 50, 20),
        ProductSeed("Bicycle Helmet", "SPRT-008", "5234567890130", 39.99, 20.00, 80, 25),
        ProductSeed("Jump Rope", "SPRT-009", "5234567890131", 12.99, 6.00, 130, 40),
        ProductSeed("Resistance Bands Set", "SPRT-010", "5234567890132", 19.99, 10.00, 95, 30)
      ])
  ]

  /** The names recorded as a seeded movement's CreatedBy. */
  const MovementUsers: seq<string> := ["admin", "moderator", "cashier"]

  const Reasons: seq<string> := [
    "Initial stock",
    "Restock from supplier",
    "Customer return",
    "Inventory adjustment",
    "Damaged goods removal",
    "Promotional restock",
    "End of season clearance",
    "Quality control check",
    "Bulk order received",
    "Stock correction"
  ]

  const Notes: seq<Option<string>> := [
    Some("Received from main supplier"),
    Some("Verified and counted"),
    Some("Damaged items removed"),
    Some("Seasonal restock"),
    Some("Quality inspection passed"),
    None,
    Some("Bulk discount applied"),
    Some("Inventory audit correction"),
    None,
    Some("Customer return processed")
  ]
}
