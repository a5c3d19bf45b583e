/** The data-transfer objects the services accept and return. A C# `string?`
    is an Option<string>, an `int?` an Option<int>. */
module Dtos {
  import opened Wrappers
  import opened Domain

  datatype CreateProductDto = CreateProductDto(
    name: string,
    description: Option<string>,
    sku: string,
    barcode: Option<string>,
    price: Money,
    cost: Money,
    initialQuantity: int,
    minimumStockLevel: int,
    categoryId: Option<int>)

  datatype UpdateProductDto = UpdateProductDto(
    id: int,
    name: string,
    description: Option<string>,
    sku: string,
    barcode: Option<string>,
    price: Money,
    cost: Money,
    /** When present, overwrites the stock quantity directly. */
    quantity: Option<int>,
    minimumStockLevel: int,
    categoryId: Option<int>)

  datatype ProductDto = ProductDto(
    id: int,
    name: string,
    description: Option<string>,
    sku: string,
    barcode: Option<string>,
    price: Money,
    cost: Money,
    quantity: int,
    minimumStockLevel: int,
    categoryId: Option<int>,
    categoryName: Option<string>,
    isLowStock: bool,
    createdAt: Instant,
    updatedAt: Instant)

  datatype CategoryDto = CategoryDto(
    id: int,
    name: string,
    description: Option<string>,
    productCount: int,
    createdAt: Instant)

  datatype StockMovementRequestDto = StockMovementRequestDto(
    productId: int,
    movementType: MovementType,
    quantity: int,
    reason: Option<string>,
    notes: Option<string>,
    createdBy: Option<string>)

  datatype StockMovementDto = StockMovementDto(
    id: int,
    productId: int,
    productName: string,
    productSku: string,
    movementType: MovementType,
    movementTypeName: string,
    quantity: int,
    reason: Option<string>,
    notes: Option<string>,
    createdBy: Option<string>,
    createdAt: Instant)

  datatype CreateUserDto = CreateUserDto(
    username: string,
    email: string,
    password: string,
    role: UserRole,
    isActive: bool)

  datatype UpdateUserDto = UpdateUserDto(
    id: int,
    username: string,
    email: string,
    /** Only replaces the stored hash when non-blank. */
    password: Option<string>,
    role: UserRole,
    isActive: bool)

  /** A user as the API returns it; there is no password or hash field. */
  datatype UserDto = UserDto(
    id: int,
    username: string,
    email: string,
    role: UserRole,
    isActive: bool,
    lastLoginDate: Option<Instant>,
    createdAt: Instant,
    updatedAt: Instant)

  datatype LoginDto = LoginDto(username: string, password: string)

  datatype AuthResponseDto = AuthResponseDto(
    userId: int,
    username: string,
    email: string,
    role: UserRole,
    token: string)
}
