/** The exceptions the services throw, with their messages. */
module Errors {
  import opened Text

  /** The .NET exception type a failure is raised as. */
  datatype ExceptionKind =
    | ArgumentException
    | KeyNotFoundException
    | InvalidOperationException
    | UnauthorizedAccessException
    | DbUpdateException

  datatype Error =
    | QuantityNotPositive
    | NegativeAdjustment
    | NotFound(entity: string, id: int)
    | InsufficientStock(available: int, requested: int)
    | DuplicateSku(sku: string)
    | DuplicateBarcode(barcode: string)
    | CategoryHasProducts(categoryName: string)
    | DuplicateUsername(username: string)
    | DuplicateEmail(email: string)
    | MissingJwtKey
    | InvalidCredentials
    /** A unique index or foreign key of the database refused the change. */
    | DbUpdate(constraint: string)
  {
    function Kind(): ExceptionKind {
      match this
      case QuantityNotPositive | NegativeAdjustment => ArgumentException
      case NotFound(_, _) => KeyNotFoundException
      case InvalidCredentials => UnauthorizedAccessException
      case DbUpdate(_) => DbUpdateException
      case _ => InvalidOperationException
    }

    function Message(): string {
      match this
      case QuantityNotPositive => "Quantity must be greater than zero."
      case NegativeAdjustment => "Quantity cannot be negative for adjustment. Use absolute value."
      case NotFound(entity, id) => entity + " with ID " + IntToString(id) + " not found."
      case InsufficientStock(available, requested) =>
        "Insufficient stock. Available: " + IntToString(available) + ", Requested: " + IntToString(requested)
      case DuplicateSku(sku) => "Product with SKU '" + sku + "' already exists."
      case DuplicateBarcode(barcode) => "Product with barcode '" + barcode + "' already exists."
      case CategoryHasProducts(name) =>
        "Cannot delete category '" + name + "' because it has associated products."
      case DuplicateUsername(username) => "Username '" + username + "' already exists."
      case DuplicateEmail(email) => "Email '" + email + "' already exists."
      case MissingJwtKey =>
        "JWT Key is required. Please configure 'Jwt:Key' in appsettings.json or environment variables."
      case InvalidCredentials => "Invalid username or password"
      case DbUpdate(constraint) => constraint
    }
  }
}
