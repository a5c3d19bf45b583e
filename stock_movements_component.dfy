/** The web stock-movements page: page navigation, the movement form's
    guard, the endpoint it dispatches to, the user recorded as the author,
    and the form reset after a success. Requests sent to the API are
    recorded in `requests`. */
module StockMovementsComponent {
  import opened Wrappers
  import opened Dtos
  import opened PageWindow
  import opened WebLists
  import opened WebAuth

  /** The body of a movement request; the type is the form's number. */
  datatype MovementBody = MovementBody(productId: int, movementType: int, quantity: int,
                                       reason: string, notes: string, createdBy: string)

  datatype Request =
    | LoadMovements(pageNumber: int, pageSize: int)
    | LoadProducts(pageNumber: int, pageSize: int)
    | AddStock(body: MovementBody)
    | RemoveStock(body: MovementBody)
    | AdjustStock(body: MovementBody)

  const SelectProductQuantity: string := "error.selectProductQuantity"

  /** The product list for the select asks for one large page. */
  const ProductListSize: int := 1000

  /** The author: the signed-in user's username, else its email, else
      'Unknown' (an empty string counts as missing). */
  function CreatedBy(user: Option<AuthUser>): (r: string)
    ensures user.Some? && user.value.username != "" ==> r == user.value.username
    ensures user.Some? && user.value.username == "" && user.value.email != "" ==> r == user.value.email
    ensures user.None? || (user.value.username == "" && user.value.email == "") ==> r == "Unknown"
    ensures r != ""
  {
    if user.Some? && user.value.username != "" then user.value.username
    else if user.Some? && user.value.email != "" then user.value.email
    else "Unknown"
  }

  /** The endpoint for a movement type: 1 adds, 2 removes, and every other
      number adjusts. */
  function Dispatch(body: MovementBody): (r: Request)
    ensures body.movementType == 1 <==> r.AddStock?
    ensures body.movementType == 2 <==> r.RemoveStock?
    ensures r.AdjustStock? <==> body.movementType != 1 && body.movementType != 2
    ensures !r.LoadMovements? && !r.LoadProducts? && r.body == body
  {
    if body.movementType == 1 then AddStock(body)
    else if body.movementType == 2 then RemoveStock(body)
    else AdjustStock(body)
  }

  /** executeMovement's decision: the alert key when no product is selected
      or the quantity is not positive, otherwise the dispatched request. */
  function ExecuteDecision(selected: Option<ProductDto>, movementType: int, quantity: int, reason: string,
                           notes: string, user: Option<AuthUser>): (r: Result<Request, string>)
    ensures r.Failure? <==> selected.None? || quantity <= 0
    ensures r.Failure? ==> r.error == SelectProductQuantity
    ensures r.Success? ==> r.value == Dispatch(MovementBody(selected.value.id, movementType, quantity,
                                                             reason, notes, CreatedBy(user)))
    ensures r.Success? ==> !r.value.LoadMovements? && !r.value.LoadProducts? && r.value.body.quantity > 0
  {
    if selected.None? || quantity <= 0 then Failure(SelectProductQuantity)
    else Success(Dispatch(MovementBody(selected.value.id, movementType, quantity, reason, notes, CreatedBy(user))))
  }

  /** The page never asks for an adjustment to zero: every quantity it
      sends is positive, which is also what the server's request validator
      demands. */
  lemma NoAdjustmentToZero(selected: Option<ProductDto>, movementType: int, quantity: int, reason: string,
                           notes: string, user: Option<AuthUser>)
    requires ExecuteDecision(selected, movementType, quantity, reason, notes, user).Success?
    ensures ExecuteDecision(selected, movementType, quantity, reason, notes, user).value.body.quantity != 0
  {
  }

  class StockMovementsComponent {
    const pager: Pager
    var movements: seq<StockMovementDto>
    var products: seq<ProductDto>
    var selectedProduct: Option<ProductDto>
    var movementType: int
    var quantity: int
    var reason: string
    var notes: string
    var requests: seq<Request>

    ghost predicate Valid()
      reads this, pager
    {
      pager.Valid()
    }

    constructor()
      ensures Valid() && fresh(pager)
      ensures movements == [] && products == [] && selectedProduct == None
      ensures movementType == 1 && quantity == 1 && reason == "" && notes == "" && requests == []
    {
      pager := new Pager();
      movements := [];
      products := [];
      selectedProduct := None;
      movementType := 1;
      quantity := 1;
      reason := "";
      notes := "";
      requests := [];
    }

    method GoToPage(page: int)
      requires Valid()
      modifies this, pager
      ensures Valid()
      ensures pager.currentPage == (if 1 <= page <= old(pager.totalPages) then page else old(pager.currentPage))
      ensures requests == old(requests)
        + (if 1 <= page <= old(pager.totalPages) then [LoadMovements(page, pager.pageSize)] else [])
      ensures pager.pageSize == old(pager.pageSize)
      ensures pager.totalPages == old(pager.totalPages) && pager.totalCount == old(pager.totalCount)
      ensures movements == old(movements) && products == old(products) && selectedProduct == old(selectedProduct)
      ensures movementType == old(movementType) && quantity == old(quantity)
      ensures reason == old(reason) && notes == old(notes)
    {
      var moved := pager.GoToPage(page);
      if moved {
        requests := requests + [LoadMovements(pager.currentPage, pager.pageSize)];
      }
    }

    method ChangePageSize(size: int)
      requires Valid()
      modifies this, pager
      ensures Valid()
      ensures pager.pageSize == size && pager.currentPage == 1
      ensures requests == old(requests) + [LoadMovements(1, size)]
      ensures pager.totalPages == old(pager.totalPages) && pager.totalCount == old(pager.totalCount)
      ensures movements == old(movements) && products == old(products) && selectedProduct == old(selectedProduct)
      ensures movementType == old(movementType) && quantity == old(quantity)
      ensures reason == old(reason) && notes == old(notes)
    {
      pager.ChangePageSize(size);
      requests := requests + [LoadMovements(pager.currentPage, pager.pageSize)];
    }

    /** loadMovements' answer: an array is shown newest first as one page;
        a paged result is shown as the server ordered it. */
    method ShowMovements(response: ListResponse<StockMovementDto>)
      requires Valid()
      modifies this, pager
      ensures Valid()
      ensures response.Rows? ==> movements == NewestFirst(response.rows) && pager.totalCount == |response.rows|
      ensures response.Rows? ==> pager.totalPages == 1 && !pager.hasPreviousPage && !pager.hasNextPage
      ensures response.Page? ==> movements == response.items && pager.totalCount == response.totalCount
      ensures response.Page? ==> pager.totalPages == response.totalPages
      ensures response.Page? ==> pager.hasPreviousPage == response.hasPreviousPage
      ensures response.Page? ==> pager.hasNextPage == response.hasNextPage
      ensures pager.currentPage == old(pager.currentPage) && requests == old(requests)
    {
      match response
      case Rows(rows) =>
        movements := NewestFirst(rows);
        pager.ShowList(|rows|);
      case Page(items, count, pages, previous, next) =>
        movements := items;
        pager.ShowPage(count, pages, previous, next);
    }

    /** loadProducts' answer: the rows of an array or of the page. */
    method ShowProducts(response: ListResponse<ProductDto>)
      modifies this
      ensures products == (if response.Rows? then response.rows else response.items)
      ensures requests == old(requests) && movements == old(movements)
    {
      match response
      case Rows(rows) => products := rows;
      case Page(items, _, _, _, _) => products := items;
    }

    /** executeMovement: an alert key, or nothing once the request is sent. */
    method ExecuteMovement(currentUser: Option<AuthUser>) returns (alert: Option<string>)
      modifies this
      ensures var d := ExecuteDecision(selectedProduct, movementType, quantity, reason, notes, currentUser);
        && (d.Failure? ==> alert == Some(d.error) && requests == old(requests))
        && (d.Success? ==> alert == None && requests == old(requests) + [d.value])
      ensures quantity == old(quantity) && selectedProduct == old(selectedProduct)
    {
      if selectedProduct.None? || quantity <= 0 {
        return Some(SelectProductQuantity);
      }
      var movement := MovementBody(selectedProduct.value.id, movementType, quantity, reason, notes,
                                   CreatedBy(currentUser));
      var operation := if movementType == 1 then AddStock(movement)
                       else if movementType == 2 then RemoveStock(movement)
                       else AdjustStock(movement);
      requests := requests + [operation];
      alert := None;
    }

    /** The movement succeeded: the form is reset, the first page and the
        product list are reloaded. */
    method MovementSucceeded()
      requires Valid()
      modifies this, pager
      ensures Valid()
      ensures quantity == 1 && reason == "" && notes == "" && pager.currentPage == 1
      ensures selectedProduct == old(selectedProduct) && movementType == old(movementType)
      ensures requests == old(requests) + [LoadMovements(1, pager.pageSize), LoadProducts(1, ProductListSize)]
    {
      quantity := 1;
      reason := "";
      notes := "";
      pager.currentPage := 1;
      requests := requests + [LoadMovements(pager.currentPage, pager.pageSize)];
      requests := requests + [LoadProducts(1, ProductListSize)];
    }
  }
}
