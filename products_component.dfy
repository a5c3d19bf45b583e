/** The web products page: page navigation, the search box, and the form
    data sent when a product is saved. The requests the component sends to
    the API are recorded in order in `requests`; their answers arrive through
    `ShowProducts` and `Saved`. */
module ProductsComponent {
  import opened Wrappers
  import opened Text
  import opened Dtos
  import opened PageWindow
  import opened WebLists

  /** The category select's value: left undefined, null ("None"), a number,
      or a string. */
  datatype CategoryField = Undefined | Null | IdNumber(n: int) | IdText(text: string)

  /** The product form: the category field, and the other fields as the
      user entered them. */
  datatype ProductForm = ProductForm(fields: map<string, string>, categoryId: CategoryField)

  datatype Request =
    | LoadProducts(pageNumber: int, pageSize: int)
    | SearchProducts(term: string)
    | CreateProduct(form: ProductForm)
    | UpdateProduct(form: ProductForm)

  /** saveProduct's category rule: undefined, 0 and '' become null; every
      other value is sent as it is. */
  function SentCategory(c: CategoryField): (r: CategoryField)
    ensures r.Null? <==> c.Undefined? || c.Null? || c == IdNumber(0) || c == IdText("")
    ensures !r.Null? ==> r == c
    ensures !r.Undefined?
  {
    if c.Undefined? || c == IdNumber(0) || c == IdText("") then Null else c
  }

  /** The body saveProduct sends: the form with its category normalised. */
  function SentForm(form: ProductForm): (r: ProductForm)
    ensures r.fields == form.fields && r.categoryId == SentCategory(form.categoryId)
  {
    form.(categoryId := SentCategory(form.categoryId))
  }

  /** Normalising twice is normalising once: a sent form is sent unchanged. */
  lemma SentFormIdempotent(form: ProductForm)
    ensures SentForm(SentForm(form)) == SentForm(form)
  {
  }

  class ProductsComponent {
    const pager: Pager
    var products: seq<ProductDto>
    var searchTerm: string
    var showProductForm: bool
    var isEditing: bool
    var selectedProduct: Option<ProductDto>
    var productForm: ProductForm
    /** The API calls made so far. */
    var requests: seq<Request>

    ghost predicate Valid()
      reads this, pager
    {
      pager.Valid()
    }

    /** The component as created; ngOnInit then loads the first page. */
    constructor()
      ensures Valid() && fresh(pager)
      ensures pager.currentPage == 1 && pager.pageSize == 10 && pager.totalPages == 0
      ensures products == [] && searchTerm == "" && !showProductForm && !isEditing
      ensures selectedProduct == None && requests == []
    {
      pager := new Pager();
      products := [];
      searchTerm := "";
      showProductForm := false;
      isEditing := false;
      selectedProduct := None;
      productForm := ProductForm(map[], Undefined);
      requests := [];
    }

    /** goToPage: a real page is taken and loaded; any other is ignored. */
    method GoToPage(page: int)
      requires Valid()
      modifies this, pager
      ensures Valid()
      ensures pager.currentPage == (if 1 <= page <= old(pager.totalPages) then page else old(pager.currentPage))
      ensures requests == old(requests)
        + (if 1 <= page <= old(pager.totalPages) then [LoadProducts(page, pager.pageSize)] else [])
      ensures pager.pageSize == old(pager.pageSize) && pager.totalPages == old(pager.totalPages)
      ensures pager.totalCount == old(pager.totalCount)
      ensures products == old(products) && searchTerm == old(searchTerm)
      ensures showProductForm == old(showProductForm) && isEditing == old(isEditing)
      ensures selectedProduct == old(selectedProduct) && productForm == old(productForm)
    {
      var moved := pager.GoToPage(page);
      if moved {
        requests := requests + [LoadProducts(pager.currentPage, pager.pageSize)];
      }
    }

    /** changePageSize: the first page at the new size. */
    method ChangePageSize(size: int)
      requires Valid()
      modifies this, pager
      ensures Valid()
      ensures pager.pageSize == size && pager.currentPage == 1
      ensures requests == old(requests) + [LoadProducts(1, size)]
      ensures pager.totalPages == old(pager.totalPages) && pager.totalCount == old(pager.totalCount)
      ensures products == old(products) && searchTerm == old(searchTerm)
      ensures showProductForm == old(showProductForm) && isEditing == old(isEditing)
      ensures selectedProduct == old(selectedProduct) && productForm == old(productForm)
    {
      pager.ChangePageSize(size);
      requests := requests + [LoadProducts(pager.currentPage, pager.pageSize)];
    }

    /** search: a blank term goes back to the first page of the whole list;
        any other term is sent as typed. */
    method Search()
      requires Valid()
      modifies this, pager
      ensures Valid()
      ensures IsJsBlank(searchTerm) ==> pager.currentPage == 1
      ensures IsJsBlank(searchTerm) ==> requests == old(requests) + [LoadProducts(1, pager.pageSize)]
      ensures !IsJsBlank(searchTerm) ==> pager.currentPage == old(pager.currentPage)
      ensures !IsJsBlank(searchTerm) ==> requests == old(requests) + [SearchProducts(searchTerm)]
      ensures pager.pageSize == old(pager.pageSize) && searchTerm == old(searchTerm)
    {
      if IsJsBlank(searchTerm) {
        pager.currentPage := 1;
        requests := requests + [LoadProducts(pager.currentPage, pager.pageSize)];
        return;
      }
      requests := requests + [SearchProducts(searchTerm)];
    }

    /** loadProducts' answer: an array is one whole page; a paged result
        brings its own counts. Search and low-stock answers are arrays. */
    method ShowProducts(response: ListResponse<ProductDto>)
      requires Valid()
      modifies this, pager
      ensures Valid()
      ensures response.Rows? ==> products == response.rows && pager.totalCount == |response.rows|
      ensures response.Rows? ==> pager.totalPages == 1 && !pager.hasPreviousPage && !pager.hasNextPage
      ensures response.Page? ==> products == response.items && pager.totalCount == response.totalCount
      ensures response.Page? ==> pager.totalPages == response.totalPages
      ensures response.Page? ==> pager.hasPreviousPage == response.hasPreviousPage
      ensures response.Page? ==> pager.hasNextPage == response.hasNextPage
      ensures pager.currentPage == old(pager.currentPage) && pager.pageSize == old(pager.pageSize)
      ensures requests == old(requests)
    {
      match response
      case Rows(rows) =>
        products := rows;
        pager.ShowList(|rows|);
      case Page(items, count, pages, previous, next) =>
        products := items;
        pager.ShowPage(count, pages, previous, next);
    }

    /** saveProduct: the normalised form, as an update when editing and as a
        creation otherwise. */
    method SaveProduct()
      modifies this
      ensures requests == old(requests)
        + [if isEditing then UpdateProduct(SentForm(productForm)) else CreateProduct(SentForm(productForm))]
      ensures isEditing == old(isEditing) && productForm == old(productForm)
      ensures products == old(products) && showProductForm == old(showProductForm)
    {
      var formData := productForm;
      if formData.categoryId.Undefined? || formData.categoryId == IdNumber(0) || formData.categoryId == IdText("") {
        formData := formData.(categoryId := Null);
      }
      if isEditing {
        requests := requests + [UpdateProduct(formData)];
      } else {
        requests := requests + [CreateProduct(formData)];
      }
    }

    /** A save succeeded: back to the first page, form closed. */
    method Saved()
      requires Valid()
      modifies this, pager
      ensures Valid()
      ensures pager.currentPage == 1 && pager.pageSize == old(pager.pageSize)
      ensures requests == old(requests) + [LoadProducts(1, pager.pageSize)]
      ensures !showProductForm && selectedProduct == None && !isEditing
    {
      pager.currentPage := 1;
      requests := requests + [LoadProducts(pager.currentPage, pager.pageSize)];
      CancelForm();
    }

    /** cancelForm. */
    method CancelForm()
      modifies this
      ensures !showProductForm && selectedProduct == None && !isEditing
      ensures requests == old(requests) && products == old(products) && productForm == old(productForm)
    {
      showProductForm := false;
      selectedProduct := None;
      isEditing := false;
    }
  }
}
