/** The FluentValidation rule sets that ASP.NET runs on every request body
    before a controller action. Each validator is a function returning the
    failure messages in rule order (an empty list means the body is accepted),
    and each comes with a declarative predicate stating its rules, which the
    function's contract ties to it in both directions.

    FluentValidation's NotEmpty() on a string fails for null, "" and
    whitespace-only text; MaximumLength/MinimumLength count string.Length, the
    UTF-16 code units, so a character outside the Basic Multilingual Plane
    counts twice; a
    `.When(c)` guard switches off every rule before it in its chain. */
module Validators {
  import opened Wrappers
  import opened Text
  import opened Domain
  import opened Dtos

  function NotEmpty(s: string, message: string): (r: seq<string>)
    ensures r == [] <==> !IsBlank(s)
    ensures r != [] ==> r == [message]
  {
    if IsBlank(s) then [message] else []
  }

  function MaximumLength(s: string, n: nat, message: string): (r: seq<string>)
    ensures r == [] <==> Utf16Length(s) <= n
    ensures r != [] ==> r == [message]
  {
    if Utf16Length(s) > n then [message] else []
  }

  /** A name of 150 emoji is 150 characters but 300 UTF-16 code units, so the
      200-unit limit on a product name refuses it. */
  lemma AstralCharactersCountTwice()
    ensures var name := seq(150, i => '\U{1F600}');
      && |name| == 150 && Utf16Length(name) == 300
      && MaximumLength(name, 200, "Product name cannot exceed 200 characters") != []
  {
    var name := seq(150, i => '\U{1F600}');
    assert forall i :: 0 <= i < |name| ==> name[i] as int >= 0x1_0000;
  }

  /** A rule whose failure adds its message. */
  function Must(condition: bool, message: string): (r: seq<string>)
    ensures r == [] <==> condition
    ensures r != [] ==> r == [message]
  {
    if condition then [] else [message]
  }

  function MinimumLength(s: string, n: nat, message: string): seq<string> {
    if Utf16Length(s) < n then [message] else []
  }

  /** MaximumLength on an optional string, guarded by `.When(!IsNullOrWhiteSpace)`. */
  function OptionalMaximumLength(s: Option<string>, n: nat, message: string): (r: seq<string>)
    ensures r == [] <==> BlankOrAtMost(s, n)
    ensures r != [] ==> r == [message]
  {
    if IsNullOrWhiteSpace(s) then [] else MaximumLength(s.value, n, message)
  }

  predicate SkuChar(c: char) {
    ('A' <= c <= 'Z') || ('a' <= c <= 'z') || ('0' <= c <= '9') || c == '-' || c == '_'
  }

  predicate UsernameChar(c: char) {
    ('A' <= c <= 'Z') || ('a' <= c <= 'z') || ('0' <= c <= '9') || c == '_'
  }

  predicate AllChars(s: string, ok: char -> bool) {
    forall i :: 0 <= i < |s| ==> ok(s[i])
  }

  /** .NET Regex.IsMatch(s, "^[class]+$"). Without RegexOptions.Multiline, .NET's
      `$` matches at the very end of the input or just before a final '\n', so
      one trailing newline after the run of class characters is accepted. */
  predicate MatchesClassPlus(s: string, ok: char -> bool) {
    || (|s| > 0 && AllChars(s, ok))
    || (|s| > 1 && s[|s| - 1] == '\n' && AllChars(s[..|s| - 1], ok))
  }

  /** The same pattern with an end anchor that matches only at the end of the
      input (`\z`): nothing but class characters, at least one. This is the
      pattern evidently intended; the rules below use the pattern as written. */
  predicate MatchesClassPlusStrict(s: string, ok: char -> bool) {
    |s| > 0 && AllChars(s, ok)
  }

  /** The SKU pattern as written accepts a SKU that ends in a newline, and
      so does the validator; the username rule likewise. */
  lemma SkuPatternAcceptsTrailingNewline()
    ensures MatchesClassPlus("AB-1\n", SkuChar)
    ensures !AllChars("AB-1\n", SkuChar)
    ensures SkuRules("AB-1\n") == []
    ensures !MatchesClassPlusStrict("AB-1\n", SkuChar)
    ensures UsernameErrors("abc\n") == []
  {
    assert !SkuChar("AB-1\n"[4]);
    assert !IsWhiteSpace("AB-1\n"[0]);
    assert !IsWhiteSpace("abc\n"[0]);
    assert AllChars("AB-1", SkuChar) by {
      forall i | 0 <= i < 4 ensures SkuChar("AB-1"[i]) {
        assert i in {0, 1, 2, 3};
      }
    }
    assert "AB-1\n"[..4] == "AB-1";
    assert AllChars("abc", UsernameChar) by {
      forall i | 0 <= i < 3 ensures UsernameChar("abc"[i]) {
        assert i in {0, 1, 2};
      }
    }
    assert "abc\n"[..3] == "abc";
  }

  /** The strict pattern accepts exactly the non-empty strings of class
      characters, and whatever it accepts the written pattern accepts too. */
  lemma StrictPatternIsCharset(s: string, ok: char -> bool)
    ensures MatchesClassPlusStrict(s, ok) <==> s != "" && forall i :: 0 <= i < |s| ==> ok(s[i])
    ensures MatchesClassPlusStrict(s, ok) ==> MatchesClassPlus(s, ok)
  {
  }

  function SkuRules(sku: string): (r: seq<string>)
    ensures r == [] <==> SkuAcceptable(sku)
    ensures IsBlank(sku) ==> "SKU is required" in r
  {
    NotEmpty(sku, "SKU is required")
    + MaximumLength(sku, 100, "SKU cannot exceed 100 characters")
    + (if MatchesClassPlus(sku, SkuChar) then []
       else ["SKU can only contain letters, numbers, hyphens, and underscores"])
  }

  predicate SkuAcceptable(sku: string) {
    !IsBlank(sku) && Utf16Length(sku) <= 100 && MatchesClassPlus(sku, SkuChar)
  }

  predicate BlankOrAtMost(s: Option<string>, n: nat) {
    IsNullOrWhiteSpace(s) || Utf16Length(s.value) <= n
  }

  // ---- CreateProductDtoValidator ----

  predicate CreateProductRules(dto: CreateProductDto) {
    && !IsBlank(dto.name) && Utf16Length(dto.name) <= 200
    && SkuAcceptable(dto.sku)
    && BlankOrAtMost(dto.barcode, 100)
    && dto.price > 0.0
    && dto.cost >= 0.0
    && dto.initialQuantity >= 0
    && dto.minimumStockLevel >= 0
    && BlankOrAtMost(dto.description, 1000)
  }

  /** The rules both product validators share on the name, SKU and
      barcode, in their order. */
  function ProductTextErrors(name: string, sku: string, barcode: Option<string>): (errs: seq<string>)
    ensures errs == [] <==> !IsBlank(name) && Utf16Length(name) <= 200 && SkuAcceptable(sku) && BlankOrAtMost(barcode, 100)
    ensures IsBlank(sku) ==> "SKU is required" in errs
  {
    NotEmpty(name, "Product name is required")
    + MaximumLength(name, 200, "Product name cannot exceed 200 characters")
    + SkuRules(sku)
    + OptionalMaximumLength(barcode, 100, "Barcode cannot exceed 100 characters")
  }

  /** The rules on the amounts, in their order; the quantity rule differs
      between the two validators and comes as its outcome and message. */
  function AmountErrors(price: Money, cost: Money, quantityOk: bool, quantityMessage: string,
                        minimumStockLevel: int): (errs: seq<string>)
    ensures errs == [] <==> price > 0.0 && cost >= 0.0 && quantityOk && minimumStockLevel >= 0
    ensures price <= 0.0 ==> "Price must be greater than zero" in errs
    ensures !quantityOk ==> quantityMessage in errs
  {
    Must(price > 0.0, "Price must be greater than zero")
    + Must(cost >= 0.0, "Cost cannot be negative")
    + Must(quantityOk, quantityMessage)
    + Must(minimumStockLevel >= 0, "Minimum stock level cannot be negative")
  }

  function CreateProductErrors(dto: CreateProductDto): (errs: seq<string>)
    ensures errs == [] <==> CreateProductRules(dto)
    ensures IsBlank(dto.sku) ==> "SKU is required" in errs
    ensures dto.price <= 0.0 ==> "Price must be greater than zero" in errs
  {
    ProductTextErrors(dto.name, dto.sku, dto.barcode)
    + AmountErrors(dto.price, dto.cost, dto.initialQuantity >= 0, "Initial quantity cannot be negative",
                   dto.minimumStockLevel)
    + OptionalMaximumLength(dto.description, 1000, "Description cannot exceed 1000 characters")
  }

  // ---- UpdateProductDtoValidator ----

  predicate UpdateProductRules(dto: UpdateProductDto) {
    && dto.id > 0
    && !IsBlank(dto.name) && Utf16Length(dto.name) <= 200
    && SkuAcceptable(dto.sku)
    && BlankOrAtMost(dto.barcode, 100)
    && dto.price > 0.0
    && dto.cost >= 0.0
    && (dto.quantity.None? || dto.quantity.value >= 0)
    && dto.minimumStockLevel >= 0
    && BlankOrAtMost(dto.description, 1000)
  }

  function UpdateProductErrors(dto: UpdateProductDto): (errs: seq<string>)
    ensures errs == [] <==> UpdateProductRules(dto)
    ensures dto.quantity.Some? && dto.quantity.value < 0 ==> "Quantity cannot be negative" in errs
  {
    Must(dto.id > 0, "Product ID must be greater than zero")
    + ProductTextErrors(dto.name, dto.sku, dto.barcode)
    + AmountErrors(dto.price, dto.cost, dto.quantity.None? || dto.quantity.value >= 0, "Quantity cannot be negative",
                   dto.minimumStockLevel)
    + OptionalMaximumLength(dto.description, 1000, "Description cannot exceed 1000 characters")
  }

  // ---- StockMovementRequestDtoValidator ----

  predicate StockMovementRequestRules(dto: StockMovementRequestDto) {
    && dto.productId > 0
    && dto.quantity > 0
    && BlankOrAtMost(dto.reason, 500)
    && BlankOrAtMost(dto.notes, 1000)
    && BlankOrAtMost(dto.createdBy, 100)
  }

  function StockMovementRequestErrors(dto: StockMovementRequestDto): (errs: seq<string>)
    ensures errs == [] <==> StockMovementRequestRules(dto)
    ensures dto.quantity <= 0 ==> "Quantity must be greater than zero" in errs
  {
    (if dto.productId > 0 then [] else ["Product ID must be greater than zero"])
    + (if dto.quantity > 0 then [] else ["Quantity must be greater than zero"])
    + OptionalMaximumLength(dto.reason, 500, "Reason cannot exceed 500 characters")
    + OptionalMaximumLength(dto.notes, 1000, "Notes cannot exceed 1000 characters")
    + OptionalMaximumLength(dto.createdBy, 100, "CreatedBy cannot exceed 100 characters")
  }

  // ---- UpdateUserDtoValidator ----

  /** `isEmail` is FluentValidation's EmailAddress() check. */
  predicate UpdateUserRules(dto: UpdateUserDto, isEmail: string -> bool) {
    && dto.id > 0
    && !IsBlank(dto.username) && 3 <= Utf16Length(dto.username) <= 100
    && MatchesClassPlus(dto.username, UsernameChar)
    && !IsBlank(dto.email) && isEmail(dto.email) && Utf16Length(dto.email) <= 200
    && (IsNullOrWhiteSpace(dto.password) || 6 <= Utf16Length(dto.password.value) <= 100)
  }

  function UsernameErrors(username: string): (errs: seq<string>)
    ensures errs == [] <==> !IsBlank(username) && 3 <= Utf16Length(username) <= 100 && MatchesClassPlus(username, UsernameChar)
  {
    NotEmpty(username, "Username is required")
    + MinimumLength(username, 3, "Username must be at least 3 characters")
    + MaximumLength(username, 100, "Username cannot exceed 100 characters")
    + Must(MatchesClassPlus(username, UsernameChar), "Username can only contain letters, numbers, and underscores")
  }

  function EmailErrors(email: string, isEmail: string -> bool): (errs: seq<string>)
    ensures errs == [] <==> !IsBlank(email) && isEmail(email) && Utf16Length(email) <= 200
  {
    NotEmpty(email, "Email is required")
    + Must(isEmail(email), "Invalid email format")
    + MaximumLength(email, 200, "Email cannot exceed 200 characters")
  }

  /** The password rules, switched off by `.When(!IsNullOrWhiteSpace)`. */
  function PasswordErrors(password: Option<string>): (errs: seq<string>)
    ensures errs == [] <==> IsNullOrWhiteSpace(password) || 6 <= Utf16Length(password.value) <= 100
    ensures IsNullOrWhiteSpace(password) ==> errs == []
  {
    if IsNullOrWhiteSpace(password) then []
    else MinimumLength(password.value, 6, "Password must be at least 6 characters")
         + MaximumLength(password.value, 100, "Password cannot exceed 100 characters")
  }

  function UpdateUserErrors(dto: UpdateUserDto, isEmail: string -> bool): (errs: seq<string>)
    ensures errs == [] <==> UpdateUserRules(dto, isEmail)
  {
    Must(dto.id > 0, "User ID must be greater than zero")
    + UsernameErrors(dto.username)
    + EmailErrors(dto.email, isEmail)
    + PasswordErrors(dto.password)
  }

  // ---- CategoryDtoValidator ----

  predicate CategoryRules(dto: CategoryDto) {
    !IsBlank(dto.name) && Utf16Length(dto.name) <= 100 && BlankOrAtMost(dto.description, 500)
  }

  function CategoryErrors(dto: CategoryDto): (errs: seq<string>)
    ensures errs == [] <==> CategoryRules(dto)
    ensures IsNullOrWhiteSpace(dto.description) ==> "Description cannot exceed 500 characters" !in errs
  {
    NotEmpty(dto.name, "Category name is required")
    + MaximumLength(dto.name, 100, "Category name cannot exceed 100 characters")
    + OptionalMaximumLength(dto.description, 500, "Description cannot exceed 500 characters")
  }

  // ---- LoginDtoValidator ----

  /** Only emptiness is checked: no length or format limit. */
  function LoginErrors(dto: LoginDto): (errs: seq<string>)
    ensures errs == [] <==> !IsBlank(dto.username) && !IsBlank(dto.password)
    ensures IsBlank(dto.username) ==> errs[0] == "Username is required"
    ensures IsBlank(dto.password) ==> errs[|errs| - 1] == "Password is required"
  {
    NotEmpty(dto.username, "Username is required") + NotEmpty(dto.password, "Password is required")
  }
}
