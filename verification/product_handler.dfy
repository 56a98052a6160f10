/**
 * The product endpoints' decisions: the path and query guards, the
 * normalisation of `limit` and `offset`, and how a usecase error becomes a
 * response. The usecase is a parameter; `Handled.call` records the
 * arguments it was called with, or `None` when the handler answered first.
 * A body that fails JSON binding is `Failure(text)` with the binder's error
 * text.
 */
module ProductHandler {
  import opened Wrappers
  import opened DomainError
  import opened Strconv
  import ProductUsecase
  import ProductEntity
  import Table

  const StatusOK: int := 200
  const StatusCreated: int := 201
  const StatusBadRequest: int := 400
  const StatusInternalServerError: int := 500

  const DefaultLimit: int := 10
  const DefaultOffset: int := 0

  /** What a usecase may fail with: a `CustomError`, or any other error. */
  datatype UsecaseError = Custom(custom: CustomError) | Plain(err: GoError)

  /** The two response shapes: `response.Success` and `response.Error`. */
  datatype Answer<D> =
    | Succeeded(status: int, message: string, data: Option<D>)
    | Failed(status: int, message: string, error: string)

  datatype Handled<A, D> = Handled(answer: Answer<D>, call: Option<A>)

  /** `err.Error()`, or "" for a nil error. */
  function ErrorField(err: Option<GoError>): string
  {
    match err
    case Some(e) => ErrorText(e)
    case None => ""
  }

  /** The `limit` query value (after `DefaultQuery("limit", "10")`) as used. */
  function NormalizeLimit(s: string): (n: int)
    ensures n >= 1 && InInt64(n)
    ensures Atoi(s).Some? && Atoi(s).value > 0 ==> n == Atoi(s).value
    ensures Atoi(s).None? || Atoi(s).value <= 0 ==> n == DefaultLimit
  {
    match Atoi(s)
    case Some(n) => if n <= 0 then DefaultLimit else n
    case None => DefaultLimit
  }

  /** The `offset` query value (after `DefaultQuery("offset", "0")`) as used. */
  function NormalizeOffset(s: string): (n: int)
    ensures n >= 0 && InInt64(n)
    ensures Atoi(s).Some? && Atoi(s).value >= 0 ==> n == Atoi(s).value
    ensures Atoi(s).None? || Atoi(s).value < 0 ==> n == DefaultOffset
  {
    match Atoi(s)
    case Some(n) => if n < 0 then DefaultOffset else n
    case None => DefaultOffset
  }

  /** Normalisation keeps every value it accepts and is idempotent on its
      own output. */
  lemma NormalizeRoundTrip(s: string, limit: int, offset: int)
    requires 1 <= limit && InInt64(limit) && 0 <= offset && InInt64(offset)
    ensures NormalizeLimit(Itoa(limit)) == limit && NormalizeOffset(Itoa(offset)) == offset
    ensures NormalizeLimit(Itoa(NormalizeLimit(s))) == NormalizeLimit(s)
    ensures NormalizeOffset(Itoa(NormalizeOffset(s))) == NormalizeOffset(s)
  {
    AtoiItoa(limit);
    AtoiItoa(offset);
    AtoiItoa(NormalizeLimit(s));
    AtoiItoa(NormalizeOffset(s));
  }

  /** A usecase error as answered: a `CustomError` with its own code,
      message and wrapped error, anything else as 500 with `fallback`. */
  function RespondError<D>(e: UsecaseError, fallback: string): (a: Answer<D>)
    ensures a.Failed?
    ensures e.Custom? ==> a == Failed(e.custom.code, e.custom.message, ErrorField(e.custom.err))
    ensures e.Plain? ==> a == Failed(StatusInternalServerError, fallback, ErrorText(e.err))
  {
    match e
    case Custom(c) => Failed(c.code, c.message, ErrorField(c.err))
    case Plain(err) => Failed(StatusInternalServerError, fallback, ErrorText(err))
  }

  /** The answer for a usecase result. */
  function Respond<D>(r: Result<D, UsecaseError>, status: int, message: string, fallback: string): (a: Answer<D>)
    ensures r.Success? ==> a == Succeeded(status, message, Some(r.value))
    ensures r.Failure? ==> a == RespondError(r.error, fallback)
  {
    match r
    case Success(d) => Succeeded(status, message, Some(d))
    case Failure(e) => RespondError(e, fallback)
  }

  function CreateProduct<D>(body: Result<ProductUsecase.CreateProductRequest, string>,
                            usecase: ProductUsecase.CreateProductRequest -> Result<D, UsecaseError>)
    : (h: Handled<ProductUsecase.CreateProductRequest, D>)
    ensures body.Failure? ==> h == Handled(Failed(StatusBadRequest, "Invalid request body", body.error), None)
    ensures body.Success? ==>
              h == Handled(Respond(usecase(body.value), StatusCreated, "Product created successfully",
                                   "Failed to create product"), Some(body.value))
  {
    match body
    case Failure(text) => Handled(Failed(StatusBadRequest, "Invalid request body", text), None)
    case Success(req) =>
      Handled(Respond(usecase(req), StatusCreated, "Product created successfully", "Failed to create product"), Some(req))
  }

  const ProductIDRequired: string := "Product ID is required"

  function GetProduct<D>(id: string, usecase: string -> Result<D, UsecaseError>): (h: Handled<string, D>)
    ensures id == "" <==> h.call.None?
    ensures id == "" ==> h.answer == Failed(StatusBadRequest, ProductIDRequired, "")
    ensures id != "" ==>
              h == Handled(Respond(usecase(id), StatusOK, "Product retrieved successfully", "Failed to get product"), Some(id))
  {
    if id == "" then Handled(Failed(StatusBadRequest, ProductIDRequired, ""), None)
    else Handled(Respond(usecase(id), StatusOK, "Product retrieved successfully", "Failed to get product"), Some(id))
  }

  /** The id guard comes before binding: without an id the body is not read. */
  function UpdateProduct<D>(id: string, body: Result<ProductUsecase.UpdateProductRequest, string>,
                            usecase: (string, ProductUsecase.UpdateProductRequest) -> Result<D, UsecaseError>)
    : (h: Handled<(string, ProductUsecase.UpdateProductRequest), D>)
    ensures h.call.Some? <==> id != "" && body.Success?
    ensures id == "" ==> h.answer == Failed(StatusBadRequest, ProductIDRequired, "")
    ensures id != "" && body.Failure? ==> h.answer == Failed(StatusBadRequest, "Invalid request body", body.error)
    ensures h.call.Some? ==>
              && h.call.value == (id, body.value)
              && h.answer == Respond(usecase(id, body.value), StatusOK, "Product updated successfully", "Failed to update product")
  {
    if id == "" then Handled(Failed(StatusBadRequest, ProductIDRequired, ""), None)
    else match body
      case Failure(text) => Handled(Failed(StatusBadRequest, "Invalid request body", text), None)
      case Success(req) =>
        Handled(Respond(usecase(id, req), StatusOK, "Product updated successfully", "Failed to update product"), Some((id, req)))
  }

  function DeleteProduct(id: string, usecase: string -> Option<UsecaseError>): (h: Handled<string, ()>)
    ensures id == "" <==> h.call.None?
    ensures id == "" ==> h.answer == Failed(StatusBadRequest, ProductIDRequired, "")
    ensures id != "" && usecase(id).Some? ==> h.answer == RespondError(usecase(id).value, "Failed to delete product")
    ensures id != "" && usecase(id).None? ==> h.answer == Succeeded(StatusOK, "Product deleted successfully", None)
  {
    if id == "" then Handled(Failed(StatusBadRequest, ProductIDRequired, ""), None)
    else match usecase(id)
      case Some(e) => Handled(RespondError(e, "Failed to delete product"), Some(id))
      case None => Handled(Succeeded(StatusOK, "Product deleted successfully", None), Some(id))
  }

  const ProductsRetrieved: string := "Products retrieved successfully"

  function GetProducts<D>(limitParam: string, offsetParam: string, usecase: (int, int) -> Result<D, UsecaseError>)
    : (h: Handled<(int, int), D>)
    ensures h.call.Some? && h.call.value.0 >= 1 && h.call.value.1 >= 0
    ensures h.call.value == (NormalizeLimit(limitParam), NormalizeOffset(offsetParam))
    ensures h.answer == Respond(usecase(h.call.value.0, h.call.value.1), StatusOK, ProductsRetrieved, "Failed to get products")
  {
    var limit := NormalizeLimit(limitParam);
    var offset := NormalizeOffset(offsetParam);
    Handled(Respond(usecase(limit, offset), StatusOK, ProductsRetrieved, "Failed to get products"), Some((limit, offset)))
  }

  function GetProductsByCategory<D>(category: string, limitParam: string, offsetParam: string,
                                    usecase: (string, int, int) -> Result<D, UsecaseError>)
    : (h: Handled<(string, int, int), D>)
    ensures category == "" <==> h.call.None?
    ensures category == "" ==> h.answer == Failed(StatusBadRequest, "Category is required", "")
    ensures h.call.Some? ==>
              && h.call.value == (category, NormalizeLimit(limitParam), NormalizeOffset(offsetParam))
              && h.call.value.1 >= 1 && h.call.value.2 >= 0
              && h.answer == Respond(usecase(h.call.value.0, h.call.value.1, h.call.value.2), StatusOK,
                                     ProductsRetrieved, "Failed to get products by category")
  {
    if category == "" then Handled(Failed(StatusBadRequest, "Category is required", ""), None)
    else
      var limit := NormalizeLimit(limitParam);
      var offset := NormalizeOffset(offsetParam);
      Handled(Respond(usecase(category, limit, offset), StatusOK, ProductsRetrieved, "Failed to get products by category"),
              Some((category, limit, offset)))
  }

  function SearchProducts<D>(query: string, limitParam: string, offsetParam: string,
                             usecase: (string, int, int) -> Result<D, UsecaseError>)
    : (h: Handled<(string, int, int), D>)
    ensures query == "" <==> h.call.None?
    ensures query == "" ==> h.answer == Failed(StatusBadRequest, "Search query is required", "")
    ensures h.call.Some? ==>
              && h.call.value == (query, NormalizeLimit(limitParam), NormalizeOffset(offsetParam))
              && h.call.value.1 >= 1 && h.call.value.2 >= 0
              && h.answer == Respond(usecase(h.call.value.0, h.call.value.1, h.call.value.2), StatusOK,
                                     ProductsRetrieved, "Failed to search products")
  {
    if query == "" then Handled(Failed(StatusBadRequest, "Search query is required", ""), None)
    else
      var limit := NormalizeLimit(limitParam);
      var offset := NormalizeOffset(offsetParam);
      Handled(Respond(usecase(query, limit, offset), StatusOK, ProductsRetrieved, "Failed to search products"),
              Some((query, limit, offset)))
  }

  // ---- wired to the product usecase ------------------------------------

  /** The usecase's errors are all `CustomError`s. */
  function Lift<D>(r: Result<D, CustomError>): (l: Result<D, UsecaseError>)
    ensures l.Success? <==> r.Success?
    ensures l.Success? ==> l.value == r.value
    ensures l.Failure? ==> l.error == Custom(r.error)
  {
    match r
    case Success(d) => Success(d)
    case Failure(e) => Failure(Custom(e))
  }

  /** A usecase that only reports an error, seen by the handler. */
  function LiftError<T>(r: Result<T, CustomError>): (e: Option<UsecaseError>)
    ensures e.None? <==> r.Success?
    ensures e.Some? ==> e.value == Custom(r.error)
  {
    match r
    case Success(_) => None
    case Failure(c) => Some(Custom(c))
  }

  /** A product id no row holds is answered 404 "product not found" with the
      sentinel's text in the error field; the 500 fallback is never used. */
  lemma MissingProductAnswered404(rows: ProductUsecase.Rows, id: string)
    requires id != "" && !Table.Taken(rows, ProductUsecase.IdOf, id)
    ensures GetProduct(id, (x: string) => Lift(ProductUsecase.GetProduct(rows, x, None))).answer
            == Failed(404, "product not found", "product not found")
  {
  }

  /** A database failure while listing is answered with the usecase's 500
      and the database's error text, under the usecase's message. */
  lemma ListFailureAnswered(list: (int, int) -> Result<seq<ProductEntity.Product>, GoError>,
                            limitParam: string, offsetParam: string)
    requires list(NormalizeLimit(limitParam), NormalizeOffset(offsetParam)).Failure?
    ensures var h := GetProducts(limitParam, offsetParam,
                                 (l: int, o: int) => Lift(ProductUsecase.GetProducts(list, l, o)));
            h.answer == Failed(StatusInternalServerError, "failed to get products",
                               ErrorText(list(NormalizeLimit(limitParam), NormalizeOffset(offsetParam)).error))
  {
  }

  /** Deleting an existing product answers 200; deleting it again, 404. */
  lemma DeleteTwice(rows: ProductUsecase.Rows, id: string)
    requires id != "" && Table.Taken(rows, ProductUsecase.IdOf, id)
    ensures var first := ProductUsecase.DeleteProduct(rows, id, None, None);
            && DeleteProduct(id, (x: string) => LiftError(first)).answer
               == Succeeded(StatusOK, "Product deleted successfully", None)
            && var second := ProductUsecase.DeleteProduct(first.value, id, None, None);
               DeleteProduct(id, (x: string) => LiftError(second)).answer
               == Failed(404, "product not found", "product not found")
  {
    ProductUsecase.DeleteThenGet(rows, id);
  }
}
