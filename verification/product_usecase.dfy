/**
 * The product usecase over the `products` table, held as a sequence of
 * rows. Every failure is a `CustomError` carrying the HTTP status the
 * handler answers with; repository failures are the `...Fault` parameters.
 */
module ProductUsecase {
  import opened Wrappers
  import opened DomainError
  import opened ProductEntity
  import SharedUser
  import Table

  type Rows = seq<Product>

  function IdOf(p: Product): string { p.id }

  datatype CreateProductRequest = CreateProductRequest(
    name: string, description: string, price: real, stock: int, category: string)

  datatype UpdateProductRequest = UpdateProductRequest(
    name: string, description: string, price: real, stock: int, category: string, isActive: Option<bool>)

  const NotFound: CustomError := CustomError(404, "product not found", Some(Sentinel(ProductNotFound)))

  /** `CreateProduct`: the new entity is appended unless the insert fails. */
  function CreateProduct(rows: Rows, req: CreateProductRequest, freshId: string, now: int,
                         fault: Option<GoError>): (r: Result<(Rows, Product), CustomError>)
    requires |freshId| == SharedUser.UuidLength
    ensures r.Failure? <==> fault.Some?
    ensures r.Failure? ==> r.error == CustomError(500, "failed to create product", fault)
    ensures r.Success? ==>
              && r.value.1 == NewProduct(freshId, req.name, req.description, req.category, req.price, req.stock, now)
              && r.value.0 == rows + [r.value.1]
  {
    var product := NewProduct(freshId, req.name, req.description, req.category, req.price, req.stock, now);
    if fault.Some? then Failure(CustomError(500, "failed to create product", fault))
    else Success((rows + [product], product))
  }

  /** `GetProduct`: any repository error reads as 404 "product not found". */
  function GetProduct(rows: Rows, id: string, fault: Option<GoError>): (r: Result<Product, CustomError>)
    ensures r.Success? <==> fault.None? && Table.Taken(rows, IdOf, id)
    ensures r.Success? ==> r.value in rows && r.value.id == id
    ensures r.Failure? ==> r.error == NotFound
  {
    match Table.Lookup(rows, IdOf, id, fault)
    case Failure(_) => Failure(NotFound)
    case Success(p) => Success(p)
  }

  /** A created product is found under its fresh id. */
  lemma CreateThenGet(rows: Rows, req: CreateProductRequest, freshId: string, now: int)
    requires |freshId| == SharedUser.UuidLength
    requires !Table.Taken(rows, IdOf, freshId)
    ensures var r := CreateProduct(rows, req, freshId, now, None);
            GetProduct(r.value.0, freshId, None) == Success(r.value.1)
  {
    var r := CreateProduct(rows, req, freshId, now, None);
    Table.LookupAppended(rows, IdOf, r.value.1, freshId);
  }

  /** GORM's `Save`: the row with the product's primary key is replaced. */
  function Save(rows: Rows, v: Product): (s: Rows)
    ensures |s| == |rows|
    ensures forall i :: 0 <= i < |rows| ==> s[i] == (if rows[i].id == v.id then v else rows[i])
  {
    seq(|rows|, i requires 0 <= i < |rows| => if rows[i].id == v.id then v else rows[i])
  }

  /** A saved product is read back by its id. */
  lemma SaveThenGet(rows: Rows, v: Product)
    requires Table.Taken(rows, IdOf, v.id)
    ensures GetProduct(Save(rows, v), v.id, None) == Success(v)
  {
    var s := Save(rows, v);
    var i :| 0 <= i < |rows| && IdOf(rows[i]) == v.id;
    assert IdOf(s[i]) == v.id;
    var r := GetProduct(s, v.id, None);
    var j :| 0 <= j < |s| && s[j] == r.value;
  }

  /** The merge as written: strings replace when non-empty, price and stock
      whenever they are not negative, the active flag when it is given. */
  function ApplyUpdate(p: Product, req: UpdateProductRequest): (v: Product)
    ensures v.id == p.id && v.createdAt == p.createdAt && v.updatedAt == p.updatedAt
    ensures v.name == (if req.name != "" then req.name else p.name)
    ensures v.description == (if req.description != "" then req.description else p.description)
    ensures v.category == (if req.category != "" then req.category else p.category)
    ensures v.price == (if req.price >= 0.0 then req.price else p.price)
    ensures v.stock == (if req.stock >= 0 then req.stock else p.stock)
    ensures v.isActive == (if req.isActive.Some? then req.isActive.value else p.isActive)
  {
    var p := if req.name != "" then p.(name := req.name) else p;
    var p := if req.description != "" then p.(description := req.description) else p;
    var p := if req.price >= 0.0 then p.(price := req.price) else p;
    var p := if req.stock >= 0 then p.(stock := req.stock) else p;
    var p := if req.category != "" then p.(category := req.category) else p;
    if req.isActive.Some? then p.(isActive := req.isActive.value) else p
  }

  /** The decoded body of a request that only renames the product: JSON
      leaves the omitted numbers at zero and the flag absent. */
  function RenameOnly(name: string): UpdateProductRequest
  {
    UpdateProductRequest(name, "", 0.0, 0, "", None)
  }

  /** As written, a rename also sets price and stock to zero. */
  lemma RenameResetsPriceAndStock(p: Product, name: string)
    ensures ApplyUpdate(p, RenameOnly(name)).price == 0.0
    ensures ApplyUpdate(p, RenameOnly(name)).stock == 0
    ensures p.price != 0.0 ==> ApplyUpdate(p, RenameOnly(name)) != p.(name := if name != "" then name else p.name)
  {
  }

  datatype UpdateOutcome = UpdateOutcome(rows: Rows, product: Product)

  /** The update step shared by both merges: look the product up, merge,
      stamp `updatedAt`, save. A failed lookup never reaches the save. */
  function UpdateWith(rows: Rows, id: string, merge: Product -> Product, now: int,
                      lookupFault: Option<GoError>, saveFault: Option<GoError>): (r: Result<UpdateOutcome, CustomError>)
    ensures lookupFault.Some? || !Table.Taken(rows, IdOf, id) ==> r == Failure(NotFound)
    ensures lookupFault.None? && Table.Taken(rows, IdOf, id) && saveFault.Some? ==>
              r == Failure(CustomError(500, "failed to update product", saveFault))
    ensures r.Success? <==> lookupFault.None? && Table.Taken(rows, IdOf, id) && saveFault.None?
    ensures r.Success? ==>
              var found := GetProduct(rows, id, None).value;
              && r.value.product == merge(found).(updatedAt := now)
              && r.value.rows == Save(rows, r.value.product)
  {
    match GetProduct(rows, id, lookupFault)
    case Failure(e) => Failure(e)
    case Success(found) =>
      var v := merge(found).(updatedAt := now);
      if saveFault.Some? then Failure(CustomError(500, "failed to update product", saveFault))
      else Success(UpdateOutcome(Save(rows, v), v))
  }

  /** `UpdateProduct` as written. */
  function UpdateProduct(rows: Rows, id: string, req: UpdateProductRequest, now: int,
                         lookupFault: Option<GoError>, saveFault: Option<GoError>): (r: Result<UpdateOutcome, CustomError>)
    ensures r.Success? <==> lookupFault.None? && Table.Taken(rows, IdOf, id) && saveFault.None?
    ensures r.Failure? && (lookupFault.Some? || !Table.Taken(rows, IdOf, id)) ==> r.error == NotFound
    ensures r.Success? ==>
              && r.value.product.id == id
              && r.value.product == ApplyUpdate(GetProduct(rows, id, None).value, req).(updatedAt := now)
  {
    UpdateWith(rows, id, p => ApplyUpdate(p, req), now, lookupFault, saveFault)
  }

  /** An update is read back as it was answered. */
  lemma UpdateThenGet(rows: Rows, id: string, req: UpdateProductRequest, now: int)
    requires Table.Taken(rows, IdOf, id)
    ensures var r := UpdateProduct(rows, id, req, now, None, None);
            GetProduct(r.value.rows, id, None) == Success(r.value.product)
  {
    var r := UpdateProduct(rows, id, req, now, None, None);
    SaveThenGet(rows, r.value.product);
  }

  /** The evidently intended request: each field may be omitted, and only
      the fields given change. */
  datatype ProductPatch = ProductPatch(
    name: string, description: string, category: string,
    price: Option<real>, stock: Option<int>, isActive: Option<bool>)

  function ApplyPatch(p: Product, patch: ProductPatch): (v: Product)
    ensures v.id == p.id && v.createdAt == p.createdAt && v.updatedAt == p.updatedAt
    ensures patch.name == "" ==> v.name == p.name
    ensures patch.description == "" ==> v.description == p.description
    ensures patch.category == "" ==> v.category == p.category
    ensures patch.price.None? ==> v.price == p.price
    ensures patch.stock.None? ==> v.stock == p.stock
    ensures patch.isActive.None? ==> v.isActive == p.isActive
  {
    ApplyUpdate(p, UpdateProductRequest(
      patch.name, patch.description,
      match patch.price case Some(x) => x case None => -1.0,
      match patch.stock case Some(n) => n case None => -1,
      patch.category, patch.isActive))
  }

  /** Renaming through a patch changes the name and nothing else. */
  lemma PatchRenameKeepsEverythingElse(p: Product, name: string)
    requires name != ""
    ensures ApplyPatch(p, ProductPatch(name, "", "", None, None, None)) == p.(name := name)
  {
  }

  /** Where the request gives every number as a valid value, the patch and
      the merge as written agree. */
  lemma PatchAgreesWhenNumbersGiven(p: Product, req: UpdateProductRequest)
    requires req.price >= 0.0 && req.stock >= 0
    ensures ApplyPatch(p, ProductPatch(req.name, req.description, req.category,
                                       Some(req.price), Some(req.stock), req.isActive))
            == ApplyUpdate(p, req)
  {
  }

  /** `UpdateProduct` with the intended merge. */
  function UpdateProductPatched(rows: Rows, id: string, patch: ProductPatch, now: int,
                                lookupFault: Option<GoError>, saveFault: Option<GoError>): (r: Result<UpdateOutcome, CustomError>)
    ensures r.Success? <==> lookupFault.None? && Table.Taken(rows, IdOf, id) && saveFault.None?
    ensures r.Success? ==>
              var found := GetProduct(rows, id, None).value;
              && r.value.product.id == id
              && (patch.price.None? ==> r.value.product.price == found.price)
              && (patch.stock.None? ==> r.value.product.stock == found.stock)
              && r.value.product == ApplyPatch(found, patch).(updatedAt := now)
  {
    UpdateWith(rows, id, p => ApplyPatch(p, patch), now, lookupFault, saveFault)
  }

  /** The rows that remain visible once the product `id` is (soft) deleted. */
  function Without(rows: Rows, id: string): (s: Rows)
    ensures forall p :: p in s <==> p in rows && p.id != id
    ensures |s| <= |rows|
  {
    if |rows| == 0 then []
    else if rows[0].id == id then Without(rows[1..], id)
    else [rows[0]] + Without(rows[1..], id)
  }

  /** `DeleteProduct`: existence is checked first; a missing product is 404
      and nothing is deleted. */
  function DeleteProduct(rows: Rows, id: string, lookupFault: Option<GoError>,
                         deleteFault: Option<GoError>): (r: Result<Rows, CustomError>)
    ensures lookupFault.Some? || !Table.Taken(rows, IdOf, id) ==> r == Failure(NotFound)
    ensures lookupFault.None? && Table.Taken(rows, IdOf, id) && deleteFault.Some? ==>
              r == Failure(CustomError(500, "failed to delete product", deleteFault))
    ensures r.Success? <==> lookupFault.None? && Table.Taken(rows, IdOf, id) && deleteFault.None?
    ensures r.Success? ==> r.value == Without(rows, id)
  {
    match GetProduct(rows, id, lookupFault)
    case Failure(e) => Failure(e)
    case Success(_) =>
      if deleteFault.Some? then Failure(CustomError(500, "failed to delete product", deleteFault))
      else Success(Without(rows, id))
  }

  /** After a delete the product is gone, and a second delete is a 404. */
  lemma DeleteThenGet(rows: Rows, id: string)
    requires DeleteProduct(rows, id, None, None).Success?
    ensures GetProduct(DeleteProduct(rows, id, None, None).value, id, None) == Failure(NotFound)
    ensures DeleteProduct(DeleteProduct(rows, id, None, None).value, id, None, None) == Failure(NotFound)
  {
    var s := DeleteProduct(rows, id, None, None).value;
    assert !Table.Taken(s, IdOf, id) by {
      forall i | 0 <= i < |s| ensures IdOf(s[i]) != id {
        assert s[i] in s;
      }
    }
  }

  /** The three list queries pass the repository's page through and wrap its
      error in a 500 with their own message. */
  function ListWith(result: Result<seq<Product>, GoError>, message: string): (r: Result<seq<Product>, CustomError>)
    ensures r.Success? <==> result.Success?
    ensures r.Success? ==> r.value == result.value
    ensures r.Failure? ==> r.error.code == 500 && r.error.message == message && r.error.err == Some(result.error)
  {
    match result
    case Success(products) => Success(products)
    case Failure(e) => Failure(CustomError(500, message, Some(e)))
  }

  function GetProducts(list: (int, int) -> Result<seq<Product>, GoError>, limit: int, offset: int)
    : (r: Result<seq<Product>, CustomError>)
    ensures list(limit, offset).Failure? ==>
              r == Failure(CustomError(500, "failed to get products", Some(list(limit, offset).error)))
    ensures list(limit, offset).Success? ==> r == Success(list(limit, offset).value)
  {
    ListWith(list(limit, offset), "failed to get products")
  }

  function GetProductsByCategory(byCategory: (string, int, int) -> Result<seq<Product>, GoError>,
                                 category: string, limit: int, offset: int): (r: Result<seq<Product>, CustomError>)
    ensures byCategory(category, limit, offset).Failure? ==>
              r == Failure(CustomError(500, "failed to get products by category", Some(byCategory(category, limit, offset).error)))
    ensures byCategory(category, limit, offset).Success? ==> r == Success(byCategory(category, limit, offset).value)
  {
    ListWith(byCategory(category, limit, offset), "failed to get products by category")
  }

  function SearchProducts(search: (string, int, int) -> Result<seq<Product>, GoError>,
                          query: string, limit: int, offset: int): (r: Result<seq<Product>, CustomError>)
    ensures search(query, limit, offset).Failure? ==>
              r == Failure(CustomError(500, "failed to search products", Some(search(query, limit, offset).error)))
    ensures search(query, limit, offset).Success? ==> r == Success(search(query, limit, offset).value)
  {
    ListWith(search(query, limit, offset), "failed to search products")
  }
}
