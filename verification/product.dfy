/**
 * The product entity. Prices are Go `float64` values and are kept as reals;
 * the column's `decimal(10,2)` rounding is the database's and is not part
 * of this model.
 */
module ProductEntity {
  import SharedUser

  datatype Product = Product(
    id: string,
    name: string,
    description: string,
    price: real,
    stock: int,
    category: string,
    isActive: bool,
    createdAt: int,
    updatedAt: int)

  /** `NewProduct`: the arguments copied without range checks, a fresh UUID
      (`freshId`) as id, the product active, and both timestamps `now`. */
  function NewProduct(freshId: string, name: string, description: string, category: string,
                      price: real, stock: int, now: int): (p: Product)
    requires |freshId| == SharedUser.UuidLength
    ensures p.id == freshId && p.id != ""
    ensures p.name == name && p.description == description && p.category == category
    ensures p.price == price && p.stock == stock
    ensures p.isActive
    ensures p.createdAt == now && p.updatedAt == now
  {
    Product(freshId, name, description, price, stock, category, true, now, now)
  }

  /** Nothing is range-checked: a negative price or stock is kept as given. */
  lemma NoRangeChecks(freshId: string, now: int)
    requires |freshId| == SharedUser.UuidLength
    ensures NewProduct(freshId, "", "", "", -1.0, -1, now).price < 0.0
    ensures NewProduct(freshId, "", "", "", -1.0, -1, now).stock < 0
  {
  }
}
