/** The two persistent records of the inventory: products and sales.
    Money is a whole number of the smallest currency unit and time is a
    whole number of seconds. */
module Records {

  /** A catalogue entry. Its id is the key under which the store keeps it. */
  datatype Product = Product(
    name: string,
    description: string,
    price: int,
    cost: int,
    stockQuantity: int,
    minStockLevel: int,
    category: string)

  /** A recorded sale. `totalAmount` is fixed when the sale is recorded and
      is never recomputed from the product's later price. */
  datatype Sale = Sale(
    id: int,
    productId: int,
    quantity: int,
    totalAmount: int,
    customerName: string,
    saleDate: int)

  /** A product is flagged as low on stock when its stock has fallen to its
      minimum level or below. */
  predicate IsLowStock(p: Product) {
    p.stockQuantity <= p.minStockLevel
  }

  /** A product is offered on the sale form while some of it is in stock. */
  predicate IsSaleable(p: Product) {
    p.stockQuantity > 0
  }

  /** Gross profit per unit sold, at the product's current price and cost. */
  function UnitProfit(p: Product): int {
    p.price - p.cost
  }
}
