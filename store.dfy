/** The inventory as the application changes it: adding, editing and
    deleting products, and recording sales. Each operation is one committed
    transaction; the store object holds what the database holds afterwards. */
module Store {
  import opened Options
  import opened Records
  import Reports

  datatype ProductOutcome = Done | ProductNotFound

  datatype SaleOutcome = Recorded(saleId: int) | SaleProductNotFound | InsufficientStock

  /** The products after `quantity` units of product `id` were sold: that
      product's stock goes down by `quantity`. */
  function StockAfterSale(products: map<int, Product>, id: int, quantity: int): (r: map<int, Product>)
    requires id in products
    ensures r.Keys == products.Keys
    ensures forall k :: k in products && k != id ==> r[k] == products[k]
    ensures r[id] == products[id].(stockQuantity := products[id].stockQuantity - quantity)
  {
    products[id := products[id].(stockQuantity := products[id].stockQuantity - quantity)]
  }

  class Inventory {
    var products: map<int, Product>
    var sales: seq<Sale>
    var nextProductId: int
    var nextSaleId: int

    /** Ids come from counters that only grow, sales are kept in the order
        they were recorded, and every sale names a product that exists. */
    ghost predicate Valid()
      reads this
    {
      && 1 <= nextProductId
      && 1 <= nextSaleId
      && (forall id :: id in products ==> 1 <= id < nextProductId)
      && (forall i :: 0 <= i < |sales| ==> 1 <= sales[i].id < nextSaleId)
      && (forall i, j :: 0 <= i < j < |sales| ==> sales[i].id < sales[j].id)
      && (forall i :: 0 <= i < |sales| ==> sales[i].productId in products)
    }

    constructor ()
      ensures Valid()
      ensures products == map[] && sales == []
    {
      products := map[];
      sales := [];
      nextProductId := 1;
      nextSaleId := 1;
    }

    /** Stores a new product under a fresh id. Neither the stock nor the
        prices are checked. */
    method AddProduct(name: string, description: string, price: int, cost: int,
                      stockQuantity: int, minStockLevel: int, category: string)
      returns (id: int)
      requires Valid()
      modifies this
      ensures Valid()
      ensures id !in old(products)
      ensures products == old(products)[id := Product(name, description, price, cost,
                                                      stockQuantity, minStockLevel, category)]
      ensures sales == old(sales)
    {
      id := nextProductId;
      products := products[id := Product(name, description, price, cost,
                                         stockQuantity, minStockLevel, category)];
      nextProductId := nextProductId + 1;
    }

    /** Overwrites all seven editable fields of product `id`. Recorded sales,
        and so their totals, are left as they are. */
    method EditProduct(id: int, name: string, description: string, price: int, cost: int,
                       stockQuantity: int, minStockLevel: int, category: string)
      returns (outcome: ProductOutcome)
      requires Valid()
      modifies this
      ensures Valid()
      ensures outcome == ProductNotFound <==> id !in old(products)
      ensures products == if id in old(products)
                          then old(products)[id := Product(name, description, price, cost,
                                                           stockQuantity, minStockLevel, category)]
                          else old(products)
      ensures sales == old(sales)
    {
      if id !in products {
        return ProductNotFound;
      }
      products := products[id := Product(name, description, price, cost,
                                         stockQuantity, minStockLevel, category)];
      outcome := Done;
    }

    /** Removes product `id`, which no sale may name. */
    method DeleteProduct(id: int) returns (outcome: ProductOutcome)
      requires Valid()
      requires !Reports.HasSale(sales, id)
      modifies this
      ensures Valid()
      ensures outcome == ProductNotFound <==> id !in old(products)
      ensures products == old(products) - {id}
      ensures sales == old(sales)
    {
      if id !in products {
        return ProductNotFound;
      }
      products := products - {id};
      outcome := Done;
    }

    /** Records a sale of `quantity` units of product `productId` at the
        caller's unit price (0 when none is given). It fails, changing
        nothing, when the product does not exist or has less stock than
        `quantity`; otherwise it lowers that product's stock by `quantity`
        and appends exactly one sale. The sign of `quantity` is not checked. */
    method RecordSale(productId: int, quantity: int, unitPrice: Option<int>,
                      customerName: string, now: int)
      returns (outcome: SaleOutcome)
      requires Valid()
      modifies this
      ensures Valid()
      ensures outcome == SaleProductNotFound <==> productId !in old(products)
      ensures outcome == InsufficientStock <==>
                productId in old(products) && old(products)[productId].stockQuantity < quantity
      ensures !outcome.Recorded? ==> products == old(products) && sales == old(sales)
      ensures outcome.Recorded? ==>
                && productId in old(products)
                && products == StockAfterSale(old(products), productId, quantity)
                && sales == old(sales) + [Sale(outcome.saleId, productId, quantity,
                                               unitPrice.GetOr(0) * quantity, customerName, now)]
                && (forall i :: 0 <= i < |old(sales)| ==> old(sales)[i].id != outcome.saleId)
                && products[productId].stockQuantity >= 0
    {
      if productId !in products {
        return SaleProductNotFound;
      }
      var product := products[productId];
      if product.stockQuantity < quantity {
        return InsufficientStock;
      }
      var totalAmount := unitPrice.GetOr(0) * quantity;
      var sale := Sale(nextSaleId, productId, quantity, totalAmount, customerName, now);
      products := StockAfterSale(products, productId, quantity);
      sales := sales + [sale];
      outcome := Recorded(nextSaleId);
      nextSaleId := nextSaleId + 1;
    }
  }

  /** What a recorded sale does to the dashboard's figures: revenue grows by
      the sale's total, profit by the product's current margin times the
      quantity, the product's sold quantity by the quantity, and no other
      product's sold quantity or low-stock flag changes. A sale of a
      non-negative quantity never clears a low-stock flag. */
  lemma SaleUpdatesDashboard(products: map<int, Product>, sales: seq<Sale>, s: Sale)
    requires s.productId in products
    ensures var after := StockAfterSale(products, s.productId, s.quantity);
            && Reports.TotalRevenue(sales + [s]) == Reports.TotalRevenue(sales) + s.totalAmount
            && Reports.TotalProfit(after, sales + [s])
               == Reports.TotalProfit(products, sales) + UnitProfit(products[s.productId]) * s.quantity
            && (forall k ::
                  Reports.QuantitySold(sales + [s], k)
                  == Reports.QuantitySold(sales, k) + (if k == s.productId then s.quantity else 0))
            && (forall k :: k != s.productId ==>
                  (k in Reports.LowStockProducts(after) <==> k in Reports.LowStockProducts(products)))
            && (s.quantity >= 0 && s.productId in Reports.LowStockProducts(products) ==>
                  s.productId in Reports.LowStockProducts(after))
  {
    var after := StockAfterSale(products, s.productId, s.quantity);
    Reports.TotalRevenueAppend(sales, [s]);
    Reports.TotalProfitAppend(after, sales, [s]);
    Reports.TotalProfitIgnoresStock(after, products, sales);
    forall k ensures Reports.QuantitySold(sales + [s], k)
                     == Reports.QuantitySold(sales, k) + (if k == s.productId then s.quantity else 0) {
      Reports.QuantitySoldAppend(sales, s, k);
    }
  }

  /** Profit is computed from each product's current price and cost, so an
      edit of product `id` shifts the total profit by the change in its margin
      times everything ever sold of it, while revenue keeps the totals fixed
      when the sales were recorded. */
  lemma {:induction false} EditRepricesProfit(products: map<int, Product>, sales: seq<Sale>, id: int, p: Product)
    requires id in products
    ensures Reports.TotalProfit(products[id := p], sales)
            == Reports.TotalProfit(products, sales)
               + (UnitProfit(p) - UnitProfit(products[id])) * Reports.QuantitySold(sales, id)
  {
    if sales != [] {
      EditRepricesProfit(products, sales[1..], id, p);
      var d := UnitProfit(p) - UnitProfit(products[id]);
      var q := Reports.QuantitySold(sales[1..], id);
      if sales[0].productId == id {
        assert d * (sales[0].quantity + q) == d * sales[0].quantity + d * q;
      }
    }
  }
}
