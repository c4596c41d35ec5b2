/** The rows the backend stores (products, orders, order lines), the decoded
    request input, and the database object that holds the three tables. */
module Schema {
  import opened Common

  /** One decoded request value. Money is counted in cents: `Decimal` is a
      number written with a fractional part, held to cent precision. */
  datatype Value = Text(s: string) | Whole(n: int) | Decimal(cents: int) | Null

  /** A request body or query string: key to value; a missing key is absent. */
  type Fields = map<string, Value>

  function Get(input: Fields, k: string): Option<Value> {
    if k in input then Some(input[k]) else None
  }

  /** A row of `products`; `price` in cents. */
  datatype Product = Product(id: int, name: string, sku: string, price: int, stock: int)

  function ProductId(p: Product): int { p.id }

  predicate HasId(products: seq<Product>, id: int) {
    exists k :: 0 <= k < |products| && products[k].id == id
  }

  /** Position of the first product with id `id` (`Product::find`). */
  function Find(products: seq<Product>, id: int): (r: Option<nat>)
    ensures r.Some? ==> r.value < |products| && products[r.value].id == id
    ensures r.Some? ==> forall j :: 0 <= j < r.value ==> products[j].id != id
    ensures r.None? <==> forall j :: 0 <= j < |products| ==> products[j].id != id
  {
    if products == [] then None
    else if products[0].id == id then Some(0)
    else match Find(products[1..], id)
      case None => None
      case Some(i) => Some(i + 1)
  }

  predicate UniqueIds(products: seq<Product>) {
    forall i, j :: 0 <= i < j < |products| ==> products[i].id != products[j].id
  }

  /** The only status order placement produces. */
  datatype Status = Pending

  /** A row of `orders`; `total` in cents, `createdAt` a timestamp. */
  datatype OrderRow = OrderRow(id: int, userId: int, total: int, status: Status, createdAt: int)

  /** Position of the first order with id `id` (`Order::find`). */
  function FindOrder(orders: seq<OrderRow>, id: int): (r: Option<nat>)
    ensures r.Some? ==> r.value < |orders| && orders[r.value].id == id
    ensures r.Some? ==> forall j :: 0 <= j < r.value ==> orders[j].id != id
    ensures r.None? <==> forall j :: 0 <= j < |orders| ==> orders[j].id != id
  {
    if orders == [] then None
    else if orders[0].id == id then Some(0)
    else match FindOrder(orders[1..], id)
      case None => None
      case Some(i) => Some(i + 1)
  }

  function CreatedAt(o: OrderRow): int { o.createdAt }

  /** What an order line records: the product, the quantity and the unit price copied at placement. */
  datatype Line = Line(productId: int, qty: int, unitPrice: int)

  /** A row of `order_items`. */
  datatype ItemRow = ItemRow(orderId: int, line: Line)

  function LineTotal(l: Line): int { l.unitPrice * l.qty }

  /** Sum of `unit_price * qty` over the lines. */
  function LinesTotal(lines: seq<Line>): int {
    if lines == [] then 0 else LinesTotal(lines[..|lines| - 1]) + LineTotal(lines[|lines| - 1])
  }

  /** The lines of one order, in insertion order (`$order->items`). */
  function LinesOf(rows: seq<ItemRow>, orderId: int): seq<Line> {
    if rows == [] then []
    else
      var last := rows[|rows| - 1];
      LinesOf(rows[..|rows| - 1], orderId) + (if last.orderId == orderId then [last.line] else [])
  }

  /** An id no row refers to has no lines. */
  lemma {:induction false} LinesOfAbsent(rows: seq<ItemRow>, id: int)
    requires forall k :: 0 <= k < |rows| ==> rows[k].orderId != id
    ensures LinesOf(rows, id) == []
  {
    if rows != [] {
      LinesOfAbsent(rows[..|rows| - 1], id);
    }
  }

  /** `after` is `before` followed by one row of order `orderId` per line,
      in the order of `lines`. */
  ghost predicate Appended(before: seq<ItemRow>, after: seq<ItemRow>, orderId: int, lines: seq<Line>) {
    && |after| == |before| + |lines|
    && after[..|before|] == before
    && forall m :: |before| <= m < |after| ==> after[m] == ItemRow(orderId, lines[m - |before|])
  }

  /** Appending the rows of a new order gives that order exactly its lines
      and leaves the lines of every other order as they were. */
  lemma {:induction false} AppendedLinesOf(before: seq<ItemRow>, after: seq<ItemRow>, orderId: int, lines: seq<Line>)
    requires Appended(before, after, orderId, lines)
    requires forall k :: 0 <= k < |before| ==> before[k].orderId != orderId
    ensures LinesOf(after, orderId) == lines
    ensures forall id :: id != orderId ==> LinesOf(after, id) == LinesOf(before, id)
  {
    if lines == [] {
      assert after == after[..|before|];
      LinesOfAbsent(before, orderId);
    } else {
      var init := after[..|after| - 1];
      var initLines := lines[..|lines| - 1];
      assert init[..|before|] == before;
      assert Appended(before, init, orderId, initLines);
      AppendedLinesOf(before, init, orderId, initLines);
      assert after[|after| - 1] == ItemRow(orderId, lines[|lines| - 1]);
      assert lines == initLines + [lines[|lines| - 1]];
    }
  }

  /** What the products table always satisfies: positive auto-increment ids
      below the next id, unique ids and skus, non-negative price and stock. */
  predicate CatalogValid(products: seq<Product>, nextId: int) {
    && nextId >= 1
    && (forall i :: 0 <= i < |products| ==>
          1 <= products[i].id < nextId && products[i].price >= 0 && products[i].stock >= 0)
    && (forall i, j :: 0 <= i < j < |products| ==>
          products[i].id != products[j].id && products[i].sku != products[j].sku)
  }

  /** What the orders tables always satisfy: unique ids below the next id,
      every order PENDING with at least one line and a total equal to the sum
      of its lines, every line row belonging to an id already handed out and
      carrying a positive quantity. */
  predicate OrdersValid(orders: seq<OrderRow>, items: seq<ItemRow>, nextId: int) {
    && nextId >= 1
    && (forall i :: 0 <= i < |orders| ==>
          1 <= orders[i].id < nextId && orders[i].status == Pending
          && LinesOf(items, orders[i].id) != []
          && orders[i].total == LinesTotal(LinesOf(items, orders[i].id)))
    && (forall i, j :: 0 <= i < j < |orders| ==> orders[i].id != orders[j].id)
    && (forall k :: 0 <= k < |items| ==> items[k].orderId < nextId && items[k].line.qty >= 1)
  }

  /** Adding a fresh order whose line rows were appended after the existing
      ones keeps the orders invariant. */
  lemma {:induction false} AddOrderKeepsValid(orders: seq<OrderRow>, items: seq<ItemRow>, nextId: int, o: OrderRow, items': seq<ItemRow>)
    requires OrdersValid(orders, items, nextId)
    requires o.id == nextId && o.status == Pending
    requires LinesOf(items', o.id) != [] && o.total == LinesTotal(LinesOf(items', o.id))
    requires forall i :: 0 <= i < |orders| ==> LinesOf(items', orders[i].id) == LinesOf(items, orders[i].id)
    requires forall k :: 0 <= k < |items'| ==> items'[k].orderId < nextId + 1 && items'[k].line.qty >= 1
    ensures OrdersValid(orders + [o], items', nextId + 1)
  {
    var orders' := orders + [o];
    forall i | 0 <= i < |orders'|
      ensures 1 <= orders'[i].id < nextId + 1 && orders'[i].status == Pending
      ensures LinesOf(items', orders'[i].id) != []
      ensures orders'[i].total == LinesTotal(LinesOf(items', orders'[i].id))
    {
      if i < |orders| { assert orders'[i] == orders[i]; }
    }
  }

  /** The three tables and their auto-increment counters. */
  class Db {
    var products: seq<Product>
    var nextProductId: int
    var orders: seq<OrderRow>
    var orderItems: seq<ItemRow>
    var nextOrderId: int

    ghost predicate Valid()
      reads this
    {
      CatalogValid(products, nextProductId) && OrdersValid(orders, orderItems, nextOrderId)
    }

    constructor ()
      ensures Valid()
      ensures products == [] && orders == [] && orderItems == []
      ensures nextProductId == 1 && nextOrderId == 1
    {
      products, orders, orderItems := [], [], [];
      nextProductId, nextOrderId := 1, 1;
    }
  }
}
