/** `OrderController`: placing an order (request validation, then, inside one
    transaction, the stock-check and decrement loop, the order header and its
    lines), the caller's own order list, and lookup by id. */
module OrderController {
  import opened Common
  import opened Schema
  import opened Listing
  import opened Rules

  // ---------------------------------------------------------------------
  // Request validation

  /** One element of the `items` array as sent; either key may be missing
      (an element that is not an object has neither). */
  datatype RawItem = RawItem(productId: Option<Value>, qty: Option<Value>)

  /** One validated element of `items`. */
  datatype Item = Item(productId: int, qty: int)

  /** `items.*.product_id`: `required|exists:products,id`. */
  predicate ValidProductRef(v: Option<Value>, products: seq<Product>) {
    Required(v) && v.value.Whole? && HasId(products, v.value.n)
  }

  /** `items.*.qty`: `required|integer|min:1`. */
  predicate ValidQty(v: Option<Value>) {
    Required(v) && Integer(v.value) && v.value.n >= 1
  }

  predicate ValidItem(raw: RawItem, products: seq<Product>) {
    ValidProductRef(raw.productId, products) && ValidQty(raw.qty)
  }

  /** The element keys (`items.i.product_id`, `items.i.qty`) whose rules fail. */
  function ElementErrors(raw: seq<RawItem>, products: seq<Product>): set<FieldKey> {
    (set i | 0 <= i < |raw| && !ValidProductRef(raw[i].productId, products) :: ElementKey("items", i, "product_id"))
    + (set i | 0 <= i < |raw| && !ValidQty(raw[i].qty) :: ElementKey("items", i, "qty"))
  }

  function Decode(raw: seq<RawItem>, products: seq<Product>): (r: seq<Item>)
    requires forall i :: 0 <= i < |raw| ==> ValidItem(raw[i], products)
    ensures |r| == |raw|
    ensures forall i :: 0 <= i < |raw| ==> raw[i] == RawItem(Some(Whole(r[i].productId)), Some(Whole(r[i].qty)))
  {
    if raw == [] then []
    else
      assert ValidItem(raw[0], products);
      [Item(raw[0].productId.value.n, raw[0].qty.value.n)] + Decode(raw[1..], products)
  }

  /** `$request->validate(...)` of `store`: `items` must be a non-empty array
      (`None` stands for a missing, null or non-array value) whose every
      element names an existing product and a whole quantity of at least 1.
      Failures list `items` alone when the array itself is rejected, and
      otherwise exactly the element keys that failed. */
  function Validate(items: Option<seq<RawItem>>, products: seq<Product>): (r: Result<seq<Item>>)
    ensures r.Ok? <==>
              items.Some? && |items.value| >= 1
              && forall i :: 0 <= i < |items.value| ==> ValidItem(items.value[i], products)
    ensures r.Ok? ==>
              && |r.value| == |items.value|
              && forall i :: 0 <= i < |r.value| ==>
                   && items.value[i] == RawItem(Some(Whole(r.value[i].productId)), Some(Whole(r.value[i].qty)))
                   && HasId(products, r.value[i].productId) && r.value[i].qty >= 1
    ensures r.Err? ==> r.error.ValidationFailed? && r.error.fields != {}
    ensures r.Err? && (items.None? || items.value == []) ==> r.error.fields == {Key("items")}
    ensures r.Err? && items.Some? && items.value != [] ==>
              forall i :: 0 <= i < |items.value| ==>
                && (ElementKey("items", i, "product_id") in r.error.fields <==>
                      !ValidProductRef(items.value[i].productId, products))
                && (ElementKey("items", i, "qty") in r.error.fields <==> !ValidQty(items.value[i].qty))
    ensures r.Err? && items.Some? && items.value != [] ==>
              forall f :: f in r.error.fields ==>
                f.ElementKey? && f.list == "items" && f.index < |items.value| && (f.name == "product_id" || f.name == "qty")
  {
    if items.None? || items.value == [] then Err(ValidationFailed({Key("items")}))
    else
      var errors := ElementErrors(items.value, products);
      if errors == {} then
        assert forall i :: 0 <= i < |items.value| ==> ValidItem(items.value[i], products) by {
          forall i | 0 <= i < |items.value| ensures ValidItem(items.value[i], products) {
            assert ElementKey("items", i, "product_id") !in errors;
            assert ElementKey("items", i, "qty") !in errors;
          }
        }
        Ok(Decode(items.value, products))
      else
        Err(ValidationFailed(errors))
  }

  // ---------------------------------------------------------------------
  // The stock-check and decrement loop, as a function of the items

  /** The state of the placement loop: the product table as decremented so
      far, the lines prepared so far, and the running total. */
  datatype Reservation = Reservation(products: seq<Product>, lines: seq<Line>, total: int)

  /** One pass of the loop: re-read the product, reject the line when its
      stock is below the quantity, else add `price * qty` to the total,
      snapshot the line and decrement the stock. */
  function Step(res: Reservation, item: Item): Result<Reservation> {
    match Find(res.products, item.productId)
    case None => Err(MissingProduct(item.productId))
    case Some(k) =>
      var p := res.products[k];
      if p.stock < item.qty then Err(InsufficientStock(p.name))
      else Ok(Reservation(res.products[k := p.(stock := p.stock - item.qty)],
                          res.lines + [Line(p.id, item.qty, p.price)],
                          res.total + p.price * item.qty))
  }

  /** The loop over `items` in request order; the first failing line ends it. */
  function Reserve(products: seq<Product>, items: seq<Item>): Result<Reservation> {
    if items == [] then Ok(Reservation(products, [], 0))
    else
      match Reserve(products, items[..|items| - 1])
      case Err(e) => Err(e)
      case Ok(res) => Step(res, items[|items| - 1])
  }

  /** The total quantity the items ask of product `id`. */
  function Demand(items: seq<Item>, id: int): int {
    if items == [] then 0
    else Demand(items[..|items| - 1], id) + (if items[|items| - 1].productId == id then items[|items| - 1].qty else 0)
  }

  /** Once a prefix of the items fails, the whole loop fails the same way. */
  lemma {:induction false} ReserveErrPersists(products: seq<Product>, items: seq<Item>, n: nat)
    requires n <= |items| && Reserve(products, items[..n]).Err?
    ensures Reserve(products, items) == Reserve(products, items[..n])
  {
    if n == |items| {
      assert items[..n] == items;
    } else {
      var init := items[..|items| - 1];
      assert init[..n] == items[..n];
      ReserveErrPersists(products, init, n);
    }
  }

  /** On success each product's stock has dropped by exactly the quantity
      the items ask of it, and nothing else about any product changed; a
      product the items do not name is untouched. */
  lemma {:induction false} ReserveStock(products: seq<Product>, items: seq<Item>)
    requires UniqueIds(products) && Reserve(products, items).Ok?
    ensures var after := Reserve(products, items).value.products;
            && |after| == |products|
            && forall k :: 0 <= k < |products| ==>
                 after[k] == products[k].(stock := products[k].stock - Demand(items, products[k].id))
  {
    if items != [] {
      var init, last := items[..|items| - 1], items[|items| - 1];
      ReserveStock(products, init);
      var res := Reserve(products, init).value;
      var k :| Find(res.products, last.productId) == Some(k);
      var after := Reserve(products, items).value.products;
      assert after == res.products[k := res.products[k].(stock := res.products[k].stock - last.qty)];
      forall m | 0 <= m < |products|
        ensures after[m] == products[m].(stock := products[m].stock - Demand(items, products[m].id))
      {
        if m != k {
          assert products[m].id != products[k].id;
        }
      }
    }
  }

  /** A successful loop never leaves a stock below zero when none was. */
  lemma {:induction false} ReserveNonNegative(products: seq<Product>, items: seq<Item>)
    requires forall k :: 0 <= k < |products| ==> products[k].stock >= 0
    requires Reserve(products, items).Ok?
    ensures var after := Reserve(products, items).value.products;
            forall k :: 0 <= k < |after| ==> after[k].stock >= 0
  {
    if items != [] {
      ReserveNonNegative(products, items[..|items| - 1]);
    }
  }

  /** On success, the loop prepared one line per item, in request order,
      carrying the item's product and quantity and the price that product
      had; every item's product exists. */
  lemma {:induction false} ReserveLines(products: seq<Product>, items: seq<Item>)
    requires UniqueIds(products) && Reserve(products, items).Ok?
    ensures var lines := Reserve(products, items).value.lines;
            && |lines| == |items|
            && (forall i :: 0 <= i < |items| ==>
                  lines[i].productId == items[i].productId && lines[i].qty == items[i].qty
                  && HasId(products, items[i].productId))
            && (forall i, k :: 0 <= i < |items| && 0 <= k < |products| && products[k].id == items[i].productId ==>
                  lines[i].unitPrice == products[k].price)
  {
    if items != [] {
      var init, last := items[..|items| - 1], items[|items| - 1];
      ReserveLines(products, init);
      ReserveStock(products, init);
      var res := Reserve(products, init).value;
      var k :| Find(res.products, last.productId) == Some(k);
      var lines := Reserve(products, items).value.lines;
      assert lines == res.lines + [Line(res.products[k].id, last.qty, res.products[k].price)];
      assert res.products[k].id == products[k].id && res.products[k].price == products[k].price;
      forall i, m | 0 <= i < |items| && 0 <= m < |products| && products[m].id == items[i].productId
        ensures lines[i].unitPrice == products[m].price
      {
        if i == |items| - 1 {
          assert m == k;
        } else {
          assert items[i] == init[i];
        }
      }
      forall i | 0 <= i < |items|
        ensures lines[i].productId == items[i].productId && lines[i].qty == items[i].qty
        ensures HasId(products, items[i].productId)
      {
        if i < |items| - 1 { assert items[i] == init[i]; }
      }
    }
  }

  /** On success there is one line per item, each with the item's quantity. */
  lemma {:induction false} ReserveLineCount(products: seq<Product>, items: seq<Item>)
    requires Reserve(products, items).Ok?
    ensures var lines := Reserve(products, items).value.lines;
            |lines| == |items| && forall i :: 0 <= i < |items| ==> lines[i].qty == items[i].qty
  {
    if items != [] {
      var init := items[..|items| - 1];
      ReserveLineCount(products, init);
      forall i | 0 <= i < |items| - 1 ensures items[i] == init[i] { }
    }
  }

  /** On success, the total is the sum of `unit_price * qty` over the lines. */
  lemma {:induction false} ReserveTotal(products: seq<Product>, items: seq<Item>)
    requires Reserve(products, items).Ok?
    ensures Reserve(products, items).value.total == LinesTotal(Reserve(products, items).value.lines)
  {
    if items != [] {
      ReserveTotal(products, items[..|items| - 1]);
      var res := Reserve(products, items[..|items| - 1]).value;
      var lines := Reserve(products, items).value.lines;
      assert lines[..|lines| - 1] == res.lines;
    }
  }

  /** The loop succeeds exactly when no product is asked for more than its
      stock in total: since a later line for the same product sees the stock
      the earlier ones left, splitting a quantity over several lines changes
      nothing. */
  lemma {:induction false} ReserveSucceedsIff(products: seq<Product>, items: seq<Item>)
    requires UniqueIds(products)
    requires forall k :: 0 <= k < |products| ==> products[k].stock >= 0
    requires forall i :: 0 <= i < |items| ==> HasId(products, items[i].productId) && items[i].qty >= 0
    ensures Reserve(products, items).Ok? <==>
            forall k :: 0 <= k < |products| ==> Demand(items, products[k].id) <= products[k].stock
  {
    if items != [] {
      var init, last := items[..|items| - 1], items[|items| - 1];
      assert forall i :: 0 <= i < |init| ==> init[i] == items[i];
      ReserveSucceedsIff(products, init);
      assert HasId(products, last.productId);
      var j :| 0 <= j < |products| && products[j].id == last.productId;
      assert forall k :: 0 <= k < |products| && k != j ==> Demand(items, products[k].id) == Demand(init, products[k].id);
      assert Demand(items, products[j].id) == Demand(init, products[j].id) + last.qty;
      if Reserve(products, init).Ok? {
        LastStep(products, items, j);
      } else {
        var k :| 0 <= k < |products| && Demand(init, products[k].id) > products[k].stock;
        assert Demand(items, products[k].id) > products[k].stock;
      }
    }
  }

  /** When every line but the last reserves, the last one does exactly when
      its product's stock covers all the items ask of it. */
  lemma {:induction false} LastStep(products: seq<Product>, items: seq<Item>, j: nat)
    requires UniqueIds(products) && items != [] && Reserve(products, items[..|items| - 1]).Ok?
    requires j < |products| && products[j].id == items[|items| - 1].productId
    ensures Reserve(products, items).Ok? <==> Demand(items, products[j].id) <= products[j].stock
  {
    var init, last := items[..|items| - 1], items[|items| - 1];
    ReserveStock(products, init);
    var res := Reserve(products, init).value;
    var k :| Find(res.products, last.productId) == Some(k);
    assert res.products[k].id == products[k].id;
    assert k == j;
  }

  /** When every item's product exists, a failed loop failed on stock: the
      error names the product of the first line the stock could not cover,
      whose demand up to that line exceeds its stock. */
  lemma {:induction false} ReserveFailure(products: seq<Product>, items: seq<Item>)
    requires UniqueIds(products)
    requires forall i :: 0 <= i < |items| ==> HasId(products, items[i].productId)
    requires Reserve(products, items).Err?
    ensures exists n, k :: 0 <= n < |items| && 0 <= k < |products| && products[k].id == items[n].productId
              && Reserve(products, items).error == InsufficientStock(products[k].name)
              && Reserve(products, items[..n]).Ok?
              && Demand(items[..n + 1], products[k].id) > products[k].stock
  {
    assert items[..|items|] == items;
    var n, k := Shortfall(products, items, |items|);
  }

  /** The line `n` and product `k` of `ReserveFailure`, for the loop over
      the first `len` items. */
  lemma {:induction false} Shortfall(products: seq<Product>, items: seq<Item>, len: nat) returns (n: nat, k: nat)
    requires UniqueIds(products) && len <= |items|
    requires forall i :: 0 <= i < |items| ==> HasId(products, items[i].productId)
    requires Reserve(products, items[..len]).Err?
    ensures n < len && k < |products| && products[k].id == items[n].productId
    ensures Reserve(products, items[..len]).error == InsufficientStock(products[k].name)
    ensures Reserve(products, items[..n]).Ok?
    ensures Demand(items[..n + 1], products[k].id) > products[k].stock
    decreases len
  {
    var pre := items[..len];
    assert pre[..len - 1] == items[..len - 1];
    if Reserve(products, items[..len - 1]).Err? {
      n, k := Shortfall(products, items, len - 1);
    } else {
      n := len - 1;
      k := LastLineShort(products, pre);
      assert items[..n + 1] == pre;
    }
  }

  /** When every line but the last reserves, the last one fails on the stock
      of its own product, which the items ask for more of than it holds. */
  lemma {:induction false} LastLineShort(products: seq<Product>, items: seq<Item>) returns (k: nat)
    requires UniqueIds(products) && items != []
    requires HasId(products, items[|items| - 1].productId)
    requires Reserve(products, items[..|items| - 1]).Ok? && Reserve(products, items).Err?
    ensures k < |products| && products[k].id == items[|items| - 1].productId
    ensures Reserve(products, items).error == InsufficientStock(products[k].name)
    ensures Demand(items, products[k].id) > products[k].stock
  {
    var init, last := items[..|items| - 1], items[|items| - 1];
    ReserveStock(products, init);
    var res := Reserve(products, init).value;
    k :| 0 <= k < |products| && products[k].id == last.productId;
    var j :| Find(res.products, last.productId) == Some(j);
    assert res.products[j].id == products[j].id;
    assert j == k;
  }

  /** The loop keeps the catalog invariant: ids, names, skus and prices stay
      and every stock stays non-negative. */
  lemma {:induction false} ReserveKeepsCatalog(products: seq<Product>, nextId: int, items: seq<Item>)
    requires CatalogValid(products, nextId) && Reserve(products, items).Ok?
    ensures CatalogValid(Reserve(products, items).value.products, nextId)
  {
    ReserveStock(products, items);
    ReserveNonNegative(products, items);
    var after := Reserve(products, items).value.products;
    forall i, j | 0 <= i < j < |after| ensures after[i].id != after[j].id && after[i].sku != after[j].sku {
      assert after[i].id == products[i].id && after[j].id == products[j].id;
    }
  }

  /** Two lines for the same product draw on one stock: each asks for 3 of
      the 5 in stock, and the second is rejected. */
  lemma {:induction false} SecondLineSeesDecrement()
    ensures var products := [Product(1, "Widget", "W-1", 1250, 5)];
            && Reserve(products, [Item(1, 3)]) ==
                 Ok(Reservation([Product(1, "Widget", "W-1", 1250, 2)], [Line(1, 3, 1250)], 3750))
            && Reserve(products, [Item(1, 3), Item(1, 3)]) == Err(InsufficientStock("Widget"))
  {
    var products := [Product(1, "Widget", "W-1", 1250, 5)];
    var one, two := [Item(1, 3)], [Item(1, 3), Item(1, 3)];
    assert one[..0] == [] && two[..1] == one;
    assert Find(products, 1) == Some(0);
    assert products[0 := products[0].(stock := 2)] == [Product(1, "Widget", "W-1", 1250, 2)];
    assert Reserve(products, one) == Step(Reservation(products, [], 0), Item(1, 3));
    var p := products[0];
    assert p.stock >= 3;
    assert [] + [Line(p.id, 3, p.price)] == [Line(1, 3, 1250)];
    assert Step(Reservation(products, [], 0), Item(1, 3)) ==
           Ok(Reservation(products[0 := p.(stock := p.stock - 3)], [] + [Line(p.id, 3, p.price)], 0 + p.price * 3));
    assert Find([Product(1, "Widget", "W-1", 1250, 2)], 1) == Some(0);
  }

  // ---------------------------------------------------------------------
  // The actions

  /** An order with its lines, as `store` and `show` return it. */
  datatype OrderView = OrderView(order: OrderRow, lines: seq<Line>)

  /** `store` for the authenticated `user` at time `now`. Invalid input is
      rejected before anything changes; valid input runs the transaction. */
  method Store(db: Db, user: int, items: Option<seq<RawItem>>, now: int) returns (r: Result<OrderView>)
    requires db.Valid()
    modifies db
    ensures db.Valid()
    ensures db.nextProductId == old(db.nextProductId)
    ensures match Validate(items, old(db.products))
            case Err(e) =>
              && r == Err(e) && db.products == old(db.products) && db.orders == old(db.orders)
              && db.orderItems == old(db.orderItems) && db.nextOrderId == old(db.nextOrderId)
            case Ok(its) =>
              Placed(old(db.products), old(db.orders), old(db.orderItems), old(db.nextOrderId), user, its, now,
                     r, db.products, db.orders, db.orderItems, db.nextOrderId)
  {
    var v := Validate(items, db.products);
    if v.Err? {
      return Err(v.error);
    }
    r := Place(db, user, v.value, now);
  }

  /** What the transaction of `store` leaves behind, from the tables before
      (`products`, `orders`, `rows`, `nextId`) to the tables after (primed).
      If any line fails, the error is returned and every table, including
      the stock already decremented for earlier lines, is as before. On
      success the products carry the decremented stock, one PENDING order
      of `user` with the loop's total is added under the next id, and its
      lines, appended after the existing line rows, are exactly the loop's
      lines in request order (see `PlacedShows`). */
  ghost predicate Placed(products: seq<Product>, orders: seq<OrderRow>, rows: seq<ItemRow>, nextId: int,
                         user: int, its: seq<Item>, now: int, r: Result<OrderView>,
                         products': seq<Product>, orders': seq<OrderRow>, rows': seq<ItemRow>, nextId': int)
  {
    match Reserve(products, its)
    case Err(e) =>
      r == Err(e) && products' == products && orders' == orders && rows' == rows && nextId' == nextId
    case Ok(res) =>
      var o := OrderRow(nextId, user, res.total, Pending, now);
      && r == Ok(OrderView(o, res.lines))
      && products' == res.products
      && orders' == orders + [o]
      && nextId' == nextId + 1
      && Appended(rows, rows', o.id, res.lines)
  }

  /** After a successful placement the new order has exactly the loop's
      lines, every other order keeps its own, and `show` finds the new order
      as `store` returned it. */
  lemma {:induction false} PlacedShows(products: seq<Product>, orders: seq<OrderRow>, rows: seq<ItemRow>, nextId: int,
                                       user: int, its: seq<Item>, now: int, r: Result<OrderView>,
                                       products': seq<Product>, orders': seq<OrderRow>, rows': seq<ItemRow>, nextId': int)
    requires OrdersValid(orders, rows, nextId)
    requires Placed(products, orders, rows, nextId, user, its, now, r, products', orders', rows', nextId')
    requires r.Ok?
    ensures LinesOf(rows', nextId) == r.value.lines
    ensures forall id :: id != nextId ==> LinesOf(rows', id) == LinesOf(rows, id)
    ensures Show(orders', rows', nextId) == r
  {
    var res := Reserve(products, its).value;
    var o := OrderRow(nextId, user, res.total, Pending, now);
    AppendedLinesOf(rows, rows', nextId, res.lines);
    ShowLatest(orders, o, rows');
  }

  /** The `DB::transaction` closure of `store`, over validated items: the
      stock loop, rolled back when it throws; then the order and its lines. */
  method Place(db: Db, user: int, its: seq<Item>, now: int) returns (r: Result<OrderView>)
    requires db.Valid()
    requires its != [] && forall i :: 0 <= i < |its| ==> its[i].qty >= 1
    modifies db
    ensures db.Valid()
    ensures db.nextProductId == old(db.nextProductId)
    ensures Placed(old(db.products), old(db.orders), old(db.orderItems), old(db.nextOrderId), user, its, now,
                   r, db.products, db.orders, db.orderItems, db.nextOrderId)
  {
    var savepoint := db.products;
    var reserved := TakeStock(db, its);
    if reserved.Err? {
      db.products := savepoint;
      return Err(reserved.error);
    }
    var res := reserved.value;
    var order := CreateOrder(db, user, res.total, res.lines, now);
    r := Ok(OrderView(order, res.lines));
    PlacedOk(savepoint, db.nextProductId, old(db.orders), old(db.orderItems), order.id, user, its, now,
             res, db.orderItems);
  }

  /** `Order::create` of a PENDING order for `user` with `total` under the
      next id, followed by its line rows; the products are untouched. */
  method CreateOrder(db: Db, user: int, total: int, lines: seq<Line>, now: int) returns (o: OrderRow)
    modifies db
    ensures o == OrderRow(old(db.nextOrderId), user, total, Pending, now)
    ensures db.products == old(db.products) && db.nextProductId == old(db.nextProductId)
    ensures db.orders == old(db.orders) + [o] && db.nextOrderId == old(db.nextOrderId) + 1
    ensures Appended(old(db.orderItems), db.orderItems, o.id, lines)
  {
    o := OrderRow(db.nextOrderId, user, total, Pending, now);
    db.orders := db.orders + [o];
    db.nextOrderId := db.nextOrderId + 1;
    SaveLines(db, o.id, lines);
  }

  /** A successful loop followed by the new order and its appended line
      rows is a successful `Placed`, and keeps both table invariants. */
  lemma {:induction false} PlacedOk(products: seq<Product>, nextProductId: int, orders: seq<OrderRow>,
                                    rows: seq<ItemRow>, nextId: int, user: int, its: seq<Item>, now: int,
                                    res: Reservation, rows': seq<ItemRow>)
    requires CatalogValid(products, nextProductId) && OrdersValid(orders, rows, nextId)
    requires its != [] && forall i :: 0 <= i < |its| ==> its[i].qty >= 1
    requires Reserve(products, its) == Ok(res)
    requires Appended(rows, rows', nextId, res.lines)
    ensures var o := OrderRow(nextId, user, res.total, Pending, now);
            && CatalogValid(res.products, nextProductId)
            && OrdersValid(orders + [o], rows', nextId + 1)
            && Placed(products, orders, rows, nextId, user, its, now, Ok(OrderView(o, res.lines)),
                      res.products, orders + [o], rows', nextId + 1)
  {
    ReserveKeepsCatalog(products, nextProductId, its);
    ReserveLineCount(products, its);
    ReserveTotal(products, its);
    var o := OrderRow(nextId, user, res.total, Pending, now);
    OrderAdded(orders, rows, o, rows', res.lines);
  }

  /** The `foreach` over the items: re-read each product, throw when its
      stock is below the quantity, else add to the total, prepare the line
      and decrement the stock in place. When it throws, the product table is
      left as far as the loop got; the caller rolls it back. */
  method TakeStock(db: Db, its: seq<Item>) returns (r: Result<Reservation>)
    modifies db`products
    ensures r == Reserve(old(db.products), its)
    ensures r.Ok? ==> db.products == r.value.products
  {
    ghost var start := db.products;
    var total := 0;
    var lines: seq<Line> := [];
    var i := 0;
    while i < |its|
      invariant 0 <= i <= |its|
      invariant Reserve(start, its[..i]) == Ok(Reservation(db.products, lines, total))
    {
      var item := its[i];
      assert its[..i + 1][..i] == its[..i];
      var found := Find(db.products, item.productId);
      if found.None? {
        ReserveErrPersists(start, its, i + 1);
        return Err(MissingProduct(item.productId));
      }
      var product := db.products[found.value];
      if product.stock < item.qty {
        ReserveErrPersists(start, its, i + 1);
        return Err(InsufficientStock(product.name));
      }
      total := total + product.price * item.qty;
      lines := lines + [Line(product.id, item.qty, product.price)];
      db.products := db.products[found.value := product.(stock := product.stock - item.qty)];
      i := i + 1;
    }
    assert its[..|its|] == its;
    return Ok(Reservation(db.products, lines, total));
  }

  /** Adding the new order and appending its line rows keeps the orders
      invariant, gives the new order exactly its lines and every other order
      its old ones, and `show` finds the new order. */
  lemma {:induction false} OrderAdded(orders: seq<OrderRow>, rows: seq<ItemRow>, o: OrderRow, rows': seq<ItemRow>,
                                      lines: seq<Line>)
    requires OrdersValid(orders, rows, o.id) && o.status == Pending
    requires lines != [] && o.total == LinesTotal(lines) && forall i :: 0 <= i < |lines| ==> lines[i].qty >= 1
    requires Appended(rows, rows', o.id, lines)
    ensures OrdersValid(orders + [o], rows', o.id + 1)
    ensures LinesOf(rows', o.id) == lines
    ensures forall id :: id != o.id ==> LinesOf(rows', id) == LinesOf(rows, id)
    ensures Show(orders + [o], rows', o.id) == Ok(OrderView(o, lines))
  {
    AppendedLinesOf(rows, rows', o.id, lines);
    forall m | 0 <= m < |rows'| ensures rows'[m].orderId < o.id + 1 && rows'[m].line.qty >= 1 {
      if m < |rows| {
        assert rows'[m] == rows[m];
      }
    }
    AddOrderKeepsValid(orders, rows, o.id, o, rows');
    ShowLatest(orders, o, rows');
  }

  /** `$order->items()->create($item)` for each prepared line, in order: one
      row per line, appended after the existing rows. */
  method SaveLines(db: Db, orderId: int, lines: seq<Line>)
    modifies db
    ensures db.products == old(db.products) && db.orders == old(db.orders)
    ensures db.nextOrderId == old(db.nextOrderId) && db.nextProductId == old(db.nextProductId)
    ensures Appended(old(db.orderItems), db.orderItems, orderId, lines)
  {
    ghost var before := db.orderItems;
    var j := 0;
    while j < |lines|
      invariant 0 <= j <= |lines|
      invariant Appended(before, db.orderItems, orderId, lines[..j])
      invariant db.products == old(db.products) && db.orders == old(db.orders)
      invariant db.nextOrderId == old(db.nextOrderId) && db.nextProductId == old(db.nextProductId)
    {
      db.orderItems := db.orderItems + [ItemRow(orderId, lines[j])];
      j := j + 1;
    }
    assert lines[..|lines|] == lines;
  }

  /** `show` (`findOrFail`): the order with that id and its lines, whichever
      user placed it; an unknown id is not-found. */
  function Show(orders: seq<OrderRow>, items: seq<ItemRow>, id: int): (r: Result<OrderView>)
    ensures r.Ok? <==> exists k :: 0 <= k < |orders| && orders[k].id == id
    ensures r.Ok? ==> r.value.order in orders && r.value.order.id == id && r.value.lines == LinesOf(items, id)
    ensures r.Err? ==> r.error == NotFound
  {
    match FindOrder(orders, id)
    case None => Err(NotFound)
    case Some(k) => Ok(OrderView(orders[k], LinesOf(items, id)))
  }

  /** An order appended with an id above every earlier one is what `show`
      finds under that id. */
  lemma {:induction false} ShowLatest(orders: seq<OrderRow>, o: OrderRow, items: seq<ItemRow>)
    requires forall k :: 0 <= k < |orders| ==> orders[k].id < o.id
    ensures Show(orders + [o], items, o.id) == Ok(OrderView(o, LinesOf(items, o.id)))
  {
    var all := orders + [o];
    assert all[|orders|].id == o.id;
    var k :| FindOrder(all, o.id) == Some(k);
    assert k == |orders|;
  }

  /** The caller's orders: `$request->user()->orders()`. */
  function Mine(orders: seq<OrderRow>, user: int): (r: seq<OrderRow>)
    ensures forall i :: 0 <= i < |r| ==> r[i] in orders && r[i].userId == user
    ensures forall i :: 0 <= i < |orders| && orders[i].userId == user ==> orders[i] in r
    ensures multiset(r) <= multiset(orders)
  {
    Where(orders, (o: OrderRow) => o.userId == user)
  }

  /** `index`: one page of the caller's orders, newest first, each with its lines. */
  function Index(orders: seq<OrderRow>, items: seq<ItemRow>, user: int, page: int): (r: seq<OrderView>)
    ensures |r| <= PerPage && |r| == PageSize(|Mine(orders, user)|, page)
    ensures forall k :: 0 <= k < |r| ==>
              r[k].order in orders && r[k].order.userId == user && r[k].lines == LinesOf(items, r[k].order.id)
    ensures forall i, j :: 0 <= i < j < |r| ==> r[i].order.createdAt >= r[j].order.createdAt
  {
    var mine := Mine(orders, user);
    var sorted := SortDesc(mine, CreatedAt);
    var rows := Page(sorted, page);
    PageOfSorted(sorted, CreatedAt, page);
    forall o | o in rows ensures o in orders && o.userId == user {
      assert o in multiset(sorted);
      assert o in mine;
      var i :| 0 <= i < |mine| && mine[i] == o;
    }
    WithLines(rows, items)
  }

  /** Each row paired with its lines (`with('items')`). */
  function WithLines(rows: seq<OrderRow>, items: seq<ItemRow>): (r: seq<OrderView>)
    ensures |r| == |rows|
    ensures forall k :: 0 <= k < |rows| ==> r[k] == OrderView(rows[k], LinesOf(items, rows[k].id))
  {
    if rows == [] then [] else [OrderView(rows[0], LinesOf(items, rows[0].id))] + WithLines(rows[1..], items)
  }

  /** Every order of the caller is on some page of `index`. */
  lemma {:induction false} IndexComplete(orders: seq<OrderRow>, items: seq<ItemRow>, user: int, o: OrderRow)
    requires o in orders && o.userId == user
    ensures exists page :: page >= 1 && OrderView(o, LinesOf(items, o.id)) in Index(orders, items, user, page)
  {
    var sorted := SortDesc(Mine(orders, user), CreatedAt);
    assert o in Mine(orders, user);
    assert o in multiset(Mine(orders, user));
    assert o in sorted;
    PageCovers(sorted, o);
    var page :| page >= 1 && o in Page(sorted, page);
    var rows := Page(sorted, page);
    var k :| 0 <= k < |rows| && rows[k] == o;
    assert Index(orders, items, user, page) == WithLines(rows, items);
  }

  /** The pages of `index` follow each other newest first: every order on an
      earlier page was created no earlier than every order on a later one. */
  lemma {:induction false} IndexPagesOrdered(orders: seq<OrderRow>, items: seq<ItemRow>, user: int, p: int, q: int)
    requires CurrentPage(p) < CurrentPage(q)
    ensures var a, b := Index(orders, items, user, p), Index(orders, items, user, q);
            forall i, j :: 0 <= i < |a| && 0 <= j < |b| ==> a[i].order.createdAt >= b[j].order.createdAt
  {
    var sorted := SortDesc(Mine(orders, user), CreatedAt);
    PagesOrdered(sorted, CreatedAt, p, q);
    var a, b := Index(orders, items, user, p), Index(orders, items, user, q);
    assert a == WithLines(Page(sorted, p), items) && b == WithLines(Page(sorted, q), items);
    forall i, j | 0 <= i < |a| && 0 <= j < |b| ensures a[i].order.createdAt >= b[j].order.createdAt {
      assert a[i].order == Page(sorted, p)[i] && b[j].order == Page(sorted, q)[j];
    }
  }
}
