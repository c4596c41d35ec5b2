/** `StoreProductRequest`: who may create a product, and which request bodies
    the create rules accept. */
module StoreProductRequest {
  import opened Common
  import opened Schema
  import opened Rules

  /** Every authenticated caller may create products. */
  function Authorize(): (b: bool)
    ensures b
  {
    true
  }

  /** The validated input of a create: the four fillable columns, price in cents. */
  datatype ProductData = ProductData(name: string, sku: string, price: int, stock: int)

  /** The keys whose rules reject `input`. */
  function Failing(input: Fields, products: seq<Product>): set<FieldKey> {
    (if ValidName(Get(input, "name")) then {} else {Key("name")})
    + (if ValidSku(Get(input, "sku"), products, None) then {} else {Key("sku")})
    + (if ValidPrice(Get(input, "price")) then {} else {Key("price")})
    + (if ValidStock(Get(input, "stock")) then {} else {Key("stock")})
  }

  /** `$request->validated()` for the create rules: the four fields when every
      rule passes, otherwise a validation failure listing exactly the keys
      that failed. */
  function Validate(input: Fields, products: seq<Product>): (r: Result<ProductData>)
    ensures r.Ok? <==>
              ValidName(Get(input, "name")) && ValidSku(Get(input, "sku"), products, None)
              && ValidPrice(Get(input, "price")) && ValidStock(Get(input, "stock"))
    ensures r.Ok? ==>
              && Get(input, "name") == Some(Text(r.value.name)) && 0 < |r.value.name| <= 255
              && Get(input, "sku") == Some(Text(r.value.sku)) && 0 < |r.value.sku| <= 100
              && (forall k :: 0 <= k < |products| ==> products[k].sku != r.value.sku)
              && Numeric(input["price"]) && Cents(input["price"]) == r.value.price && r.value.price >= 0
              && input["stock"] == Whole(r.value.stock) && r.value.stock >= 0
    ensures r.Err? ==> r.error.ValidationFailed? && r.error.fields != {}
    ensures r.Err? ==>
              && (Key("name") in r.error.fields <==> !ValidName(Get(input, "name")))
              && (Key("sku") in r.error.fields <==> !ValidSku(Get(input, "sku"), products, None))
              && (Key("price") in r.error.fields <==> !ValidPrice(Get(input, "price")))
              && (Key("stock") in r.error.fields <==> !ValidStock(Get(input, "stock")))
              && r.error.fields <= {Key("name"), Key("sku"), Key("price"), Key("stock")}
  {
    var failing := Failing(input, products);
    if failing == {} then
      assert Key("name") !in failing && Key("sku") !in failing;
      assert Key("price") !in failing && Key("stock") !in failing;
      Ok(ProductData(input["name"].s, input["sku"].s, Cents(input["price"]), input["stock"].n))
    else
      Err(ValidationFailed(failing))
  }

  /** A sku already in the table is always rejected under `sku`. */
  lemma {:induction false} TakenSkuRejected(input: Fields, products: seq<Product>, k: nat)
    requires k < |products| && Get(input, "sku") == Some(Text(products[k].sku))
    ensures Validate(input, products).Err?
    ensures Key("sku") in Validate(input, products).error.fields
  {
    assert !UniqueSku(products[k].sku, products, None);
  }
}
