/** `UpdateProductRequest`: who may update a product, and which request bodies
    the update rules accept. Every rule is prefixed by `sometimes`, so a key
    that is absent is not validated at all. */
module UpdateProductRequest {
  import opened Common
  import opened Schema
  import opened Rules

  /** Every authenticated caller may update products. */
  function Authorize(): (b: bool)
    ensures b
  {
    true
  }

  /** The validated input of an update: a field is `Some` exactly when its
      key was sent. */
  datatype Patch = Patch(name: Option<string>, sku: Option<string>, price: Option<int>, stock: Option<int>)

  /** `sometimes|...`: an absent key passes, a present one must satisfy `rule`. */
  predicate Sometimes(input: Fields, k: string, rule: bool) {
    k in input ==> rule
  }

  /** The keys whose rules reject `input`, for the product whose route id is `id`. */
  function Failing(input: Fields, products: seq<Product>, id: int): set<FieldKey> {
    (if Sometimes(input, "name", ValidName(Get(input, "name"))) then {} else {Key("name")})
    + (if Sometimes(input, "sku", ValidSku(Get(input, "sku"), products, Some(id))) then {} else {Key("sku")})
    + (if Sometimes(input, "price", ValidPrice(Get(input, "price"))) then {} else {Key("price")})
    + (if Sometimes(input, "stock", ValidStock(Get(input, "stock"))) then {} else {Key("stock")})
  }

  function Field<T>(input: Fields, k: string, decode: Value -> T): Option<T> {
    if k in input then Some(decode(input[k])) else None
  }

  function TextOf(v: Value): string { if v.Text? then v.s else "" }
  function WholeOf(v: Value): int { if v.Whole? then v.n else 0 }
  function CentsOf(v: Value): int { if Numeric(v) then Cents(v) else 0 }

  /** `$request->validated()` for the update rules of the product with route
      id `id`: the fields that were sent, when each passes its rule; the sku
      must be unused by every product except that one. */
  function Validate(input: Fields, products: seq<Product>, id: int): (r: Result<Patch>)
    ensures r.Ok? <==>
              && ("name" in input ==> ValidName(Get(input, "name")))
              && ("sku" in input ==> ValidSku(Get(input, "sku"), products, Some(id)))
              && ("price" in input ==> ValidPrice(Get(input, "price")))
              && ("stock" in input ==> ValidStock(Get(input, "stock")))
    ensures input == map[] ==> r == Ok(Patch(None, None, None, None))
    ensures r.Ok? ==>
              && (r.value.name.Some? <==> "name" in input)
              && (r.value.name.Some? ==> input["name"] == Text(r.value.name.value) && 0 < |r.value.name.value| <= 255)
              && (r.value.sku.Some? <==> "sku" in input)
              && (r.value.sku.Some? ==>
                    && input["sku"] == Text(r.value.sku.value) && 0 < |r.value.sku.value| <= 100
                    && forall k :: 0 <= k < |products| && products[k].id != id ==> products[k].sku != r.value.sku.value)
              && (r.value.price.Some? <==> "price" in input)
              && (r.value.price.Some? ==>
                    && Numeric(input["price"]) && Cents(input["price"]) == r.value.price.value
                    && r.value.price.value >= 0)
              && (r.value.stock.Some? <==> "stock" in input)
              && (r.value.stock.Some? ==> input["stock"] == Whole(r.value.stock.value) && r.value.stock.value >= 0)
    ensures r.Err? ==> r.error.ValidationFailed? && r.error.fields != {}
    ensures r.Err? ==>
              forall f :: f in r.error.fields ==> f.Key? && f.name in input
    ensures r.Err? ==>
              && (Key("name") in r.error.fields <==> "name" in input && !ValidName(Get(input, "name")))
              && (Key("sku") in r.error.fields <==> "sku" in input && !ValidSku(Get(input, "sku"), products, Some(id)))
              && (Key("price") in r.error.fields <==> "price" in input && !ValidPrice(Get(input, "price")))
              && (Key("stock") in r.error.fields <==> "stock" in input && !ValidStock(Get(input, "stock")))
  {
    var failing := Failing(input, products, id);
    if failing == {} then
      assert Key("name") !in failing && Key("sku") !in failing;
      assert Key("price") !in failing && Key("stock") !in failing;
      Ok(Patch(Field(input, "name", TextOf), Field(input, "sku", TextOf),
               Field(input, "price", CentsOf), Field(input, "stock", WholeOf)))
    else
      Err(ValidationFailed(failing))
  }

  /** Sending a product's own sku back passes the `unique` rule, since the
      rule ignores the row being updated; the same sku under a create is
      rejected. */
  lemma {:induction false} OwnSkuAccepted(products: seq<Product>, nextId: int, k: nat)
    requires CatalogValid(products, nextId) && k < |products|
    requires !Blank(products[k].sku) && |products[k].sku| <= 100
    ensures Validate(map["sku" := Text(products[k].sku)], products, products[k].id) ==
            Ok(Patch(None, Some(products[k].sku), None, None))
  {
    var s := products[k].sku;
    forall j | 0 <= j < |products| && Some(products[j].id) != Some(products[k].id)
      ensures products[j].sku != s
    {
      assert j != k;
      if j < k {
        assert products[j].sku != products[k].sku;
      } else {
        assert products[k].sku != products[j].sku;
      }
    }
    assert ValidSku(Get(map["sku" := Text(s)], "sku"), products, Some(products[k].id));
  }
}
