/** The Laravel validation rules the request classes use, each on one decoded
    input value (`None` when the key is absent), and the field rules built
    from them. */
module Rules {
  import opened Common
  import opened Schema

  /** The characters PHP's `trim` strips: space, tab, line feed, carriage
      return, NUL and vertical tab. */
  predicate IsTrimmed(c: char) {
    c == ' ' || c == '\t' || c == '\n' || c == '\r' || c as int == 0 || c as int == 11
  }

  /** A string that `trim` turns into the empty string. */
  predicate Blank(s: string) {
    forall i :: 0 <= i < |s| ==> IsTrimmed(s[i])
  }

  /** `required`: the key is present, and its value is neither null nor a
      string that trims to nothing. */
  predicate Required(v: Option<Value>) {
    v.Some? && v.value != Null && !(v.value.Text? && Blank(v.value.s))
  }

  /** `string|max:n`: a string of at most `n` characters. */
  predicate StringMax(v: Value, n: nat) {
    v.Text? && |v.s| <= n
  }

  /** `numeric`: a number, whole or with a fractional part. */
  predicate Numeric(v: Value) {
    v.Whole? || v.Decimal?
  }

  /** The amount in cents a numeric value stands for. */
  function Cents(v: Value): int
    requires Numeric(v)
  {
    if v.Whole? then v.n * 100 else v.cents
  }

  /** `integer`: a whole number. */
  predicate Integer(v: Value) {
    v.Whole?
  }

  /** `unique:products,sku[,ignore]`: no product, other than the one whose id
      is `ignore`, has this sku. */
  predicate UniqueSku(s: string, products: seq<Product>, ignore: Option<int>) {
    forall k :: 0 <= k < |products| && Some(products[k].id) != ignore ==> products[k].sku != s
  }

  /** `name`: `required|string|max:255`. */
  predicate ValidName(v: Option<Value>) {
    Required(v) && StringMax(v.value, 255)
  }

  /** `sku`: `required|string|max:100|unique:products,sku[,ignore]`. */
  predicate ValidSku(v: Option<Value>, products: seq<Product>, ignore: Option<int>) {
    Required(v) && StringMax(v.value, 100) && UniqueSku(v.value.s, products, ignore)
  }

  /** `price`: `required|numeric|min:0`. */
  predicate ValidPrice(v: Option<Value>) {
    Required(v) && Numeric(v.value) && Cents(v.value) >= 0
  }

  /** `stock`: `required|integer|min:0`. */
  predicate ValidStock(v: Option<Value>) {
    Required(v) && Integer(v.value) && v.value.n >= 0
  }
}
