/** `ProductController`: the catalog listing with its search filter, lookup by
    id, and the create, update and delete actions on the products table. */
module ProductController {
  import opened Common
  import opened Schema
  import opened Listing
  import StoreProductRequest
  import UpdateProductRequest

  /** PHP truthiness of the `search` query value: an absent value, `""` and
      `"0"` are falsy and apply no filter. */
  predicate Truthy(search: Option<string>) {
    search.Some? && search.value != "" && search.value != "0"
  }

  /** `t` occurs in `s` as a contiguous substring (`LIKE '%t%'`, read as an
      exact, case-sensitive substring test). */
  predicate Contains(s: string, t: string) {
    exists i :: 0 <= i <= |s| - |t| && OccursAt(s, t, i)
  }

  predicate OccursAt(s: string, t: string, i: nat) {
    i + |t| <= |s| && s[i..i + |t|] == t
  }

  /** The search condition: name or sku contains the term. */
  predicate Matches(p: Product, term: string) {
    Contains(p.name, term) || Contains(p.sku, term)
  }

  /** The rows the query keeps, in table order. */
  function Filter(products: seq<Product>, search: Option<string>): (r: seq<Product>)
    ensures forall p :: p in r <==> p in products && (Truthy(search) ==> Matches(p, search.value))
    ensures multiset(r) <= multiset(products)
    ensures !Truthy(search) ==> r == products
  {
    if Truthy(search) then Where(products, p => Matches(p, search.value)) else products
  }

  /** `index`: one page of the filtered products, highest id first. */
  function Index(products: seq<Product>, search: Option<string>, page: int): (r: seq<Product>)
    ensures |r| <= PerPage && |r| == PageSize(|Filter(products, search)|, page)
    ensures SortedDesc(r, ProductId)
    ensures forall p :: p in r ==> p in products && (Truthy(search) ==> Matches(p, search.value))
  {
    var sorted := SortDesc(Filter(products, search), ProductId);
    PageOfSorted(sorted, ProductId, page);
    assert forall p :: p in sorted ==> p in multiset(Filter(products, search));
    Page(sorted, page)
  }

  /** Every product the search keeps is on some page of the listing. */
  lemma {:induction false} IndexComplete(products: seq<Product>, search: Option<string>, p: Product)
    requires p in products && (Truthy(search) ==> Matches(p, search.value))
    ensures exists page :: page >= 1 && p in Index(products, search, page)
  {
    var sorted := SortDesc(Filter(products, search), ProductId);
    assert p in multiset(Filter(products, search));
    assert p in sorted;
    PageCovers(sorted, p);
    var page :| page >= 1 && p in Page(sorted, page);
    assert Index(products, search, page) == Page(sorted, page);
  }

  /** The pages of `index` follow each other in descending id order: every
      product on an earlier page has an id at least that of every product on
      a later one. */
  lemma {:induction false} IndexPagesOrdered(products: seq<Product>, search: Option<string>, p: int, q: int)
    requires CurrentPage(p) < CurrentPage(q)
    ensures var a, b := Index(products, search, p), Index(products, search, q);
            forall i, j :: 0 <= i < |a| && 0 <= j < |b| ==> a[i].id >= b[j].id
  {
    var sorted := SortDesc(Filter(products, search), ProductId);
    PagesOrdered(sorted, ProductId, p, q);
    assert Index(products, search, p) == Page(sorted, p) && Index(products, search, q) == Page(sorted, q);
  }

  /** `show` (`findOrFail`): the product with that id, or not-found. */
  function Show(products: seq<Product>, id: int): (r: Result<Product>)
    ensures r.Ok? <==> HasId(products, id)
    ensures r.Ok? ==> r.value.id == id && r.value in products
    ensures r.Err? ==> r.error == NotFound
  {
    match Find(products, id)
    case None => Err(NotFound)
    case Some(k) => Ok(products[k])
  }

  /** `$product->update($validated)`: the fields the patch carries overwrite
      the product's, the others and the id stay. */
  function ApplyPatch(p: Product, patch: UpdateProductRequest.Patch): (q: Product)
    ensures q.id == p.id
    ensures patch == UpdateProductRequest.Patch(None, None, None, None) ==> q == p
  {
    Product(p.id,
            if patch.name.Some? then patch.name.value else p.name,
            if patch.sku.Some? then patch.sku.value else p.sku,
            if patch.price.Some? then patch.price.value else p.price,
            if patch.stock.Some? then patch.stock.value else p.stock)
  }

  /** A product created from validated input keeps the catalog invariant:
      fresh id, unused sku, non-negative price and stock. */
  lemma {:induction false} CreateKeepsCatalog(products: seq<Product>, nextId: int, input: Fields)
    requires CatalogValid(products, nextId)
    requires StoreProductRequest.Validate(input, products).Ok?
    ensures var d := StoreProductRequest.Validate(input, products).value;
            CatalogValid(products + [Product(nextId, d.name, d.sku, d.price, d.stock)], nextId + 1)
  {
    var d := StoreProductRequest.Validate(input, products).value;
    var s := products + [Product(nextId, d.name, d.sku, d.price, d.stock)];
    forall i, j | 0 <= i < j < |s| ensures s[i].id != s[j].id && s[i].sku != s[j].sku {
      if j == |products| {
        assert s[i] == products[i];
      } else {
        assert s[i] == products[i] && s[j] == products[j];
      }
    }
  }

  /** An accepted update keeps the catalog invariant: the id stays, a new sku
      is unused by every other product, price and stock stay non-negative. */
  lemma {:induction false} UpdateKeepsCatalog(products: seq<Product>, nextId: int, k: nat, input: Fields)
    requires CatalogValid(products, nextId) && k < |products|
    requires UpdateProductRequest.Validate(input, products, products[k].id).Ok?
    ensures var patch := UpdateProductRequest.Validate(input, products, products[k].id).value;
            CatalogValid(products[k := ApplyPatch(products[k], patch)], nextId)
  {
    var patch := UpdateProductRequest.Validate(input, products, products[k].id).value;
    var q := ApplyPatch(products[k], patch);
    var s := products[k := q];
    forall i | 0 <= i < |s| ensures 1 <= s[i].id < nextId && s[i].price >= 0 && s[i].stock >= 0 {
      if i == k { assert products[k].price >= 0 && products[k].stock >= 0; }
    }
    forall i, j | 0 <= i < j < |s| ensures s[i].id != s[j].id && s[i].sku != s[j].sku {
      if i == k {
        assert products[j].id != products[k].id;
      } else if j == k {
        assert products[i].id != products[k].id;
      }
    }
  }

  /** Removing one row keeps the catalog invariant of the rest. */
  lemma {:induction false} RemoveKeepsCatalog(products: seq<Product>, nextId: int, k: nat)
    requires CatalogValid(products, nextId) && k < |products|
    ensures CatalogValid(products[..k] + products[k + 1..], nextId)
  {
    var s := products[..k] + products[k + 1..];
    assert forall i :: 0 <= i < |s| ==> s[i] == products[if i < k then i else i + 1];
  }

  /** Removing the row at `k` of a table with unique ids drops exactly the
      rows with that row's id, which is that one row. */
  lemma {:induction false} RemoveOne(products: seq<Product>, k: nat)
    requires UniqueIds(products) && k < |products|
    ensures forall q :: q in products[..k] + products[k + 1..] <==> q in products && q.id != products[k].id
  {
    var s := products[..k] + products[k + 1..];
    forall q ensures q in s <==> q in products && q.id != products[k].id {
      if q in s {
        var i :| 0 <= i < |s| && s[i] == q;
        if i < k {
          assert q == products[i];
        } else {
          assert q == products[i + 1];
        }
      }
      if q in products && q.id != products[k].id {
        var i :| 0 <= i < |products| && products[i] == q;
        if i < k {
          assert q == s[i];
        } else {
          assert s[i - 1] == products[i];
        }
      }
    }
  }

  /** Removing the row at `k` takes exactly that row out of the multiset of rows. */
  lemma {:induction false} RemovePermutes(products: seq<Product>, k: nat)
    requires k < |products|
    ensures multiset(products[..k] + products[k + 1..]) == multiset(products) - multiset{products[k]}
  {
    assert products == products[..k] + [products[k]] + products[k + 1..];
  }

  /** `store`: inserts one row with exactly the validated fields under the
      next auto-increment id; invalid input changes nothing. */
  method Store(db: Db, input: Fields) returns (r: Result<Product>)
    requires db.Valid()
    modifies db
    ensures db.Valid()
    ensures db.orders == old(db.orders) && db.orderItems == old(db.orderItems)
    ensures db.nextOrderId == old(db.nextOrderId)
    ensures match StoreProductRequest.Validate(input, old(db.products))
            case Err(e) =>
              r == Err(e) && db.products == old(db.products) && db.nextProductId == old(db.nextProductId)
            case Ok(d) =>
              && r == Ok(Product(old(db.nextProductId), d.name, d.sku, d.price, d.stock))
              && db.products == old(db.products) + [r.value]
              && db.nextProductId == old(db.nextProductId) + 1
  {
    var v := StoreProductRequest.Validate(input, db.products);
    if v.Err? {
      return Err(v.error);
    }
    var d := v.value;
    CreateKeepsCatalog(db.products, db.nextProductId, input);
    var p := Product(db.nextProductId, d.name, d.sku, d.price, d.stock);
    db.products := db.products + [p];
    db.nextProductId := db.nextProductId + 1;
    return Ok(p);
  }

  /** `update`: the input is validated first (ignoring the route id's own
      sku); then an unknown id is not-found; otherwise exactly that product
      takes the sent fields and every other row stays. */
  method Update(db: Db, id: int, input: Fields) returns (r: Result<Product>)
    requires db.Valid()
    modifies db
    ensures db.Valid()
    ensures db.orders == old(db.orders) && db.orderItems == old(db.orderItems)
    ensures db.nextOrderId == old(db.nextOrderId) && db.nextProductId == old(db.nextProductId)
    ensures match UpdateProductRequest.Validate(input, old(db.products), id)
            case Err(e) => r == Err(e) && db.products == old(db.products)
            case Ok(patch) =>
              if !HasId(old(db.products), id) then r == Err(NotFound) && db.products == old(db.products)
              else
                && r == Ok(ApplyPatch(Show(old(db.products), id).value, patch))
                && |db.products| == |old(db.products)|
                && forall j :: 0 <= j < |db.products| ==>
                     db.products[j] == if old(db.products)[j].id == id then ApplyPatch(old(db.products)[j], patch)
                                       else old(db.products)[j]
  {
    var v := UpdateProductRequest.Validate(input, db.products, id);
    if v.Err? {
      return Err(v.error);
    }
    var found := Find(db.products, id);
    if found.None? {
      return Err(NotFound);
    }
    var k := found.value;
    UpdateKeepsCatalog(db.products, db.nextProductId, k, input);
    var q := ApplyPatch(db.products[k], v.value);
    db.products := db.products[k := q];
    return Ok(q);
  }

  /** `destroy`: an unknown id is not-found and changes nothing; otherwise
      exactly the row with that id is removed and the others keep their order. */
  method Destroy(db: Db, id: int) returns (r: Outcome)
    requires db.Valid()
    modifies db
    ensures db.Valid()
    ensures db.orders == old(db.orders) && db.orderItems == old(db.orderItems)
    ensures db.nextOrderId == old(db.nextOrderId) && db.nextProductId == old(db.nextProductId)
    ensures match Show(old(db.products), id)
            case Err(e) => r == Failed(e) && db.products == old(db.products)
            case Ok(p) =>
              && r == Done
              && (forall q :: q in db.products <==> q in old(db.products) && q.id != id)
              && multiset(db.products) == multiset(old(db.products)) - multiset{p}
              && exists k :: 0 <= k < |old(db.products)| && old(db.products)[k] == p
                             && db.products == old(db.products)[..k] + old(db.products)[k + 1..]
  {
    var found := Find(db.products, id);
    if found.None? {
      return Failed(NotFound);
    }
    var k := found.value;
    RemoveKeepsCatalog(db.products, db.nextProductId, k);
    RemoveOne(db.products, k);
    RemovePermutes(db.products, k);
    db.products := db.products[..k] + db.products[k + 1..];
    return Done;
  }
}
