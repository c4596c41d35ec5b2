# Order management storefront — a Dafny model

This project models the core of a small storefront with a Laravel backend and a Vue frontend.

- **Order placement (`OrderController::store`).** The request's `items` array is validated first. Then, inside one database transaction, a loop walks the items in request order. For each item it:
  - re-reads the product;
  - rejects the item when the stock is below the quantity;
  - adds `price * qty` to the running total;
  - snapshots a line (`product_id`, `qty`, `unit_price`);
  - decrements the stock in place.

  After the loop it creates a PENDING order for the caller and saves one line row per snapshot. Any failure rolls the whole transaction back.
- **Order queries.** `index` lists the caller's orders, newest first, 10 per page. `show` finds an order by id or fails.
- **The product catalog (`ProductController`).**
  - `index`: a search on name or sku, highest id first, 10 per page.
  - `show`.
  - `store`: creates a product.
  - `update`: writes only the fields that were sent.
  - `destroy`.
- **The create and update request validators** (`StoreProductRequest`, `UpdateProductRequest`).
- **The client router.** A fixed route table with one redirect and a guard. The guard sends a navigation to a protected route without a token to `/login`.

## How the model is organised

Modules follow the program's structure:

- `Common`: result and error types.
- `Schema`: rows, table invariants and the `Db` class holding the three tables and their auto-increment counters.
- `Rules`: the Laravel validation rules used by the requests.
- `Listing`: `where`, `orderBy … desc` and `paginate(10)`.
- One module per core source file: `StoreProductRequest`, `UpdateProductRequest`, `ProductController`, `OrderController` and `Router`.

Money is integer cents. A request value is a `Schema.Value`: a string, a whole number, a number with a fractional part (held in cents), or null.

The actions that change the tables are methods on a `Db` object:

- **State changes.**
  - `OrderController.Store`, `Place`, `TakeStock`, `CreateOrder` and `SaveLines`.
  - `ProductController.Store`, `Update` and `Destroy`.
- **The stock loop.** `TakeStock` is a `while` loop that decrements `db.products` in place.
  - It is proved equal to the function `Reserve`, which steps through the items in request order.
  - What the source promises is proved as lemmas about `Reserve`: stock arithmetic, non-negative stock, request-ordered lines, the total, the success condition and the failure's product.
- **Rollback.** `Place` restores the product table from a snapshot when the loop fails.
- **The transaction's outcome.** The ghost predicate `Placed` states the outcome from the tables before to the tables after.
- **Queries and validators** are functions.

## Model

| member | source | states |
|---|---|---|
| OrderController.Validate | backend/app/Http/Controllers/OrderController.php:17-21 | Accepts exactly a present, non-empty `items` array whose every element has a whole `product_id` naming an existing product and a whole `qty` of at least 1. The decoded items match the elements one for one. A rejection is a validation failure. When the array is missing or empty it lists `items` alone. Otherwise it lists exactly the element keys (`items.i.product_id`, `items.i.qty`) whose rule failed, and no other key. |
| OrderController.Decode | backend/app/Http/Controllers/OrderController.php:17-21 | Decodes validated elements one for one, keeping each product id and quantity. |
| OrderController.Store | backend/app/Http/Controllers/OrderController.php:15-71 | Invalid input returns the validation error and leaves every table and counter as it was. Valid input gives the outcome of `Placed` for the validated items. Both table invariants hold afterwards, and the product counter is unchanged. |
| OrderController.Place | backend/app/Http/Controllers/OrderController.php:25-70 | The transaction over validated items ends in `Placed`. If any line fails, its error is returned and products, orders, line rows and the order counter are as before, earlier decrements included. On success the products carry the loop's decremented stock. One PENDING order of the user, with the loop's total, is added under the next id, and its line rows are appended. Both table invariants are kept. |
| OrderController.TakeStock | backend/app/Http/Controllers/OrderController.php:26-52 | The in-place loop returns exactly `Reserve` of the products before it. On success the product table is the reservation's table. |
| OrderController.CreateOrder | backend/app/Http/Controllers/OrderController.php:55-64 | Adds one PENDING order of `user` with `total` under the next id, then appends one line row per prepared line. Products are untouched. |
| OrderController.SaveLines | backend/app/Http/Controllers/OrderController.php:62-64 | One row per line is appended in line order after the existing line rows. No other table changes. |
| OrderController.PlacedOk | backend/app/Http/Controllers/OrderController.php:25-70 | A successful loop followed by the new order and its appended rows is a successful `Placed`. The catalog and orders invariants hold after it. |
| OrderController.PlacedShows | backend/app/Http/Controllers/OrderController.php:62-68 | After a successful placement the new order's lines are exactly the loop's lines, in request order. Every other order keeps its lines, and `show` of the new id returns what `store` returned. |
| OrderController.OrderAdded | backend/app/Http/Controllers/OrderController.php:55-64 | Adding the order and appending its rows keeps the orders invariant. The new order gets exactly its lines, other orders keep theirs, and `show` finds the new order. |
| OrderController.ReserveErrPersists | backend/app/Http/Controllers/OrderController.php:30-37 | Once a prefix of the items fails, the whole loop fails with that error. |
| OrderController.ReserveStock | backend/app/Http/Controllers/OrderController.php:33-51 | On success every product's stock fell by exactly the total quantity the items ask of it. Every other field of every product is unchanged, so a product the items do not name is untouched. |
| OrderController.ReserveNonNegative | backend/app/Http/Controllers/OrderController.php:33-37 | A successful loop leaves no stock below zero when none was. |
| OrderController.ReserveLines | backend/app/Http/Controllers/OrderController.php:44-48 | On success there is one line per item, in request order. Each line carries the item's product id and quantity and that product's price, and every item's product exists. |
| OrderController.ReserveLineCount | backend/app/Http/Controllers/OrderController.php:44-48 | On success there is one line per item, each with the item's quantity, whatever the table. |
| OrderController.ReserveTotal | backend/app/Http/Controllers/OrderController.php:26-41 | On success the total equals the sum of `unit_price * qty` over the lines. |
| OrderController.ReserveSucceedsIff | backend/app/Http/Controllers/OrderController.php:30-51 | With existing products and non-negative stock, the loop succeeds if and only if no product is asked, over all lines together, for more than its stock. Later lines see earlier decrements. |
| OrderController.LastStep | backend/app/Http/Controllers/OrderController.php:31-37 | When all lines but the last reserve, the last does exactly when its product's stock covers the product's total demand. |
| OrderController.ReserveFailure | backend/app/Http/Controllers/OrderController.php:33-37 | When every item's product exists, a failure is a stock error naming the product of the first line that could not be covered. Every line before it reserved, and that product's demand up to that line exceeds its stock. |
| OrderController.Shortfall | backend/app/Http/Controllers/OrderController.php:33-37 | Finds that first failing line and its product, for the loop over any prefix of the items. |
| OrderController.LastLineShort | backend/app/Http/Controllers/OrderController.php:31-37 | When only the last line fails, the error names its own product, whose total demand exceeds its stock. |
| OrderController.ReserveKeepsCatalog | backend/app/Http/Controllers/OrderController.php:51 | The loop keeps the catalog invariant: ids stay positive, unique and below the counter, skus stay unique, and price and stock stay non-negative. |
| OrderController.SecondLineSeesDecrement | backend/app/Http/Controllers/OrderController.php:30-51 | Two lines of 3 against a stock of 5: the first reserves and leaves 2, and the second is rejected with the product's name. |
| OrderController.Show | backend/app/Http/Controllers/OrderController.php:88 | Finds an order exactly when some order has that id, whoever placed it, and returns it with its lines. Otherwise the result is not-found. |
| OrderController.ShowLatest | backend/app/Http/Controllers/OrderController.php:88 | An order appended with an id above all earlier ones is what `show` returns under that id. |
| OrderController.Mine | backend/app/Http/Controllers/OrderController.php:76-77 | Keeps exactly the caller's orders, without inventing any. |
| OrderController.Index | backend/app/Http/Controllers/OrderController.php:76-80 | At most 10 orders, all the caller's, each with its own lines, in non-increasing `created_at` order. The page holds exactly as many as the caller's orders leave past the page's offset: 10, fewer on the last page, none past it. |
| OrderController.IndexPagesOrdered | backend/app/Http/Controllers/OrderController.php:79-80 | Across pages the listing is newest first: every order on an earlier page was created no earlier than every order on a later page. |
| OrderController.WithLines | backend/app/Http/Controllers/OrderController.php:78 | Pairs each order with exactly its own lines, in order. |
| OrderController.IndexComplete | backend/app/Http/Controllers/OrderController.php:76-80 | Every order of the caller appears, with its lines, on some page of `index`. |
| ProductController.Filter | backend/app/Http/Controllers/ProductController.php:17-19 | With a truthy search term, a product is kept exactly when its name or sku contains the term. With no term, `""` or `"0"`, the table is returned as is. |
| ProductController.Index | backend/app/Http/Controllers/ProductController.php:17-22 | At most 10 products, in descending id order, each from the table and matching the search. The page holds exactly as many as the matching products leave past the page's offset: 10, fewer on the last page, none past it. |
| ProductController.IndexPagesOrdered | backend/app/Http/Controllers/ProductController.php:22 | Across pages the listing is in descending id order: every product on an earlier page has an id at least that of every product on a later page. |
| ProductController.IndexComplete | backend/app/Http/Controllers/ProductController.php:17-22 | Every product the search keeps is on some page. |
| ProductController.Show | backend/app/Http/Controllers/ProductController.php:37 | Finds a product exactly when one has that id, and returns that product. Otherwise the result is not-found. |
| ProductController.ApplyPatch | backend/app/Http/Controllers/ProductController.php:45 | The id never changes, and an empty patch changes nothing. |
| ProductController.Store | backend/app/Http/Controllers/ProductController.php:30 | Invalid input returns the validation error and changes nothing. Valid input appends one product under the next id with exactly the four validated fields, which are the model's fillable columns (name, sku, price, stock), and advances the counter. The existing rows are unchanged and the catalog invariant is kept. |
| ProductController.Update | backend/app/Http/Controllers/ProductController.php:44-45 | A rejected request changes nothing. An unknown id is not-found and changes nothing. Otherwise the product with that id takes exactly the sent fields and every other row stays. The invariant is kept, so stock and price stay non-negative. |
| ProductController.Destroy | backend/app/Http/Controllers/ProductController.php:52-53 | An unknown id is not-found and changes nothing. Otherwise exactly the row with that id is removed: the table is the old one without that one row, with the others in their old order. |
| ProductController.CreateKeepsCatalog | backend/app/Http/Controllers/ProductController.php:30 | A product created from validated input keeps ids and skus unique and price and stock non-negative. |
| ProductController.UpdateKeepsCatalog | backend/app/Http/Controllers/ProductController.php:44-45 | An accepted update keeps the catalog invariant: ids and skus stay unique, and price and stock stay non-negative. |
| ProductController.RemoveKeepsCatalog | backend/app/Http/Controllers/ProductController.php:52-53 | Removing a row keeps the invariant of the rest. |
| ProductController.RemoveOne | backend/app/Http/Controllers/ProductController.php:52-53 | Removing the row at a position drops exactly the rows with that row's id. |
| ProductController.RemovePermutes | backend/app/Http/Controllers/ProductController.php:53 | Removing the row at a position takes exactly that row out of the multiset of rows. |
| StoreProductRequest.Validate | backend/app/Http/Requests/StoreProductRequest.php:17-20 | Accepts exactly when the name is a present, non-blank string of at most 255 characters; the sku is a present, non-blank string of at most 100 characters that no product has; the price is present, numeric and at least 0; and the stock is a present whole number of at least 0. The accepted data are those values. A rejection lists exactly the failing keys. |
| StoreProductRequest.TakenSkuRejected | backend/app/Http/Requests/StoreProductRequest.php:18 | A sku already in the table is always rejected under `sku`. |
| StoreProductRequest.Authorize | backend/app/Http/Requests/StoreProductRequest.php:9-12 | Always true. |
| UpdateProductRequest.Validate | backend/app/Http/Requests/UpdateProductRequest.php:16-21 | Accepts exactly when each field that is present satisfies its create rule. For the sku, only products other than the route id's must not have it. An absent field never rejects, and an empty body passes as an empty patch. The patch holds a field exactly when it was sent, with its value. A rejection lists exactly the sent keys whose rule fails. |
| UpdateProductRequest.OwnSkuAccepted | backend/app/Http/Requests/UpdateProductRequest.php:16-19 | Sending a product's own sku back to its own id passes. |
| UpdateProductRequest.Authorize | backend/app/Http/Requests/UpdateProductRequest.php:9-12 | Always true. |
| Router.MatchIn | frontend/src/router/index.ts:9-16 | Returns a route of the table with exactly that path, or none when no route has it. |
| Router.Guard | frontend/src/router/index.ts:24-31 | Redirects to `/login` if and only if the destination requires authentication and there is no token. Otherwise it proceeds. It reads only the token. |
| Router.RootRedirects | frontend/src/router/index.ts:10 | `/` resolves to `/products`, and a navigation to `/` ends there with or without a token. |
| Router.ProtectedRoutes | frontend/src/router/index.ts:11-15 | A path requires authentication exactly when it is `/cart` or `/orders`. |
| Router.LoginIsPublic | frontend/src/router/index.ts:12-27 | `/login` resolves to itself, is not protected, and the guard lets it through. |
| Router.NavigationOutcome | frontend/src/router/index.ts:26-30 | A navigation ends at `/login` when its destination requires authentication and there is no token. Otherwise it ends at the destination. |
| Router.NoTokenNeverProtected | frontend/src/router/index.ts:26-27 | Without a token a navigation never ends on a protected route. |
| Router.UnmatchedProceeds | frontend/src/router/index.ts:28-30 | A path no route matches is neither redirected nor guarded. |
| Router.NavigationSettles | frontend/src/router/index.ts:24-31 | Wherever a navigation ends, the guard lets it stay. |
| Schema.Find | backend/app/Http/Controllers/OrderController.php:31 | Returns the position of the first product with that id, or none exactly when no product has it. |
| Schema.FindOrder | backend/app/Http/Controllers/OrderController.php:88 | Returns the position of the first order with that id, or none exactly when no order has it. |
| Schema.AppendedLinesOf | backend/app/Http/Controllers/OrderController.php:62-64 | Appending a new order's rows gives it exactly its lines and leaves the lines of every other order. |
| Schema.AddOrderKeepsValid | backend/app/Http/Controllers/OrderController.php:55-64 | A fresh order whose rows were appended keeps the orders invariant: ids unique and below the counter, every order PENDING with at least one line, and its total equal to the sum of its lines. |
| Schema.LinesOfAbsent | backend/app/Http/Controllers/OrderController.php:63 | An order no row refers to has no lines. |
| Listing.Where | backend/app/Http/Controllers/OrderController.php:76-77 | Keeps exactly the rows satisfying the condition, as a sub-multiset of the table. |
| Listing.SortDesc | backend/app/Http/Controllers/ProductController.php:22 | The same rows as a multiset, in non-increasing key order. |
| Listing.Insert | backend/app/Http/Controllers/ProductController.php:22 | Inserting into a sorted listing keeps it sorted and adds one row. |
| Listing.InsertPermutes | backend/app/Http/Controllers/ProductController.php:22 | Inserting adds exactly that one row to the multiset. |
| Listing.SortedCons | backend/app/Http/Controllers/ProductController.php:22 | A row with a key at least the head's can be put in front of a sorted listing. |
| Listing.CurrentPage | backend/app/Http/Controllers/ProductController.php:22 | The page number actually used is the requested one when that is at least 1, and page 1 otherwise. |
| Listing.Page | backend/app/Http/Controllers/OrderController.php:80 | A page holds at most 10 rows, the ones at its offset, in listing order. |
| Listing.PageLocate | backend/app/Http/Controllers/OrderController.php:80 | Row `k` of the listing is entry `k % 10` of page `k / 10 + 1`. |
| Listing.PageCovers | backend/app/Http/Controllers/OrderController.php:80 | Every row of the listing is on some page. |
| Listing.PagesOrdered | backend/app/Http/Controllers/ProductController.php:22 | For a sorted listing, every row of an earlier page has a key at least that of every row of a later page. |
| Listing.PageOfSorted | backend/app/Http/Controllers/ProductController.php:22 | A page of a sorted listing is sorted and holds only rows of the listing. |

## Left out

- Concurrency and locking are not modelled. Each action is one sequential call, and the transaction (`OrderController.php:25`) is all-or-nothing. The code has no row lock, retry or release step.
- The `stock` error (`OrderController.php:35`) carries only the product name, not the requested or available quantity.
- `Product::find` returning null inside the transaction would stop the loop with a PHP error. It is modelled as the `MissingProduct` error with the same rollback. Validation rules it out unless a product vanishes in between, which the sequential model cannot produce.
- `OrderController.Show` does not check ownership, as in the source.
- Money is integer cents, not PHP floats. A numeric price is either whole or held to cent precision. Floating-point rounding of `price * qty` is not modelled.
- Request values are typed: a numeric string such as `"12"` is not coerced to a number. `integer` accepts only a whole number, so a `5.0` written with a fractional part is not counted as an integer.
- Laravel's `TrimStrings` and `ConvertEmptyStringsToNull` middleware are not modelled. `required` itself rejects null and strings that trim to nothing.
- Validation message texts are not modelled. Failures are sets of field keys.
- ProductController.Filter: `LIKE '%term%'` is read as an exact, case-sensitive substring test. The database's case folding and its `%` and `_` wildcards inside the term are left out.
- Rules.UniqueSku: the `unique` rule compares skus under the database's collation, which can be case-insensitive. The model compares them exactly, so two skus differing only in case count as distinct.
- Listing.SortDesc: rows with equal keys keep their table order. The database leaves their order open, so two orders with the same `created_at` may come back in either order.
- Pagination metadata (totals, links) and the page query parameter parsing are not modelled. Only the rows of a page are.
- Eager loading (`with('items.product')`, `load(...)`) is not modelled. Orders come only with their lines, not with the loaded product objects.
- JSON responses, HTTP status codes and the mapping from validation exceptions to 422 are not modelled.
- The authenticated user is a parameter, and authentication middleware is not modelled. The clock is the parameter `now`.
- What deleting a product does to order lines that refer to it is not modelled. Foreign-key behaviour lives in migrations.
- frontend/src/stores/auth.ts is not part of this model. The token is a parameter of the guard; its HTTP calls and `localStorage` persistence are left out.
- backend/config/cors.php is not part of this model, since it is static configuration. Of the Product model only the fillable list is used. The `hasMany` relation is ORM wiring.
- `createWebHistory` and the view component imports are not modelled. Route matching is an exact string comparison of paths, without case-insensitivity, trailing slashes or query strings.
