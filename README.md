# A verified model of the e-commerce cart and catalog services

This Dafny project models the logic at the centre of two services of the Oidiral/e-commerce system.

**The cart service (Go).**
- `CartSvc` is the orchestrator. It reads through a Redis cache into a Postgres store and checks every change with the catalog. At checkout it verifies each cart line with the catalog before deleting the cart.
- The Postgres adapter adds quantity guards, "zero rows affected" checks and the SQLSTATE classifier `mapPgErr`.
- The HTTP error classifier `HandleError` turns service errors into responses.
- The auth client caches the access token it fetches from the auth service.

**The catalog service (Java).**
- Stock reservation and release.
- Product creation and deletion.
- The price upsert.
- The stock overwrite.
- The unique-slug search used when categories are created and renamed.
- The slug pipeline `SlugUtil.toSlug`.
- The paged-response builder `PageConverter`.

How the model is built:
- The store, the cache and the catalog tables are maps held by Dafny classes. Operations that change them are methods with `modifies` clauses.
- Each such method states its complete new state. Where a method loops, it is proved against a specification function, and the lemmas about that function carry the properties.
- Pure code becomes functions and lemmas.
- Database faults are inputs. The `Env` record carries the driver error each query of a call reports, plus the id and clock value a new cart receives. The first cart lookup of a call and a second one in the same call (the cache refresh's reload after a write, or the lookup `Clear` makes inside `Checkout`) have separate faults.
- Catalog answers are inputs too. `verify` stands for the catalog's `Checkout` RPC, called once per line.
- The ghost trace `io` records every external call the orchestrator makes. "No I/O happened" is therefore `io == old(io)`.

One module per source file:
- `cart_repository.dfy`, `cart_service.dfy`, `error_handler.dfy` and `auth_client.dfy`;
- `product_service.dfy`, `inventory_service.dfy`, `price_service.dfy` and `category_service.dfy`;
- `slug_util.dfy` and `page_converter.dfy`.

Shared modules:
- `Wrappers`: Option, Result and Outcome.
- `Uuids`: 16-byte ids and their canonical text.
- `Int32Arith`: 32-bit wrap-around.
- `Decimal`: the decimal text of a counter.
- `CartModel`: the cart domain types.
- `CatalogStore`: the catalog tables.

Where the code and its surroundings disagree, the model follows the code:
- The `CartRepository` interface (services/cart-svc/internal/repository/postgres/cart_repository.go:22-28) has no `GetByUser` or `Create`, yet the service calls both. The store provides both, with the behaviour the service relies on.
- After a cache hit, `Checkout` returns success without deleting the cart from the store. The model keeps that.
- `ProductRepository.findByCategoryId` returns `Optional<Page<Product>>`, but `CategoryServiceImpl.products` uses the result as a `Page`. The model takes the page itself as the input.
- `CategoryRepository` declares neither `existsBySlug` nor `deleteBySlug`. The model gives them their evident meaning.
- `PriceServiceImpl.addPrice` builds its product reference with `Product.builder()` (services/catalog-svc/src/main/java/org/olzhas/catalogsvc/service/impl/PriceServiceImpl.java:38), but `Product` declares no builder (services/catalog-svc/src/main/java/org/olzhas/catalogsvc/model/Product.java:14-18). The model takes the evident meaning: a reference to the product by its id.

## Model

| member | source | states |
|---|---|---|
| CartRepository.MapPgErr | services/cart-svc/internal/repository/postgres/cart_repository.go:130-154 | nil stays nil; no-rows and 23503 are CartNotFound; 23514 is QtyConstraint; every other server code, 23505 included, is a DB failure; a non-server error passes through unchanged; never ItemNotFound; this is the intended classification, which the rest of the model uses (see Findings) |
| CartRepository.MapPgErrAsWritten | services/cart-svc/internal/repository/postgres/cart_repository.go:130-154 | the classifier as written: nil stays nil, no-rows is CartNotFound, and every other error, server errors included, passes through unchanged |
| CartRepository.AsWrittenPassesServerErrors | services/cart-svc/internal/repository/postgres/cart_repository.go:139-151 | as written, every server error passes through, which the intended mapping never does |
| CartRepository.MapCartToDomain | services/cart-svc/internal/repository/postgres/cart_repository.go:111-128 | the header fields are copied; the items keep the rows' count and order; each item copies product, price and quantity, with its cart id left at the zero uuid |
| CartRepository.UpsertLookup | services/cart-svc/internal/repository/postgres/cart_repository.go:54-66 | after an upsert the product's row is exactly the new row, so an existing quantity is replaced, not added to; other products' rows are untouched; the row count grows only for a new product |
| CartRepository.UpsertWellFormed | services/cart-svc/internal/repository/postgres/cart_repository.go:54-66 | an upsert with a positive quantity keeps products unique within the cart and all quantities positive |
| CartRepository.ChangeKeepsOthers | services/cart-svc/internal/repository/postgres/cart_repository.go:68-84 | changing a quantity changes only that product's quantity; length, order and every other row stay the same |
| CartRepository.ChangeWellFormed | services/cart-svc/internal/repository/postgres/cart_repository.go:68-84 | a positive new quantity keeps the cart's rows well formed |
| CartRepository.DeleteKeepsOthers | services/cart-svc/internal/repository/postgres/cart_repository.go:86-98 | after a delete the product has no row and every other product's row is as before |
| CartRepository.DeleteWellFormed | services/cart-svc/internal/repository/postgres/cart_repository.go:86-98 | deleting a row keeps the cart's rows well formed |
| CartRepository.LookupSome | services/cart-svc/internal/repository/postgres/cart_repository.go:68-98 | the row lookup that decides "zero rows affected" finds a row exactly when the cart holds one for that product |
| CartRepository.CartStore.Get | services/cart-svc/internal/repository/postgres/cart_repository.go:42-52 | a fault surfaces through the classifier; a missing cart is CartNotFound; otherwise the domain cart built from its header and rows |
| CartRepository.CartStore.GetByUser | services/cart-svc/internal/service/cart_service.go:66-74 | the cart of the user, CartNotFound when the user has none, or the classified fault; a returned cart belongs to the user |
| CartRepository.CartStore.Create | services/cart-svc/internal/service/cart_service.go:323-338 | an empty open cart owned by the user, stamped with the given time; a user who already has a cart, or a colliding id, is a unique violation and changes nothing |
| CartRepository.CartStore.UpsertItem | services/cart-svc/internal/repository/postgres/cart_repository.go:54-66 | qty ≤ 0 is QtyConstraint before the database is reached; then the driver fault; a quantity whose int32 value is not positive fails the CHECK; a missing cart fails the foreign key; on success only that cart's rows change, by Upserted; on failure nothing changes |
| CartRepository.CartStore.ChangeQuantity | services/cart-svc/internal/repository/postgres/cart_repository.go:68-84 | qty ≤ 0 is QtyConstraint; zero rows affected is ItemNotFound and inserts nothing; on success only the quantity of the existing row changes; on failure nothing changes |
| CartRepository.CartStore.DeleteItem | services/cart-svc/internal/repository/postgres/cart_repository.go:86-98 | zero rows affected is ItemNotFound; on success exactly that product's row is removed; on failure nothing changes |
| CartRepository.CartStore.DeleteCart | services/cart-svc/internal/repository/postgres/cart_repository.go:100-109 | zero rows affected is CartNotFound; on success the cart, its rows and its owner link are removed; on failure nothing changes |
| CartService.CacheKey | services/cart-svc/internal/service/cart_service.go:297-299 | the key is "cart:" followed by the 36-character canonical text of the user id |
| CartService.CacheKeyInjective | services/cart-svc/internal/service/cart_service.go:297-299 | two users never share a cache key |
| CartService.DriverErrorsSurface | services/cart-svc/internal/service/cart_service.go:99-113 | how each driver error reaches callers, through the classifier and then each operation's switch on repository errors |
| CartService.AsWrittenHidesConstraintErrors | services/cart-svc/internal/service/cart_service.go:103-113 | with the classifier as written, an upsert's foreign-key or CHECK failure and a quantity change's CHECK failure reach callers as Internal, not NotFound or BadRequest |
| CartService.CheckPassesIff | services/cart-svc/internal/service/cart_service.go:273-294 | verification of the lines passes exactly when every line has a product, a positive quantity and an available answer from the catalog |
| CartService.CheckFailsAtFirst | services/cart-svc/internal/service/cart_service.go:273-293 | a failed verification stops at the first failing line: every earlier line passed; the error is InvalidItem, Internal or OutOfStock as that line dictates; the catalog saw exactly the requests up to that line |
| CartService.CheckPassSendsAll | services/cart-svc/internal/service/cart_service.go:273-294 | a passing verification sent one request per line, in line order, with the quantity as int32 |
| CartService.CheckProduct | services/cart-svc/internal/service/cart_service.go:268-295 | the loop's outcome and catalog calls are those of the specification function; an absent or empty cart is NotFound with no call |
| CartService.CartSvc.RefreshCache | services/cart-svc/internal/service/cart_service.go:301-321 | stores the given snapshot, or reloads the cart and stores it; a failed reload leaves the cache as it was |
| CartService.CartSvc.GetOrCreateCart | services/cart-svc/internal/service/cart_service.go:323-338 | the result is exactly `CartFor`: a found cart is returned with the store untouched; when the lookup reports the cart missing, a new empty OPEN cart is inserted and returned, and that succeeds exactly when the insert meets no fault, the user has no cart and the id is unused; every other outcome is Internal and changes nothing; the calls are the lookup, then the insert only after a missing-cart report |
| CartService.CartSvc.GetCart | services/cart-svc/internal/service/cart_service.go:53-82 | a decodable cache entry is returned without reading the store; on a miss or a corrupt entry the store decides: CartNotFound is NotFound, any other failure Internal, and a found cart is written back to the cache |
| CartService.CartSvc.AddItem | services/cart-svc/internal/service/cart_service.go:84-120 | qty ≤ 0 or a nil product is BadRequest with no I/O; a catalog failure is Internal and stock below the int32 quantity is BadRequest, both with the store unchanged; it succeeds exactly when those checks pass, the cart is found or created, the upsert meets no fault and the int32 quantity is positive; a failed cart lookup or insert is Internal, an upsert fault is classified, a quantity that wraps to zero or below is BadRequest, and a cart created on the way stays; on success the line is upserted at the catalog price, so the quantity is replaced, no other cart changes, and the cache holds the reloaded cart unless the reload fails; the full call sequence is stated |
| CartService.CartSvc.ChangeQty | services/cart-svc/internal/service/cart_service.go:122-158 | the same validation and stock check; it succeeds exactly when the cart is found, the update meets no fault, the line exists and the int32 quantity is positive; a user without a cart gets an empty cart created and then NotFound; a product not in the cart is NotFound; no call ever creates an item row; on success only that line's quantity changes; the full call sequence is stated |
| CartService.CartSvc.RemoveItem | services/cart-svc/internal/service/cart_service.go:160-180 | it succeeds exactly when the cart is found, the delete meets no fault and the line exists; a failed cart lookup or insert or a delete fault is Internal; a product not in the cart, and every product for a user whose cart was just created, is NotFound; on success exactly that line is removed and the cache refreshed; the full call sequence is stated |
| CartService.CartSvc.Clear | services/cart-svc/internal/service/cart_service.go:182-209 | succeeds exactly when the lookup and the delete both succeed; then the cart and its items leave the store and the cache key is dropped; a failure changes nothing |
| CartService.CartSvc.Checkout | services/cart-svc/internal/service/cart_service.go:211-266 | the cache entry is always consumed by GetDel first; a decodable snapshot is verified and the store is never touched; on the store path the cart is deleted only after every line passes, so any verification failure leaves the store unchanged; the second lookup made by the clear can fail on its own; NotFound from either step of the clear still counts as success; on every path the calls are stated: GetDel exactly once, then on the store path the lookup and the snapshot write-back, one catalog request per line in order (none for an empty cart), then the clear's lookup, delete and cache delete as far as each succeeds; a successful checkout removes exactly that cart's header and items |
| ErrorHandler.HandleError | services/cart-svc/internal/contoller/error_handler.go:15-41 | 404 "NOT_FOUND" exactly for NotFound; 400 "BAD_REQUEST" exactly for BadRequest; 500 "INTERNAL_SERVER_ERROR" for every other error |
| ErrorHandler.StatusDeterminesBody | services/cart-svc/internal/contoller/error_handler.go:19-40 | the mapping is a function of the status: two errors with the same status get the same response |
| ErrorHandler.CheckoutFailuresAreServerErrors | services/cart-svc/internal/contoller/error_handler.go:32-37 | OutOfStock, InvalidItem and Internal all become the same 500 response |
| AuthClient.TrimRight | services/cart-svc/internal/authclient/auth.go:27 | the result is a prefix of the input and does not end in '/'; everything cut was '/' |
| AuthClient.TrimRightUnique | services/cart-svc/internal/authclient/auth.go:27 | those three facts pin the trimmed string down |
| AuthClient.TrimRightIdempotent | services/cart-svc/internal/authclient/auth.go:27 | trimming twice is trimming once |
| AuthClient.Client.constructor | services/cart-svc/internal/authclient/auth.go:25-34 | the base URL has its trailing slashes removed; the client starts with no token and the zero expiry |
| AuthClient.Client.TokenURLSingleSlash | services/cart-svc/internal/authclient/auth.go:27 | the token URL joins base and path with exactly one '/', whatever the configured base ended with |
| AuthClient.FetchResult | services/cart-svc/internal/authclient/auth.go:61-87 | a transport failure, a status other than 200 or an undecodable body is an error; otherwise the token and its expiry, read as seconds since the epoch |
| AuthClient.Client.Token | services/cart-svc/internal/authclient/auth.go:36-59 | with more than 30 s of validity left, the cached token and no request; otherwise one request; success stores and returns the new token and expiry; failure returns the error and keeps the cached token and expiry |
| AuthClient.NewClientFetches | services/cart-svc/internal/authclient/auth.go:48-52 | a client that never fetched asks for a token at any time after the epoch |
| ProductService.ReleaseUndoesReserve | services/catalog-svc/src/main/java/org/olzhas/catalogsvc/service/impl/ProductServiceImpl.java:96-118 | a release of the reserved quantity restores the stock, even where int arithmetic wraps |
| ProductService.ProductServiceImpl.GetById | services/catalog-svc/src/main/java/org/olzhas/catalogsvc/service/impl/ProductServiceImpl.java:49-54 | NotFound exactly for an unknown id; otherwise the product's DTO |
| ProductService.ProductServiceImpl.Reserve | services/catalog-svc/src/main/java/org/olzhas/catalogsvc/service/impl/ProductServiceImpl.java:96-108 | a missing inventory is NotFound; stock below qty is BadRequest; both change nothing; otherwise only that stock changes, to stock − qty in int arithmetic |
| ProductService.ProductServiceImpl.Release | services/catalog-svc/src/main/java/org/olzhas/catalogsvc/service/impl/ProductServiceImpl.java:110-118 | a missing inventory is NotFound and changes nothing; otherwise only that stock changes, to stock + qty in int arithmetic |
| ProductService.ProductServiceImpl.Create | services/catalog-svc/src/main/java/org/olzhas/catalogsvc/service/impl/ProductServiceImpl.java:120-140 | the product is always saved; a price record only when a price is given; an inventory under the product's id only when a quantity is given; the catalog invariants hold afterwards |
| ProductService.ProductServiceImpl.Delete | services/catalog-svc/src/main/java/org/olzhas/catalogsvc/service/impl/ProductServiceImpl.java:142-149 | an unknown id is NotFound and changes nothing; otherwise the product and, by the cascade, its prices are removed |
| InventoryService.SetResult | services/catalog-svc/src/main/java/org/olzhas/catalogsvc/service/impl/InventoryServiceImpl.java:16-28 | a missing inventory is IllegalArgument; otherwise the stock is exactly qty and every other inventory is unchanged |
| InventoryService.SetIgnoresPreviousQuantity | services/catalog-svc/src/main/java/org/olzhas/catalogsvc/service/impl/InventoryServiceImpl.java:21 | the result does not depend on the previous quantity: an overwrite, not an addition |
| InventoryService.SetIdempotent | services/catalog-svc/src/main/java/org/olzhas/catalogsvc/service/impl/InventoryServiceImpl.java:21-22 | setting the same quantity twice is setting it once |
| InventoryService.InventoryServiceImpl.SetQuantity | services/catalog-svc/src/main/java/org/olzhas/catalogsvc/service/impl/InventoryServiceImpl.java:16-28 | the stock table becomes the one the specification function gives, or, for a missing inventory, nothing changes and IllegalArgument is returned |
| PriceService.Updated | services/catalog-svc/src/main/java/org/olzhas/catalogsvc/service/impl/PriceServiceImpl.java:29-32 | the update branch keeps the record's id, product and creation time, and takes the request's amount and currency |
| PriceService.PriceServiceImpl.AddPrice | services/catalog-svc/src/main/java/org/olzhas/catalogsvc/service/impl/PriceServiceImpl.java:24-55 | an existing price is updated in place; otherwise a new record is created for the product; the DTO carries the product id and the request's amount and currency; afterwards the product has exactly one price record; a product that does not exist fails the foreign key and nothing is saved |
| CategoryService.CandInjective | services/catalog-svc/src/main/java/org/olzhas/catalogsvc/service/impl/CategoryServiceImpl.java:60 | different counters give different candidate slugs |
| CategoryService.CandSetSize | services/catalog-svc/src/main/java/org/olzhas/catalogsvc/service/impl/CategoryServiceImpl.java:59-61 | the first n candidates are n distinct slugs |
| CategoryService.CounterBound | services/catalog-svc/src/main/java/org/olzhas/catalogsvc/service/impl/CategoryServiceImpl.java:59-61 | a search that found n candidates all taken has n at most the number of existing slugs, so the loop terminates |
| CategoryService.ChosenUnique | services/catalog-svc/src/main/java/org/olzhas/catalogsvc/service/impl/CategoryServiceImpl.java:59-61 | the search result is determined: at most one counter satisfies the stopping condition |
| CategoryService.FreeBaseChosen | services/catalog-svc/src/main/java/org/olzhas/catalogsvc/service/impl/CategoryServiceImpl.java:56-59 | a free base slug is chosen unchanged |
| CategoryService.FirstSuffixChosen | services/catalog-svc/src/main/java/org/olzhas/catalogsvc/service/impl/CategoryServiceImpl.java:56-61 | a taken base with a free base-1 gives base-1, as in "some-name" and "some-name-1" |
| CategoryService.Products | services/catalog-svc/src/main/java/org/olzhas/catalogsvc/service/impl/CategoryServiceImpl.java:34-41 | an empty page is NotFound; otherwise the page response of the products' DTOs |
| CategoryService.CategoryServiceImpl.FreeSlug | services/catalog-svc/src/main/java/org/olzhas/catalogsvc/service/impl/CategoryServiceImpl.java:56-61 | the loop returns the first candidate no category uses, after at most as many steps as there are slugs |
| CategoryService.CategoryServiceImpl.FreeSlugFor | services/catalog-svc/src/main/java/org/olzhas/catalogsvc/service/impl/CategoryServiceImpl.java:75-81 | the loop returns the first candidate that is free or is the category's own slug |
| CategoryService.CategoryServiceImpl.Create | services/catalog-svc/src/main/java/org/olzhas/catalogsvc/service/impl/CategoryServiceImpl.java:51-65 | the new category's slug is the first free candidate from the name's slug; it is not among the existing slugs; a free base is used unchanged; slugs stay unique |
| CategoryService.CategoryServiceImpl.Rename | services/catalog-svc/src/main/java/org/olzhas/catalogsvc/service/impl/CategoryServiceImpl.java:67-85 | an unknown id is NotFound and changes nothing; a null name keeps the old name; the new slug is the category's own or a free one; a name whose slug equals the current one keeps its slug |
| CategoryService.CategoryServiceImpl.Delete | services/catalog-svc/src/main/java/org/olzhas/catalogsvc/service/impl/CategoryServiceImpl.java:87-93 | an unknown id is NotFound and changes nothing; otherwise exactly that category is removed |
| CategoryService.CategoryServiceImpl.DeleteSlug | services/catalog-svc/src/main/java/org/olzhas/catalogsvc/service/impl/CategoryServiceImpl.java:95-101 | an unknown slug is NotFound and changes nothing; otherwise the one category with that slug is removed |
| SlugUtil.ToSlug | services/catalog-svc/src/main/java/org/olzhas/catalogsvc/utils/SlugUtil.java:18-39 | null gives ""; the output uses only [a-z0-9_-], has no two hyphens in a row and neither starts nor ends with '-' |
| SlugUtil.SlugIsFixedPoint | services/catalog-svc/src/main/java/org/olzhas/catalogsvc/utils/SlugUtil.java:23-38 | every string of that shape passes through the pipeline unchanged |
| SlugUtil.ToSlugIdempotent | services/catalog-svc/src/main/java/org/olzhas/catalogsvc/utils/SlugUtil.java:18-39 | slugging a slug changes nothing |
| SlugUtil.TwoWords | services/catalog-svc/src/main/java/org/olzhas/catalogsvc/utils/SlugUtil.java:23-38 | two words separated by a blank become the lower-cased words joined by one hyphen, "Some Name" to "some-name" being one case |
| SlugUtil.Collapse | services/catalog-svc/src/main/java/org/olzhas/catalogsvc/utils/SlugUtil.java:29 | no two hyphens in a row remain; the first and last characters survive; a string with no double hyphen is unchanged |
| SlugUtil.DropNonWord | services/catalog-svc/src/main/java/org/olzhas/catalogsvc/utils/SlugUtil.java:27 | only word characters and hyphens remain, and a string of those is unchanged |
| PageConverter.FormatSort | services/catalog-svc/src/main/java/org/olzhas/catalogsvc/utils/PageConverter.java:34-37 | a null or unsorted sort is "" |
| PageConverter.FormatSortLists | services/catalog-svc/src/main/java/org/olzhas/catalogsvc/utils/PageConverter.java:38-40 | splitting the rendered sort at ';' gives back each order as property,DIRECTION, in the original order, when no property contains ';' |
| PageConverter.FormatSortEnding | services/catalog-svc/src/main/java/org/olzhas/catalogsvc/utils/PageConverter.java:38-40 | a nonempty rendered sort ends with a direction, never with a separator |
| PageConverter.SplitJoin | services/catalog-svc/src/main/java/org/olzhas/catalogsvc/utils/PageConverter.java:40 | joining is undone by splitting when no piece contains the separator |
| PageConverter.ToPageResponse | services/catalog-svc/src/main/java/org/olzhas/catalogsvc/utils/PageConverter.java:17-32 | the content is exactly the given DTOs; number, size, total elements and total pages are copied; the sort is rendered by FormatSort |

## Left out

- Redis, pgx/sqlc, gRPC and HTTP plumbing and JSON encoding are not modelled. A cache read error behaves as a miss, and a failed cache write is not modelled; the source only logs both. A JSON decode failure is the `Corrupt` cache entry. Prices are opaque numbers; the `float64` conversion is not modelled.
- The background goroutines: the cache refresh and the cache delete in `Clear` run synchronously, at the point where the source starts them, and they finish before the operation returns. Their timeouts and contexts are not modelled. A reload that fails leaves the old snapshot in the cache, and the model states that. What the model does not capture is a goroutine that finishes after a later operation has started.
- CartService.CartSvc.Checkout: on the store path, the snapshot write started by the lookup and the delete started by the clear are two goroutines that race in the source. The model runs the write first, so the entry is gone afterwards. The run in which the write lands last, leaving a stale snapshot that lets a second checkout pass from the cache, is not covered.
- Concurrency is not modelled: the auth client's read-write mutex and double-checked locking, and concurrent requests against the same cart. Each operation runs alone.
- Cart timestamps are not modelled beyond `Create`. The store's `updated_at` maintenance on item writes belongs to SQL that is not part of this model.
- Go's `int` is modelled as unbounded. Only the explicit `int32(...)` conversions of the source wrap, through `Int32Arith.Wrap`.
- CartService.DriverErrorsSurface: stated for information. It is a case analysis Dafny checks without a proof.
- SlugUtil.ToSlug is weaker than the source for non-ASCII input. The model drops every non-ASCII character. The source first applies Unicode NFD normalisation, so an accented Latin letter keeps its base letter. Unicode tables are not part of the model.
- CategoryService.CategoryServiceImpl.Create and Rename: the Java `int` counter could overflow only after more than 2^31 taken slugs. The model proves the counter never exceeds the number of slugs plus one, and does not model the wrap.
- New product and price ids are arguments that must be unused. That models the evident intent: a fresh identifier for each new record. The entities as written do not provide one. `Product.id` and `ProductPrice.id` carry only a column default (services/catalog-svc/src/main/java/org/olzhas/catalogsvc/model/Product.java:19-22, services/catalog-svc/src/main/java/org/olzhas/catalogsvc/model/ProductPrice.java:19-22) and no generation strategy. Hibernate then expects the application to assign the id, and `create` and `addPrice` never do. A save of a new product or price would then fail on its null identifier; the model does not capture that failure. The category entity is not part of this model, and its new id is taken the same way. Hibernate's merge-on-save and flush order are not modelled. Each `@Transactional` method is atomic: a failure leaves every table unchanged.
- The product's inventory row on `delete` is not modelled: the `ProductInventory` entity is not part of this model, so its cascade behaviour is unknown and its row is left in place. The price rows go, following `@OnDelete(CASCADE)` on `ProductPrice`.
- The columns' default values (`currency` 'KZT', `created_at` now()) are not modelled. A record saved without them carries no value, and the price response echoes the entity's unset `createdAt`.
- `findAll`, `search`, `getImages`, `getWithQuantity`, `getWithQuantityAndPrice`, `updateHard` and `updateSoft` are not modelled. Nor are `all()` of the category service, the image service, the MapStruct mappers beyond the field copies used here, and JPA query construction. They are outside the modelled core.
- The auth service, configuration loading, `main` and the HTTP routers and controllers are not modelled. The catalog's exception handler is not modelled either.
- ErrorHandler.HandleError takes only the service's closed error set. An error value outside it takes the source's default branch, which gives the same 500 response as Internal.

## Findings

| source | as written | input that shows it | evidently intended | confidence | as-written member | corrected member |
|---|---|---|---|---|---|---|
| services/cart-svc/internal/repository/postgres/cart_repository.go:139-151 | `mapPgErr` asks `errors.As` for the `PgError` of the standalone `github.com/jackc/pgconn` module (line 8), while the queries run on pgx v5 (lines 9-10), which reports server errors as its own `pgx/v5/pgconn.PgError`; the switch on SQLSTATE codes is then never reached | an upsert whose cart row is gone (SQLSTATE 23503) or whose quantity breaks the CHECK constraint (23514): the error passes through unchanged, and `AddItem` answers Internal | 23503 is CartNotFound (so NotFound), 23514 is QtyConstraint (so BadRequest), other server codes are a DB failure | not executed; go.mod is not part of this model, so the driver version rests on the import lines | CartRepository.MapPgErrAsWritten | CartRepository.MapPgErr |
