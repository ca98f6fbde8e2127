/**
  The cart orchestrator: reads go to the cache first and fall back to the store,
  mutations are validated, checked against the catalog, written to the store and
  followed by a cache refresh, and checkout re-verifies every line with the
  catalog before the cart is deleted.
 */
module CartService {
  import opened Wrappers
  import opened Uuids
  import opened Int32Arith
  import opened CartModel
  import opened CartRepository

  /** The closed error set the service returns. */
  datatype ServiceError = NotFound | BadRequest | Internal | OutOfStock | InvalidItem

  const CacheKeyPrefix := "cart:"

  /** `cacheKey`: the prefix followed by the user id's canonical text. */
  function CacheKey(userId: Uuid): (k: string)
    ensures |k| == 41 && k[..5] == CacheKeyPrefix && k[5..] == Uuids.ToString(userId)
  {
    CacheKeyPrefix + Uuids.ToString(userId)
  }

  /** Two users never share a cache entry. */
  lemma CacheKeyInjective(u: Uuid, v: Uuid)
    requires CacheKey(u) == CacheKey(v)
    ensures u == v
  {
    assert CacheKey(u)[5..] == CacheKey(v)[5..];
    Uuids.ToStringInjective(u, v);
  }

  /** A cache value: a cart snapshot, or bytes that do not decode as one. */
  datatype CacheEntry = Snapshot(cart: Cart) | Corrupt

  /** A catalog reply, or a failed call. */
  datatype Rpc<T> = Reply(value: T) | RpcFailed

  /** Catalog answer to `GetPriceWithQty`. */
  datatype PriceQty = PriceQty(price: Price, availableQty: Int32)

  /** Catalog request `Checkout(item_id, quantity)`; the quantity goes over the wire as int32. */
  datatype CheckoutRequest = CheckoutRequest(itemId: Uuid, quantity: Int32)

  /** What the database does for the queries of one call: the driver error each query reports
      (if any), and the id and clock value a new cart row receives.  `read` is the call's first
      `GetByUser`; `reload` is a second one within the same call, made by the cache refresh after
      a write or by `Clear` inside `Checkout`, and it can fail on its own. */
  datatype Env = Env(
    read: Option<DriverError>,
    create: Option<DriverError>,
    write: Option<DriverError>,
    reload: Option<DriverError>,
    newCartId: Uuid,
    now: int)

  /** The header row of the cart `getOrCreateCart` inserts for `u`. */
  function NewRow(u: Uuid, env: Env): CartRow {
    CartRow(env.newCartId, u, Open, env.now, env.now)
  }

  /** The empty OPEN cart `getOrCreateCart` inserts for `u`. */
  function NewCart(u: Uuid, env: Env): Cart {
    Cart(env.newCartId, u, Open, [], env.now, env.now)
  }

  /** An external call the service makes, in the order it makes them. */
  datatype Io =
    | CacheGet(key: string) | CacheSet(key: string) | CacheGetDel(key: string) | CacheDel(key: string)
    | StoreGetByUser(user: Uuid) | StoreCreate(user: Uuid)
    | StoreUpsert(cart: Uuid, product: Uuid) | StoreChange(cart: Uuid, product: Uuid)
    | StoreDeleteItem(cart: Uuid, product: Uuid) | StoreDeleteCart(cart: Uuid)
    | CatalogPrice(product: Uuid) | CatalogQty(product: Uuid) | CatalogCheckout(req: CheckoutRequest)

  // ---------------------------------------------------------------------------
  // Error translation at the store boundary

  /** A failed `GetByUser` or `DeleteCart`: a missing cart is NotFound, the rest Internal. */
  function LookupErr(e: RepoError): ServiceError {
    if e == CartNotFound then NotFound else Internal
  }

  /** A failed `UpsertItem`. */
  function UpsertErr(e: RepoError): ServiceError {
    if e == CartNotFound then NotFound else if e == QtyConstraint then BadRequest else Internal
  }

  /** A failed `ChangeQuantity`. */
  function ChangeErr(e: RepoError): ServiceError {
    if e == ItemNotFound then NotFound else if e == QtyConstraint then BadRequest else Internal
  }

  /** A failed `DeleteItem`. */
  function DeleteItemErr(e: RepoError): ServiceError {
    if e == ItemNotFound then NotFound else Internal
  }

  /** How a driver error surfaces to callers, through `mapPgErr` and then the service's switch. */
  lemma DriverErrorsSurface(d: DriverError)
    ensures LookupErr(MapPgErr(Some(d)).value) ==
              if d == NoRows || d == PgError(ForeignKeyViolation) then NotFound else Internal
    ensures UpsertErr(MapPgErr(Some(d)).value) ==
              if d == NoRows || d == PgError(ForeignKeyViolation) then NotFound
              else if d == PgError(CheckViolation) then BadRequest else Internal
    ensures ChangeErr(MapPgErr(Some(d)).value) == if d == PgError(CheckViolation) then BadRequest else Internal
    ensures DeleteItemErr(MapPgErr(Some(d)).value) == Internal
  {
  }

  /** What the classifier as written does to the service's answers: a foreign-key or CHECK
      failure of an upsert and a CHECK failure of a quantity change come out as Internal, where
      the intended classification gives NotFound and BadRequest. */
  lemma AsWrittenHidesConstraintErrors()
    ensures UpsertErr(MapPgErrAsWritten(Some(PgError(ForeignKeyViolation))).value) == Internal
    ensures UpsertErr(MapPgErr(Some(PgError(ForeignKeyViolation))).value) == NotFound
    ensures UpsertErr(MapPgErrAsWritten(Some(PgError(CheckViolation))).value) == Internal
    ensures UpsertErr(MapPgErr(Some(PgError(CheckViolation))).value) == BadRequest
    ensures ChangeErr(MapPgErrAsWritten(Some(PgError(CheckViolation))).value) == Internal
    ensures ChangeErr(MapPgErr(Some(PgError(CheckViolation))).value) == BadRequest
  {
  }

  // ---------------------------------------------------------------------------
  // Checkout verification

  predicate ValidLine(item: CartItem) {
    item.productId != Nil && item.qty > 0
  }

  function RequestFor(item: CartItem): CheckoutRequest {
    CheckoutRequest(item.productId, Wrap(item.qty))
  }

  /** The verification of `items` in order: its outcome and the catalog requests it sends. */
  function CheckItems(items: seq<CartItem>, verify: CheckoutRequest -> Rpc<bool>): (Outcome<ServiceError>, seq<CheckoutRequest>) {
    if items == [] then (Pass, [])
    else if !ValidLine(items[0]) then (Fail(InvalidItem), [])
    else
      var req := RequestFor(items[0]);
      match verify(req)
      case RpcFailed => (Fail(Internal), [req])
      case Reply(false) => (Fail(OutOfStock), [req])
      case Reply(true) =>
        var rest := CheckItems(items[1..], verify);
        (rest.0, [req] + rest.1)
  }

  /** `checkProduct` as a function: an absent or empty cart is NotFound before any call. */
  function CheckCart(cart: Option<Cart>, verify: CheckoutRequest -> Rpc<bool>): (Outcome<ServiceError>, seq<CheckoutRequest>) {
    if cart.None? || |cart.value.items| == 0 then (Fail(NotFound), []) else CheckItems(cart.value.items, verify)
  }

  /** What verifying one line yields, when it is the first line that fails. */
  function LineFailure(item: CartItem, verify: CheckoutRequest -> Rpc<bool>): ServiceError {
    if !ValidLine(item) then InvalidItem
    else if verify(RequestFor(item)) == RpcFailed then Internal
    else OutOfStock
  }

  predicate LinePasses(item: CartItem, verify: CheckoutRequest -> Rpc<bool>) {
    ValidLine(item) && verify(RequestFor(item)) == Reply(true)
  }

  /** Verification passes exactly when every line is well formed and reported available. */
  lemma {:induction false} CheckPassesIff(items: seq<CartItem>, verify: CheckoutRequest -> Rpc<bool>)
    ensures CheckItems(items, verify).0 == Pass <==> forall i :: 0 <= i < |items| ==> LinePasses(items[i], verify)
  {
    if items != [] {
      CheckItems1(items, verify);
      CheckPassesIff(items[1..], verify);
      if LinePasses(items[0], verify) {
        assert forall i :: 1 <= i < |items| ==> items[i] == items[1..][i - 1];
      }
    }
  }

  lemma CheckItems1(items: seq<CartItem>, verify: CheckoutRequest -> Rpc<bool>)
    requires items != []
    ensures !LinePasses(items[0], verify) ==> CheckItems(items, verify).0 == Fail(LineFailure(items[0], verify))
    ensures LinePasses(items[0], verify) ==> CheckItems(items, verify).0 == CheckItems(items[1..], verify).0
  {
  }

  /** A failure is caused by the first failing line: every line before it passes, the error is
      that line's, and the catalog saw requests for exactly the lines up to it (the line
      itself excluded when it is malformed, since a malformed line is never sent). */
  lemma {:induction false} CheckFailsAtFirst(items: seq<CartItem>, verify: CheckoutRequest -> Rpc<bool>)
    requires CheckItems(items, verify).0.Fail?
    ensures exists k :: 0 <= k < |items| && FirstFailure(items, verify, k)
  {
    if LinePasses(items[0], verify) {
      CheckFailsAtFirst(items[1..], verify);
      var k :| 0 <= k < |items[1..]| && FirstFailure(items[1..], verify, k);
      var rest := CheckItems(items[1..], verify);
      assert CheckItems(items, verify) == (rest.0, [RequestFor(items[0])] + rest.1);
      assert forall i :: 0 <= i < k ==> items[1..][i] == items[i + 1];
      assert items[..k + 1][1..] == items[1..][..k];
      assert Requests(items[..k + 1]) == [RequestFor(items[0])] + Requests(items[1..][..k]);
      assert FirstFailure(items, verify, k + 1);
    } else {
      assert FirstFailure(items, verify, 0);
    }
  }

  ghost predicate FirstFailure(items: seq<CartItem>, verify: CheckoutRequest -> Rpc<bool>, k: nat)
    requires k < |items|
  {
    var res := CheckItems(items, verify);
    && (forall i :: 0 <= i < k ==> LinePasses(items[i], verify))
    && !LinePasses(items[k], verify)
    && res.0 == Fail(LineFailure(items[k], verify))
    && res.1 == Requests(items[..k]) + (if ValidLine(items[k]) then [RequestFor(items[k])] else [])
  }

  /** The requests for a run of lines, in order. */
  function Requests(items: seq<CartItem>): (reqs: seq<CheckoutRequest>)
    ensures |reqs| == |items|
  {
    if items == [] then [] else [RequestFor(items[0])] + Requests(items[1..])
  }

  /** On success one request per line was sent, in line order. */
  lemma {:induction false} CheckPassSendsAll(items: seq<CartItem>, verify: CheckoutRequest -> Rpc<bool>)
    requires CheckItems(items, verify).0 == Pass
    ensures CheckItems(items, verify).1 == Requests(items)
  {
    if items != [] {
      CheckPassSendsAll(items[1..], verify);
    }
  }

  /** `checkProduct`: an absent or empty cart is NotFound with no catalog call; otherwise the lines
      are checked in order and the first malformed, failed or unavailable one ends the check. */
  method CheckProduct(cart: Option<Cart>, verify: CheckoutRequest -> Rpc<bool>)
    returns (r: Outcome<ServiceError>, calls: seq<CheckoutRequest>)
    ensures r == CheckCart(cart, verify).0 && calls == CheckCart(cart, verify).1
    ensures cart.None? || cart.value.items == [] ==> r == Fail(NotFound) && calls == []
  {
    calls := [];
    if cart.None? || |cart.value.items| == 0 {
      return Fail(NotFound), calls;
    }
    var items := cart.value.items;
    assert items[0..] == items;
    for i := 0 to |items|
      invariant CheckItems(items, verify).0 == CheckItems(items[i..], verify).0
      invariant CheckItems(items, verify).1 == calls + CheckItems(items[i..], verify).1
    {
      var item := items[i];
      assert items[i..][0] == item && items[i..][1..] == items[i + 1..];
      ghost var rest := CheckItems(items[i + 1..], verify);
      ghost var before := calls;
      if item.productId == Nil || item.qty <= 0 {
        return Fail(InvalidItem), calls;
      }
      var req := CheckoutRequest(item.productId, Wrap(item.qty));
      calls := calls + [req];
      var resp := verify(req);
      if resp.RpcFailed? {
        return Fail(Internal), calls;
      }
      if !resp.value {
        return Fail(OutOfStock), calls;
      }
      assert before + ([req] + rest.1) == calls + rest.1;
    }
    assert items[|items|..] == [] && calls + [] == calls;
    return Pass, calls;
  }

  function CheckoutCalls(reqs: seq<CheckoutRequest>): seq<Io> {
    if reqs == [] then [] else [CatalogCheckout(reqs[0])] + CheckoutCalls(reqs[1..])
  }

  /** The calls of a cache refresh that reloads the cart: the reload, then the cache write when
      the reload succeeds. */
  function ReloadCalls(u: Uuid, reload: Option<DriverError>): seq<Io> {
    [StoreGetByUser(u)] + (if reload.None? then [CacheSet(CacheKey(u))] else [])
  }

  /** The request checks `AddItem` makes before it touches the store: a positive quantity, a
      product, a catalog answer, and stock that covers the quantity as int32. */
  predicate AddAccepted(p: Uuid, qty: int, catalog: Rpc<PriceQty>) {
    qty > 0 && p != Nil && catalog.Reply? && Wrap(qty) <= catalog.value.availableQty
  }

  /** The same checks in `ChangeQty`, against the catalog's `GetQty` answer. */
  predicate ChangeAccepted(p: Uuid, qty: int, catalog: Rpc<Int32>) {
    qty > 0 && p != Nil && catalog.Reply? && Wrap(qty) <= catalog.value
  }

  // ---------------------------------------------------------------------------
  // The orchestrator

  class CartSvc {
    const db: CartStore
    var cache: map<string, CacheEntry>
    ghost var io: seq<Io>

    ghost predicate Valid()
      reads this, db
    {
      db.Valid()
    }

    constructor (store: CartStore)
      requires store.Valid()
      ensures Valid() && db == store && cache == map[] && io == []
    {
      db := store;
      cache := map[];
      io := [];
    }

    /** The store's answer to `GetByUser` for user `u` under driver fault `fault`. */
    ghost function ReadByUser(u: Uuid, fault: Option<DriverError>): Result<Cart, RepoError>
      reads this, db
      requires Valid()
    {
      if fault.Some? then Failure(MapPgErr(fault).value)
      else if db.CartOf(u).None? then Failure(CartNotFound)
      else Success(db.CartOf(u).value)
    }

    /** The item rows of user `u`'s cart, or none when the user has no cart. */
    ghost function ItemsOf(u: Uuid): seq<ItemRow>
      reads this, db
      requires Valid()
    {
      if u in db.owner then db.items[db.owner[u]] else []
    }

    method ReadStore(u: Uuid, fault: Option<DriverError>) returns (r: Result<Cart, RepoError>)
      requires Valid()
      modifies this
      ensures Valid() && cache == old(cache)
      ensures r == ReadByUser(u, fault)
      ensures io == old(io) + [StoreGetByUser(u)]
    {
      io := io + [StoreGetByUser(u)];
      r := db.GetByUser(u, fault);
    }

    /** `refreshCache`, run to completion where the source starts it in the background: store the
        given snapshot, or reload the cart and store that; a failed reload leaves the cache alone. */
    method RefreshCache(u: Uuid, cartVal: Option<Cart>, fault: Option<DriverError>)
      requires Valid()
      modifies this
      ensures Valid()
      ensures cartVal.Some? ==> cache == old(cache)[CacheKey(u) := Snapshot(cartVal.value)]
      ensures cartVal.Some? ==> io == old(io) + [CacheSet(CacheKey(u))]
      ensures cartVal.None? && ReadByUser(u, fault).Success? ==>
                cache == old(cache)[CacheKey(u) := Snapshot(ReadByUser(u, fault).value)]
                && io == old(io) + [StoreGetByUser(u), CacheSet(CacheKey(u))]
      ensures cartVal.None? && ReadByUser(u, fault).Failure? ==>
                cache == old(cache) && io == old(io) + [StoreGetByUser(u)]
    {
      var cart: Cart;
      if cartVal.Some? {
        cart := cartVal.value;
      } else {
        var loaded := ReadStore(u, fault);
        if loaded.Failure? {
          return;
        }
        cart := loaded.value;
      }
      io := io + [CacheSet(CacheKey(u))];
      cache := cache[CacheKey(u) := Snapshot(cart)];
    }

    /** Whether `getOrCreateCart` creates a cart for `u`: the lookup reports the cart missing and
        the insert succeeds, which it does only for a user without a cart and an unused id. */
    ghost predicate CreatesCart(u: Uuid, env: Env)
      reads this, db
      requires Valid()
    {
      ReadByUser(u, env.read) == Failure(CartNotFound) && env.create.None? && u !in db.owner && env.newCartId !in db.carts
    }

    /** What `getOrCreateCart` hands back from the current state: the stored cart, a new empty
        one, or Internal for a failed lookup or a failed insert. */
    ghost function CartFor(u: Uuid, env: Env): Result<Cart, ServiceError>
      reads this, db
      requires Valid()
    {
      if ReadByUser(u, env.read).Success? then Success(ReadByUser(u, env.read).value)
      else if CreatesCart(u, env) then Success(NewCart(u, env))
      else Failure(Internal)
    }

    /** The store calls of `getOrCreateCart`: the lookup, then the insert when the lookup reports
        the cart missing. */
    ghost function CartForCalls(u: Uuid, env: Env): seq<Io>
      reads this, db
      requires Valid()
    {
      [StoreGetByUser(u)] + (if ReadByUser(u, env.read) == Failure(CartNotFound) then [StoreCreate(u)] else [])
    }

    /** The cart and owner tables after `getOrCreateCart`, from tables `carts0` and `owner0`: a
        created cart adds its row and its owner entry, otherwise both are as they were. */
    ghost predicate HeadersAfter(carts0: map<Uuid, CartRow>, owner0: map<Uuid, Uuid>, created: bool, u: Uuid, env: Env)
      reads db
    {
      if created then db.carts == carts0[env.newCartId := NewRow(u, env)] && db.owner == owner0[u := env.newCartId]
      else db.carts == carts0 && db.owner == owner0
    }

    /** `getOrCreateCart`: the user's cart, created empty when the lookup reports it missing. */
    method GetOrCreateCart(u: Uuid, env: Env) returns (r: Result<Cart, ServiceError>)
      requires Valid()
      modifies this, db
      ensures Valid() && cache == old(cache)
      ensures r == old(CartFor(u, env))
      ensures r.Failure? ==> r.error == Internal && unchanged(db)
      ensures old(ReadByUser(u, env.read)).Success? ==> r.Success? && unchanged(db)
      ensures old(CreatesCart(u, env)) ==> r == Success(NewCart(u, env)) && r.value.items == []
      ensures r.Success? ==> r.value.userId == u && db.CartOf(u) == Some(r.value) && u in db.owner && db.owner[u] == r.value.id
      ensures HeadersAfter(old(db.carts), old(db.owner), old(CreatesCart(u, env)), u, env)
      ensures db.items == if old(CreatesCart(u, env)) then old(db.items)[env.newCartId := []] else old(db.items)
      ensures io == old(io) + old(CartForCalls(u, env))
    {
      var got := ReadStore(u, env.read);
      if got.Failure? {
        if got.error == CartNotFound {
          io := io + [StoreCreate(u)];
          var created := db.Create(u, env.newCartId, env.now, env.create);
          if created.Failure? {
            return Failure(Internal);
          }
          assert ToDomain(NewRow(u, env), []) == NewCart(u, env);
          return Success(created.value);
        }
        return Failure(Internal);
      }
      return Success(got.value);
    }

    /** `GetCart`: a decodable cache entry is returned without touching the store; otherwise the
        store decides, and a cart found there is written back to the cache. */
    method GetCart(u: Uuid, env: Env) returns (r: Result<Cart, ServiceError>)
      requires Valid()
      modifies this
      ensures Valid()
      ensures var key := CacheKey(u);
              key in old(cache) && old(cache)[key].Snapshot? ==>
                r == Success(old(cache)[key].cart) && cache == old(cache) && io == old(io) + [CacheGet(key)]
      ensures var key := CacheKey(u);
              !(key in old(cache) && old(cache)[key].Snapshot?) ==>
                match ReadByUser(u, env.read)
                case Failure(e) =>
                  r == Failure(LookupErr(e)) && cache == old(cache)
                  && io == old(io) + [CacheGet(key), StoreGetByUser(u)]
                case Success(c) =>
                  r == Success(c) && cache == old(cache)[key := Snapshot(c)]
                  && io == old(io) + [CacheGet(key), StoreGetByUser(u), CacheSet(key)]
    {
      var key := CacheKey(u);
      io := io + [CacheGet(key)];
      if key in cache && cache[key].Snapshot? {
        return Success(cache[key].cart);
      }
      var got := ReadStore(u, env.read);
      if got.Failure? {
        if got.error == CartNotFound {
          return Failure(NotFound);
        }
        return Failure(Internal);
      }
      RefreshCache(u, Some(got.value), env.reload);
      return Success(got.value);
    }


    /** The upsert and the cache refresh of `AddItem`, on a cart the user owns. */
    method UpsertLine(u: Uuid, cartId: Uuid, p: Uuid, price: Price, qty: int, env: Env) returns (r: Outcome<ServiceError>)
      requires Valid() && qty > 0 && u in db.owner && db.owner[u] == cartId
      modifies this, db
      ensures Valid()
      ensures env.write.Some? ==> r == Fail(UpsertErr(MapPgErr(env.write).value))
      ensures env.write.None? && Wrap(qty) <= 0 ==> r == Fail(BadRequest)
      ensures r == Pass <==> env.write.None? && Wrap(qty) > 0
      ensures db.carts == old(db.carts) && db.owner == old(db.owner)
      ensures r.Fail? ==> cache == old(cache) && db.items == old(db.items)
      ensures io == old(io) + [StoreUpsert(cartId, p)] + (if r == Pass then ReloadCalls(u, env.reload) else [])
      ensures r == Pass ==>
                && db.items == old(db.items)[cartId := Upserted(old(db.items)[cartId], ItemRow(p, price, Wrap(qty)))]
                && cache == if env.reload.None? then old(cache)[CacheKey(u) := Snapshot(db.CartOf(u).value)] else old(cache)
    {
      io := io + [StoreUpsert(cartId, p)];
      var err := db.UpsertItem(cartId, p, price, qty, env.write);
      if err.Some? {
        return Fail(UpsertErr(err.value));
      }
      RefreshCache(u, None, env.reload);
      assert ReadByUser(u, env.reload).Success? <==> env.reload.None?;
      return Pass;
    }

    /** The store half of `AddItem`, once the request and the catalog's answer have passed: find or
        create the cart, upsert the line, refresh the cache. */
    method StoreLine(u: Uuid, p: Uuid, price: Price, qty: int, env: Env) returns (r: Outcome<ServiceError>)
      requires Valid() && qty > 0
      modifies this, db
      ensures Valid()
      ensures old(CartFor(u, env)).Failure? ==>
                r == Fail(Internal) && unchanged(db) && io == old(io) + old(CartForCalls(u, env))
      ensures old(CartFor(u, env)).Success? && env.write.Some? ==> r == Fail(UpsertErr(MapPgErr(env.write).value))
      ensures old(CartFor(u, env)).Success? && env.write.None? && Wrap(qty) <= 0 ==> r == Fail(BadRequest)
      ensures r == Pass <==> old(CartFor(u, env)).Success? && env.write.None? && Wrap(qty) > 0
      ensures r.Fail? ==> cache == old(cache)
      ensures old(CartFor(u, env)).Success? ==>
                && HeadersAfter(old(db.carts), old(db.owner), old(CreatesCart(u, env)), u, env)
                && io == old(io) + old(CartForCalls(u, env)) + [StoreUpsert(old(CartFor(u, env)).value.id, p)]
                         + (if r == Pass then ReloadCalls(u, env.reload) else [])
      ensures old(CartFor(u, env)).Success? && r.Fail? ==>
                db.items == if old(CreatesCart(u, env)) then old(db.items)[env.newCartId := []] else old(db.items)
      ensures r == Pass ==>
                && u in db.owner && db.owner[u] == old(CartFor(u, env)).value.id
                && ItemsOf(u) == Upserted(old(ItemsOf(u)), ItemRow(p, price, Wrap(qty)))
                && db.items == old(db.items)[db.owner[u] := ItemsOf(u)]
                && cache == if env.reload.None? then old(cache)[CacheKey(u) := Snapshot(db.CartOf(u).value)] else old(cache)
    {
      ghost var rows := ItemsOf(u);
      var got := GetOrCreateCart(u, env);
      if got.Failure? {
        return Fail(got.error);
      }
      var cart := got.value;
      assert db.items[cart.id] == rows;
      ghost var mid := db.items;
      r := UpsertLine(u, cart.id, p, price, qty, env);
      ghost var upserted := Upserted(rows, ItemRow(p, price, Wrap(qty)));
      assert r == Pass ==> mid[cart.id := upserted] == old(db.items)[cart.id := upserted];
    }

    /** `AddItem`: a non-positive quantity or nil product is refused before any call; the catalog's
        price and stock are checked; the cart is found or created; the line is upserted at the
        catalog price, so an existing line's quantity is replaced rather than added to.  A cart
        created on the way stays in the store even when the upsert then fails. */
    method AddItem(u: Uuid, p: Uuid, qty: int, catalog: Rpc<PriceQty>, env: Env) returns (r: Outcome<ServiceError>)
      requires Valid()
      modifies this, db
      ensures Valid()
      ensures qty <= 0 || p == Nil ==>
                r == Fail(BadRequest) && io == old(io) && cache == old(cache) && unchanged(db)
      ensures qty > 0 && p != Nil && catalog.RpcFailed? ==>
                r == Fail(Internal) && io == old(io) + [CatalogPrice(p)] && cache == old(cache) && unchanged(db)
      ensures qty > 0 && p != Nil && catalog.Reply? && catalog.value.availableQty < Wrap(qty) ==>
                r == Fail(BadRequest) && io == old(io) + [CatalogPrice(p)] && cache == old(cache) && unchanged(db)
      ensures AddAccepted(p, qty, catalog) && old(CartFor(u, env)).Failure? ==>
                r == Fail(Internal) && unchanged(db) && io == old(io) + [CatalogPrice(p)] + old(CartForCalls(u, env))
      ensures AddAccepted(p, qty, catalog) && old(CartFor(u, env)).Success? && env.write.Some? ==>
                r == Fail(UpsertErr(MapPgErr(env.write).value))
      ensures AddAccepted(p, qty, catalog) && old(CartFor(u, env)).Success? && env.write.None? && Wrap(qty) <= 0 ==>
                r == Fail(BadRequest)
      ensures r == Pass <==> AddAccepted(p, qty, catalog) && old(CartFor(u, env)).Success? && env.write.None? && Wrap(qty) > 0
      ensures r.Fail? ==> cache == old(cache)
      ensures AddAccepted(p, qty, catalog) && old(CartFor(u, env)).Success? ==>
                && HeadersAfter(old(db.carts), old(db.owner), old(CreatesCart(u, env)), u, env)
                && io == old(io) + [CatalogPrice(p)] + old(CartForCalls(u, env)) + [StoreUpsert(old(CartFor(u, env)).value.id, p)]
                         + (if r == Pass then ReloadCalls(u, env.reload) else [])
      ensures AddAccepted(p, qty, catalog) && old(CartFor(u, env)).Success? && r.Fail? ==>
                db.items == if old(CreatesCart(u, env)) then old(db.items)[env.newCartId := []] else old(db.items)
      ensures r == Pass ==>
                && u in db.owner && db.owner[u] == old(CartFor(u, env)).value.id
                && ItemsOf(u) == Upserted(old(ItemsOf(u)), ItemRow(p, catalog.value.price, Wrap(qty)))
                && db.items == old(db.items)[db.owner[u] := ItemsOf(u)]
                && cache == if env.reload.None? then old(cache)[CacheKey(u) := Snapshot(db.CartOf(u).value)] else old(cache)
    {
      if qty <= 0 || p == Nil {
        return Fail(BadRequest);
      }
      io := io + [CatalogPrice(p)];
      if catalog.RpcFailed? {
        return Fail(Internal);
      }
      var resp := catalog.value;
      if resp.availableQty < Wrap(qty) {
        return Fail(BadRequest);
      }
      r := StoreLine(u, p, resp.price, qty, env);
    }

    /** The quantity change and the cache refresh of `ChangeQty`, on a cart the user owns. */
    method ChangeLine(u: Uuid, cartId: Uuid, p: Uuid, qty: int, env: Env) returns (r: Outcome<ServiceError>)
      requires Valid() && qty > 0 && u in db.owner && db.owner[u] == cartId
      modifies this, db
      ensures Valid()
      ensures env.write.Some? ==> r == Fail(ChangeErr(MapPgErr(env.write).value))
      ensures env.write.None? && Lookup(old(db.items)[cartId], p).None? ==> r == Fail(NotFound)
      ensures env.write.None? && Lookup(old(db.items)[cartId], p).Some? && Wrap(qty) <= 0 ==> r == Fail(BadRequest)
      ensures r == Pass <==> env.write.None? && Lookup(old(db.items)[cartId], p).Some? && Wrap(qty) > 0
      ensures db.carts == old(db.carts) && db.owner == old(db.owner)
      ensures r.Fail? ==> cache == old(cache) && db.items == old(db.items)
      ensures io == old(io) + [StoreChange(cartId, p)] + (if r == Pass then ReloadCalls(u, env.reload) else [])
      ensures r == Pass ==>
                && db.items == old(db.items)[cartId := WithQuantity(old(db.items)[cartId], p, Wrap(qty))]
                && cache == if env.reload.None? then old(cache)[CacheKey(u) := Snapshot(db.CartOf(u).value)] else old(cache)
    {
      io := io + [StoreChange(cartId, p)];
      var err := db.ChangeQuantity(cartId, p, qty, env.write);
      if err.Some? {
        return Fail(ChangeErr(err.value));
      }
      RefreshCache(u, None, env.reload);
      assert ReadByUser(u, env.reload).Success? <==> env.reload.None?;
      return Pass;
    }

    /** The store half of `ChangeQty`: find or create the cart, change the line's quantity, refresh
        the cache. */
    method StoreQuantity(u: Uuid, p: Uuid, qty: int, env: Env) returns (r: Outcome<ServiceError>)
      requires Valid() && qty > 0
      modifies this, db
      ensures Valid()
      ensures old(CartFor(u, env)).Failure? ==>
                r == Fail(Internal) && unchanged(db) && io == old(io) + old(CartForCalls(u, env))
      ensures old(CartFor(u, env)).Success? && env.write.Some? ==> r == Fail(ChangeErr(MapPgErr(env.write).value))
      ensures old(CartFor(u, env)).Success? && env.write.None? && Lookup(old(ItemsOf(u)), p).None? ==>
                r == Fail(NotFound)
      ensures old(CartFor(u, env)).Success? && env.write.None? && Lookup(old(ItemsOf(u)), p).Some? && Wrap(qty) <= 0 ==>
                r == Fail(BadRequest)
      ensures r == Pass <==>
                old(CartFor(u, env)).Success? && env.write.None? && Lookup(old(ItemsOf(u)), p).Some? && Wrap(qty) > 0
      ensures r.Fail? ==> cache == old(cache)
      ensures old(CartFor(u, env)).Success? ==>
                && HeadersAfter(old(db.carts), old(db.owner), old(CreatesCart(u, env)), u, env)
                && io == old(io) + old(CartForCalls(u, env)) + [StoreChange(old(CartFor(u, env)).value.id, p)]
                         + (if r == Pass then ReloadCalls(u, env.reload) else [])
      ensures old(CartFor(u, env)).Success? && r.Fail? ==>
                db.items == if old(CreatesCart(u, env)) then old(db.items)[env.newCartId := []] else old(db.items)
      ensures forall c :: c in db.items && Lookup(db.items[c], p).Some? ==>
                c in old(db.items) && Lookup(old(db.items)[c], p).Some?
      ensures r == Pass ==>
                && !old(CreatesCart(u, env)) && u in old(db.owner)
                && db.carts == old(db.carts) && db.owner == old(db.owner)
                && ItemsOf(u) == WithQuantity(old(ItemsOf(u)), p, Wrap(qty))
                && db.items == old(db.items)[db.owner[u] := ItemsOf(u)]
                && cache == if env.reload.None? then old(cache)[CacheKey(u) := Snapshot(db.CartOf(u).value)] else old(cache)
    {
      ghost var rows := ItemsOf(u);
      var got := GetOrCreateCart(u, env);
      if got.Failure? {
        return Fail(got.error);
      }
      var cart := got.value;
      assert db.items[cart.id] == rows;
      r := ChangeLine(u, cart.id, p, qty, env);
    }

    /** `ChangeQty`: the same validation and stock check (against `GetQty`), then the quantity of an
        existing line is replaced.  A product that is not in the cart is NotFound and gains no row;
        for a user without a cart that happens after an empty cart has been created. */
    method ChangeQty(u: Uuid, p: Uuid, qty: int, catalog: Rpc<Int32>, env: Env) returns (r: Outcome<ServiceError>)
      requires Valid()
      modifies this, db
      ensures Valid()
      ensures qty <= 0 || p == Nil ==>
                r == Fail(BadRequest) && io == old(io) && cache == old(cache) && unchanged(db)
      ensures qty > 0 && p != Nil && catalog.RpcFailed? ==>
                r == Fail(Internal) && io == old(io) + [CatalogQty(p)] && cache == old(cache) && unchanged(db)
      ensures qty > 0 && p != Nil && catalog.Reply? && catalog.value < Wrap(qty) ==>
                r == Fail(BadRequest) && io == old(io) + [CatalogQty(p)] && cache == old(cache) && unchanged(db)
      ensures ChangeAccepted(p, qty, catalog) && old(CartFor(u, env)).Failure? ==>
                r == Fail(Internal) && unchanged(db) && io == old(io) + [CatalogQty(p)] + old(CartForCalls(u, env))
      ensures ChangeAccepted(p, qty, catalog) && old(CartFor(u, env)).Success? && env.write.Some? ==>
                r == Fail(ChangeErr(MapPgErr(env.write).value))
      ensures ChangeAccepted(p, qty, catalog) && old(CartFor(u, env)).Success? && env.write.None?
              && Lookup(old(ItemsOf(u)), p).None? ==>
                r == Fail(NotFound)
      ensures ChangeAccepted(p, qty, catalog) && old(CartFor(u, env)).Success? && env.write.None?
              && Lookup(old(ItemsOf(u)), p).Some? && Wrap(qty) <= 0 ==>
                r == Fail(BadRequest)
      ensures r == Pass <==>
                ChangeAccepted(p, qty, catalog) && old(CartFor(u, env)).Success? && env.write.None?
                && Lookup(old(ItemsOf(u)), p).Some? && Wrap(qty) > 0
      ensures r.Fail? ==> cache == old(cache)
      ensures ChangeAccepted(p, qty, catalog) && old(CartFor(u, env)).Success? ==>
                && HeadersAfter(old(db.carts), old(db.owner), old(CreatesCart(u, env)), u, env)
                && io == old(io) + [CatalogQty(p)] + old(CartForCalls(u, env)) + [StoreChange(old(CartFor(u, env)).value.id, p)]
                         + (if r == Pass then ReloadCalls(u, env.reload) else [])
      ensures ChangeAccepted(p, qty, catalog) && old(CartFor(u, env)).Success? && r.Fail? ==>
                db.items == if old(CreatesCart(u, env)) then old(db.items)[env.newCartId := []] else old(db.items)
      ensures forall c :: c in db.items && Lookup(db.items[c], p).Some? ==>
                c in old(db.items) && Lookup(old(db.items)[c], p).Some?
      ensures r == Pass ==>
                && !old(CreatesCart(u, env)) && u in old(db.owner)
                && db.carts == old(db.carts) && db.owner == old(db.owner)
                && ItemsOf(u) == WithQuantity(old(ItemsOf(u)), p, Wrap(qty))
                && db.items == old(db.items)[db.owner[u] := ItemsOf(u)]
                && cache == if env.reload.None? then old(cache)[CacheKey(u) := Snapshot(db.CartOf(u).value)] else old(cache)
    {
      if qty <= 0 || p == Nil {
        return Fail(BadRequest);
      }
      io := io + [CatalogQty(p)];
      if catalog.RpcFailed? {
        return Fail(Internal);
      }
      if catalog.value < Wrap(qty) {
        return Fail(BadRequest);
      }
      r := StoreQuantity(u, p, qty, env);
    }

    /** The line delete and the cache refresh of `RemoveItem`, on a cart the user owns. */
    method DeleteLine(u: Uuid, cartId: Uuid, p: Uuid, env: Env) returns (r: Outcome<ServiceError>)
      requires Valid() && u in db.owner && db.owner[u] == cartId
      modifies this, db
      ensures Valid()
      ensures env.write.Some? ==> r == Fail(Internal)
      ensures env.write.None? && Lookup(old(db.items)[cartId], p).None? ==> r == Fail(NotFound)
      ensures r == Pass <==> env.write.None? && Lookup(old(db.items)[cartId], p).Some?
      ensures db.carts == old(db.carts) && db.owner == old(db.owner)
      ensures r.Fail? ==> cache == old(cache) && db.items == old(db.items)
      ensures io == old(io) + [StoreDeleteItem(cartId, p)] + (if r == Pass then ReloadCalls(u, env.reload) else [])
      ensures r == Pass ==>
                && db.items == old(db.items)[cartId := Without(old(db.items)[cartId], p)]
                && cache == if env.reload.None? then old(cache)[CacheKey(u) := Snapshot(db.CartOf(u).value)] else old(cache)
    {
      io := io + [StoreDeleteItem(cartId, p)];
      var err := db.DeleteItem(cartId, p, env.write);
      if err.Some? {
        return Fail(DeleteItemErr(err.value));
      }
      RefreshCache(u, None, env.reload);
      assert ReadByUser(u, env.reload).Success? <==> env.reload.None?;
      return Pass;
    }

    /** `RemoveItem`: the product's line is deleted from the user's cart, found or created; a
        product that is not in the cart is NotFound. */
    method RemoveItem(u: Uuid, p: Uuid, env: Env) returns (r: Outcome<ServiceError>)
      requires Valid()
      modifies this, db
      ensures Valid()
      ensures old(CartFor(u, env)).Failure? ==>
                r == Fail(Internal) && cache == old(cache) && unchanged(db) && io == old(io) + old(CartForCalls(u, env))
      ensures old(CartFor(u, env)).Success? && env.write.Some? ==> r == Fail(Internal)
      ensures old(CartFor(u, env)).Success? && env.write.None? && Lookup(old(ItemsOf(u)), p).None? ==>
                r == Fail(NotFound)
      ensures r == Pass <==> old(CartFor(u, env)).Success? && env.write.None? && Lookup(old(ItemsOf(u)), p).Some?
      ensures r.Fail? ==> cache == old(cache)
      ensures old(CartFor(u, env)).Success? ==>
                && HeadersAfter(old(db.carts), old(db.owner), old(CreatesCart(u, env)), u, env)
                && io == old(io) + old(CartForCalls(u, env)) + [StoreDeleteItem(old(CartFor(u, env)).value.id, p)]
                         + (if r == Pass then ReloadCalls(u, env.reload) else [])
      ensures old(CartFor(u, env)).Success? && r.Fail? ==>
                db.items == if old(CreatesCart(u, env)) then old(db.items)[env.newCartId := []] else old(db.items)
      ensures r == Pass ==>
                && !old(CreatesCart(u, env)) && u in old(db.owner)
                && db.carts == old(db.carts) && db.owner == old(db.owner)
                && ItemsOf(u) == Without(old(ItemsOf(u)), p)
                && db.items == old(db.items)[db.owner[u] := ItemsOf(u)]
                && cache == if env.reload.None? then old(cache)[CacheKey(u) := Snapshot(db.CartOf(u).value)] else old(cache)
    {
      ghost var rows := ItemsOf(u);
      var got := GetOrCreateCart(u, env);
      if got.Failure? {
        return Fail(got.error);
      }
      var cart := got.value;
      assert db.items[cart.id] == rows;
      r := DeleteLine(u, cart.id, p, env);
    }

    /** `Clear`: the user's cart is looked up and deleted with its items, then its cache entry is
        dropped; a missing cart is NotFound. */
    method Clear(u: Uuid, env: Env) returns (r: Outcome<ServiceError>)
      requires Valid()
      modifies this, db
      ensures Valid()
      ensures old(ReadByUser(u, env.read)).Failure? ==>
                r == Fail(LookupErr(old(ReadByUser(u, env.read)).error)) && unchanged(db) && cache == old(cache)
                && io == old(io) + [StoreGetByUser(u)]
      ensures old(ReadByUser(u, env.read)).Success? && env.write.Some? ==>
                r == Fail(LookupErr(MapPgErr(env.write).value)) && unchanged(db) && cache == old(cache)
                && io == old(io) + [StoreGetByUser(u), StoreDeleteCart(old(db.owner)[u])]
      ensures r == Pass <==> old(ReadByUser(u, env.read)).Success? && env.write.None?
      ensures r == Pass ==>
                && u in old(db.owner) && db.CartOf(u).None?
                && db.carts == old(db.carts) - {old(db.owner)[u]}
                && db.items == old(db.items) - {old(db.owner)[u]}
                && cache == old(cache) - {CacheKey(u)}
                && io == old(io) + [StoreGetByUser(u), StoreDeleteCart(old(db.owner)[u]), CacheDel(CacheKey(u))]
    {
      var got := ReadStore(u, env.read);
      if got.Failure? {
        return Fail(LookupErr(got.error));
      }
      var cart := got.value;
      io := io + [StoreDeleteCart(cart.id)];
      var err := db.DeleteCart(cart.id, env.write);
      if err.Some? {
        return Fail(LookupErr(err.value));
      }
      io := io + [CacheDel(CacheKey(u))];
      cache := cache - {CacheKey(u)};
      return Pass;
    }

    /** The store path of `Checkout`, after the cache entry is gone: read the cart (the read writes
        the cache entry back), verify it, and only then clear it, which looks the cart up a second
        time; NotFound from either step of the clear still counts as success. */
    method CheckoutFromStore(u: Uuid, verify: CheckoutRequest -> Rpc<bool>, env: Env) returns (r: Outcome<ServiceError>)
      requires Valid() && CacheKey(u) !in cache
      modifies this, db
      ensures Valid()
      ensures old(ReadByUser(u, env.read)).Failure? ==>
                r == Fail(LookupErr(old(ReadByUser(u, env.read)).error)) && cache == old(cache) && unchanged(db)
                && io == old(io) + [CacheGet(CacheKey(u)), StoreGetByUser(u)]
      ensures old(ReadByUser(u, env.read)).Success? ==>
                var c := old(ReadByUser(u, env.read)).value;
                var check := CheckCart(Some(c), verify);
                var checked := old(io) + [CacheGet(CacheKey(u)), StoreGetByUser(u), CacheSet(CacheKey(u))] + CheckoutCalls(check.1);
                && (check.0.Fail? ==>
                      r == check.0 && unchanged(db) && cache == old(cache)[CacheKey(u) := Snapshot(c)] && io == checked)
                && (check.0 == Pass && env.reload.Some? ==>
                      unchanged(db) && cache == old(cache)[CacheKey(u) := Snapshot(c)]
                      && r == (if MapPgErr(env.reload).value == CartNotFound then Pass else Fail(Internal))
                      && io == checked + [StoreGetByUser(u)])
                && (check.0 == Pass && env.reload.None? && env.write.None? ==>
                      && r == Pass && db.CartOf(u).None?
                      && db.carts == old(db.carts) - {c.id} && db.items == old(db.items) - {c.id}
                      && cache == old(cache)
                      && io == checked + [StoreGetByUser(u), StoreDeleteCart(c.id), CacheDel(CacheKey(u))])
                && (check.0 == Pass && env.reload.None? && env.write.Some? ==>
                      unchanged(db) && cache == old(cache)[CacheKey(u) := Snapshot(c)]
                      && r == (if MapPgErr(env.write).value == CartNotFound then Pass else Fail(Internal))
                      && io == checked + [StoreGetByUser(u), StoreDeleteCart(c.id)])
    {
      var got := GetCart(u, env);
      if got.Failure? {
        if got.error == NotFound {
          return Fail(NotFound);
        }
        return Fail(Internal);
      }
      var res, calls := CheckProduct(Some(got.value), verify);
      io := io + CheckoutCalls(calls);
      if res.Fail? {
        return res;
      }
      var again := env.(read := env.reload);
      assert ReadByUser(u, again.read).Success? <==> env.reload.None?;
      ghost var id := db.owner[u];
      var cleared := Clear(u, again);
      assert cleared == Pass ==> db.items == old(db.items) - {id};
      if cleared.Fail? && cleared.error != NotFound {
        return Fail(Internal);
      }
      return Pass;
    }

    /** `Checkout`.  The cache entry is taken with GetDel first, whatever follows.  A decodable
        snapshot is verified and checkout then succeeds without touching the store; otherwise the
        store path decides.  On the store path the source writes the snapshot back and deletes it
        again from two goroutines that race; here the write always lands first, so the entry is
        gone afterwards, and the run in which a late write leaves a stale snapshot for a second
        checkout is not covered. */
    method Checkout(u: Uuid, verify: CheckoutRequest -> Rpc<bool>, env: Env) returns (r: Outcome<ServiceError>)
      requires Valid()
      modifies this, db
      ensures Valid()
      ensures var key := CacheKey(u);
              key in old(cache) && old(cache)[key].Snapshot? ==>
                && r == CheckCart(Some(old(cache)[key].cart), verify).0
                && io == old(io) + [CacheGetDel(key)] + CheckoutCalls(CheckCart(Some(old(cache)[key].cart), verify).1)
                && cache == old(cache) - {key}
                && unchanged(db)
      ensures var key := CacheKey(u);
              !(key in old(cache) && old(cache)[key].Snapshot?) && old(ReadByUser(u, env.read)).Failure? ==>
                r == Fail(LookupErr(old(ReadByUser(u, env.read)).error)) && cache == old(cache) - {key} && unchanged(db)
                && io == old(io) + [CacheGetDel(key)] + [CacheGet(key), StoreGetByUser(u)]
      ensures var key := CacheKey(u);
              !(key in old(cache) && old(cache)[key].Snapshot?) && old(ReadByUser(u, env.read)).Success? ==>
                var c := old(ReadByUser(u, env.read)).value;
                var check := CheckCart(Some(c), verify);
                var checked := old(io) + [CacheGetDel(key)] + [CacheGet(key), StoreGetByUser(u), CacheSet(key)] + CheckoutCalls(check.1);
                && (c.items == [] ==> r == Fail(NotFound) && io == checked && check.1 == [])
                && (check.0.Fail? ==>
                      r == check.0 && unchanged(db) && cache == old(cache)[key := Snapshot(c)] && io == checked)
                && (check.0 == Pass && env.reload.Some? ==>
                      unchanged(db) && cache == old(cache)[key := Snapshot(c)]
                      && r == (if MapPgErr(env.reload).value == CartNotFound then Pass else Fail(Internal))
                      && io == checked + [StoreGetByUser(u)])
                && (check.0 == Pass && env.reload.None? && env.write.None? ==>
                      && r == Pass && db.CartOf(u).None?
                      && db.carts == old(db.carts) - {c.id} && db.items == old(db.items) - {c.id}
                      && cache == old(cache) - {key}
                      && io == checked + [StoreGetByUser(u), StoreDeleteCart(c.id), CacheDel(key)])
                && (check.0 == Pass && env.reload.None? && env.write.Some? ==>
                      unchanged(db) && cache == old(cache)[key := Snapshot(c)]
                      && r == (if MapPgErr(env.write).value == CartNotFound then Pass else Fail(Internal))
                      && io == checked + [StoreGetByUser(u), StoreDeleteCart(c.id)])
    {
      var key := CacheKey(u);
      io := io + [CacheGetDel(key)];
      var entry := if key in cache then Some(cache[key]) else None;
      cache := cache - {key};
      if entry.Some? && entry.value.Snapshot? {
        var res, calls := CheckProduct(Some(entry.value.cart), verify);
        io := io + CheckoutCalls(calls);
        return res;
      }
      r := CheckoutFromStore(u, verify, env);
    }
  }
}
