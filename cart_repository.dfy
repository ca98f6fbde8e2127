/**
  The cart service's Postgres adapter: the `cart` and `cart_item` tables as maps,
  the quantity guards the adapter applies before it reaches the database, the
  "zero rows affected" checks, and the classifier from driver errors to the
  repository's own error set.
 */
module CartRepository {
  import opened Wrappers
  import opened Uuids
  import opened Int32Arith
  import opened CartModel

  /** What the database driver can report for one query. */
  datatype DriverError =
    | NoRows                 // pgx.ErrNoRows or sql.ErrNoRows
    | PgError(code: string)  // a server error carrying its SQLSTATE code
    | Other(message: string) // anything else: network failure, deadline, ...

  /** The repository's error set; `Unmapped` is a driver error passed through unchanged. */
  datatype RepoError = CartNotFound | ItemNotFound | QtyConstraint | DbFailure | Unmapped(cause: DriverError)

  const UniqueViolation := "23505"
  const CheckViolation := "23514"
  const ForeignKeyViolation := "23503"

  /** `mapPgErr`: nil stays nil, "no rows" and a foreign-key miss mean the cart is gone,
      a CHECK violation is the quantity constraint, every other server error is a DB failure,
      and an error that did not come from the server is returned as it is. */
  function MapPgErr(err: Option<DriverError>): (r: Option<RepoError>)
    ensures r.None? <==> err.None?
    ensures r == Some(CartNotFound) <==> err == Some(NoRows) || err == Some(PgError(ForeignKeyViolation))
    ensures r == Some(QtyConstraint) <==> err == Some(PgError(CheckViolation))
    ensures r == Some(DbFailure) <==>
              err.Some? && err.value.PgError? && err.value.code != CheckViolation && err.value.code != ForeignKeyViolation
    ensures r.Some? && r.value.Unmapped? <==> err.Some? && err.value.Other?
    ensures r.Some? && r.value.Unmapped? ==> r.value.cause == err.value
    ensures r != Some(ItemNotFound)
  {
    match err
    case None => None
    case Some(NoRows) => Some(CartNotFound)
    case Some(PgError(code)) =>
      if code == UniqueViolation then Some(DbFailure)
      else if code == CheckViolation then Some(QtyConstraint)
      else if code == ForeignKeyViolation then Some(CartNotFound)
      else Some(DbFailure)
    case Some(e) => Some(Unmapped(e))
  }

  /** `mapPgErr` as the file is written.  Its queries run on pgx v5, which reports a server error
      as the v5 driver's own `PgError` type, while the `errors.As` target is a pointer to the
      `PgError` of the older standalone `pgconn` module that the file imports; a v5 error is never
      of that type, so every server error falls through to the final `return err`. */
  function MapPgErrAsWritten(err: Option<DriverError>): (r: Option<RepoError>)
    ensures r.None? <==> err.None?
    ensures r == Some(CartNotFound) <==> err == Some(NoRows)
    ensures err.Some? && err.value != NoRows ==> r == Some(Unmapped(err.value))
  {
    match err
    case None => None
    case Some(NoRows) => Some(CartNotFound)
    case Some(e) => Some(Unmapped(e))
  }

  /** As written, no server error is classified: each one differs from the intended mapping,
      which never passes a server error through. */
  lemma AsWrittenPassesServerErrors(code: string)
    ensures MapPgErrAsWritten(Some(PgError(code))) == Some(Unmapped(PgError(code)))
    ensures MapPgErr(Some(PgError(code))) != MapPgErrAsWritten(Some(PgError(code)))
  {
  }

  /** A row of table `cart`. */
  datatype CartRow = CartRow(id: Uuid, userId: Uuid, status: CartStatus, createdAt: int, updatedAt: int)

  /** A row of table `cart_item`; `quantity` is a 32-bit column. */
  datatype ItemRow = ItemRow(productId: Uuid, price: Price, quantity: Int32)

  /** The domain line built from a row; the cart id of the domain line is left at its zero value. */
  function ItemToDomain(it: ItemRow): CartItem {
    CartItem(Nil, it.productId, it.price, it.quantity)
  }

  /** The domain cart built from a header row and its item rows. */
  function ToDomain(c: CartRow, rows: seq<ItemRow>): Cart {
    Cart(c.id, c.userId, c.status, seq(|rows|, i requires 0 <= i < |rows| => ItemToDomain(rows[i])), c.createdAt, c.updatedAt)
  }

  /** `mapCartToDomain`: the header fields are copied, the item list keeps the rows' count and order,
      and each line copies product, price and quantity. */
  method MapCartToDomain(c: CartRow, rows: seq<ItemRow>) returns (cart: Cart)
    ensures cart.id == c.id && cart.userId == c.userId && cart.status == c.status
    ensures cart.createdAt == c.createdAt && cart.updatedAt == c.updatedAt
    ensures |cart.items| == |rows|
    ensures forall i :: 0 <= i < |rows| ==>
              cart.items[i] == CartItem(Nil, rows[i].productId, rows[i].price, rows[i].quantity)
    ensures cart == ToDomain(c, rows)
  {
    var domainItems: seq<CartItem> := [];
    for k := 0 to |rows|
      invariant |domainItems| == k
      invariant forall i :: 0 <= i < k ==> domainItems[i] == ItemToDomain(rows[i])
    {
      var it := rows[k];
      domainItems := domainItems + [CartItem(Nil, it.productId, it.price, it.quantity)];
    }
    cart := Cart(c.id, c.userId, c.status, domainItems, c.createdAt, c.updatedAt);
  }

  // ---------------------------------------------------------------------------
  // Item rows of one cart, as a sequence in listing order

  ghost predicate UniqueProducts(rows: seq<ItemRow>) {
    forall i, j :: 0 <= i < j < |rows| ==> rows[i].productId != rows[j].productId
  }

  /** The table's CHECK constraint: no stored quantity is zero or negative. */
  ghost predicate PositiveQuantities(rows: seq<ItemRow>) {
    forall i :: 0 <= i < |rows| ==> rows[i].quantity > 0
  }

  ghost predicate WellFormed(rows: seq<ItemRow>) {
    UniqueProducts(rows) && PositiveQuantities(rows)
  }

  /** The row of product `p`, if the cart has one. */
  function Lookup(rows: seq<ItemRow>, p: Uuid): Option<ItemRow> {
    if rows == [] then None
    else if rows[0].productId == p then Some(rows[0])
    else Lookup(rows[1..], p)
  }

  /** `INSERT ... ON CONFLICT (cart_id, product_id) DO UPDATE`: the row of the same product is
      replaced where it stands, otherwise the new row is appended. */
  function Upserted(rows: seq<ItemRow>, row: ItemRow): seq<ItemRow> {
    if rows == [] then [row]
    else if rows[0].productId == row.productId then [row] + rows[1..]
    else [rows[0]] + Upserted(rows[1..], row)
  }

  /** `UPDATE cart_item SET quantity`: only the quantity of product `p` changes. */
  function WithQuantity(rows: seq<ItemRow>, p: Uuid, q: Int32): seq<ItemRow> {
    if rows == [] then []
    else if rows[0].productId == p then [rows[0].(quantity := q)] + rows[1..]
    else [rows[0]] + WithQuantity(rows[1..], p, q)
  }

  /** `DELETE FROM cart_item WHERE product_id = p`. */
  function Without(rows: seq<ItemRow>, p: Uuid): seq<ItemRow> {
    if rows == [] then []
    else if rows[0].productId == p then Without(rows[1..], p)
    else [rows[0]] + Without(rows[1..], p)
  }

  lemma {:induction false} LookupSome(rows: seq<ItemRow>, p: Uuid)
    ensures Lookup(rows, p).Some? <==> exists i :: 0 <= i < |rows| && rows[i].productId == p
    ensures Lookup(rows, p).Some? ==> Lookup(rows, p).value in rows && Lookup(rows, p).value.productId == p
  {
    if rows != [] {
      LookupSome(rows[1..], p);
      if rows[0].productId != p {
        if exists i :: 0 <= i < |rows| && rows[i].productId == p {
          var i :| 0 <= i < |rows| && rows[i].productId == p;
          assert rows[1..][i - 1].productId == p;
        }
      }
    }
  }

  /** In a cart without duplicate products, the head's product does not occur again. */
  lemma HeadNotInTail(rows: seq<ItemRow>)
    requires rows != [] && UniqueProducts(rows)
    ensures Lookup(rows[1..], rows[0].productId).None?
  {
    forall i | 0 <= i < |rows[1..]| ensures rows[1..][i].productId != rows[0].productId {
      assert rows[1..][i] == rows[i + 1];
    }
    LookupSome(rows[1..], rows[0].productId);
  }

  /** Putting a row in front of rows that lack its product keeps the products unique. */
  lemma ConsUnique(r: ItemRow, t: seq<ItemRow>)
    requires UniqueProducts(t) && forall x :: x in t ==> x.productId != r.productId
    ensures UniqueProducts([r] + t)
  {
    var res := [r] + t;
    forall i, j | 0 <= i < j < |res| ensures res[i].productId != res[j].productId {
      assert res[j] == t[j - 1];
      if i > 0 { assert res[i] == t[i - 1]; }
    }
  }

  lemma PositiveByMembers(rows: seq<ItemRow>, res: seq<ItemRow>, q: int)
    requires PositiveQuantities(rows) && q > 0
    requires forall r :: r in res ==> r in rows || r.quantity == q
    ensures PositiveQuantities(res)
  {
    forall i | 0 <= i < |res| ensures res[i].quantity > 0 {
      if res[i] in rows { var k :| 0 <= k < |rows| && rows[k] == res[i]; }
    }
  }

  /** An upsert leaves exactly the new row for its product (the quantity is overwritten, not added)
      and keeps every other product's row. */
  lemma {:induction false} UpsertLookup(rows: seq<ItemRow>, row: ItemRow, q: Uuid)
    ensures Lookup(Upserted(rows, row), row.productId) == Some(row)
    ensures q != row.productId ==> Lookup(Upserted(rows, row), q) == Lookup(rows, q)
    ensures |Upserted(rows, row)| == if Lookup(rows, row.productId).Some? then |rows| else |rows| + 1
    ensures forall r :: r in Upserted(rows, row) ==> r == row || r in rows
  {
    if rows != [] && rows[0].productId != row.productId {
      UpsertLookup(rows[1..], row, q);
      assert forall r :: r in rows[1..] ==> r in rows;
    }
  }

  /** An upsert keeps the rows free of duplicate products and of non-positive quantities. */
  lemma {:induction false} UpsertWellFormed(rows: seq<ItemRow>, row: ItemRow)
    requires WellFormed(rows) && row.quantity > 0
    ensures WellFormed(Upserted(rows, row))
  {
    UpsertLookup(rows, row, row.productId);
    PositiveByMembers(rows, Upserted(rows, row), row.quantity);
    if rows != [] {
      if rows[0].productId == row.productId {
        HeadNotInTail(rows);
        LookupSome(rows[1..], row.productId);
        ConsUnique(row, rows[1..]);
      } else {
        UpsertWellFormed(rows[1..], row);
        var tail := Upserted(rows[1..], row);
        UpsertLookup(rows[1..], row, row.productId);
        forall x | x in tail ensures x.productId != rows[0].productId {
          if x != row { var i :| 0 <= i < |rows[1..]| && rows[1..][i] == x; assert rows[i + 1] == x; }
        }
        ConsUnique(rows[0], tail);
      }
    }
  }

  /** Changing a quantity touches only that product's quantity. */
  lemma {:induction false} ChangeKeepsOthers(rows: seq<ItemRow>, p: Uuid, qty: Int32, q: Uuid)
    requires Lookup(rows, p).Some?
    ensures Lookup(WithQuantity(rows, p, qty), p) == Some(Lookup(rows, p).value.(quantity := qty))
    ensures q != p ==> Lookup(WithQuantity(rows, p, qty), q) == Lookup(rows, q)
    ensures |WithQuantity(rows, p, qty)| == |rows|
    ensures forall i :: 0 <= i < |rows| ==> WithQuantity(rows, p, qty)[i].productId == rows[i].productId
    ensures forall r :: r in WithQuantity(rows, p, qty) ==> r in rows || r.quantity == qty
  {
    if rows[0].productId != p {
      ChangeKeepsOthers(rows[1..], p, qty, q);
      var t := WithQuantity(rows[1..], p, qty);
      assert forall i :: 1 <= i < |rows| ==> WithQuantity(rows, p, qty)[i] == t[i - 1];
      assert forall r :: r in rows[1..] ==> r in rows;
    }
  }

  lemma ChangeWellFormed(rows: seq<ItemRow>, p: Uuid, qty: Int32)
    requires WellFormed(rows) && Lookup(rows, p).Some? && qty > 0
    ensures WellFormed(WithQuantity(rows, p, qty))
  {
    ChangeKeepsOthers(rows, p, qty, p);
    PositiveByMembers(rows, WithQuantity(rows, p, qty), qty);
  }

  /** Deleting a product's row removes only that product. */
  lemma {:induction false} DeleteKeepsOthers(rows: seq<ItemRow>, p: Uuid, q: Uuid)
    ensures Lookup(Without(rows, p), p) == None
    ensures q != p ==> Lookup(Without(rows, p), q) == Lookup(rows, q)
    ensures forall r :: r in Without(rows, p) ==> r in rows && r.productId != p
  {
    if rows != [] {
      DeleteKeepsOthers(rows[1..], p, q);
      assert forall r :: r in rows[1..] ==> r in rows;
    }
  }

  lemma {:induction false} DeleteWellFormed(rows: seq<ItemRow>, p: Uuid)
    requires WellFormed(rows)
    ensures WellFormed(Without(rows, p))
  {
    DeleteKeepsOthers(rows, p, p);
    PositiveByMembers(rows, Without(rows, p), 1);
    if rows != [] {
      DeleteWellFormed(rows[1..], p);
      if rows[0].productId != p {
        var t := Without(rows[1..], p);
        DeleteKeepsOthers(rows[1..], p, p);
        forall x | x in t ensures x.productId != rows[0].productId {
          var i :| 0 <= i < |rows[1..]| && rows[1..][i] == x; assert rows[i + 1] == x;
        }
        ConsUnique(rows[0], t);
      }
    }
  }

  // ---------------------------------------------------------------------------
  // The store

  /** The two tables, plus the user-to-cart lookup that `GetByUser` performs.  Every query takes
      `fault`: the error the driver reports for it (connection loss, deadline, ...), if any. */
  class CartStore {
    var carts: map<Uuid, CartRow>
    var items: map<Uuid, seq<ItemRow>>
    var owner: map<Uuid, Uuid>

    ghost predicate Valid()
      reads this
    {
      && items.Keys == carts.Keys
      && (forall id :: id in carts ==> carts[id].id == id)
      && (forall u :: u in owner ==> owner[u] in carts && carts[owner[u]].userId == u)
      && (forall id :: id in carts ==> carts[id].userId in owner && owner[carts[id].userId] == id)
      && (forall id :: id in items ==> WellFormed(items[id]))
    }

    /** The domain cart of user `u`, if the user has one. */
    ghost function CartOf(u: Uuid): Option<Cart>
      reads this
      requires Valid()
    {
      if u in owner then Some(ToDomain(carts[owner[u]], items[owner[u]])) else None
    }

    constructor ()
      ensures Valid() && carts == map[] && items == map[] && owner == map[]
    {
      carts, items, owner := map[], map[], map[];
    }

    /** `Get`: the header, then the item rows, of cart `cartId`. */
    method Get(cartId: Uuid, fault: Option<DriverError>) returns (r: Result<Cart, RepoError>)
      requires Valid()
      ensures fault.Some? ==> r == Failure(MapPgErr(fault).value)
      ensures fault.None? && cartId !in carts ==> r == Failure(CartNotFound)
      ensures fault.None? && cartId in carts ==> r == Success(ToDomain(carts[cartId], items[cartId]))
    {
      if fault.Some? {
        return Failure(MapPgErr(fault).value);
      }
      if cartId !in carts {
        return Failure(MapPgErr(Some(NoRows)).value);
      }
      var cart := MapCartToDomain(carts[cartId], items[cartId]);
      return Success(cart);
    }

    /** The user's cart, or CartNotFound when the query returns no row. */
    method GetByUser(userId: Uuid, fault: Option<DriverError>) returns (r: Result<Cart, RepoError>)
      requires Valid()
      ensures fault.Some? ==> r == Failure(MapPgErr(fault).value)
      ensures fault.None? && CartOf(userId).None? ==> r == Failure(CartNotFound)
      ensures fault.None? && CartOf(userId).Some? ==> r == Success(CartOf(userId).value)
      ensures r.Success? ==> r.value.userId == userId && userId in owner && owner[userId] == r.value.id
    {
      if fault.Some? {
        return Failure(MapPgErr(fault).value);
      }
      if userId !in owner {
        return Failure(MapPgErr(Some(NoRows)).value);
      }
      var id := owner[userId];
      var cart := MapCartToDomain(carts[id], items[id]);
      return Success(cart);
    }

    /** A new empty OPEN cart for `userId`, under the id the database generates.  A second cart for
        the same user, or a colliding id, violates a unique constraint. */
    method Create(userId: Uuid, newId: Uuid, now: int, fault: Option<DriverError>) returns (r: Result<Cart, RepoError>)
      requires Valid()
      modifies this
      ensures Valid()
      ensures r.Success? <==> fault.None? && userId !in old(owner) && newId !in old(carts)
      ensures r.Failure? ==> r.error == MapPgErr(if fault.Some? then fault else Some(PgError(UniqueViolation))).value
      ensures r.Failure? ==> unchanged(this)
      ensures r.Success? ==>
                && r.value == Cart(newId, userId, Open, [], now, now)
                && carts == old(carts)[newId := CartRow(newId, userId, Open, now, now)]
                && items == old(items)[newId := []]
                && owner == old(owner)[userId := newId]
                && CartOf(userId) == Some(r.value)
    {
      var err := fault;
      if err.None? && (userId in owner || newId in carts) {
        err := Some(PgError(UniqueViolation));
      }
      if err.Some? {
        return Failure(MapPgErr(err).value);
      }
      var row := CartRow(newId, userId, Open, now, now);
      carts := carts[newId := row];
      items := items[newId := []];
      owner := owner[userId := newId];
      assert ToDomain(row, []) == Cart(newId, userId, Open, [], now, now);
      return Success(Cart(newId, userId, Open, [], now, now));
    }

    /** `UpsertItem`: a quantity of zero or less is refused before any query; otherwise the row is
        inserted or overwritten.  The column keeps the low 32 bits of `qty`, so a value that wraps to
        zero or below breaks the CHECK constraint, and a missing cart breaks the foreign key. */
    method UpsertItem(cartId: Uuid, productId: Uuid, price: Price, qty: int, fault: Option<DriverError>)
      returns (r: Option<RepoError>)
      requires Valid()
      modifies this
      ensures Valid()
      ensures carts == old(carts) && owner == old(owner)
      ensures qty <= 0 ==> r == Some(QtyConstraint)
      ensures qty > 0 && fault.Some? ==> r == MapPgErr(fault)
      ensures qty > 0 && fault.None? && Wrap(qty) <= 0 ==> r == Some(QtyConstraint)
      ensures qty > 0 && fault.None? && Wrap(qty) > 0 && cartId !in carts ==> r == Some(CartNotFound)
      ensures r.None? <==> qty > 0 && fault.None? && Wrap(qty) > 0 && cartId in carts
      ensures r.Some? ==> unchanged(this)
      ensures r.None? ==> items == old(items)[cartId := Upserted(old(items)[cartId], ItemRow(productId, price, Wrap(qty)))]
    {
      if qty <= 0 {
        return Some(QtyConstraint);
      }
      var err := fault;
      if err.None? && Wrap(qty) <= 0 {
        err := Some(PgError(CheckViolation));
      } else if err.None? && cartId !in carts {
        err := Some(PgError(ForeignKeyViolation));
      }
      if err.None? {
        var row := ItemRow(productId, price, Wrap(qty));
        UpsertWellFormed(items[cartId], row);
        items := items[cartId := Upserted(items[cartId], row)];
      }
      return MapPgErr(err);
    }

    /** `ChangeQuantity`: a quantity of zero or less is refused before any query; an UPDATE that
        matches no row is ItemNotFound and inserts nothing. */
    method ChangeQuantity(cartId: Uuid, productId: Uuid, qty: int, fault: Option<DriverError>)
      returns (r: Option<RepoError>)
      requires Valid()
      modifies this
      ensures Valid()
      ensures carts == old(carts) && owner == old(owner)
      ensures qty <= 0 ==> r == Some(QtyConstraint)
      ensures qty > 0 && fault.Some? ==> r == MapPgErr(fault)
      ensures qty > 0 && fault.None? && (cartId !in carts || Lookup(old(items)[cartId], productId).None?) ==>
                r == Some(ItemNotFound)
      ensures qty > 0 && fault.None? && cartId in carts && Lookup(old(items)[cartId], productId).Some? && Wrap(qty) <= 0 ==>
                r == Some(QtyConstraint)
      ensures r.None? <==> qty > 0 && fault.None? && cartId in carts && Lookup(old(items)[cartId], productId).Some? && Wrap(qty) > 0
      ensures r.Some? ==> unchanged(this)
      ensures r.None? ==> items == old(items)[cartId := WithQuantity(old(items)[cartId], productId, Wrap(qty))]
    {
      if qty <= 0 {
        return Some(QtyConstraint);
      }
      if fault.Some? {
        return MapPgErr(fault);
      }
      if cartId !in carts || Lookup(items[cartId], productId).None? {
        return Some(ItemNotFound);
      }
      if Wrap(qty) <= 0 {
        return MapPgErr(Some(PgError(CheckViolation)));
      }
      ChangeWellFormed(items[cartId], productId, Wrap(qty));
      items := items[cartId := WithQuantity(items[cartId], productId, Wrap(qty))];
      return None;
    }

    /** `DeleteItem`: a DELETE that matches no row is ItemNotFound. */
    method DeleteItem(cartId: Uuid, productId: Uuid, fault: Option<DriverError>) returns (r: Option<RepoError>)
      requires Valid()
      modifies this
      ensures Valid()
      ensures carts == old(carts) && owner == old(owner)
      ensures fault.Some? ==> r == MapPgErr(fault)
      ensures fault.None? && (cartId !in carts || Lookup(old(items)[cartId], productId).None?) ==> r == Some(ItemNotFound)
      ensures r.None? <==> fault.None? && cartId in carts && Lookup(old(items)[cartId], productId).Some?
      ensures r.Some? ==> unchanged(this)
      ensures r.None? ==> items == old(items)[cartId := Without(old(items)[cartId], productId)]
    {
      if fault.Some? {
        return MapPgErr(fault);
      }
      if cartId !in carts || Lookup(items[cartId], productId).None? {
        return Some(ItemNotFound);
      }
      DeleteWellFormed(items[cartId], productId);
      items := items[cartId := Without(items[cartId], productId)];
      return None;
    }

    /** `DeleteCart`: the cart and, by cascade, its items; a DELETE that matches no row is CartNotFound. */
    method DeleteCart(cartId: Uuid, fault: Option<DriverError>) returns (r: Option<RepoError>)
      requires Valid()
      modifies this
      ensures Valid()
      ensures fault.Some? ==> r == MapPgErr(fault)
      ensures fault.None? && cartId !in old(carts) ==> r == Some(CartNotFound)
      ensures r.None? <==> fault.None? && cartId in old(carts)
      ensures r.Some? ==> unchanged(this)
      ensures r.None? ==>
                && carts == old(carts) - {cartId}
                && items == old(items) - {cartId}
                && owner == old(owner) - {old(carts)[cartId].userId}
    {
      if fault.Some? {
        return MapPgErr(fault);
      }
      if cartId !in carts {
        return Some(CartNotFound);
      }
      var u := carts[cartId].userId;
      carts := carts - {cartId};
      items := items - {cartId};
      owner := owner - {u};
      return None;
    }
  }
}
