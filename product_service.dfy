/**
  `ProductServiceImpl`: product lookup, creation and deletion, and the stock reservations the
  cart's checkout relies on.  Each public method runs in one transaction, so a method that fails
  leaves every table as it was.
 */
module ProductService {
  import opened Wrappers
  import opened Uuids
  import opened Int32Arith
  import opened CatalogStore

  /** The stock left after taking `qty`, in Java `int` arithmetic. */
  function Reserved(stock: Int32, qty: Int32): Int32 {
    Wrap(stock - qty)
  }

  /** The stock after giving `qty` back, in Java `int` arithmetic. */
  function Released(stock: Int32, qty: Int32): Int32 {
    Wrap(stock + qty)
  }

  /** Giving back what was taken restores the stock, even where the arithmetic wraps. */
  lemma ReleaseUndoesReserve(stock: Int32, qty: Int32)
    ensures Released(Reserved(stock, qty), qty) == stock
  {
    SubThenAdd(stock, qty);
  }

  /** A reservation the stock covers subtracts exactly and leaves a stock that is not negative. */
  lemma ReserveWithinStock(stock: Int32, qty: Int32)
    requires 0 <= qty <= stock
    ensures Reserved(stock, qty) == stock - qty
    ensures 0 <= Reserved(stock, qty) <= stock
  {
  }

  /** A release that stays within the `int` range adds exactly. */
  lemma ReleaseWithinRange(stock: Int32, qty: Int32)
    requires -0x8000_0000 <= stock + qty < 0x8000_0000
    ensures Released(stock, qty) == stock + qty
  {
  }

  /** `ProductCreateReq`: the price and the initial quantity may be null. */
  datatype ProductCreateReq = ProductCreateReq(
    sku: string,
    name: string,
    description: Option<string>,
    price: Option<Amount>,
    quantity: Option<Int32>)

  function NewProduct(req: ProductCreateReq, id: Uuid): (p: Product)
    ensures p.id == id && p.sku == req.sku && p.name == req.name && p.description == req.description
  {
    Product(id, req.sku, req.name, req.description)
  }

  /** The price `create` records: the request's amount, with no currency or creation time set. */
  function NewPrice(req: ProductCreateReq, priceId: Uuid, productId: Uuid): (pp: ProductPrice)
    requires req.price.Some?
    ensures pp.id == priceId && pp.productId == productId && pp.amount == req.price.value
    ensures pp.currency.None? && pp.createdAt.None?
  {
    ProductPrice(priceId, productId, req.price.value, None, None)
  }

  class ProductServiceImpl {
    const db: CatalogDb

    constructor (db: CatalogDb)
      ensures this.db == db
    {
      this.db := db;
    }

    /** `getById`. */
    function GetById(id: Uuid): (r: Result<ProductDto, CatalogError>)
      reads db
      ensures r.Failure? <==> id !in db.products
      ensures r.Failure? ==> r.error == NotFound
      ensures r.Success? ==> r.value == ToDto(db.products[id])
    {
      if id in db.products then Success(ToDto(db.products[id])) else Failure(NotFound)
    }

    /** `reserve`: take `qty` from the stock, refusing when the stock is smaller. */
    method Reserve(id: Uuid, qty: Int32) returns (r: Outcome<CatalogError>)
      modifies db
      ensures id !in old(db.inventories) ==> r == Fail(NotFound) && unchanged(db)
      ensures id in old(db.inventories) && old(db.inventories[id]) < qty ==> r == Fail(BadRequest) && unchanged(db)
      ensures id in old(db.inventories) && old(db.inventories[id]) >= qty ==>
                && r == Pass
                && db.inventories == old(db.inventories)[id := Reserved(old(db.inventories[id]), qty)]
                && db.products == old(db.products) && db.prices == old(db.prices)
                && db.categories == old(db.categories)
    {
      if id !in db.inventories {
        return Fail(NotFound);
      }
      var stock := db.inventories[id];
      if stock < qty {
        return Fail(BadRequest);
      }
      db.inventories := db.inventories[id := Reserved(stock, qty)];
      r := Pass;
    }

    /** `release`: give `qty` back to the stock. */
    method Release(id: Uuid, qty: Int32) returns (r: Outcome<CatalogError>)
      modifies db
      ensures id !in old(db.inventories) ==> r == Fail(NotFound) && unchanged(db)
      ensures id in old(db.inventories) ==>
                && r == Pass
                && db.inventories == old(db.inventories)[id := Released(old(db.inventories[id]), qty)]
                && db.products == old(db.products) && db.prices == old(db.prices)
                && db.categories == old(db.categories)
    {
      if id !in db.inventories {
        return Fail(NotFound);
      }
      db.inventories := db.inventories[id := Released(db.inventories[id], qty)];
      r := Pass;
    }

    /** `create`: the product always, a price record only when a price is given, and an inventory
        record under the product's own id only when a quantity is given.  `productId` and `priceId`
        are the identifiers the database generates, so neither is in use. */
    method Create(req: ProductCreateReq, productId: Uuid, priceId: Uuid) returns (dto: ProductDto)
      requires db.Valid()
      requires productId !in db.products && priceId !in db.prices
      modifies db
      ensures db.Valid()
      ensures db.products == old(db.products)[productId := NewProduct(req, productId)]
      ensures req.price.Some? ==> db.prices == old(db.prices)[priceId := NewPrice(req, priceId, productId)]
      ensures req.price.None? ==> db.prices == old(db.prices)
      ensures req.quantity.Some? ==> db.inventories == old(db.inventories)[productId := req.quantity.value]
      ensures req.quantity.None? ==> db.inventories == old(db.inventories)
      ensures db.categories == old(db.categories)
      ensures dto == ToDto(NewProduct(req, productId))
    {
      var product := NewProduct(req, productId);
      if req.price.Some? {
        db.prices := db.prices[priceId := NewPrice(req, priceId, productId)];
      }
      if req.quantity.Some? {
        db.inventories := db.inventories[productId := req.quantity.value];
      }
      db.products := db.products[productId := product];
      dto := ToDto(product);
    }

    /** `delete`: the product goes, and the database's cascade takes its price records with it. */
    method Delete(id: Uuid) returns (r: Outcome<CatalogError>)
      requires db.Valid()
      modifies db
      ensures db.Valid()
      ensures id !in old(db.products) ==> r == Fail(NotFound) && unchanged(db)
      ensures id in old(db.products) ==>
                && r == Pass
                && db.products == old(db.products) - {id}
                && db.prices == (map k | k in old(db.prices) && old(db.prices[k].productId) != id :: old(db.prices[k]))
                && db.inventories == old(db.inventories) && db.categories == old(db.categories)
    {
      if id !in db.products {
        return Fail(NotFound);
      }
      db.prices := map k | k in db.prices && db.prices[k].productId != id :: db.prices[k];
      db.products := db.products - {id};
      r := Pass;
    }
  }
}
