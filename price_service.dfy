/**
  `PriceServiceImpl.addPrice`: an upsert of a product's price.  A product that already has a price
  record gets its amount and currency replaced in place; otherwise a new record is created.
 */
module PriceService {
  import opened Wrappers
  import opened Uuids
  import opened CatalogStore

  /** `PriceCreateReq`. */
  datatype PriceCreateReq = PriceCreateReq(amount: Amount, currency: string)

  /** `ProductPriceResponseDto`. */
  datatype PriceDto = PriceDto(id: Uuid, productId: Uuid, amount: Amount, currency: Option<string>, createdAt: Option<int>)

  function ToPriceDto(p: ProductPrice): (d: PriceDto)
    ensures d.id == p.id && d.productId == p.productId && d.amount == p.amount
    ensures d.currency == p.currency && d.createdAt == p.createdAt
  {
    PriceDto(p.id, p.productId, p.amount, p.currency, p.createdAt)
  }

  /** The record after the update branch: the request's amount and currency on the old record's
      id, product and creation time. */
  function Updated(existing: ProductPrice, req: PriceCreateReq): (p: ProductPrice)
    ensures p.id == existing.id && p.productId == existing.productId && p.createdAt == existing.createdAt
    ensures p.amount == req.amount && p.currency == Some(req.currency)
  {
    existing.(amount := req.amount, currency := Some(req.currency))
  }

  /** The record the create branch saves; its creation time is never set on the entity. */
  function Fresh(id: Uuid, productId: Uuid, req: PriceCreateReq): (p: ProductPrice)
    ensures p.id == id && p.productId == productId && p.amount == req.amount
    ensures p.currency == Some(req.currency) && p.createdAt.None?
  {
    ProductPrice(id, productId, req.amount, Some(req.currency), None)
  }

  class PriceServiceImpl {
    const db: CatalogDb

    constructor (db: CatalogDb)
      ensures this.db == db
    {
      this.db := db;
    }

    /** `addPrice`; `newId` is the identifier the database would give a new record.  A new record
        for a product that does not exist fails its foreign key and nothing is saved. */
    method AddPrice(productId: Uuid, req: PriceCreateReq, newId: Uuid) returns (r: Result<PriceDto, CatalogError>)
      requires db.Valid() && newId !in db.prices
      modifies db
      ensures db.Valid()
      ensures db.products == old(db.products) && db.inventories == old(db.inventories)
      ensures db.categories == old(db.categories)
      ensures old(db.PriceOf(productId)).Some? ==>
                var existing := old(db.PriceOf(productId)).value;
                && db.prices == old(db.prices)[existing.id := Updated(existing, req)]
                && r == Success(ToPriceDto(Updated(existing, req)))
      ensures old(db.PriceOf(productId)).None? && productId in old(db.products) ==>
                && db.prices == old(db.prices)[newId := Fresh(newId, productId, req)]
                && r == Success(ToPriceDto(Fresh(newId, productId, req)))
      ensures old(db.PriceOf(productId)).None? && productId !in old(db.products) ==>
                r == Failure(IntegrityViolation) && db.prices == old(db.prices)
      ensures r.Success? ==>
                && r.value.productId == productId && r.value.amount == req.amount
                && r.value.currency == Some(req.currency)
                && db.PriceOf(productId) == Some(db.prices[r.value.id])
                && forall k :: k in db.prices && db.prices[k].productId == productId ==> k == r.value.id
    {
      var found := db.FindPriceByProductId(productId);
      if found.Some? {
        var updated := Updated(found.value, req);
        db.prices := db.prices[updated.id := updated];
        r := Success(ToPriceDto(updated));
      } else if productId in db.products {
        var created := Fresh(newId, productId, req);
        db.prices := db.prices[newId := created];
        r := Success(ToPriceDto(created));
      } else {
        r := Failure(IntegrityViolation);
      }
    }
  }
}
