/** `InventoryServiceImpl`: an administrator sets a product's stock level outright. */
module InventoryService {
  import opened Wrappers
  import opened Uuids
  import opened Int32Arith
  import opened CatalogStore

  /** The stock table after `setQuantity`, or the error it throws. */
  function SetResult(inventories: map<Uuid, Int32>, productId: Uuid, qty: Int32): (r: Result<map<Uuid, Int32>, CatalogError>)
    ensures r.Failure? <==> productId !in inventories
    ensures r.Failure? ==> r.error == IllegalArgument
    ensures r.Success? ==> r.value.Keys == inventories.Keys && r.value[productId] == qty
    ensures r.Success? ==> forall k :: k in inventories && k != productId ==> r.value[k] == inventories[k]
  {
    if productId in inventories then Success(inventories[productId := qty]) else Failure(IllegalArgument)
  }

  /** The quantity is overwritten, not added to: the previous stock level does not matter. */
  lemma SetIgnoresPreviousQuantity(inventories: map<Uuid, Int32>, productId: Uuid, before: Int32, qty: Int32)
    requires productId in inventories
    ensures SetResult(inventories[productId := before], productId, qty) == SetResult(inventories, productId, qty)
  {
    assert inventories[productId := before][productId := qty] == inventories[productId := qty];
  }

  /** Setting the same quantity twice is the same as setting it once. */
  lemma SetIdempotent(inventories: map<Uuid, Int32>, productId: Uuid, qty: Int32)
    requires productId in inventories
    ensures SetResult(SetResult(inventories, productId, qty).value, productId, qty) == SetResult(inventories, productId, qty)
  {
    assert inventories[productId := qty][productId := qty] == inventories[productId := qty];
  }

  class InventoryServiceImpl {
    const db: CatalogDb

    constructor (db: CatalogDb)
      ensures this.db == db
    {
      this.db := db;
    }

    /** `setQuantity`. */
    method SetQuantity(productId: Uuid, qty: Int32) returns (r: Outcome<CatalogError>)
      modifies db
      ensures productId !in old(db.inventories) ==> r == Fail(IllegalArgument) && unchanged(db)
      ensures productId in old(db.inventories) ==>
                && r == Pass
                && db.inventories == SetResult(old(db.inventories), productId, qty).value
                && db.products == old(db.products) && db.prices == old(db.prices)
                && db.categories == old(db.categories)
    {
      if productId !in db.inventories {
        return Fail(IllegalArgument);
      }
      db.inventories := db.inventories[productId := qty];
      r := Pass;
    }
  }
}
