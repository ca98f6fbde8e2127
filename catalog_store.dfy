/**
  The catalog's tables as the services see them through their repositories: products, the stock
  level of each inventory record (keyed by the product id it belongs to), price records and
  categories.  Identifiers that the database generates are passed to the operations as arguments.
 */
module CatalogStore {
  import opened Wrappers
  import opened Uuids
  import opened Int32Arith

  /** A `BigDecimal` amount, compared and stored as an exact value. */
  type Amount = int

  datatype Product = Product(id: Uuid, sku: string, name: string, description: Option<string>)

  /** A `currency` or `createdAt` the entity never set is absent. */
  datatype ProductPrice = ProductPrice(
    id: Uuid,
    productId: Uuid,
    amount: Amount,
    currency: Option<string>,
    createdAt: Option<int>)

  datatype Category = Category(id: Uuid, name: Option<string>, slug: string)

  /** What the services throw: `NotFoundException`, `BadRequestException`,
      `IllegalArgumentException`, and the integrity violation a failed foreign key raises. */
  datatype CatalogError = NotFound | BadRequest | IllegalArgument | IntegrityViolation

  /** The product fields `ProductMapper.toDto` can fill from a `Product`; the others stay null. */
  datatype ProductDto = ProductDto(id: Uuid, sku: string, name: string, description: Option<string>)

  function ToDto(p: Product): (d: ProductDto)
    ensures d.id == p.id && d.sku == p.sku && d.name == p.name && d.description == p.description
  {
    ProductDto(p.id, p.sku, p.name, p.description)
  }

  function ToDtos(ps: seq<Product>): (ds: seq<ProductDto>)
    ensures |ds| == |ps|
    ensures forall i :: 0 <= i < |ps| ==> ds[i] == ToDto(ps[i])
  {
    if ps == [] then [] else [ToDto(ps[0])] + ToDtos(ps[1..])
  }

  class CatalogDb {
    var products: map<Uuid, Product>
    var inventories: map<Uuid, Int32>
    var prices: map<Uuid, ProductPrice>
    var categories: map<Uuid, Category>

    /** Every price belongs to an existing product, and no product has two prices. */
    ghost predicate PricesValid()
      reads this
    {
      && (forall k :: k in prices ==> prices[k].id == k && prices[k].productId in products)
      && (forall k, l :: k in prices && l in prices && prices[k].productId == prices[l].productId ==> k == l)
    }

    /** No two categories share a slug. */
    ghost predicate CategoriesValid()
      reads this
    {
      && (forall k :: k in categories ==> categories[k].id == k)
      && (forall k, l :: k in categories && l in categories && categories[k].slug == categories[l].slug ==> k == l)
    }

    ghost predicate Valid()
      reads this
    {
      && (forall k :: k in products ==> products[k].id == k)
      && PricesValid()
      && CategoriesValid()
    }

    constructor ()
      ensures products == map[] && inventories == map[] && prices == map[] && categories == map[]
      ensures Valid()
    {
      products, inventories, prices, categories := map[], map[], map[], map[];
    }

    ghost function Slugs(): set<string>
      reads this
    {
      set k | k in categories :: categories[k].slug
    }

    /** `CategoryRepository.existsBySlug`. */
    function ExistsBySlug(slug: string): (b: bool)
      reads this
      ensures b <==> slug in Slugs()
    {
      exists k :: k in categories && categories[k].slug == slug
    }

    /** The price record of a product, if it has one. */
    ghost function PriceOf(productId: Uuid): (r: Option<ProductPrice>)
      requires PricesValid()
      reads this
      ensures r.Some? ==> r.value.productId == productId && r.value.id in prices && prices[r.value.id] == r.value
      ensures r.None? <==> forall k :: k in prices ==> prices[k].productId != productId
    {
      if exists k :: k in prices && prices[k].productId == productId then
        var k :| k in prices && prices[k].productId == productId;
        Some(prices[k])
      else None
    }

    /** `ProductPriceRepository.findByProductId`. */
    method FindPriceByProductId(productId: Uuid) returns (r: Option<ProductPrice>)
      requires PricesValid()
      ensures r == PriceOf(productId)
    {
      if exists k :: k in prices && prices[k].productId == productId {
        var k :| k in prices && prices[k].productId == productId;
        r := Some(prices[k]);
      } else {
        r := None;
      }
    }
  }
}
