/** The cart service's domain records: a user's cart and its line items. */
module CartModel {
  import opened Uuids

  /** The four states a cart row can carry. */
  datatype CartStatus = Open | Pending | CheckedOut | Abandoned

  /** A price as the catalog reported it; the service only copies it, it never computes with it. */
  type Price = int

  /** One line of a cart. */
  datatype CartItem = CartItem(cartId: Uuid, productId: Uuid, price: Price, qty: int)

  /** A cart as the service hands it out and as the cache stores its snapshot. */
  datatype Cart = Cart(
    id: Uuid,
    userId: Uuid,
    status: CartStatus,
    items: seq<CartItem>,
    createdAt: int,
    updatedAt: int)
}
