/**
 * The record shapes of the storefront. Ids, prices and quantities are
 * integers, so sums are exact; a price is the integer part `parseFloat`
 * reads from the catalog cell, in the catalog's own units.
 */
module Types {

  datatype Product = Product(id: int, name: string, price: int, description: string, imageurl: string)

  /** A cart line: the product it was created from plus how many of it. */
  datatype CartItem = CartItem(product: Product, quantity: int) {
    function Id(): int { product.id }
  }

  /** What one line contributes to the item count. */
  function Quantity(item: CartItem): int { item.quantity }

  /** What one line contributes to the total: `item.price * item.quantity`. */
  function LineTotal(item: CartItem): int { item.product.price * item.quantity }
}
