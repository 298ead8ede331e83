/**
 * The App component's state: the product list and the cart, two state cells
 * that the mount effect and the cart handlers replace with new values.
 */
module Storefront {
  import opened Types
  import opened Cart
  import opened Catalog
  import Checkout

  class App {
    /** The parsed catalog, one record per data line. */
    var products: seq<Record>
    /** The cart lines, in the order they were first added. */
    var cart: seq<CartItem>

    /** The cart invariant every handler keeps. */
    ghost predicate Valid()
      reads this
    {
      WellFormed(cart)
    }

    /** The initial state: no products, an empty cart. */
    constructor ()
      ensures products == [] && cart == [] && Valid()
    {
      products := [];
      cart := [];
    }

    /**
     * The mount effect: parse the catalog text and store the records. A data
     * line with too few cells throws inside the reducer, so the store is
     * never reached; `ok` is false exactly then, and the products stay as
     * they were.
     */
    method LoadCatalog(csv: string) returns (ok: bool)
      modifies this
      ensures ok <==> ParseCsv(csv).Some?
      ensures ok ==> products == ParseCsv(csv).value
      ensures !ok ==> products == old(products)
      ensures cart == old(cart)
    {
      var parsed := ParseCatalog(csv);
      ok := parsed.Some?;
      if ok {
        products := parsed.value;
      }
    }

    /** handleAddToCart. */
    method HandleAddToCart(product: Product)
      requires Valid()
      modifies this
      ensures Valid()
      ensures cart == AddToCart(old(cart), product)
      ensures ItemCount(cart) == ItemCount(old(cart)) + 1
      ensures products == old(products)
    {
      AddKeepsWellFormed(cart, product);
      AddCount(cart, product);
      cart := AddToCart(cart, product);
    }

    /** handleUpdateQuantity. */
    method HandleUpdateQuantity(productId: int, newQuantity: int)
      requires Valid()
      modifies this
      ensures Valid()
      ensures cart == UpdateQuantity(old(cart), productId, newQuantity)
      ensures newQuantity <= 0 ==> !HasId(cart, productId)
      ensures !HasId(old(cart), productId) ==> cart == old(cart)
      ensures products == old(products)
    {
      UpdateKeepsWellFormed(cart, productId, newQuantity);
      if !HasId(cart, productId) {
        UpdateAbsent(cart, productId, newQuantity);
      }
      cart := UpdateQuantity(cart, productId, newQuantity);
    }

    /**
     * handleCheckout: reads the cart and reports the alert or the link to
     * open; neither the products nor the cart change.
     */
    method HandleCheckout(phone: string, encode: string -> string, money: int -> string) returns (outcome: Checkout.Outcome)
      ensures outcome.EmptyCartAlert? <==> cart == []
      ensures outcome.EmptyCartAlert? ==> outcome.notice == Checkout.EmptyCartNotice
      ensures outcome.OpenLink? ==> outcome.url == Checkout.LinkBase + phone + Checkout.TextQuery + encode(Checkout.Message(cart, money))
    {
      outcome := Checkout.HandleCheckout(cart, phone, encode, money);
    }

    /** handleRemoveItem. */
    method HandleRemoveItem(productId: int)
      requires Valid()
      modifies this
      ensures Valid()
      ensures cart == RemoveItem(old(cart), productId)
      ensures !HasId(cart, productId)
      ensures products == old(products)
    {
      RemoveKeepsWellFormed(cart, productId);
      cart := RemoveItem(cart, productId);
    }
  }
}
