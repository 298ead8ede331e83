/**
 * The cart modal: its running total, the two quantity controls of each
 * line, which ask the App's quantity handler for `quantity - 1` and
 * `quantity + 1`, and the checkout button, disabled on an empty cart.
 */
module CartModal {
  import opened Types
  import opened Cart
  import opened Checkout

  /** totalPrice: `cartItems.reduce((total, item) => total + item.price * item.quantity, 0)`. */
  function TotalPrice(cartItems: seq<CartItem>): (t: int)
    ensures t == Sum(cartItems, LineTotal)
    ensures cartItems == [] ==> t == 0
  {
    Reduce(cartItems, LineTotal, 0)
  }

  /** The arguments a control passes to `onUpdateQuantity`. */
  datatype QuantityRequest = QuantityRequest(id: int, quantity: int)

  /** The minus button of a line. */
  function DecreaseRequest(item: CartItem): QuantityRequest {
    QuantityRequest(item.Id(), item.quantity - 1)
  }

  /** The plus button of a line. */
  function IncreaseRequest(item: CartItem): QuantityRequest {
    QuantityRequest(item.Id(), item.quantity + 1)
  }

  /** `onUpdateQuantity`, which the App wires to its quantity handler. */
  function Apply(cart: seq<CartItem>, request: QuantityRequest): seq<CartItem> {
    UpdateQuantity(cart, request.id, request.quantity)
  }

  /** The `disabled` attribute of the checkout button. */
  predicate CheckoutDisabled(cartItems: seq<CartItem>) {
    |cartItems| == 0
  }

  // ---------------------------------------------------------------------
  // The modal's total and the App's checkout total

  /** The modal's total is the total the checkout message reports. */
  lemma TotalsAgree(cart: seq<CartItem>)
    ensures TotalPrice(cart) == OrderTotal(cart)
  {
  }

  /**
   * The unit price an add puts on the bill: the stored line's price when the
   * id is already in the cart (the line keeps its own copy of the product),
   * the product's price otherwise.
   */
  function AddedPrice(cart: seq<CartItem>, product: Product): int {
    match Find(cart, product.id)
    case Some(item) => item.product.price
    case None => product.price
  }

  /** Adding a product already on line `k` raises the total by that line's unit price. */
  lemma AddTotalPresent(cart: seq<CartItem>, product: Product, k: nat)
    requires UniqueIds(cart) && k < |cart| && cart[k].Id() == product.id
    ensures TotalPrice(AddToCart(cart, product)) == TotalPrice(cart) + cart[k].product.price
  {
    AddPresent(cart, product, k);
    SumReplace(cart, k, cart[k].(quantity := cart[k].quantity + 1), LineTotal);
  }

  /** Adding a product not in the cart raises the total by its price. */
  lemma AddTotalAbsent(cart: seq<CartItem>, product: Product)
    requires !HasId(cart, product.id)
    ensures TotalPrice(AddToCart(cart, product)) == TotalPrice(cart) + product.price
  {
    SumAppend(cart, [CartItem(product, 1)], LineTotal);
    assert Sum([CartItem(product, 1)], LineTotal) == LineTotal(CartItem(product, 1)) == product.price;
  }

  /** Adding a product raises the total by the unit price of the line it bumps or appends. */
  lemma AddTotal(cart: seq<CartItem>, product: Product)
    requires UniqueIds(cart)
    ensures TotalPrice(AddToCart(cart, product)) == TotalPrice(cart) + AddedPrice(cart, product)
  {
    if HasId(cart, product.id) {
      var k :| 0 <= k < |cart| && cart[k].Id() == product.id;
      FindUnique(cart, product.id, k);
      AddTotalPresent(cart, product, k);
    } else {
      AddTotalAbsent(cart, product);
    }
  }

  /** Removing line `k` lowers the total by that line's total. */
  lemma RemoveTotal(cart: seq<CartItem>, id: int, k: nat)
    requires UniqueIds(cart) && k < |cart| && cart[k].Id() == id
    ensures TotalPrice(RemoveItem(cart, id)) == TotalPrice(cart) - LineTotal(cart[k])
  {
    RemovePresent(cart, id, k);
    SumDrop(cart, k, LineTotal);
  }

  /** Writing quantity `q` onto line `k` moves the total by the price times the change in quantity. */
  lemma UpdateTotal(cart: seq<CartItem>, id: int, q: int, k: nat)
    requires UniqueIds(cart) && k < |cart| && cart[k].Id() == id && q > 0
    ensures TotalPrice(UpdateQuantity(cart, id, q)) == TotalPrice(cart) + cart[k].product.price * (q - cart[k].quantity)
  {
    UpdatePresent(cart, id, q, k);
    SumReplace(cart, k, cart[k].(quantity := q), LineTotal);
  }

  // ---------------------------------------------------------------------
  // The quantity controls

  /** The minus button on a line of quantity 1 removes that line and keeps the others in order. */
  lemma DecreaseRemoves(cart: seq<CartItem>, k: nat)
    requires UniqueIds(cart) && k < |cart| && cart[k].quantity == 1
    ensures Apply(cart, DecreaseRequest(cart[k])) == cart[..k] + cart[k + 1..]
    ensures Apply(cart, DecreaseRequest(cart[k])) == RemoveItem(cart, cart[k].Id())
  {
    UpdateNonPositive(cart, cart[k].Id(), 0, k);
    RemovePresent(cart, cart[k].Id(), k);
  }

  /** The minus button on a line of quantity above 1 lowers only that line's quantity by one. */
  lemma DecreaseLowers(cart: seq<CartItem>, k: nat)
    requires UniqueIds(cart) && k < |cart| && cart[k].quantity > 1
    ensures Apply(cart, DecreaseRequest(cart[k])) == cart[k := cart[k].(quantity := cart[k].quantity - 1)]
    ensures ItemCount(Apply(cart, DecreaseRequest(cart[k]))) == ItemCount(cart) - 1
  {
    UpdatePresent(cart, cart[k].Id(), cart[k].quantity - 1, k);
    UpdateCount(cart, cart[k].Id(), cart[k].quantity - 1, k);
  }

  /** The plus button raises only that line's quantity by one, and the item count by one. */
  lemma IncreaseRaises(cart: seq<CartItem>, k: nat)
    requires WellFormed(cart) && k < |cart|
    ensures Apply(cart, IncreaseRequest(cart[k])) == cart[k := cart[k].(quantity := cart[k].quantity + 1)]
    ensures ItemCount(Apply(cart, IncreaseRequest(cart[k]))) == ItemCount(cart) + 1
    ensures TotalPrice(Apply(cart, IncreaseRequest(cart[k]))) == TotalPrice(cart) + cart[k].product.price
  {
    UpdatePresent(cart, cart[k].Id(), cart[k].quantity + 1, k);
    UpdateCount(cart, cart[k].Id(), cart[k].quantity + 1, k);
    UpdateTotal(cart, cart[k].Id(), cart[k].quantity + 1, k);
  }

  /** The checkout button is disabled exactly when checkout would only raise the empty-cart alert. */
  lemma DisabledIffEmpty(cart: seq<CartItem>, phone: string, encode: string -> string, money: int -> string)
    ensures CheckoutDisabled(cart) <==> cart == []
    ensures CheckoutDisabled(cart) <==> HandleCheckout(cart, phone, encode, money).EmptyCartAlert?
  {
  }
}
