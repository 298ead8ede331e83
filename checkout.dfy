/**
 * The checkout handler of the App component: the empty-cart guard and the
 * order message sent to WhatsApp. `toFixed(2)` is the `money` parameter,
 * `encodeURIComponent` the `encode` parameter and the shop's WhatsApp
 * number the `phone` parameter; the alert and the opened window are the
 * two outcomes.
 */
module Checkout {
  import opened JsText
  import opened Types
  import opened Cart

  const EmptyCartNotice: string := "Your cart is empty!"
  const Greeting: string := "Hello! I'd like to place an order:"
  const LinkBase: string := "https://wa.me/"
  const TextQuery: string := "?text="

  /** What checkout does: alert the shopper, or open a link. */
  datatype Outcome = EmptyCartAlert(notice: string) | OpenLink(url: string)

  /** The order total, `cart.reduce((sum, item) => sum + item.price * item.quantity, 0)`. */
  function OrderTotal(cart: seq<CartItem>): (t: int)
    ensures t == Sum(cart, LineTotal)
  {
    Reduce(cart, LineTotal, 0)
  }

  /** One summary line: the name, the quantity and the line total. */
  function DetailLine(item: CartItem, money: int -> string): string {
    item.product.name + " (x" + DecimalString(item.quantity) + ") - PKR " + money(LineTotal(item))
  }

  /** `cart.map(...)`: one summary line per cart line. */
  function OrderDetails(cart: seq<CartItem>, money: int -> string): seq<string> {
    seq(|cart|, i requires 0 <= i < |cart| => DetailLine(cart[i], money))
  }

  function TotalLine(cart: seq<CartItem>, money: int -> string): string {
    "*Total: PKR " + money(OrderTotal(cart)) + "*"
  }

  /** The greeting, a blank line, the summary lines, a blank line and the total line. */
  function Message(cart: seq<CartItem>, money: int -> string): string {
    Greeting + "\n\n" + Join(OrderDetails(cart, money), '\n') + "\n\n" + TotalLine(cart, money)
  }

  /**
   * handleCheckout: an empty cart raises the alert and composes nothing;
   * otherwise the link is the WhatsApp base, the number, `?text=` and the
   * encoded message.
   */
  function HandleCheckout(cart: seq<CartItem>, phone: string, encode: string -> string, money: int -> string): (r: Outcome)
    ensures r.EmptyCartAlert? <==> cart == []
    ensures r.EmptyCartAlert? ==> r.notice == EmptyCartNotice
    ensures r.OpenLink? ==> r.url == LinkBase + phone + TextQuery + encode(Message(cart, money))
  {
    if |cart| == 0 then EmptyCartAlert(EmptyCartNotice)
    else OpenLink(LinkBase + phone + TextQuery + encode(Message(cart, money)))
  }

  // ---------------------------------------------------------------------
  // The message reads back line by line

  lemma GreetingPlain()
    ensures '\n' !in Greeting
  {
  }

  /** A summary line spans one line when the name and the formatted money do. */
  lemma DetailLinePlain(item: CartItem, money: int -> string)
    requires '\n' !in item.product.name && '\n' !in money(LineTotal(item))
    ensures '\n' !in DetailLine(item, money)
  {
    var q := DecimalString(item.quantity);
    assert '\n' !in q by {
      forall i | 0 <= i < |q| ensures q[i] != '\n' {
        assert IsDigit(q[i]) || q[i] == '-';
      }
    }
  }

  /** Joining a head, a blank, the body lines, a blank and a last line puts two separators on each side of the body. */
  lemma FramedJoin(head: string, body: seq<string>, last: string, sep: char)
    requires body != []
    ensures Join([head, ""] + body + ["", last], sep) == head + [sep, sep] + Join(body, sep) + [sep, sep] + last
  {
    var tail := ["", last];
    JoinAppend([head, ""] + body, tail, sep);
    JoinAppend([head, ""], body, sep);
    assert Join([head, ""], sep) == head + [sep];
    assert Join(tail, sep) == [sep] + last;
  }

  /** The message is its lines joined by line feeds. */
  lemma MessageJoin(cart: seq<CartItem>, money: int -> string)
    requires cart != []
    ensures Message(cart, money) == Join([Greeting, ""] + OrderDetails(cart, money) + ["", TotalLine(cart, money)], '\n')
  {
    FramedJoin(Greeting, OrderDetails(cart, money), TotalLine(cart, money), '\n');
  }

  /** Splitting a framed join gives back its parts, when no part holds the separator. */
  lemma FramedSplit(head: string, body: seq<string>, last: string, sep: char)
    requires body != []
    requires sep !in head && sep !in last
    requires forall i :: 0 <= i < |body| ==> sep !in body[i]
    ensures Split(head + [sep, sep] + Join(body, sep) + [sep, sep] + last, sep) == [head, ""] + body + ["", last]
  {
    var parts := [head, ""] + body + ["", last];
    forall i | 0 <= i < |parts| ensures sep !in parts[i] {
      if 2 <= i < |parts| - 2 {
        assert parts[i] == body[i - 2];
      }
    }
    FramedJoin(head, body, last, sep);
    SplitJoin(parts, sep);
  }

  /** The total line spans one line when the formatted money does. */
  lemma TotalLinePlain(cart: seq<CartItem>, money: int -> string)
    requires '\n' !in money(OrderTotal(cart))
    ensures '\n' !in TotalLine(cart, money)
  {
  }

  /**
   * Splitting the message of a non-empty cart at line feeds gives the
   * greeting, a blank line, exactly one summary line per cart line in cart
   * order, a blank line and the total line, provided no product name and no
   * formatted amount holds a line feed.
   */
  lemma MessageLines(cart: seq<CartItem>, money: int -> string)
    requires cart != []
    requires forall i :: 0 <= i < |cart| ==> '\n' !in cart[i].product.name
    requires forall n :: '\n' !in money(n)
    ensures Split(Message(cart, money), '\n')
      == [Greeting, ""] + OrderDetails(cart, money) + ["", TotalLine(cart, money)]
    ensures |OrderDetails(cart, money)| == |cart|
    ensures forall i :: 0 <= i < |cart| ==> OrderDetails(cart, money)[i] == DetailLine(cart[i], money)
  {
    var details := OrderDetails(cart, money);
    GreetingPlain();
    TotalLinePlain(cart, money);
    forall i | 0 <= i < |details| ensures '\n' !in details[i] {
      DetailLinePlain(cart[i], money);
    }
    FramedSplit(Greeting, details, TotalLine(cart, money), '\n');
  }
}
