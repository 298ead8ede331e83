/**
 * The cart handlers of the App component: each is a total function from the
 * previous cart to the next, as passed to `setCart`. The item count and the
 * totals are folds over the lines.
 */
module Cart {
  import opened Wrappers
  import opened Types

  // ---------------------------------------------------------------------
  // Folds over the lines

  /** The reference sum of `w` over the lines. */
  function Sum(lines: seq<CartItem>, w: CartItem -> int): int {
    if lines == [] then 0 else w(lines[0]) + Sum(lines[1..], w)
  }

  /**
   * `lines.reduce((acc, item) => acc + w(item), acc)`: a left-to-right
   * accumulation, equal to the reference sum on top of the start value.
   */
  function Reduce(lines: seq<CartItem>, w: CartItem -> int, acc: int): (r: int)
    ensures r == acc + Sum(lines, w)
  {
    if lines == [] then acc else Reduce(lines[1..], w, acc + w(lines[0]))
  }

  lemma {:induction false} SumAppend(a: seq<CartItem>, b: seq<CartItem>, w: CartItem -> int)
    ensures Sum(a + b, w) == Sum(a, w) + Sum(b, w)
  {
    if a == [] {
      assert a + b == b;
    } else {
      assert (a + b)[1..] == a[1..] + b;
      SumAppend(a[1..], b, w);
    }
  }

  /** Replacing one line changes the sum by the difference of the two lines' weights. */
  lemma SumReplace(lines: seq<CartItem>, k: nat, x: CartItem, w: CartItem -> int)
    requires k < |lines|
    ensures Sum(lines[k := x], w) == Sum(lines, w) - w(lines[k]) + w(x)
  {
    assert lines == lines[..k] + [lines[k]] + lines[k + 1..];
    assert lines[k := x] == lines[..k] + [x] + lines[k + 1..];
    SumAppend(lines[..k] + [lines[k]], lines[k + 1..], w);
    SumAppend(lines[..k], [lines[k]], w);
    SumAppend(lines[..k] + [x], lines[k + 1..], w);
    SumAppend(lines[..k], [x], w);
  }

  /** Dropping one line lowers the sum by that line's weight. */
  lemma SumDrop(lines: seq<CartItem>, k: nat, w: CartItem -> int)
    requires k < |lines|
    ensures Sum(lines[..k] + lines[k + 1..], w) == Sum(lines, w) - w(lines[k])
  {
    assert lines == lines[..k] + [lines[k]] + lines[k + 1..];
    SumAppend(lines[..k] + [lines[k]], lines[k + 1..], w);
    SumAppend(lines[..k], [lines[k]], w);
    SumAppend(lines[..k], lines[k + 1..], w);
  }

  // ---------------------------------------------------------------------
  // The cart invariant

  predicate HasId(cart: seq<CartItem>, id: int) {
    exists i :: 0 <= i < |cart| && cart[i].Id() == id
  }

  predicate UniqueIds(cart: seq<CartItem>) {
    forall i, j :: 0 <= i < j < |cart| ==> cart[i].Id() != cart[j].Id()
  }

  /** At most one line per product id, and every line holds at least one unit. */
  predicate WellFormed(cart: seq<CartItem>) {
    UniqueIds(cart) && forall i :: 0 <= i < |cart| ==> cart[i].quantity >= 1
  }

  // ---------------------------------------------------------------------
  // The handlers

  /** `Array.prototype.find` by id: the first line with that id, if any. */
  function Find(cart: seq<CartItem>, id: int): (r: Option<CartItem>)
    ensures r.Some? <==> HasId(cart, id)
    ensures r.Some? ==> exists i :: 0 <= i < |cart| && cart[i] == r.value && r.value.Id() == id
                                    && forall j :: 0 <= j < i ==> cart[j].Id() != id
  {
    if cart == [] then None
    else if cart[0].Id() == id then Some(cart[0])
    else
      var r := Find(cart[1..], id);
      assert forall i :: 1 <= i < |cart| ==> cart[i] == cart[1..][i - 1];
      assert HasId(cart[1..], id) ==> HasId(cart, id);
      r
  }

  /** Under unique ids, `find` returns the one line that carries the id. */
  lemma FindUnique(cart: seq<CartItem>, id: int, k: nat)
    requires UniqueIds(cart) && k < |cart| && cart[k].Id() == id
    ensures Find(cart, id) == Some(cart[k])
  {
    var r := Find(cart, id);
    var i :| 0 <= i < |cart| && cart[i] == r.value && r.value.Id() == id
             && forall j :: 0 <= j < i ==> cart[j].Id() != id;
    assert i == k;
  }

  /** The `map` of the add handler: every line with the id gains one unit. */
  function Incremented(cart: seq<CartItem>, id: int): (r: seq<CartItem>)
    ensures |r| == |cart|
    ensures forall i :: 0 <= i < |cart| ==>
      r[i] == if cart[i].Id() == id then cart[i].(quantity := cart[i].quantity + 1) else cart[i]
  {
    if cart == [] then []
    else
      var head := if cart[0].Id() == id then cart[0].(quantity := cart[0].quantity + 1) else cart[0];
      [head] + Incremented(cart[1..], id)
  }

  /** The `map` of the update handler: every line with the id gets quantity `q`. */
  function WithQuantity(cart: seq<CartItem>, id: int, q: int): (r: seq<CartItem>)
    ensures |r| == |cart|
    ensures forall i :: 0 <= i < |cart| ==>
      r[i] == if cart[i].Id() == id then cart[i].(quantity := q) else cart[i]
  {
    if cart == [] then []
    else
      var head := if cart[0].Id() == id then cart[0].(quantity := q) else cart[0];
      [head] + WithQuantity(cart[1..], id, q)
  }

  /**
   * handleAddToCart: a product already in the cart gains one unit on its
   * line; otherwise a line with quantity 1 is appended.
   */
  function AddToCart(cart: seq<CartItem>, product: Product): (r: seq<CartItem>)
    ensures HasId(r, product.id)
    ensures !HasId(cart, product.id) ==> r == cart + [CartItem(product, 1)]
    ensures HasId(cart, product.id) ==> r == Incremented(cart, product.id)
  {
    if Find(cart, product.id).Some? then Incremented(cart, product.id)
    else
      var r := cart + [CartItem(product, 1)];
      assert r[|cart|].Id() == product.id;
      r
  }

  /** handleRemoveItem: the `filter` that keeps every line whose id differs. */
  function RemoveItem(cart: seq<CartItem>, id: int): (r: seq<CartItem>)
    ensures |r| <= |cart|
    ensures forall x :: x in r <==> x in cart && x.Id() != id
    ensures !HasId(r, id)
  {
    if cart == [] then []
    else if cart[0].Id() == id then RemoveItem(cart[1..], id)
    else
      var rest := RemoveItem(cart[1..], id);
      assert forall x :: x in cart <==> x == cart[0] || x in cart[1..];
      [cart[0]] + rest
  }

  /**
   * handleUpdateQuantity: a non-positive quantity removes the line, a
   * positive one is written onto the matching line.
   */
  function UpdateQuantity(cart: seq<CartItem>, id: int, q: int): (r: seq<CartItem>)
    ensures q <= 0 ==> !HasId(r, id)
    ensures q > 0 ==> |r| == |cart|
  {
    if q <= 0 then RemoveItem(cart, id) else WithQuantity(cart, id, q)
  }

  /** cartItemCount: the reduce over the lines' quantities. */
  function ItemCount(cart: seq<CartItem>): (n: int)
    ensures n == Sum(cart, Quantity)
  {
    Reduce(cart, Quantity, 0)
  }

  // ---------------------------------------------------------------------
  // What each handler does to a well-formed cart

  /** Adding a product already in the cart bumps only its line; length and order stay. */
  lemma AddPresent(cart: seq<CartItem>, product: Product, k: nat)
    requires UniqueIds(cart) && k < |cart| && cart[k].Id() == product.id
    ensures AddToCart(cart, product) == cart[k := cart[k].(quantity := cart[k].quantity + 1)]
  {
    var r := AddToCart(cart, product);
    var s := cart[k := cart[k].(quantity := cart[k].quantity + 1)];
    assert |r| == |s|;
    forall i | 0 <= i < |r| ensures r[i] == s[i] {
      if i != k {
        assert cart[i].Id() != product.id by {
          if i < k { assert cart[i].Id() != cart[k].Id(); }
          else { assert cart[k].Id() != cart[i].Id(); }
        }
      }
    }
  }

  /** Adding a product not in the cart appends exactly one line with quantity 1. */
  lemma AddAbsent(cart: seq<CartItem>, product: Product)
    requires !HasId(cart, product.id)
    ensures AddToCart(cart, product) == cart + [CartItem(product, 1)]
    ensures |AddToCart(cart, product)| == |cart| + 1
  {
  }

  /** Writing a positive quantity changes only the matching line. */
  lemma UpdatePresent(cart: seq<CartItem>, id: int, q: int, k: nat)
    requires UniqueIds(cart) && k < |cart| && cart[k].Id() == id && q > 0
    ensures UpdateQuantity(cart, id, q) == cart[k := cart[k].(quantity := q)]
  {
    var r := UpdateQuantity(cart, id, q);
    var s := cart[k := cart[k].(quantity := q)];
    forall i | 0 <= i < |r| ensures r[i] == s[i] {
      if i != k {
        assert cart[i].Id() != id by {
          if i < k { assert cart[i].Id() != cart[k].Id(); }
          else { assert cart[k].Id() != cart[i].Id(); }
        }
      }
    }
  }

  /** Removing an id that is not in the cart changes nothing. */
  lemma {:induction false} RemoveAbsent(cart: seq<CartItem>, id: int)
    requires !HasId(cart, id)
    ensures RemoveItem(cart, id) == cart
  {
    if cart != [] {
      assert cart[0].Id() != id;
      assert !HasId(cart[1..], id) by {
        forall i | 0 <= i < |cart[1..]| ensures cart[1..][i].Id() != id {
          assert cart[1..][i] == cart[i + 1];
        }
      }
      RemoveAbsent(cart[1..], id);
      assert cart == [cart[0]] + cart[1..];
    }
  }

  /** Under unique ids, no later line shares the first line's id, and the tail keeps unique ids. */
  lemma TailUnique(cart: seq<CartItem>)
    requires UniqueIds(cart) && cart != []
    ensures UniqueIds(cart[1..])
    ensures forall i :: 0 <= i < |cart[1..]| ==> cart[1..][i].Id() != cart[0].Id()
  {
    forall i, j | 0 <= i < j < |cart[1..]| ensures cart[1..][i].Id() != cart[1..][j].Id() {
      assert cart[i + 1].Id() != cart[j + 1].Id();
    }
    forall i | 0 <= i < |cart[1..]| ensures cart[1..][i].Id() != cart[0].Id() {
      assert cart[0].Id() != cart[i + 1].Id();
    }
  }

  /** Dropping line `k > 0` is keeping the first line and dropping line `k - 1` of the tail. */
  lemma DropAfterFirst(cart: seq<CartItem>, k: nat)
    requires 0 < k < |cart|
    ensures cart[..k] + cart[k + 1..] == [cart[0]] + (cart[1..][..k - 1] + cart[1..][k..])
  {
    assert cart[..k] == [cart[0]] + cart[1..][..k - 1];
    assert cart[k + 1..] == cart[1..][k..];
  }

  /** Removing the id of line `k` drops exactly that line and keeps the others in order. */
  lemma {:induction false} RemovePresent(cart: seq<CartItem>, id: int, k: nat)
    requires UniqueIds(cart) && k < |cart| && cart[k].Id() == id
    ensures RemoveItem(cart, id) == cart[..k] + cart[k + 1..]
  {
    TailUnique(cart);
    if k == 0 {
      assert !HasId(cart[1..], id);
      RemoveAbsent(cart[1..], id);
    } else {
      assert cart[0].Id() != id;
      RemovePresent(cart[1..], id, k - 1);
      DropAfterFirst(cart, k);
    }
  }

  /** Removing twice is removing once. */
  lemma RemoveIdempotent(cart: seq<CartItem>, id: int)
    ensures RemoveItem(RemoveItem(cart, id), id) == RemoveItem(cart, id)
  {
    RemoveAbsent(RemoveItem(cart, id), id);
  }

  /** A non-positive quantity removes the line like the remove handler does. */
  lemma UpdateNonPositive(cart: seq<CartItem>, id: int, q: int, k: nat)
    requires UniqueIds(cart) && k < |cart| && cart[k].Id() == id && q <= 0
    ensures UpdateQuantity(cart, id, q) == cart[..k] + cart[k + 1..]
  {
    RemovePresent(cart, id, k);
  }

  /** Updating an id that is not in the cart, to any quantity, changes nothing. */
  lemma UpdateAbsent(cart: seq<CartItem>, id: int, q: int)
    requires !HasId(cart, id)
    ensures UpdateQuantity(cart, id, q) == cart
  {
    if q <= 0 {
      RemoveAbsent(cart, id);
    } else {
      var r := WithQuantity(cart, id, q);
      forall i | 0 <= i < |cart| ensures r[i] == cart[i] {
        assert cart[i].Id() != id;
      }
    }
  }

  // ---------------------------------------------------------------------
  // The invariant is kept

  /** A line whose id no line of a well-formed cart has, put in front of it, keeps it well-formed. */
  lemma ConsWellFormed(head: CartItem, rest: seq<CartItem>)
    requires WellFormed(rest) && head.quantity >= 1
    requires forall x :: x in rest ==> x.Id() != head.Id()
    ensures WellFormed([head] + rest)
  {
    var r := [head] + rest;
    forall i, j | 0 <= i < j < |r| ensures r[i].Id() != r[j].Id() {
      assert r[j] == rest[j - 1];
      if i > 0 {
        assert r[i] == rest[i - 1];
      }
    }
  }

  /** A line-by-line filter of a well-formed cart is well-formed. */
  lemma {:induction false} RemoveKeepsWellFormed(cart: seq<CartItem>, id: int)
    requires WellFormed(cart)
    ensures WellFormed(RemoveItem(cart, id))
  {
    if cart != [] {
      var tail := cart[1..];
      TailUnique(cart);
      assert WellFormed(tail);
      RemoveKeepsWellFormed(tail, id);
      if cart[0].Id() != id {
        var rest := RemoveItem(tail, id);
        forall x | x in rest ensures x.Id() != cart[0].Id() {
          assert x in tail;
        }
        ConsWellFormed(cart[0], rest);
      }
    }
  }

  lemma AddKeepsWellFormed(cart: seq<CartItem>, product: Product)
    requires WellFormed(cart)
    ensures WellFormed(AddToCart(cart, product))
  {
    var r := AddToCart(cart, product);
    if !HasId(cart, product.id) {
      forall i, j | 0 <= i < j < |r| ensures r[i].Id() != r[j].Id() {
        if j == |cart| {
          assert r[i] == cart[i];
        }
      }
    }
  }

  lemma UpdateKeepsWellFormed(cart: seq<CartItem>, id: int, q: int)
    requires WellFormed(cart)
    ensures WellFormed(UpdateQuantity(cart, id, q))
  {
    if q <= 0 {
      RemoveKeepsWellFormed(cart, id);
    }
  }

  // ---------------------------------------------------------------------
  // The item count

  /** The count of a well-formed cart is at least its number of lines, so it is 0 only when empty. */
  lemma {:induction false} CountAtLeastLines(cart: seq<CartItem>)
    requires forall i :: 0 <= i < |cart| ==> cart[i].quantity >= 1
    ensures ItemCount(cart) >= |cart|
    ensures ItemCount(cart) == 0 <==> cart == []
  {
    if cart != [] {
      CountAtLeastLines(cart[1..]);
    }
  }

  /** Every add raises the item count by exactly one. */
  lemma AddCount(cart: seq<CartItem>, product: Product)
    requires UniqueIds(cart)
    ensures ItemCount(AddToCart(cart, product)) == ItemCount(cart) + 1
  {
    if HasId(cart, product.id) {
      var k :| 0 <= k < |cart| && cart[k].Id() == product.id;
      AddPresent(cart, product, k);
      SumReplace(cart, k, cart[k].(quantity := cart[k].quantity + 1), Quantity);
    } else {
      SumAppend(cart, [CartItem(product, 1)], Quantity);
    }
  }

  /** Removing line `k` lowers the item count by that line's quantity. */
  lemma RemoveCount(cart: seq<CartItem>, id: int, k: nat)
    requires UniqueIds(cart) && k < |cart| && cart[k].Id() == id
    ensures ItemCount(RemoveItem(cart, id)) == ItemCount(cart) - cart[k].quantity
  {
    RemovePresent(cart, id, k);
    SumDrop(cart, k, Quantity);
  }

  /** Writing quantity `q` onto line `k` moves the item count by `q` minus the old quantity. */
  lemma UpdateCount(cart: seq<CartItem>, id: int, q: int, k: nat)
    requires UniqueIds(cart) && k < |cart| && cart[k].Id() == id && q > 0
    ensures ItemCount(UpdateQuantity(cart, id, q)) == ItemCount(cart) - cart[k].quantity + q
  {
    UpdatePresent(cart, id, q, k);
    SumReplace(cart, k, cart[k].(quantity := q), Quantity);
  }
}
