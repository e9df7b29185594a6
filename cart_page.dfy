/** The cart page: the user's cart rows joined with their products, the
    order total, removing one row, and checkout, which empties the user's
    cart and then deletes every product that was in it. */
module CartPage {
  import opened Backend

  /** One row of the cart query: the cart row's id and quantity joined with
      its product. */
  datatype CartItem = CartItem(id: Id, quantity: nat, product: Product)

  /** One line's worth: price times quantity. It is 0 exactly when the
      product is free or the quantity is 0, and never less than the price
      once at least one is ordered. */
  function LineTotal(item: CartItem): (t: nat)
    ensures t == 0 <==> item.product.price == 0 || item.quantity == 0
    ensures item.quantity >= 1 ==> t >= item.product.price
  {
    item.product.price * item.quantity
  }

  /** `total`: the items' price times quantity, summed from the left starting
      at 0, in cents. No line is worth more than the whole order. */
  function Total(items: seq<CartItem>): (t: nat)
    ensures items == [] ==> t == 0
    ensures forall i :: 0 <= i < |items| ==> LineTotal(items[i]) <= t
  {
    if items == [] then 0 else Total(items[..|items| - 1]) + LineTotal(items[|items| - 1])
  }

  /** The total of two lists put together is the sum of their totals. */
  lemma {:induction false} TotalAppend(a: seq<CartItem>, b: seq<CartItem>)
    ensures Total(a + b) == Total(a) + Total(b)
  {
    if b == [] {
      assert a + b == a;
    } else {
      var ab := a + b;
      assert ab[..|ab| - 1] == a + b[..|b| - 1];
      assert ab[|ab| - 1] == b[|b| - 1];
      TotalAppend(a, b[..|b| - 1]);
    }
  }

  /** Taking one item out of the list lowers the total by that item's line. */
  lemma TotalWithout(s: seq<CartItem>, i: nat)
    requires i < |s|
    ensures Total(s) == Total(s[..i] + s[i + 1..]) + LineTotal(s[i])
  {
    var pre, x, post := s[..i], s[i], s[i + 1..];
    assert s == pre + ([x] + post);
    TotalAppend(pre, [x] + post);
    TotalAppend([x], post);
    TotalAppend(pre, post);
    assert Total([x]) == LineTotal(x) by {
      assert [x][..0] == [];
    }
  }

  /** The total does not depend on the order in which the rows are listed. */
  lemma {:induction false} TotalPermutation(a: seq<CartItem>, b: seq<CartItem>)
    requires multiset(a) == multiset(b)
    ensures Total(a) == Total(b)
  {
    if a != [] {
      var n := |a| - 1;
      var x := a[n];
      assert x in multiset(b);
      var j :| 0 <= j < |b| && b[j] == x;
      var rest := b[..j] + b[j + 1..];
      assert b == b[..j] + [x] + b[j + 1..];
      assert a == a[..n] + [x];
      assert multiset(a) == multiset(a[..n]) + multiset{x};
      assert multiset(b) == multiset(b[..j]) + multiset{x} + multiset(b[j + 1..]);
      assert multiset(rest) == multiset(b[..j]) + multiset(b[j + 1..]);
      forall y
        ensures multiset(a[..n])[y] == multiset(rest)[y]
      {
        assert multiset(a)[y] == multiset(b)[y];
      }
      assert multiset(a[..n]) == multiset(rest);
      TotalPermutation(a[..n], rest);
      TotalWithout(b, j);
    } else {
      assert b == [];
    }
  }

  /** The total is 0 exactly when every line is worth 0. */
  lemma {:induction false} TotalZero(items: seq<CartItem>)
    ensures Total(items) == 0 <==> forall i :: 0 <= i < |items| ==> LineTotal(items[i]) == 0
  {
    if items != [] {
      var init := items[..|items| - 1];
      TotalZero(init);
      assert forall i :: 0 <= i < |init| ==> init[i] == items[i];
    }
  }

  /** Two RX-78-2 Gundams at 29.99 and one Sazabi at 54.99 come to 114.97. */
  lemma TotalExample()
    ensures Total([CartItem(1, 2, Product(10, "RX-78-2 Gundam", 2999, "HG", None)),
                   CartItem(2, 1, Product(11, "Sazabi", 5499, "MG", None))]) == 11497
  {
  }

  /** `cartItems.map(item => item.products.id)` */
  function PurchasedIds(items: seq<CartItem>): (ids: seq<Id>)
    ensures |ids| == |items| && forall i :: 0 <= i < |items| ==> ids[i] == items[i].product.id
  {
    seq(|items|, i requires 0 <= i < |items| => items[i].product.id)
  }

  /** `items` is what the cart query returns for user `u`: each cart row of
      `u` exactly once, carrying that row's id and quantity, joined with its
      product's id, name, price and grade from `products`. The query does not
      select the link, so the item's link is left unconstrained. */
  ghost predicate IsCartView(items: seq<CartItem>, cart: map<Id, CartRow>, products: map<Id, ProductData>, u: UserId)
    : (b: bool)
    ensures b ==> (items == [] <==> forall k :: k in cart ==> cart[k].userId != u)
  {
    var b :=
      && (forall i :: 0 <= i < |items| ==>
            items[i].id in cart && cart[items[i].id].userId == u
            && cart[items[i].id].quantity == items[i].quantity
            && cart[items[i].id].productId == items[i].product.id
            && items[i].product.id in products
            && products[items[i].product.id].name == items[i].product.name
            && products[items[i].product.id].price == items[i].product.price
            && products[items[i].product.id].grade == items[i].product.grade)
      && (forall i, j :: 0 <= i < j < |items| ==> items[i].id != items[j].id)
      && (forall k :: k in cart && cart[k].userId == u ==> exists i :: 0 <= i < |items| && items[i].id == k);
    assert b && items != [] ==> items[0].id in cart && cart[items[0].id].userId == u;
    b
  }

  /** The cart row ids the items carry. */
  ghost function ItemIds(items: seq<CartItem>): set<Id> {
    set i | 0 <= i < |items| :: items[i].id
  }

  /** Items with pairwise distinct row ids carry as many ids as there are items. */
  lemma {:induction false} DistinctItemIds(items: seq<CartItem>)
    requires forall i, j :: 0 <= i < j < |items| ==> items[i].id != items[j].id
    ensures |ItemIds(items)| == |items|
  {
    if items != [] {
      var n := |items| - 1;
      var init := items[..n];
      DistinctItemIds(init);
      assert ItemIds(items) == ItemIds(init) + {items[n].id} by {
        forall k | k in ItemIds(items) ensures k in ItemIds(init) + {items[n].id} {
          var i :| 0 <= i < |items| && items[i].id == k;
          if i < n {
            assert init[i].id == k;
          }
        }
        forall k | k in ItemIds(init) ensures k in ItemIds(items) {
          var i :| 0 <= i < |init| && init[i].id == k;
          assert items[i].id == k;
        }
      }
      assert items[n].id !in ItemIds(init);
    }
  }

  /** The cart page lists as many items as the user has cart rows. */
  lemma CartViewSize(items: seq<CartItem>, cart: map<Id, CartRow>, products: map<Id, ProductData>, u: UserId)
    requires IsCartView(items, cart, products, u)
    ensures |items| == |set k | k in cart && cart[k].userId == u|
  {
    DistinctItemIds(items);
    assert ItemIds(items) == set k | k in cart && cart[k].userId == u;
  }

  /** When the items are the current view of the cart, checkout's product
      delete removes the product of every row the user had. */
  lemma CheckoutRemovesCartProducts(items: seq<CartItem>, cart: map<Id, CartRow>, products: map<Id, ProductData>, u: UserId)
    requires IsCartView(items, cart, products, u)
    ensures forall k :: k in cart && cart[k].userId == u ==>
              cart[k].productId !in WithoutIds(products, PurchasedIds(items))
  {
  }

  /** `removeFromCart(cartItemId)`: delete the one cart row with that id. */
  method RemoveFromCart(db: Database, cartItemId: Id, ok: bool) returns (out: Outcome)
    requires db.Valid()
    modifies db
    ensures db.Valid() && db.products == old(db.products) && db.nextId == old(db.nextId)
    ensures out == if ok then Ok else Err(ServiceError)
    ensures ok ==> cartItemId !in db.cart
    ensures ok ==> forall k :: k in old(db.cart) && k != cartItemId ==> k in db.cart && db.cart[k] == old(db.cart)[k]
    ensures db.cart == if ok then old(db.cart) - {cartItemId} else old(db.cart)
  {
    out := db.DeleteCartRow(cartItemId, ok);
  }

  /** `checkout()`: the product ids are taken from the items the page shows;
      the user's cart rows are deleted first, and only when that succeeds
      are the products deleted. `cartOk` and `productsOk` are the service's
      answers to the two deletes. */
  method Checkout(db: Database, user: Option<UserId>, cartItems: seq<CartItem>, cartOk: bool, productsOk: bool)
    returns (out: Outcome)
    requires db.Valid()
    modifies db
    ensures db.Valid() && db.nextId == old(db.nextId)
    ensures out == Ok <==> user.Some? && cartOk && productsOk
    ensures user.None? ==> out == Err(NotAuthenticated) && db.cart == old(db.cart) && db.products == old(db.products)
    ensures user.Some? && !cartOk ==> out == Err(ServiceError) && db.cart == old(db.cart) && db.products == old(db.products)
    ensures user.Some? && cartOk && !productsOk ==> out == Err(ServiceError)
    ensures user.Some? && cartOk ==> db.cart == WithoutUser(old(db.cart), user.value)
    ensures user.Some? && cartOk ==>
              db.products == if productsOk then WithoutIds(old(db.products), PurchasedIds(cartItems)) else old(db.products)
    ensures out == Ok ==> forall k :: k in db.cart ==> db.cart[k].userId != user.value
    ensures out == Ok ==> forall i :: 0 <= i < |cartItems| ==> cartItems[i].product.id !in db.products
    ensures out == Ok ==> forall k :: k in old(db.products) && k !in PurchasedIds(cartItems) ==>
                                       k in db.products && db.products[k] == old(db.products)[k]
  {
    if user.None? {
      return Err(NotAuthenticated);
    }
    var productIds := PurchasedIds(cartItems);
    out := db.DeleteUserCart(user.value, cartOk);
    if out.Err? {
      return;
    }
    out := db.DeleteProductsIn(productIds, productsOk);
  }
}
