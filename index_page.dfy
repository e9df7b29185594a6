/** The storefront page: the grade filter over the product list and the
    add-to-cart request, which bumps the quantity of the user's row for the
    product or inserts a row with quantity 1. */
module IndexPage {
  import opened Backend

  /** The products whose grade is `g`, in the order of `products`. */
  function KeepGrade(products: seq<Product>, g: string): (r: seq<Product>)
    ensures |r| <= |products|
    ensures forall p :: p in r <==> p in products && p.grade == g
  {
    if products == [] then []
    else (if products[0].grade == g then [products[0]] else []) + KeepGrade(products[1..], g)
  }

  /** `filteredProducts`: the chosen grade's products, or every product when
      no grade is chosen. The choice is tested for truthiness, so an empty
      grade string also shows every product. */
  function FilterByGrade(products: seq<Product>, selected: Option<string>): (r: seq<Product>)
    ensures selected.None? || selected == Some("") ==> r == products
    ensures selected.Some? && selected.value != "" ==>
              forall p :: p in r <==> p in products && p.grade == selected.value
  {
    if selected.Some? && selected.value != "" then KeepGrade(products, selected.value) else products
  }

  /** Filtering a list split in two filters each part and keeps them in
      order: the filter never reorders products. */
  lemma {:induction false} KeepGradeAppend(a: seq<Product>, b: seq<Product>, g: string)
    ensures KeepGrade(a + b, g) == KeepGrade(a, g) + KeepGrade(b, g)
  {
    if a == [] {
      assert a + b == b;
    } else {
      assert (a + b)[0] == a[0] && (a + b)[1..] == a[1..] + b;
      KeepGradeAppend(a[1..], b, g);
      var x := if a[0].grade == g then [a[0]] else [];
      calc {
        KeepGrade(a + b, g);
        x + KeepGrade(a[1..] + b, g);
        x + (KeepGrade(a[1..], g) + KeepGrade(b, g));
        (x + KeepGrade(a[1..], g)) + KeepGrade(b, g);
      }
    }
  }

  /** Each product of grade `g` is kept as often as it occurs; every other
      product is dropped. */
  lemma {:induction false} KeepGradeCount(products: seq<Product>, g: string, p: Product)
    ensures multiset(KeepGrade(products, g))[p] == if p.grade == g then multiset(products)[p] else 0
  {
    if products != [] {
      KeepGradeCount(products[1..], g, p);
      assert products == [products[0]] + products[1..];
    }
  }

  /** A list whose products all have grade `g` passes the filter unchanged. */
  lemma {:induction false} KeepGradeAllMatch(products: seq<Product>, g: string)
    requires forall i :: 0 <= i < |products| ==> products[i].grade == g
    ensures KeepGrade(products, g) == products
  {
    if products != [] {
      KeepGradeAllMatch(products[1..], g);
    }
  }

  /** The cart after a successful write of one add-to-cart request. When the
      lookup found row `k`, its quantity goes up by one (the update is by
      id, and a vanished row is simply not updated); when it found nothing,
      a row with quantity 1 is inserted under the new id `newId`. */
  ghost function Merged(cart: map<Id, CartRow>, newId: Id, u: UserId, p: Id, existing: Option<Id>): (r: map<Id, CartRow>)
    ensures existing.Some? ==> r.Keys == cart.Keys
    ensures existing.Some? && existing.value in cart ==>
              r[existing.value] == cart[existing.value].(quantity := cart[existing.value].quantity + 1)
    ensures existing.None? ==> r.Keys == cart.Keys + {newId} && r[newId] == CartRow(u, p, 1)
    ensures forall k :: k in cart && k != (if existing.Some? then existing.value else newId) ==> r[k] == cart[k]
  {
    match existing
    case Some(k) => if k in cart then cart[k := cart[k].(quantity := cart[k].quantity + 1)] else cart
    case None => cart[newId := CartRow(u, p, 1)]
  }

  /** `addToCart(productId)`. `lookupOk` and `writeOk` are the service's
      answers to the select and to the update or insert. */
  method AddToCart(db: Database, user: Option<UserId>, productId: Id, lookupOk: bool, writeOk: bool)
    returns (out: Outcome)
    requires db.Valid()
    modifies db
    ensures db.Valid() && db.products == old(db.products) && old(db.nextId) <= db.nextId
    ensures user.None? ==> out == Err(NotAuthenticated) && db.cart == old(db.cart)
    ensures user.Some? ==> out == if writeOk then Ok else Err(ServiceError)
    ensures user.Some? ==>
              db.cart == if !writeOk then old(db.cart)
                         else Merged(old(db.cart), old(db.nextId), user.value, productId,
                                     if lookupOk then Lookup(old(db.cart), user.value, productId) else None)
  {
    if user.None? {
      return Err(NotAuthenticated);
    }
    var u := user.value;
    var existing := db.SelectCartRow(u, productId, lookupOk);
    if existing.Some? {
      var k := existing.value;
      out := db.UpdateCartQuantity(k, db.cart[k].quantity + 1, writeOk);
    } else {
      out := db.InsertCartRow(CartRow(u, productId, 1), writeOk);
    }
  }

  /** Under the uniqueness invariant the lookup finds the user's row for the
      product whenever there is one. */
  lemma LookupFinds(cart: map<Id, CartRow>, u: UserId, p: Id, k: Id)
    requires UniquePerPair(cart)
    requires k in cart && cart[k].userId == u && cart[k].productId == p
    ensures Lookup(cart, u, p) == Some(k)
  {
    assert Matches(cart, u, p) == {k};
  }

  /** With no row for (u, p) the lookup finds nothing. */
  lemma LookupMisses(cart: map<Id, CartRow>, u: UserId, p: Id)
    requires forall k :: k in cart ==> cart[k].userId != u || cart[k].productId != p
    ensures Lookup(cart, u, p) == None
  {
    assert Matches(cart, u, p) == {};
  }

  /** Adding a product the user already has raises that row's quantity by
      exactly one, inserts nothing, and leaves every other row as it was. */
  lemma AddIncrementsExisting(cart: map<Id, CartRow>, newId: Id, u: UserId, p: Id, k: Id)
    requires UniquePerPair(cart)
    requires k in cart && cart[k].userId == u && cart[k].productId == p
    ensures var c := Merged(cart, newId, u, p, Lookup(cart, u, p));
            c.Keys == cart.Keys && |c| == |cart|
            && c[k] == CartRow(u, p, cart[k].quantity + 1)
            && forall j :: j in cart && j != k ==> c[j] == cart[j]
  {
    LookupFinds(cart, u, p, k);
  }

  /** Adding a product the user does not have inserts exactly one row, for
      that user and product with quantity 1, and changes no other row. */
  lemma AddInsertsNew(cart: map<Id, CartRow>, newId: Id, u: UserId, p: Id)
    requires newId !in cart
    requires forall k :: k in cart ==> cart[k].userId != u || cart[k].productId != p
    ensures var c := Merged(cart, newId, u, p, Lookup(cart, u, p));
            c.Keys == cart.Keys + {newId} && |c| == |cart| + 1
            && c[newId] == CartRow(u, p, 1)
            && forall j :: j in cart ==> c[j] == cart[j]
  {
    LookupMisses(cart, u, p);
  }

  /** A successful add keeps at most one row per (user, product). */
  lemma AddKeepsUnique(cart: map<Id, CartRow>, newId: Id, u: UserId, p: Id)
    requires UniquePerPair(cart) && newId !in cart
    ensures UniquePerPair(Merged(cart, newId, u, p, Lookup(cart, u, p)))
  {
    if k :| k in cart && cart[k].userId == u && cart[k].productId == p {
      AddIncrementsExisting(cart, newId, u, p, k);
    } else {
      AddInsertsNew(cart, newId, u, p);
    }
  }

  /** The select's error is never read, so a failed lookup while the user
      already has the product inserts a second row for the same pair. */
  lemma FailedLookupDuplicates(cart: map<Id, CartRow>, newId: Id, u: UserId, p: Id, k: Id)
    requires newId !in cart
    requires k in cart && cart[k].userId == u && cart[k].productId == p
    ensures !UniquePerPair(Merged(cart, newId, u, p, None))
  {
    var c := Merged(cart, newId, u, p, None);
    assert k in c && newId in c && c[k].userId == c[newId].userId && c[k].productId == c[newId].productId;
  }

  /** The cart after `n` serial, successful adds of product `p` by user `u`.
      Only the first of them can insert (the later ones find its row), so the
      id the first insert receives is the only new id used. */
  ghost function AddTimes(cart: map<Id, CartRow>, newId: Id, u: UserId, p: Id, n: nat): map<Id, CartRow> {
    if n == 0 then cart
    else
      var c := AddTimes(cart, newId, u, p, n - 1);
      Merged(c, newId, u, p, Lookup(c, u, p))
  }

  /** One more add when the pair's row is `k`: the row stays the pair's
      only one, its quantity grows by one, and uniqueness is kept. */
  lemma AddAgain(c0: map<Id, CartRow>, newId: Id, u: UserId, p: Id, k: Id)
    requires UniquePerPair(c0) && Matches(c0, u, p) == {k}
    ensures var c := Merged(c0, newId, u, p, Lookup(c0, u, p));
            Matches(c, u, p) == {k} && UniquePerPair(c) && c.Keys == c0.Keys
            && c[k] == c0[k].(quantity := c0[k].quantity + 1)
            && forall j :: j in c0 && j != k ==> c[j] == c0[j]
  {
  }

  /** Starting with no row for (u, p), `n` adds leave exactly one row for the
      pair, under the first insert's id, with quantity `n`; uniqueness holds
      and no other row changes. */
  lemma {:induction false} RepeatedAdds(cart: map<Id, CartRow>, newId: Id, u: UserId, p: Id, n: nat)
    requires UniquePerPair(cart) && newId !in cart
    requires forall k :: k in cart ==> cart[k].userId != u || cart[k].productId != p
    requires n > 0
    ensures var c := AddTimes(cart, newId, u, p, n);
            Matches(c, u, p) == {newId} && c[newId] == CartRow(u, p, n)
            && UniquePerPair(c) && c.Keys == cart.Keys + {newId}
            && forall j :: j in cart ==> c[j] == cart[j]
  {
    if n == 1 {
      AddInsertsNew(cart, newId, u, p);
      AddKeepsUnique(cart, newId, u, p);
      var c := AddTimes(cart, newId, u, p, 1);
      assert AddTimes(cart, newId, u, p, 0) == cart;
      assert c == Merged(cart, newId, u, p, Lookup(cart, u, p));
      assert newId in Matches(c, u, p);
      assert forall k :: k in Matches(c, u, p) ==> k == newId;
    } else {
      RepeatedAdds(cart, newId, u, p, n - 1);
      AddAgain(AddTimes(cart, newId, u, p, n - 1), newId, u, p, newId);
    }
  }
}
