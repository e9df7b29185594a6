/** The hosted data service's `products` and `cart` tables, kept in memory.
    Every request that changes a table, and the add-to-cart lookup, becomes
    one method of `Database`; the service's answer (accepted or failed) is the
    parameter `ok`, and a failed request leaves both tables as they were. */
module Backend {

  datatype Option<+T> = None | Some(value: T)

  /** Row ids. The service generates them; here `Database.nextId` hands out
      ids that no row of either table uses yet. */
  type Id = nat

  /** The authenticated user's id, as the auth service reports it. */
  type UserId = string

  /** Why an operation failed. */
  datatype Failure =
    | NotAuthenticated   // thrown by the page when no user is signed in
    | ServiceError       // any error the data service returns
    | MissingFields      // the admin form's required-field check

  datatype Outcome = Ok | Err(failure: Failure)

  /** The text of a failure a page raises itself: the add-to-cart and
      checkout requests refuse a missing user, and the admin form refuses
      missing fields. A service error shows the service's own message, which
      the model does not carry; its text here is only a stand-in. */
  function Message(f: Failure): (m: string)
    ensures f == NotAuthenticated ==> m == "Not authenticated"
    ensures f == MissingFields ==> m == "Please fill all required fields"
  {
    match f
    case NotAuthenticated => "Not authenticated"
    case MissingFields => "Please fill all required fields"
    case ServiceError => "Service error"
  }

  /** The columns of a `products` row other than its id; `price` is in cents. */
  datatype ProductData = ProductData(name: string, price: nat, grade: string, link: Option<string>)

  /** A product as the pages receive it from a `select`. */
  datatype Product = Product(id: Id, name: string, price: nat, grade: string, link: Option<string>)

  function DataOf(p: Product): ProductData {
    ProductData(p.name, p.price, p.grade, p.link)
  }

  /** The columns of a `cart` row other than its id. */
  datatype CartRow = CartRow(userId: UserId, productId: Id, quantity: nat)

  /** The ids of the cart rows that belong to user `u` and product `p`. */
  ghost function Matches(cart: map<Id, CartRow>, u: UserId, p: Id): set<Id> {
    set k | k in cart && cart[k].userId == u && cart[k].productId == p
  }

  /** At most one cart row per (user, product): the invariant the store's
      add-to-cart logic is meant to keep. */
  ghost predicate UniquePerPair(cart: map<Id, CartRow>) {
    forall i, j ::
      (i in cart && j in cart && cart[i].userId == cart[j].userId && cart[i].productId == cart[j].productId)
      ==> i == j
  }

  lemma SingletonMember(s: set<Id>, a: Id, b: Id)
    requires |s| == 1 && a in s && b in s
    ensures a == b
  {
    assert |s - {a}| == 0;
  }

  /** `select * from cart where user_id = u and product_id = p` read with
      `maybeSingle()`: it yields the row when exactly one matches, and no
      data when none or several do. */
  ghost function Lookup(cart: map<Id, CartRow>, u: UserId, p: Id): (r: Option<Id>)
    ensures r.Some? <==> |Matches(cart, u, p)| == 1
    ensures r.Some? ==> r.value in cart && cart[r.value].userId == u && cart[r.value].productId == p
  {
    var m := Matches(cart, u, p);
    if |m| == 1 then
      var k :| k in m; Some(k)
    else
      None
  }

  /** The cart with every row of user `u` removed. */
  function WithoutUser(cart: map<Id, CartRow>, u: UserId): (r: map<Id, CartRow>)
    ensures forall k :: k in r ==> r[k].userId != u
    ensures forall k :: k in cart && cart[k].userId != u ==> k in r && r[k] == cart[k]
    ensures r.Keys <= cart.Keys
  {
    map k | k in cart && cart[k].userId != u :: cart[k]
  }

  /** The products table with the rows whose id is in `ids` removed. */
  function WithoutIds(products: map<Id, ProductData>, ids: seq<Id>): (r: map<Id, ProductData>)
    ensures forall i :: 0 <= i < |ids| ==> ids[i] !in r
    ensures forall k :: k in products && k !in ids ==> k in r && r[k] == products[k]
    ensures r.Keys <= products.Keys
    ensures ids == [] ==> r == products
  {
    products - (set i | i in ids)
  }

  class Database {
    var products: map<Id, ProductData>
    var cart: map<Id, CartRow>
    var nextId: Id

    /** `nextId` is above every id in use, so inserting under it never
        overwrites a row. */
    ghost predicate Valid()
      reads this
    {
      (forall k :: k in products ==> k < nextId) && (forall k :: k in cart ==> k < nextId)
    }

    constructor ()
      ensures Valid() && products == map[] && cart == map[] && nextId == 0
    {
      products, cart, nextId := map[], map[], 0;
    }

    /** Reads the cart row of (u, p) the way the add-to-cart code does: the
        error of a failed `select` is not looked at, so it reads as "no row". */
    method SelectCartRow(u: UserId, p: Id, ok: bool) returns (existing: Option<Id>)
      ensures existing == if ok then Lookup(cart, u, p) else None
      ensures existing.Some? ==> existing.value in cart && cart[existing.value].userId == u
                                 && cart[existing.value].productId == p
    {
      var m := set k | k in cart && cart[k].userId == u && cart[k].productId == p;
      if ok && |m| == 1 {
        var k :| k in m;
        var l := Lookup(cart, u, p);
        SingletonMember(m, k, l.value);
        existing := Some(k);
      } else {
        existing := None;
      }
    }

    /** `update cart set quantity = q where id = id` */
    method UpdateCartQuantity(id: Id, q: nat, ok: bool) returns (out: Outcome)
      requires Valid()
      modifies this
      ensures Valid() && products == old(products) && nextId == old(nextId)
      ensures out == if ok then Ok else Err(ServiceError)
      ensures cart == if ok && id in old(cart) then old(cart)[id := old(cart)[id].(quantity := q)] else old(cart)
    {
      if !ok {
        return Err(ServiceError);
      }
      if id in cart {
        cart := cart[id := cart[id].(quantity := q)];
      }
      out := Ok;
    }

    /** `insert into cart` one row; the service gives it a new id. */
    method InsertCartRow(row: CartRow, ok: bool) returns (out: Outcome)
      requires Valid()
      modifies this
      ensures Valid() && products == old(products)
      ensures out == if ok then Ok else Err(ServiceError)
      ensures ok ==> cart == old(cart)[old(nextId) := row] && nextId == old(nextId) + 1
      ensures !ok ==> cart == old(cart) && nextId == old(nextId)
    {
      if !ok {
        return Err(ServiceError);
      }
      cart := cart[nextId := row];
      nextId := nextId + 1;
      out := Ok;
    }

    /** `delete from cart where id = id` */
    method DeleteCartRow(id: Id, ok: bool) returns (out: Outcome)
      requires Valid()
      modifies this
      ensures Valid() && products == old(products) && nextId == old(nextId)
      ensures out == if ok then Ok else Err(ServiceError)
      ensures cart == if ok then old(cart) - {id} else old(cart)
    {
      if !ok {
        return Err(ServiceError);
      }
      cart := cart - {id};
      out := Ok;
    }

    /** `delete from cart where user_id = u` */
    method DeleteUserCart(u: UserId, ok: bool) returns (out: Outcome)
      requires Valid()
      modifies this
      ensures Valid() && products == old(products) && nextId == old(nextId)
      ensures out == if ok then Ok else Err(ServiceError)
      ensures cart == if ok then WithoutUser(old(cart), u) else old(cart)
    {
      if !ok {
        return Err(ServiceError);
      }
      cart := WithoutUser(cart, u);
      out := Ok;
    }

    /** `delete from products where id in ids` */
    method DeleteProductsIn(ids: seq<Id>, ok: bool) returns (out: Outcome)
      requires Valid()
      modifies this
      ensures Valid() && cart == old(cart) && nextId == old(nextId)
      ensures out == if ok then Ok else Err(ServiceError)
      ensures products == if ok then WithoutIds(old(products), ids) else old(products)
    {
      if !ok {
        return Err(ServiceError);
      }
      products := WithoutIds(products, ids);
      out := Ok;
    }

    /** `insert into products` one row; the service gives it a new id. */
    method InsertProduct(d: ProductData, ok: bool) returns (out: Outcome)
      requires Valid()
      modifies this
      ensures Valid() && cart == old(cart)
      ensures out == if ok then Ok else Err(ServiceError)
      ensures ok ==> products == old(products)[old(nextId) := d] && nextId == old(nextId) + 1
      ensures !ok ==> products == old(products) && nextId == old(nextId)
    {
      if !ok {
        return Err(ServiceError);
      }
      products := products[nextId := d];
      nextId := nextId + 1;
      out := Ok;
    }

    /** `update products set ... where id = id`; no row matching is not an error. */
    method UpdateProduct(id: Id, d: ProductData, ok: bool) returns (out: Outcome)
      requires Valid()
      modifies this
      ensures Valid() && cart == old(cart) && nextId == old(nextId)
      ensures out == if ok then Ok else Err(ServiceError)
      ensures products == if ok && id in old(products) then old(products)[id := d] else old(products)
    {
      if !ok {
        return Err(ServiceError);
      }
      if id in products {
        products := products[id := d];
      }
      out := Ok;
    }

    /** `delete from products where id = id` */
    method DeleteProduct(id: Id, ok: bool) returns (out: Outcome)
      requires Valid()
      modifies this
      ensures Valid() && cart == old(cart) && nextId == old(nextId)
      ensures out == if ok then Ok else Err(ServiceError)
      ensures products == if ok then old(products) - {id} else old(products)
    {
      if !ok {
        return Err(ServiceError);
      }
      products := products - {id};
      out := Ok;
    }
  }
}
