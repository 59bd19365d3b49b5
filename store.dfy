/**
 * The storefront's state and its request handlers, without the web layer:
 * the two database tables (`User`, `Order`) as the fields of `Database`,
 * and the signed-cookie session (`user`, `cart`) as the fields of
 * `Session`. Each handler is a method that changes these fields in place,
 * as the Flask views change the session dict and the database session.
 */
module Store {

  import opened Wrappers
  import opened Catalog
  import opened Sorting
  import opened Text
  import opened Cart

  /** A row of the `User` table; its generated id is its position. */
  datatype Account = Account(username: string, password: string)

  /** A row of the `Order` table; its generated id is its position. */
  datatype Order = Order(username: string, total: int, items: string, createdAt: nat)

  /** How `register` answers a POST. */
  datatype Registration = Registered | MissingFields | UsernameTaken | CommitFailed

  /**
   * How `buy_now` answers: redirects to login or to the cart, an error
   * raised by a failing commit, or the new order's id.
   */
  datatype Checkout = NotLoggedIn | NothingToBuy | OrderFailed | Placed(orderId: nat)

  /** `User.query.filter_by(username=name).first()` finds a row. */
  predicate HasUsername(users: seq<Account>, name: string)
    ensures HasUsername(users, name) <==> exists a :: a in users && a.username == name
  {
    exists k :: 0 <= k < |users| && users[k].username == name
  }

  /** A name is taken after appending a row exactly when it was taken before or is that row's. */
  lemma HasUsernameAppend(users: seq<Account>, a: Account, name: string)
    ensures HasUsername(users + [a], name) <==> HasUsername(users, name) || a.username == name
  {
    if HasUsername(users + [a], name) {
      var k :| 0 <= k < |users + [a]| && (users + [a])[k].username == name;
      if k < |users| {
        assert users[k] == (users + [a])[k];
      }
    }
    if HasUsername(users, name) {
      var k :| 0 <= k < |users| && users[k].username == name;
      assert (users + [a])[k] == users[k];
    }
    if a.username == name {
      assert (users + [a])[|users|] == a;
    }
  }

  ghost predicate UniqueUsernames(users: seq<Account>) {
    forall i, j :: 0 <= i < j < |users| ==> users[i].username != users[j].username
  }

  /** A row as `register` writes it: a stripped, non-empty username and a non-empty password. */
  ghost predicate WellFormed(a: Account) {
    a.username != "" && a.password != "" && Strip(a.username) == a.username
  }

  /** An order as `buy_now` writes it from the products it resolved. */
  ghost predicate Describes(o: Order, bought: seq<Product>) {
    bought != [] && SubsequenceOf(bought, Products()) && o.total == Total(bought) && o.items == ItemsText(bought)
  }

  /** Each order, position by position, describes the products it was made from. */
  ghost predicate AllDescribed(orders: seq<Order>, bought: seq<seq<Product>>) {
    |bought| == |orders| && forall k :: 0 <= k < |orders| ==> Describes(orders[k], bought[k])
  }

  /** Appending an order made from its products keeps every order described. */
  lemma DescribedAppend(orders: seq<Order>, bought: seq<seq<Product>>, o: Order, b: seq<Product>)
    requires AllDescribed(orders, bought) && Describes(o, b)
    ensures AllDescribed(orders + [o], bought + [b])
  {
  }

  class Database {
    var users: seq<Account>
    var orders: seq<Order>
    /** The products each order was made from. */
    ghost var bought: seq<seq<Product>>

    ghost predicate Valid()
      reads this
    {
      UniqueUsernames(users) &&
      (forall k :: 0 <= k < |users| ==> WellFormed(users[k])) &&
      AllDescribed(orders, bought)
    }

    constructor ()
      ensures Valid() && users == [] && orders == []
    {
      users, orders, bought := [], [], [];
    }

    /**
     * `register`: strips the username, rejects an empty username or
     * password, then an existing username, and otherwise adds one row. A
     * failed commit is rolled back and leaves the table as it was.
     */
    method Register(rawUsername: string, password: string, commitOk: bool) returns (outcome: Registration)
      requires Valid()
      modifies this
      ensures Valid()
      ensures orders == old(orders) && bought == old(bought)
      ensures outcome == (
        if Strip(rawUsername) == "" || password == "" then MissingFields
        else if HasUsername(old(users), Strip(rawUsername)) then UsernameTaken
        else if !commitOk then CommitFailed
        else Registered)
      ensures users == if outcome == Registered then old(users) + [Account(Strip(rawUsername), password)] else old(users)
    {
      var username := Strip(rawUsername);
      if username == "" || password == "" {
        return MissingFields;
      }
      if HasUsername(users, username) {
        return UsernameTaken;
      }
      if !commitOk {
        return CommitFailed;
      }
      StripIdempotent(rawUsername);
      users := users + [Account(username, password)];
      outcome := Registered;
    }

    /** `User.query.filter_by(username=..., password=...).first()` finds a row. */
    predicate Authenticates(username: string, password: string)
      reads this
      ensures Authenticates(username, password) <==> Account(username, password) in users
      ensures Authenticates(username, password) ==> HasUsername(users, username)
    {
      exists k :: 0 <= k < |users| && users[k] == Account(username, password)
    }

    /**
     * `order = Order(...)`, `db.session.add(order)`, `db.session.commit()`:
     * appends one order, made from `items`, and returns its id.
     */
    method AddOrder(username: string, items: seq<Product>, now: nat) returns (id: nat)
      requires Valid()
      requires items != [] && SubsequenceOf(items, Products())
      modifies this
      ensures Valid()
      ensures users == old(users)
      ensures id == |old(orders)|
      ensures orders == old(orders) + [Order(username, Total(items), ItemsText(items), now)]
    {
      id := |orders|;
      var order := Order(username, Total(items), ItemsText(items), now);
      DescribedAppend(orders, bought, order, items);
      orders := orders + [order];
      bought := bought + [items];
    }
  }

  /** `[p for p in products if p["id"] in cart]` lists no product twice: the catalog repeats none. */
  lemma {:induction false} DistinctOnce<T>(s: seq<T>, x: T)
    requires forall i, j :: 0 <= i < j < |s| ==> s[i] != s[j]
    ensures multiset(s)[x] <= 1
  {
    if s != [] {
      DistinctOnce(s[1..], x);
      assert s == [s[0]] + s[1..];
      if s[0] == x {
        assert x !in s[1..];
      }
    }
  }

  /** The catalog lists no product twice and has no negative price. */
  lemma CatalogFacts()
    ensures forall i, j :: 0 <= i < j < |Products()| ==> Products()[i] != Products()[j]
    ensures forall p :: p in Products() ==> p.price >= 0
  {
    CatalogIdsUnique();
  }

  /**
   * Over a catalog that repeats no product and has no negative price, the
   * resolved cart holds exactly the products whose id is in the cart, in
   * catalog order, each once, and its total is not negative.
   */
  lemma ResolveFacts(catalog: seq<Product>, cart: seq<int>)
    requires forall i, j :: 0 <= i < j < |catalog| ==> catalog[i] != catalog[j]
    requires forall p :: p in catalog ==> p.price >= 0
    ensures forall p :: p in Resolve(catalog, cart) <==> p in catalog && p.id in cart
    ensures SubsequenceOf(Resolve(catalog, cart), catalog)
    ensures forall p :: multiset(Resolve(catalog, cart))[p] <= 1
    ensures 0 <= Total(Resolve(catalog, cart))
  {
    ResolveMembers(catalog, cart);
    ResolveInCatalogOrder(catalog, cart);
    forall p ensures multiset(Resolve(catalog, cart))[p] <= 1 {
      ResolveCount(catalog, cart, p);
      DistinctOnce(catalog, p);
    }
    ResolveTotalBounds(catalog, cart);
  }

  /**
   * The cart Flask's cookie session carries into the next request. A
   * session that is not permanent is written back only when the handler
   * assigned to it; changing a list stored in it in place is no assignment,
   * and then the next request sees the cart it came with.
   */
  function SavedCart(before: seq<int>, after: seq<int>, reassigned: bool): seq<int> {
    if reassigned then after else before
  }

  /**
   * `remove_from_cart` as the handler is written: `.remove` changes the
   * stored list in place and nothing is assigned to the session, so the
   * removal is not saved.
   */
  function RemoveFromCartAsWritten(cart: seq<int>, productId: int): (saved: seq<int>)
    ensures saved == cart
  {
    var after := if productId in cart then RemoveFirst(cart, productId) else cart;
    SavedCart(cart, after, false)
  }

  /** A cart holding only product 2: removing it as written leaves it in the next request. */
  lemma RemovalIsLost()
    ensures RemoveFromCartAsWritten([2], 2) == [2]
    ensures RemoveFirst([2], 2) == []
  {
  }

  /**
   * `remove_from_cart` with the list assigned back, as `add_to_cart` does
   * with `session["cart"] = cart`: the next request sees the first
   * occurrence of the id removed.
   */
  function RemoveFromCartSaved(cart: seq<int>, productId: int): (saved: seq<int>)
    ensures saved == RemoveFirst(cart, productId)
    ensures productId in cart ==> |saved| == |cart| - 1
  {
    var after := if productId in cart then RemoveFirst(cart, productId) else cart;
    SavedCart(cart, after, productId in cart)
  }

  class Session {
    var user: Option<string>
    /** The product ids in the cart; a session without a cart reads as an empty one. */
    var cart: seq<int>

    constructor ()
      ensures user == None && cart == []
    {
      user, cart := None, [];
    }

    /** `inject_cart_count`: the number of entries in the cart, repeats included. */
    function CartCount(): (n: nat)
      reads this
      ensures n == 0 <==> cart == []
    {
      |cart|
    }

    /**
     * `home`: a redirect to login without a user; otherwise a sorted copy
     * of the catalog, by the `sort` argument, "popularity" when absent.
     */
    method Home(sortArg: Option<string>) returns (page: Option<seq<Product>>)
      ensures page.None? <==> user.None?
      ensures page.Some? ==> var key := ParseSort(if sortArg.Some? then sortArg.value else "popularity");
        && page.value == SortBy(Products(), SortKeyFn(key))
        && multiset(page.value) == multiset(Products())
        && Sorted(page.value, SortKeyFn(key))
        && forall v :: WithKey(page.value, SortKeyFn(key), v) == WithKey(Products(), SortKeyFn(key), v)
    {
      if user.None? {
        return None;
      }
      var sort := if sortArg.Some? then sortArg.value else "popularity";
      var items := SortedCopy(Products(), ParseSort(sort));
      page := Some(items);
    }

    /**
     * `login`: with matching credentials the user is bound and the cart
     * reset to empty; otherwise nothing changes.
     */
    method Login(db: Database, username: string, password: string) returns (ok: bool)
      modifies this
      ensures ok == db.Authenticates(username, password)
      ensures ok ==> user == Some(username) && cart == []
      ensures !ok ==> user == old(user) && cart == old(cart)
    {
      ok := db.Authenticates(username, password);
      if ok {
        user := Some(username);
        cart := [];
      }
    }

    /** `logout`: `session.clear()` drops both the user and the cart. */
    method Logout()
      modifies this
      ensures user == None && cart == []
      ensures CartCount() == 0
    {
      user, cart := None, [];
    }

    /**
     * `add_to_cart`: an id of a catalog product goes at the end of the cart;
     * any other id changes nothing. No login is needed.
     */
    method AddToCart(productId: int) returns (added: bool)
      modifies this
      ensures added == InCatalog(productId)
      ensures cart == if added then old(cart) + [productId] else old(cart)
      ensures CartCount() == old(CartCount()) + if added then 1 else 0
      ensures user == old(user)
    {
      added := InCatalog(productId);
      if added {
        cart := cart + [productId];
      }
    }

    /**
     * `remove_from_cart`, with the removal saved: removes the first
     * occurrence of the id, if there is one; otherwise nothing changes.
     */
    method RemoveFromCart(productId: int)
      modifies this
      ensures cart == RemoveFirst(old(cart), productId)
      ensures cart == RemoveFromCartSaved(old(cart), productId)
      ensures CartCount() == old(CartCount()) - if productId in old(cart) then 1 else 0
      ensures user == old(user)
    {
      if productId in cart {
        cart := RemoveFirst(cart, productId);
      }
    }

    /**
     * `cart`: the catalog products whose id is in the cart, in catalog
     * order and each once, and the sum of their prices.
     */
    method ViewCart() returns (items: seq<Product>, total: int)
      ensures forall p :: p in items <==> p in Products() && p.id in cart
      ensures SubsequenceOf(items, Products())
      ensures forall p :: multiset(items)[p] <= 1
      ensures total == Total(items)
      ensures 0 <= total
    {
      items := Resolve(Products(), cart);
      total := Total(items);
      CatalogFacts();
      ResolveFacts(Products(), cart);
    }

    /**
     * `buy_now`: without a user, or when the cart resolves to no product,
     * nothing changes. A commit that fails (`commitOk` false) raises out of
     * the handler before the cart is cleared, so nothing changes either.
     * Otherwise exactly one order is added, for the session's user,
     * totalling the resolved prices and describing them in order, and the
     * cart is emptied while the user stays logged in.
     */
    method BuyNow(db: Database, now: nat, commitOk: bool) returns (outcome: Checkout)
      requires db.Valid()
      modifies this, db
      ensures db.Valid()
      ensures db.users == old(db.users) && user == old(user)
      ensures outcome == (
        if old(user).None? then NotLoggedIn
        else if Resolve(Products(), old(cart)) == [] then NothingToBuy
        else if !commitOk then OrderFailed
        else Placed(|old(db.orders)|))
      ensures !outcome.Placed? ==> db.orders == old(db.orders) && cart == old(cart)
      ensures outcome.Placed? ==>
        && var bought := Resolve(Products(), old(cart));
        && db.orders == old(db.orders) + [Order(old(user).value, Total(bought), ItemsText(bought), now)]
        && cart == []
    {
      if user.None? {
        return NotLoggedIn;
      }
      var items := Resolve(Products(), cart);
      if items == [] {
        return NothingToBuy;
      }
      if !commitOk {
        return OrderFailed;
      }
      ResolveInCatalogOrder(Products(), cart);
      var id := db.AddOrder(user.value, items, now);
      cart := [];
      outcome := Placed(id);
    }
  }

  lemma ResolveShirtAndJeans()
    ensures Resolve(Products(), [2, 3]) == [Products()[1], Products()[2]]
  {
    var c := Products();
    assert Resolve(c[8..], [2, 3]) == [];
    assert Resolve(c[7..], [2, 3]) == [];
    assert Resolve(c[6..], [2, 3]) == [];
    assert Resolve(c[5..], [2, 3]) == [];
    assert Resolve(c[4..], [2, 3]) == [];
    assert Resolve(c[3..], [2, 3]) == [];
    assert Resolve(c[2..], [2, 3]) == [c[2]];
    assert Resolve(c[1..], [2, 3]) == [c[1], c[2]];
  }

  lemma PriceTexts()
    ensures NatToDecimal(999) == "999"
    ensures NatToDecimal(1299) == "1299"
  {
  }

  lemma ShirtText(p: Product)
    requires p.name == "Formal Shirt" && p.price == 999
    ensures Describe(p) == "Formal Shirt (₹999)"
  {
    PriceTexts();
  }

  lemma JeansText(q: Product)
    requires q.name == "Denim Jeans" && q.price == 1299
    ensures Describe(q) == "Denim Jeans (₹1299)"
  {
    PriceTexts();
  }

  lemma TwoItemTotal(p: Product, q: Product)
    requires p.price == 999 && q.price == 1299
    ensures Total([p, q]) == 2298
  {
    assert [p, q][1..] == [q];
    assert [q][1..] == [];
    assert Total([q]) == 1299;
  }

  lemma TwoItemText(p: Product, q: Product)
    requires p.name == "Formal Shirt" && p.price == 999
    requires q.name == "Denim Jeans" && q.price == 1299
    ensures ItemsText([p, q]) == "Formal Shirt (₹999), Denim Jeans (₹1299)"
  {
    ItemsTextTwo(p, q);
    ShirtText(p);
    JeansText(q);
  }

  /**
   * The order from the comment beside the `Order` table: a cart holding a
   * formal shirt and denim jeans is charged 2298 and described as
   * "Formal Shirt (₹999), Denim Jeans (₹1299)".
   */
  lemma ShirtAndJeansOrder()
    ensures Resolve(Products(), [2, 3]) != []
    ensures Total(Resolve(Products(), [2, 3])) == 2298
    ensures ItemsText(Resolve(Products(), [2, 3])) == "Formal Shirt (₹999), Denim Jeans (₹1299)"
  {
    ResolveShirtAndJeans();
    TwoItemTotal(Products()[1], Products()[2]);
    TwoItemText(Products()[1], Products()[2]);
  }
}
