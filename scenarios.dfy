/**
 * A shopper's visit, driven through the handlers' contracts alone: what a
 * caller can conclude from them without looking inside.
 */
module Scenarios {

  import opened Wrappers
  import opened Catalog
  import opened Text
  import opened Cart
  import opened Store

  lemma AliceIsStripped()
    ensures Strip("alice") == "alice"
  {
    assert SkipSpace("alice", 0) == 0;
    assert SkipSpaceBack("alice", 0, 5) == 5;
  }

  /** Registers "alice" in a fresh database and logs her in on a fresh session. */
  method AliceLogsIn() returns (db: Database, session: Session)
    ensures fresh(db) && fresh(session)
    ensures db.Valid() && db.orders == []
    ensures session.user == Some("alice") && session.cart == []
  {
    db := new Database();
    AliceIsStripped();
    var registered := db.Register("alice", "secret", true);
    session := new Session();
    var ok := session.Login(db, "alice", "secret");
    assert db.users[0] == Account("alice", "secret");
  }

  /** The rows of `users` with this username. */
  function NamedRows(users: seq<Account>, name: string): nat {
    if users == [] then 0
    else (if users[0].username == name then 1 else 0) + NamedRows(users[1..], name)
  }

  lemma BobIsStripped()
    ensures Strip(" bob ") == "bob" && Strip("bob") == "bob"
  {
    assert SkipSpace(" bob ", 0) == 1;
    assert SkipSpaceBack(" bob ", 1, 5) == 4;
    assert " bob "[1..4] == "bob";
    assert SkipSpace("bob", 0) == 0;
    assert SkipSpaceBack("bob", 0, 3) == 3;
  }

  /**
   * Registering " bob " and then "bob": the first is stored as "bob", the
   * second is refused, and the table holds exactly one "bob".
   */
  method RegisterTwice() returns (first: Registration, second: Registration, bobs: nat)
    ensures first == Registered && second == UsernameTaken
    ensures bobs == 1
  {
    var db := new Database();
    BobIsStripped();
    first := db.Register(" bob ", "pw1", true);
    assert db.users == [Account("bob", "pw1")];
    OneBob();
    second := db.Register("bob", "pw2", true);
    bobs := NamedRows(db.users, "bob");
  }

  /** The table after registering " bob " holds "bob", once. */
  lemma OneBob()
    ensures HasUsername([Account("bob", "pw1")], "bob")
    ensures NamedRows([Account("bob", "pw1")], "bob") == 1
  {
    var users := [Account("bob", "pw1")];
    assert users[0].username == "bob";
    assert users[1..] == [];
  }

  /**
   * After logging in, checking out the untouched cart buys nothing; after
   * logging out, checking out is refused for want of a user.
   */
  method EmptyCartThenLogout() returns (emptyCheckout: Checkout, afterLogout: Checkout, orders: seq<Order>)
    ensures emptyCheckout == NothingToBuy
    ensures afterLogout == NotLoggedIn
    ensures orders == []
  {
    var db, session := AliceLogsIn();
    ResolveMembers(Products(), []);
    emptyCheckout := session.BuyNow(db, 6, true);
    session.Logout();
    afterLogout := session.BuyNow(db, 8, true);
    orders := db.orders;
  }

  /**
   * Logged in as "alice", adding products 2 and 3 and buying places one
   * order of 2298 for both, empties the cart and keeps her logged in.
   */
  method BuyShirtAndJeans() returns (order: Order, orderCount: nat, cart: seq<int>, user: Option<string>)
    ensures order == Order("alice", 2298, "Formal Shirt (₹999), Denim Jeans (₹1299)", 7)
    ensures orderCount == 1
    ensures cart == [] && user == Some("alice")
  {
    var db, session := AliceLogsIn();
    InCatalogRange(2);
    InCatalogRange(3);
    var added := session.AddToCart(2);
    added := session.AddToCart(3);
    assert session.cart == [2, 3];
    ShirtAndJeansOrder();
    var placed := session.BuyNow(db, 7, true);
    assert db.orders == [Order("alice", 2298, "Formal Shirt (₹999), Denim Jeans (₹1299)", 7)];
    order := db.orders[placed.orderId];
    orderCount := |db.orders|;
    cart, user := session.cart, session.user;
  }

  /**
   * Logged in as "alice" with product 2 in the cart, a checkout whose
   * commit fails writes no order and keeps the cart for another attempt.
   */
  method FailedCommitKeepsCart() returns (outcome: Checkout, orders: seq<Order>, cart: seq<int>)
    ensures outcome == OrderFailed
    ensures orders == [] && cart == [2]
  {
    var db, session := AliceLogsIn();
    InCatalogRange(2);
    var added := session.AddToCart(2);
    ResolveMembers(Products(), [2]);
    assert Products()[1] in Resolve(Products(), [2]);
    outcome := session.BuyNow(db, 9, false);
    orders, cart := db.orders, session.cart;
  }
}
