# Storefront model

A Dafny model of the clothing storefront in `app.py`. The storefront is a small Flask
application. It has a fixed catalog of eight products, a home page that sorts the catalog,
user registration and login, a cart kept in the browser session, and a "buy now" checkout
that records an order.

The model holds:

- **Catalog** (`catalog.dfy`). The eight products, in the order the application declares
  them. The `sort` argument of the home page, and the sorted copy the page shows.
- **Sorting** (`sorting.dfy`). Python's stable `list.sort(key=...)`:
  - an in-place insertion sort on an array (`SortInPlace`), proved equal to a functional
    specification (`SortBy`);
  - lemmas proving that `SortBy` returns a permutation, ordered by key, and stable.
- **Text** (`text.dfy`). Two pieces of Python string handling:
  - `str.strip()`, with Python's whitespace set;
  - decimal rendering of an integer, as in an f-string, with its parse-back round trip.
- **Cart** (`cart.dfy`). The pure parts of the cart:
  - resolving cart ids against the catalog (`[p for p in products if p["id"] in cart]`);
  - the total;
  - the order's item text (`", ".join(f'{name} (₹{price})' ...)`);
  - `list.remove` on the cart.
- **Store** (`store.dfy`). Two classes:
  - `Database` holds the `User` and `Order` tables, with `Register` and `AddOrder`;
  - `Session` holds the signed-cookie session (`user`, `cart`), with one method per
    handler: `Home`, `Login`, `Logout`, `AddToCart`, `RemoveFromCart`, `ViewCart`,
    `BuyNow`.
- **Scenarios** (`scenarios.dfy`). Whole visits, concluded from the handlers' contracts:
  - registering the same name twice;
  - an empty checkout followed by logout;
  - a checkout whose commit fails;
  - buying a shirt and jeans, which produces the order in the comment on the `Order`
    table (`app.py:24`).

Three behaviours of the code that one might not expect:

- **Resolution order.** One might expect the cart's order and its repetitions to carry
  through to the cart page and the order. They do not: the cart resolves in catalog order,
  one entry per product. See `Cart.ResolveOnlyIdSet` and `Cart.ResolveInCatalogOrder`.
- **Removing a repeated id.** Once the removal is saved (see "## Findings"), removing a
  product whose id is in the cart twice removes one copy only, so that product is still
  bought at checkout. See `Cart.RemoveResolution`. As written, nothing is removed at all.
- **Passwords.** Login compares username and password exactly. Registration strips the
  username but not the password.

## Model

| member | source | states |
|---|---|---|
| Catalog.Entry | app.py:28-45 | The product at position k of the declared list; its id is k + 1 and its price is positive |
| Catalog.Products | app.py:28-45 | The catalog holds eight products: the declared entries, in declaration order |
| Catalog.SortKeyFn | app.py:61-68 | The ascending key for each sort order. Comparing keys compares price ascending, price descending, newest first, or most popular first |
| Catalog.InCatalog | app.py:131 | Some catalog product has the id; such an id is positive |
| Catalog.CatalogIdsUnique | app.py:28-45 | No two catalog products share an id |
| Catalog.InCatalogRange | app.py:131 | An id names a catalog product exactly when it is 1 to 8 |
| Catalog.ParseSort | app.py:61-68 | "price_asc", "price_desc" and "new" select their orders; each holds exactly for its string. Any other string means popularity |
| Catalog.SortedCopy | app.py:59-68 | The copy is the stable sort of the catalog by the chosen key: a permutation of it, ordered by the key, and keeping equal keys in catalog order |
| Catalog.SortedMeans | app.py:61-68 | Sorted by the key means: price ascending, price descending, newest first, or most popular first |
| Sorting.SortBy | app.py:62-68 | The stable sort by the key, inserting each element after every earlier one whose key is not above it; as long as its input |
| Sorting.SortInPlace | app.py:62 | The in-place array sort leaves exactly `SortBy` of the old contents |
| Sorting.InsertAt | app.py:62 | One pass moves the element at `i` into its stable place among the sorted prefix; it leaves the rest of the array alone |
| Sorting.SortByPermutes | app.py:62 | The sort returns a permutation of its input (same multiset) |
| Sorting.SortBySorted | app.py:62 | The sort's result is non-decreasing in the key |
| Sorting.SortByStable | app.py:64 | For every key value, the elements with that key keep their input order. Python's `reverse=True` sort is stable, which is why a descending sort is the ascending sort on the negated key |
| Text.IsSpace | app.py:94 | The characters `str.strip()` removes. Within ASCII these are exactly space, tab, newline, carriage return, vertical tab, form feed and 0x1C-0x1F |
| Text.SkipSpace | app.py:94 | Returns the first non-whitespace index from `i`, or the end; everything skipped is whitespace |
| Text.SkipSpaceBack | app.py:94 | Walks back from `j` to the end of the text; everything skipped is whitespace |
| Text.Strip | app.py:94 | `strip()` is no longer than its input and neither starts nor ends with whitespace |
| Text.StripSlice | app.py:94 | `strip()` keeps one contiguous slice of the input and removes only whitespace on either side |
| Text.StripIdempotent | app.py:94 | Stripping a stripped name changes nothing, so a stored username is already stripped |
| Text.StripEmptyIffAllSpace | app.py:94-98 | The stripped username is empty (rejected as missing) exactly when the raw one is all whitespace |
| Text.NatToDecimal | app.py:168 | A price renders as decimal digits with no leading zero |
| Text.IntToDecimal | app.py:168 | `str` of an integer in an f-string: a minus sign exactly when it is negative, then only digits |
| Text.DecimalRoundTrip | app.py:168 | Parsing the rendered digits gives the number back |
| Text.DecimalInjective | app.py:168 | Different prices render as different texts |
| Cart.Resolve | app.py:144 | The catalog filtered by `id in cart`, in catalog order; no longer than the catalog, and empty for an empty cart |
| Cart.Total | app.py:145 | The sum of the prices; not negative when no price is |
| Cart.Describe | app.py:168 | `f'{name} (₹{price})'`: it starts with the name and ends with ")" |
| Cart.Descriptions | app.py:168 | One `f'{name} (₹{price})'` per product, in order |
| Cart.Join | app.py:168 | `", ".join(...)`: empty for no parts, the part itself for one, and otherwise the first part then the separator |
| Cart.ItemsText | app.py:168 | The order's item text: the descriptions joined by ", ", starting with the first product's name |
| Cart.ResolveMembers | app.py:144 | A product is resolved exactly when it is in the catalog and its id is in the cart; the result is no longer than the catalog |
| Cart.ResolveCount | app.py:144 | A product whose id is in the cart appears as often as in the catalog, however often the cart repeats the id; any other product does not appear |
| Cart.ResolveInCatalogOrder | app.py:162 | The resolved products are a subsequence of the catalog, in catalog order |
| Cart.ResolveOnlyIdSet | app.py:144 | Two carts with the same ids, in any order or repetition, resolve alike |
| Cart.TotalAppend | app.py:145 | The total of two lists together is the sum of their totals |
| Cart.ResolveTotalBounds | app.py:145 | With no negative price, the cart total is between 0 and the total of the whole catalog |
| Cart.JoinEnds | app.py:168 | The joined text starts with the first description and ends with the last |
| Cart.ItemsTextTwo | app.py:168 | Two products are described in order, separated by ", " |
| Cart.ItemsTextEmpty | app.py:168 | The item text is empty exactly when no product was resolved |
| Cart.FirstIndex | app.py:151 | Returns the index of the first occurrence of the id |
| Cart.RemoveFirst | app.py:150-151 | Removes the first occurrence only; the rest keep their order and the multiset loses exactly one copy. An absent id changes nothing |
| Cart.AddAgainSameResolution | app.py:134-144 | Adding an id already in the cart changes nothing that is resolved or charged; only the cart count grows by one |
| Cart.RemoveResolution | app.py:150-162 | Once the removal is saved (see "## Findings"): removing one of two or more copies changes nothing that is resolved, and removing the only copy drops every product with that id. As written nothing is removed |
| Store.HasUsername | app.py:102-103 | `filter_by(username=...).first()` finds a row exactly when some row has that username |
| Store.HasUsernameAppend | app.py:102-110 | After a row is added, a username is taken exactly when it was taken before or is the new row's |
| Store.DescribedAppend | app.py:171-173 | Appending an order made from its resolved products keeps every order describing its products |
| Store.RemoveFromCartAsWritten | app.py:150-151 | As written, the cart the next request sees is the cart before the removal |
| Store.RemovalIsLost | app.py:150-151 | With cart [2], removing 2 as written still leaves [2], where the intended removal gives [] |
| Store.RemoveFromCartSaved | app.py:150-151 | With the list assigned back to the session, as `add_to_cart` does at app.py:136, the next request sees the first occurrence removed |
| Store.DistinctOnce | app.py:144 | A list with no repeats holds each value at most once |
| Store.CatalogFacts | app.py:28-45 | The catalog repeats no product and has no negative price |
| Store.ResolveFacts | app.py:144-145 | Over such a catalog, the resolved cart is exactly the products whose id is in the cart, in catalog order, each once, with a non-negative total |
| Store.Database.constructor | app.py:14-25 | Both tables start empty and valid |
| Store.Database.Authenticates | app.py:82 | `filter_by(username=..., password=...).first()` finds a row exactly when that account is stored; its username is then a stored one |
| Store.Database.Register | app.py:94-117 | Outcome by the source's order of checks: missing field, then taken username, then failed commit, then registered. A row with the stripped username is appended only when registered. Usernames stay unique and stripped |
| Store.Database.AddOrder | app.py:171-173 | Appends exactly one order and returns its id, the old number of orders. Users are unchanged |
| Store.Session.constructor | app.py:142-143 | A new session has no user and an empty cart |
| Store.Session.CartCount | app.py:50 | `inject_cart_count`: the number of cart entries, zero exactly when the cart is empty |
| Store.Session.Home | app.py:55-68 | No page (a redirect to login) exactly when no one is logged in. Otherwise the catalog stably sorted by the parsed `sort` argument, which defaults to "popularity" |
| Store.Session.Login | app.py:82-88 | Succeeds exactly when a row matches both fields. On success the user is bound and the cart emptied; on failure nothing changes |
| Store.Session.Logout | app.py:125 | Both the user and the cart are cleared, so the cart count is 0 |
| Store.Session.AddToCart | app.py:131-136 | Appends the id exactly when a catalog product has it, and the count grows by one; otherwise nothing changes. The user is untouched either way |
| Store.Session.RemoveFromCart | app.py:150-151 | The cart loses the first occurrence of the id, if there is one, and the count shrinks by one; this is the saved removal of `Store.RemoveFromCartSaved`. The user is untouched |
| Store.Session.ViewCart | app.py:142-146 | Exactly the catalog products named by the cart, in catalog order, each once, with their non-negative total |
| Store.Session.BuyNow | app.py:157-179 | Outcome: no user, then nothing to buy, then a failed commit, then placed. Only when placed is one order appended (the user, the total, the item text and the time) and the cart emptied. A failed commit raises before the cart is cleared, so it writes no order and keeps the cart. The user stays logged in; users are unchanged |
| Store.ResolveShirtAndJeans | app.py:162 | The cart [2, 3] resolves to the formal shirt and the denim jeans |
| Store.PriceTexts | app.py:168 | 999 and 1299 render as "999" and "1299" |
| Store.ShirtText | app.py:168 | The formal shirt is described as "Formal Shirt (₹999)" |
| Store.JeansText | app.py:168 | The jeans are described as "Denim Jeans (₹1299)" |
| Store.TwoItemTotal | app.py:167 | Shirt and jeans total 2298 |
| Store.TwoItemText | app.py:168 | Shirt and jeans are described as "Formal Shirt (₹999), Denim Jeans (₹1299)" |
| Store.ShirtAndJeansOrder | app.py:24 | The cart [2, 3] gives exactly the example order in the comment: total 2298, with that item text |
| Scenarios.AliceLogsIn | app.py:82-85 | After registering, the same credentials log in, with an empty cart |
| Scenarios.RegisterTwice | app.py:98-104 | " bob " registers as "bob"; a second "bob" is refused as taken; the table holds one "bob" |
| Scenarios.EmptyCartThenLogout | app.py:157-165 | Checking out an empty cart buys nothing. After logout, checking out asks for a login. No order is written |
| Scenarios.FailedCommitKeepsCart | app.py:171-176 | A checkout whose commit fails writes no order and keeps the cart [2] |
| Scenarios.BuyShirtAndJeans | app.py:154-179 | Adding 2 and 3 and buying writes exactly one order ("alice", 2298, the two descriptions) and empties the cart; the user stays logged in |

## Left out

- The web layer is not modelled:
  - Flask routing, HTTP methods and redirects, which appear as the methods' outcomes;
  - templates, and the rendering of product images;
  - `order_success` and its `get_or_404`;
  - form parsing. A missing field in `login` (`request.form["username"]`) is a 400 error and
    is not modelled. The `""` defaults of `register`'s `.get(..., "")` are the caller
    passing `""`.
- The SQLAlchemy layer is replaced by sequences:
  - tables are sequences;
  - a row's generated id is its position;
  - String(50) column lengths are not enforced.
- Timestamps are not modelled as datetimes:
  - `created_at` in the catalog is a yyyymmdd natural, which orders like the dates;
  - the order's `datetime.utcnow` default is the `now` parameter.
- The session cookie is not modelled: no secret key and no signing. The session is the
  fields of `Session`.
- A session with no `"cart"` key is modelled as an empty cart. Every reader in the source
  defaults it to `[]`.
- Flask's session: only the rule that decides whether a non-permanent session is written back
  (an assignment to it) is modelled, by `Store.SavedCart`. Permanent sessions and
  `SESSION_REFRESH_EACH_REQUEST` are not modelled, since the application uses neither.
- Store.Database.Register: a failing commit in `register` is the `commitOk` parameter. The
  exception that causes it is not modelled.
- Store.Session.BuyNow: a failing commit is the `commitOk` parameter, and the exception it raises
  is the `OrderFailed` outcome. The error page, and the database session left without a
  rollback, are not modelled.
- Sorting.SortInPlace: Python's Timsort is replaced by an insertion sort. Both are stable,
  so the result is the same.
- Concurrency is not modelled: no concurrent requests and no double submission.

## Findings

| source | as written | input that shows it | evidently intended | confidence | as-written member | corrected member |
|---|---|---|---|---|---|---|
| app.py:150-151 | `session["cart"].remove(product_id)` changes the stored list in place and assigns nothing to the session. Flask then does not write the session back, so the next request sees the old cart. `add_to_cart` (app.py:136-137) reassigns for exactly this reason | cart [2], request `/remove_from_cart/2`: the cart page then still shows product 2 | the first occurrence of the id is removed and saved (`session["cart"] = cart` after the removal) | medium, not executed; rests on Flask's rule for writing back a session that is not permanent | Store.RemoveFromCartAsWritten, Store.RemovalIsLost | Store.RemoveFromCartSaved, Store.Session.RemoveFromCart |
