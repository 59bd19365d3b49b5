/**
 * The pure part of the cart: resolving the session's product ids against
 * the catalog (`[p for p in products if p["id"] in cart]`), the total
 * (`sum(...)`), the order's item text (`", ".join(...)`) and Python's
 * `list.remove` on the cart.
 */
module Cart {

  import opened Catalog
  import opened Text

  /** `b` contains the elements of `a` in the same order, possibly with others between. */
  ghost predicate SubsequenceOf<T>(a: seq<T>, b: seq<T>)
    decreases |b|
  {
    a == [] || (b != [] && if a[0] == b[0] then SubsequenceOf(a[1..], b[1..]) else SubsequenceOf(a, b[1..]))
  }

  /**
   * The products of `catalog` whose id occurs in `cart`: filtered in
   * catalog order, so neither the cart's order nor its repetitions show.
   */
  function Resolve(catalog: seq<Product>, cart: seq<int>): (r: seq<Product>)
    ensures |r| <= |catalog|
    ensures cart == [] ==> r == []
  {
    if catalog == [] then []
    else (if catalog[0].id in cart then [catalog[0]] else []) + Resolve(catalog[1..], cart)
  }

  /** A product is resolved exactly when it is in the catalog and its id is in the cart. */
  lemma {:induction false} ResolveMembers(catalog: seq<Product>, cart: seq<int>)
    ensures |Resolve(catalog, cart)| <= |catalog|
    ensures forall p :: p in Resolve(catalog, cart) <==> p in catalog && p.id in cart
  {
    if catalog != [] {
      ResolveMembers(catalog[1..], cart);
      assert catalog == [catalog[0]] + catalog[1..];
    }
  }

  /**
   * Each catalog product whose id is in the cart is resolved exactly as
   * often as it is listed in the catalog (once, for the shop's catalog),
   * however often the cart names it; the others not at all.
   */
  lemma {:induction false} ResolveCount(catalog: seq<Product>, cart: seq<int>, p: Product)
    ensures multiset(Resolve(catalog, cart))[p] == if p.id in cart then multiset(catalog)[p] else 0
  {
    if catalog != [] {
      ResolveCount(catalog[1..], cart, p);
      assert catalog == [catalog[0]] + catalog[1..];
    }
  }

  /** The resolved products come out in catalog order. */
  lemma {:induction false} ResolveInCatalogOrder(catalog: seq<Product>, cart: seq<int>)
    ensures SubsequenceOf(Resolve(catalog, cart), catalog)
  {
    if catalog != [] {
      ResolveInCatalogOrder(catalog[1..], cart);
      ResolveMembers(catalog[1..], cart);
      var r := Resolve(catalog, cart);
      if catalog[0].id in cart {
        assert r[1..] == Resolve(catalog[1..], cart);
      } else {
        assert r == Resolve(catalog[1..], cart);
        assert r != [] ==> r[0] in r;
      }
    }
  }

  /** Only the set of ids in the cart matters, not their order or repetition. */
  lemma {:induction false} ResolveOnlyIdSet(catalog: seq<Product>, cart1: seq<int>, cart2: seq<int>)
    requires forall id :: id in cart1 <==> id in cart2
    ensures Resolve(catalog, cart1) == Resolve(catalog, cart2)
  {
    if catalog != [] {
      ResolveOnlyIdSet(catalog[1..], cart1, cart2);
    }
  }

  /** `sum(item["price"] for item in items)`. */
  function Total(items: seq<Product>): (t: int)
    ensures (forall p :: p in items ==> p.price >= 0) ==> t >= 0
  {
    if items == [] then 0 else items[0].price + Total(items[1..])
  }

  lemma {:induction false} TotalAppend(a: seq<Product>, b: seq<Product>)
    ensures Total(a + b) == Total(a) + Total(b)
  {
    if a == [] {
      assert a + b == b;
    } else {
      TotalAppend(a[1..], b);
      assert (a + b)[1..] == a[1..] + b;
    }
  }

  /** With no negative price in the catalog, no resolved total is negative and none exceeds the whole catalog's. */
  lemma {:induction false} ResolveTotalBounds(catalog: seq<Product>, cart: seq<int>)
    requires forall p :: p in catalog ==> p.price >= 0
    ensures 0 <= Total(Resolve(catalog, cart)) <= Total(catalog)
  {
    if catalog != [] {
      ResolveTotalBounds(catalog[1..], cart);
      TotalAppend(if catalog[0].id in cart then [catalog[0]] else [], Resolve(catalog[1..], cart));
    }
  }

  /** The currency sign the item text puts before each price. */
  const Rupee: string := "₹"

  /** `f'{name} (₹{price})'` for one product. */
  function Describe(p: Product): (d: string)
    ensures |d| >= |p.name| + 4
    ensures p.name <= d && d[|d| - 1] == ')'
  {
    p.name + " (" + Rupee + IntToDecimal(p.price) + ")"
  }

  /** `sep.join(parts)`. */
  function Join(parts: seq<string>, sep: string): (j: string)
    ensures parts == [] ==> j == ""
    ensures |parts| == 1 ==> j == parts[0]
    ensures |parts| > 1 ==> parts[0] + sep <= j
  {
    if parts == [] then ""
    else if |parts| == 1 then parts[0]
    else parts[0] + sep + Join(parts[1..], sep)
  }

  function Descriptions(items: seq<Product>): (ds: seq<string>)
    ensures |ds| == |items|
    ensures forall k :: 0 <= k < |items| ==> ds[k] == Describe(items[k])
  {
    if items == [] then [] else [Describe(items[0])] + Descriptions(items[1..])
  }

  /** The order's `items` text: each product's description, joined by ", ". */
  function ItemsText(items: seq<Product>): (t: string)
    ensures items != [] ==> items[0].name <= t
  {
    Join(Descriptions(items), ", ")
  }

  /** The joined text starts with the first part and ends with the last. */
  lemma {:induction false} JoinEnds(parts: seq<string>, sep: string)
    requires parts != []
    ensures parts[0] <= Join(parts, sep)
    ensures |Join(parts, sep)| >= |parts[|parts| - 1]|
    ensures Join(parts, sep)[|Join(parts, sep)| - |parts[|parts| - 1]|..] == parts[|parts| - 1]
  {
    if |parts| > 1 {
      JoinEnds(parts[1..], sep);
    }
  }

  /** Two products are described one after the other, separated by ", ". */
  lemma ItemsTextTwo(p: Product, q: Product)
    ensures ItemsText([p, q]) == Describe(p) + ", " + Describe(q)
  {
    assert [p, q][1..] == [q];
    assert Descriptions([p, q]) == [Describe(p), Describe(q)];
    assert [Describe(p), Describe(q)][1..] == [Describe(q)];
  }

  /** The item text is empty exactly when there is nothing to describe. */
  lemma ItemsTextEmpty(items: seq<Product>)
    ensures ItemsText(items) == "" <==> items == []
  {
    if items != [] {
      JoinEnds(Descriptions(items), ", ");
    }
  }

  /** The index of the first occurrence of `x` in `s`. */
  function FirstIndex(s: seq<int>, x: int): (k: nat)
    requires x in s
    ensures k < |s| && s[k] == x
    ensures x !in s[..k]
  {
    if s[0] == x then 0
    else
      var k := FirstIndex(s[1..], x);
      assert s[..k + 1] == [s[0]] + s[1..][..k];
      k + 1
  }

  /**
   * `s.remove(x)` guarded by `x in s`: the first occurrence of `x` goes, the
   * rest keep their order; an absent `x` changes nothing.
   */
  function RemoveFirst(s: seq<int>, x: int): (r: seq<int>)
    ensures x !in s ==> r == s
    ensures x in s ==> |r| == |s| - 1 && multiset(r) == multiset(s) - multiset{x}
    ensures x in s ==> r == s[..FirstIndex(s, x)] + s[FirstIndex(s, x) + 1..]
  {
    if x in s then
      var k := FirstIndex(s, x);
      assert s == s[..k] + [s[k]] + s[k + 1..];
      s[..k] + s[k + 1..]
    else s
  }

  /**
   * Adding an id the cart already holds changes nothing that is resolved or
   * charged; only the cart count grows by one.
   */
  lemma AddAgainSameResolution(catalog: seq<Product>, cart: seq<int>, id: int)
    requires id in cart
    ensures Resolve(catalog, cart + [id]) == Resolve(catalog, cart)
  {
    ResolveOnlyIdSet(catalog, cart + [id], cart);
  }

  /**
   * Removing one copy of an id the cart holds twice or more leaves the
   * resolved products as they were; removing the only copy drops every
   * product with that id.
   */
  lemma RemoveResolution(catalog: seq<Product>, cart: seq<int>, id: int)
    requires id in cart
    ensures multiset(cart)[id] >= 2 ==> Resolve(catalog, RemoveFirst(cart, id)) == Resolve(catalog, cart)
    ensures multiset(cart)[id] == 1 ==> forall p :: p in Resolve(catalog, RemoveFirst(cart, id)) ==> p.id != id
  {
    var r := RemoveFirst(cart, id);
    if multiset(cart)[id] >= 2 {
      forall y ensures y in r <==> y in cart {
        assert y in r <==> y in multiset(r);
        assert y in cart <==> y in multiset(cart);
      }
      ResolveOnlyIdSet(catalog, r, cart);
    } else if multiset(cart)[id] == 1 {
      assert id !in multiset(r);
      ResolveMembers(catalog, r);
    }
  }
}
