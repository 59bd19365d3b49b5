/**
 * The storefront's fixed product list and the sort rule of its home page.
 *
 * Timestamps (`created_at`) are dates, written here as the natural yyyymmdd,
 * which orders exactly as the dates do.
 */
module Catalog {

  import opened Sorting

  datatype Product = Product(
    id: int,
    name: string,
    price: int,
    image: string,
    popularity: int,
    createdAt: nat)

  /** The catalog's entry at position `k`, in the order the application declares them. */
  function Entry(k: nat): (p: Product)
    requires k < 8
    ensures p.id == k + 1
    ensures p.price > 0
  {
    match k
    case 0 => Product(1, "Casual Shirt", 799, "blackshirt.jpeg", 72, 20250801)
    case 1 => Product(2, "Formal Shirt", 999, "maroonshirt.jpeg", 95, 20250818)
    case 2 => Product(3, "Denim Jeans", 1299, "blackpant.jpeg", 81, 20250810)
    case 3 => Product(4, "Chinos Pant", 1199, "greypant.jpeg", 65, 20250820)
    case 4 => Product(5, "Casual T-Shirt", 699, "BlackTshirt.jpg", 75, 20250802)
    case 5 => Product(6, "Formal T-Shirt", 899, "maroonTshirt.jpg", 92, 20250812)
    case 6 => Product(7, "Denim cargo", 1499, "Blackcargo.jpg", 84, 20250815)
    case 7 => Product(8, "Trousers", 1299, "Trousers.jpg", 67, 20250824)
  }

  /** The eight products of the catalog. */
  function Products(): (ps: seq<Product>)
    ensures |ps| == 8
  {
    seq(8, k requires 0 <= k < 8 => Entry(k))
  }

  /** Is there a catalog product with this id? */
  predicate InCatalog(id: int)
    ensures InCatalog(id) ==> id >= 1
  {
    exists p :: p in Products() && p.id == id
  }

  lemma CatalogIdsUnique()
    ensures forall i, j :: 0 <= i < j < |Products()| ==> Products()[i].id != Products()[j].id
  {
  }

  lemma InCatalogRange(id: int)
    ensures InCatalog(id) <==> 1 <= id <= 8
  {
    if 1 <= id <= 8 {
      assert Products()[id - 1] in Products();
    }
  }

  /** The four orders the home page offers; anything else means popularity. */
  datatype SortKey = PriceAsc | PriceDesc | Newest | Popularity

  /** The `sort` query argument, defaulting to "popularity" when absent. */
  function ParseSort(arg: string): (k: SortKey)
    ensures k == PriceAsc <==> arg == "price_asc"
    ensures k == PriceDesc <==> arg == "price_desc"
    ensures k == Newest <==> arg == "new"
    ensures k == Popularity <==> arg !in {"price_asc", "price_desc", "new"}
  {
    if arg == "price_asc" then PriceAsc
    else if arg == "price_desc" then PriceDesc
    else if arg == "new" then Newest
    else Popularity
  }

  /**
   * The key the home page sorts by, as an ascending integer key. Python's
   * `reverse=True` keeps equal keys in their original order, so a
   * descending sort is the ascending stable sort on the negated key.
   */
  function SortKeyFn(key: SortKey): (f: Product -> int)
    ensures key == PriceAsc ==> forall p, q :: f(p) <= f(q) <==> p.price <= q.price
    ensures key == PriceDesc ==> forall p, q :: f(p) <= f(q) <==> p.price >= q.price
    ensures key == Newest ==> forall p, q :: f(p) <= f(q) <==> p.createdAt >= q.createdAt
    ensures key == Popularity ==> forall p, q :: f(p) <= f(q) <==> p.popularity >= q.popularity
  {
    match key
    case PriceAsc => (p: Product) => p.price
    case PriceDesc => (p: Product) => -p.price
    case Newest => (p: Product) => -(p.createdAt as int)
    case Popularity => (p: Product) => -p.popularity
  }

  /**
   * `items = products[:]` followed by `items.sort(...)`: a sorted copy of
   * `catalog`, which the sort leaves as it was.
   */
  method SortedCopy(catalog: seq<Product>, key: SortKey) returns (items: seq<Product>)
    ensures items == SortBy(catalog, SortKeyFn(key))
    ensures multiset(items) == multiset(catalog)
    ensures Sorted(items, SortKeyFn(key))
    ensures forall v :: WithKey(items, SortKeyFn(key), v) == WithKey(catalog, SortKeyFn(key), v)
  {
    var a := new Product[|catalog|](k requires 0 <= k < |catalog| => catalog[k]);
    assert a[..] == catalog;
    SortInPlace(a, SortKeyFn(key));
    items := a[..];
    SortByPermutes(catalog, SortKeyFn(key));
    SortBySorted(catalog, SortKeyFn(key));
    forall v ensures WithKey(items, SortKeyFn(key), v) == WithKey(catalog, SortKeyFn(key), v) {
      SortByStable(catalog, SortKeyFn(key), v);
    }
  }

  /** What being sorted by the key means for each of the four sort orders. */
  lemma SortedMeans(s: seq<Product>, key: SortKey)
    requires Sorted(s, SortKeyFn(key))
    ensures key == PriceAsc ==> forall i, j :: 0 <= i < j < |s| ==> s[i].price <= s[j].price
    ensures key == PriceDesc ==> forall i, j :: 0 <= i < j < |s| ==> s[i].price >= s[j].price
    ensures key == Newest ==> forall i, j :: 0 <= i < j < |s| ==> s[i].createdAt >= s[j].createdAt
    ensures key == Popularity ==> forall i, j :: 0 <= i < j < |s| ==> s[i].popularity >= s[j].popularity
  {
  }
}
