/** The values the storefront derives from its state on every render:
    the category tabs, the visible product list and the cart total (app.tsx). */
module Views {
  import opened Wrappers
  import opened Text
  import opened Types
  import opened Store
  import opened Seqs

  // ---------------------------------------------------------------------------
  // categories

  predicate Distinct(xs: seq<string>) {
    forall i, j :: 0 <= i < j < |xs| ==> xs[i] != xs[j]
  }

  predicate StrictlyAscending(xs: seq<string>) {
    forall i, j :: 0 <= i < j < |xs| ==> Less(xs[i], xs[j])
  }

  /** `products.map(p => p.category.toUpperCase())`. */
  function CategoryKeys(products: seq<Product>): (keys: seq<string>)
    ensures |keys| == |products|
    ensures forall c :: c in keys && c != [] <==> IsCategoryOf(products, c)
  {
    var keys := seq(|products|, k requires 0 <= k < |products| => Upper(products[k].category));
    assert forall c :: c in keys <==> exists k :: 0 <= k < |products| && Upper(products[k].category) == c by {
      forall c | c in keys
        ensures exists k :: 0 <= k < |products| && Upper(products[k].category) == c
      {
        var k :| 0 <= k < |keys| && keys[k] == c;
      }
      forall c, k | 0 <= k < |products| && Upper(products[k].category) == c
        ensures c in keys
      {
        assert keys[k] == c;
      }
    }
    keys
  }

  /** `Array.from(new Set(xs))`: the first occurrence of each value, in order. */
  function Dedup(xs: seq<string>): (r: seq<string>)
    ensures Distinct(r)
    ensures forall x :: x in r <==> x in xs
  {
    if |xs| == 0 then []
    else
      var d := Dedup(xs[..|xs| - 1]);
      var x := xs[|xs| - 1];
      assert xs == xs[..|xs| - 1] + [x];
      if x in d then d else d + [x]
  }

  /** `.filter(Boolean)` on strings: the empty ones go. */
  function DropEmpty(xs: seq<string>): (r: seq<string>)
    ensures forall x :: x in r <==> x in xs && x != []
    ensures Distinct(xs) ==> Distinct(r)
  {
    if |xs| == 0 then []
    else
      var rest := DropEmpty(xs[1..]);
      assert xs == [xs[0]] + xs[1..];
      assert Distinct(xs) ==> Distinct(xs[1..]) && xs[0] !in xs[1..] by {
        assert forall i :: 0 <= i < |xs[1..]| ==> xs[1..][i] == xs[i + 1];
      }
      if xs[0] == [] then rest else [xs[0]] + rest
  }

  /** Puts `x` in front of the first element above it. */
  function InsertSorted(x: string, s: seq<string>): (r: seq<string>)
    ensures multiset(r) == multiset(s) + multiset{x}
    ensures StrictlyAscending(s) && x !in s ==> StrictlyAscending(r)
  {
    if |s| == 0 || Less(x, s[0]) then
      InsertFrontAscending(x, s);
      [x] + s
    else
      var rest := InsertSorted(x, s[1..]);
      assert s == [s[0]] + s[1..];
      InsertLaterAscending(x, s, rest);
      [s[0]] + rest
  }

  lemma InsertFrontAscending(x: string, s: seq<string>)
    requires |s| == 0 || Less(x, s[0])
    ensures StrictlyAscending(s) ==> StrictlyAscending([x] + s)
  {
    if StrictlyAscending(s) && |s| > 0 {
      var r := [x] + s;
      forall i, j | 0 <= i < j < |r|
        ensures Less(r[i], r[j])
      {
        if i == 0 && j > 1 {
          LessTransitive(x, s[0], s[j - 1]);
        }
      }
    }
  }

  lemma InsertLaterAscending(x: string, s: seq<string>, rest: seq<string>)
    requires |s| > 0 && !Less(x, s[0])
    requires multiset(rest) == multiset(s[1..]) + multiset{x}
    requires StrictlyAscending(s[1..]) && x !in s[1..] ==> StrictlyAscending(rest)
    ensures StrictlyAscending(s) && x !in s ==> StrictlyAscending([s[0]] + rest)
  {
    if StrictlyAscending(s) && x !in s {
      LessTotal(x, s[0]);
      var r := [s[0]] + rest;
      assert StrictlyAscending(s[1..]);
      forall j | 0 < j < |r|
        ensures Less(s[0], r[j])
      {
        assert r[j] in multiset(rest);
        if r[j] != x {
          assert r[j] in s[1..];
          var k :| 0 <= k < |s[1..]| && s[1..][k] == r[j];
          assert s[k + 1] == r[j];
        }
      }
      assert forall i, j :: 0 < i < j < |r| ==> r[i] == rest[i - 1] && r[j] == rest[j - 1];
    }
  }

  /** `.sort()` with no comparator: ascending in JavaScript string order. */
  function Sort(xs: seq<string>): (r: seq<string>)
    ensures multiset(r) == multiset(xs)
    ensures Distinct(xs) ==> StrictlyAscending(r)
  {
    if |xs| == 0 then []
    else
      var tail := Sort(xs[1..]);
      assert xs == [xs[0]] + xs[1..];
      assert Distinct(xs) ==> Distinct(xs[1..]) && xs[0] !in tail by {
        if Distinct(xs) {
          assert forall i, j :: 0 <= i < j < |xs[1..]| ==> xs[1..][i] == xs[i + 1] && xs[1..][j] == xs[j + 1];
          assert xs[0] in tail <==> xs[0] in multiset(xs[1..]);
        }
      }
      InsertSorted(xs[0], tail)
  }

  /** The tab label that shows every category. */
  const AllCategories: string := "TODO"

  /** A category some product carries, upper-cased and non-empty. */
  predicate IsCategoryOf(products: seq<Product>, c: string) {
    c != [] && exists k :: 0 <= k < |products| && Upper(products[k].category) == c
  }

  /** `categories`: the catch-all tab first, then each distinct non-empty
      upper-cased category once, in ascending order. */
  function Categories(products: seq<Product>): (r: seq<string>)
    ensures |r| >= 1 && r[0] == AllCategories
    ensures StrictlyAscending(r[1..])
    ensures forall c :: c in r[1..] <==> IsCategoryOf(products, c)
  {
    var keys := CategoryKeys(products);
    var named := DropEmpty(Dedup(keys));
    var cats := Sort(named);
    assert forall c :: c in cats <==> c in named by {
      forall c
        ensures c in cats <==> c in named
      {
        assert c in cats <==> c in multiset(cats);
        assert c in named <==> c in multiset(named);
      }
    }
    assert forall c :: c in cats <==> c in keys && c != [];
    var r := [AllCategories] + cats;
    assert r[1..] == cats;
    r
  }

  // ---------------------------------------------------------------------------
  // filteredProducts

  /** The test `filteredProducts` applies to one product: in the customer view
      only products in stock, a name or brand containing the search text
      (ignoring case), and the selected category unless it is the catch-all. */
  predicate Shown(p: Product, mode: DisplayMode, query: string, selected: string) {
    && !(mode == Catalog && p.quantity <= 0)
    && (Contains(Lower(p.name), Lower(query)) || Contains(Lower(p.brand), Lower(query)))
    && (selected == AllCategories || Upper(p.category) == selected)
  }

  /** `filteredProducts`. */
  function FilteredProducts(products: seq<Product>, mode: DisplayMode, query: string, selected: string): (r: seq<Product>)
    ensures IsSubsequence(r, products)
    ensures forall k :: 0 <= k < |r| ==> Shown(r[k], mode, query, selected)
    ensures forall k :: 0 <= k < |products| && Shown(products[k], mode, query, selected) ==> products[k] in r
  {
    if |products| == 0 then []
    else
      var rest := FilteredProducts(products[1..], mode, query, selected);
      assert forall k :: 1 <= k < |products| ==> products[k] == products[1..][k - 1];
      if Shown(products[0], mode, query, selected) then
        assert ([products[0]] + rest)[1..] == rest;
        [products[0]] + rest
      else
        SubsequenceCons(rest, products[1..], products[0]);
        assert [products[0]] + products[1..] == products;
        rest
  }

  /** What is shown keeps its multiplicity: a product listed twice and
      shown is shown twice, and a product not shown is absent. */
  lemma {:induction false} FilteredProductsCount(products: seq<Product>, mode: DisplayMode, query: string, selected: string)
    ensures var r := FilteredProducts(products, mode, query, selected);
            forall p :: multiset(r)[p] == if Shown(p, mode, query, selected) then multiset(products)[p] else 0
  {
    if |products| > 0 {
      FilteredProductsCount(products[1..], mode, query, selected);
      assert products == [products[0]] + products[1..];
    }
  }

  /** The customer view only hides the out-of-stock products: what it shows
      is what the stock view shows, less those. */
  lemma {:induction false} CatalogIsStockInStock(products: seq<Product>, query: string, selected: string)
    ensures FilteredProducts(products, Catalog, query, selected) ==
              InStock(FilteredProducts(products, Stock, query, selected))
  {
    if |products| > 0 {
      CatalogIsStockInStock(products[1..], query, selected);
      var rest := FilteredProducts(products[1..], Stock, query, selected);
      if Shown(products[0], Stock, query, selected) {
        assert ([products[0]] + rest)[1..] == rest;
      }
    }
  }

  /** The products with something in stock, in order. */
  function InStock(products: seq<Product>): (r: seq<Product>)
    ensures IsSubsequence(r, products)
    ensures forall k :: 0 <= k < |r| ==> r[k].quantity > 0
    ensures forall k :: 0 <= k < |products| && products[k].quantity > 0 ==> products[k] in r
  {
    if |products| == 0 then []
    else
      var rest := InStock(products[1..]);
      assert forall k :: 1 <= k < |products| ==> products[k] == products[1..][k - 1];
      if products[0].quantity > 0 then
        assert ([products[0]] + rest)[1..] == rest;
        [products[0]] + rest
      else
        SubsequenceCons(rest, products[1..], products[0]);
        assert [products[0]] + products[1..] == products;
        rest
  }

  /** A product with stock stays as often as it was listed; one without
      is gone. */
  lemma {:induction false} InStockCount(products: seq<Product>)
    ensures forall p :: multiset(InStock(products))[p] == if p.quantity > 0 then multiset(products)[p] else 0
  {
    if |products| > 0 {
      InStockCount(products[1..]);
      assert products == [products[0]] + products[1..];
    }
  }

  lemma EmptyQueryMatches(h: string)
    ensures Contains(Lower(h), Lower(""))
  {
    assert OccursAt(Lower(h), Lower(""), 0);
  }

  /** With no search text and the catch-all tab, the stock view lists every
      product. */
  lemma {:induction false} StockShowsAll(products: seq<Product>)
    ensures FilteredProducts(products, Stock, "", AllCategories) == products
  {
    if |products| > 0 {
      EmptyQueryMatches(products[0].name);
      StockShowsAll(products[1..]);
    }
  }

  // ---------------------------------------------------------------------------
  // cartTotal

  /** Index of the first product with the id (`Array.prototype.find`). */
  function IndexOf(products: seq<Product>, id: string): (r: Option<nat>)
    ensures r.Some? ==> r.value < |products| && products[r.value].id == id
    ensures r.Some? ==> forall j :: 0 <= j < r.value ==> products[j].id != id
    ensures r.None? ==> forall j :: 0 <= j < |products| ==> products[j].id != id
  {
    if |products| == 0 then None
    else if products[0].id == id then Some(0)
    else
      match IndexOf(products[1..], id)
      case None => None
      case Some(k) => Some(k + 1)
  }

  function Find(products: seq<Product>, id: string): (r: Option<Product>)
    ensures r.Some? ==> r.value in products && r.value.id == id
    ensures r.Some? ==> exists k :: 0 <= k < |products| && products[k] == r.value
                                  && forall j :: 0 <= j < k ==> products[j].id != id
    ensures r.None? ==> forall j :: 0 <= j < |products| ==> products[j].id != id
  {
    match IndexOf(products, id)
    case None => None
    case Some(k) => Some(products[k])
  }

  /** The price one unit of `id` adds to the cart: that of the first product
      with the id, or nothing when no product has it. */
  function UnitPrice(products: seq<Product>, id: string): (r: real)
    ensures (forall j :: 0 <= j < |products| ==> products[j].id != id) ==> r == 0.0
    ensures forall k :: (0 <= k < |products| && products[k].id == id
                         && forall j :: 0 <= j < k ==> products[j].id != id) ==> r == products[k].price
    ensures (forall j :: 0 <= j < |products| ==> products[j].price >= 0.0) ==> r >= 0.0
  {
    match Find(products, id)
    case Some(p) => p.price
    case None => 0.0
  }

  /** `price * units`, written as repeated addition so that proofs about
      totals stay linear; `TimesIsProduct` shows it is the product. */
  function Times(price: real, units: int): real
    decreases if units < 0 then -units else units
  {
    if units == 0 then 0.0
    else if units > 0 then Times(price, units - 1) + price
    else Times(price, units + 1) - price
  }

  lemma {:induction false} TimesIsProduct(price: real, units: int)
    ensures Times(price, units) == price * (units as real)
    decreases if units < 0 then -units else units
  {
    if units > 0 {
      TimesIsProduct(price, units - 1);
    } else if units < 0 {
      TimesIsProduct(price, units + 1);
    }
  }

  lemma {:induction false} TimesAdd(price: real, a: int, b: int)
    ensures Times(price, a + b) == Times(price, a) + Times(price, b)
  {
    TimesIsProduct(price, a);
    TimesIsProduct(price, b);
    TimesIsProduct(price, a + b);
  }

  /** What one entry adds: never negative when prices are not. */
  function LineTotal(products: seq<Product>, item: CartItem): (r: real)
    ensures UnitPrice(products, item.productId) >= 0.0 && item.quantity >= 0 ==> r >= 0.0
  {
    var price := UnitPrice(products, item.productId);
    if price >= 0.0 && item.quantity >= 0 then TimesNonNegative(price, item.quantity); Times(price, item.quantity)
    else Times(price, item.quantity)
  }

  lemma {:induction false} TimesNonNegative(price: real, units: nat)
    requires price >= 0.0
    ensures Times(price, units) >= 0.0
  {
    if units > 0 {
      TimesNonNegative(price, units - 1);
    }
  }

  /** `cartTotal`: the `reduce` from the left over the cart's entries. */
  function CartTotal(products: seq<Product>, cart: seq<CartItem>): (r: real)
    ensures ((forall j :: 0 <= j < |products| ==> products[j].price >= 0.0)
             && (forall k :: 0 <= k < |cart| ==> cart[k].quantity >= 0)) ==> r >= 0.0
  {
    if |cart| == 0 then 0.0
    else CartTotal(products, cart[..|cart| - 1]) + LineTotal(products, cart[|cart| - 1])
  }

  /** The same sum, taken from the right. */
  function SumLines(products: seq<Product>, cart: seq<CartItem>): real {
    if |cart| == 0 then 0.0
    else LineTotal(products, cart[0]) + SumLines(products, cart[1..])
  }

  lemma {:induction false} SumLinesAppend(products: seq<Product>, cart: seq<CartItem>, item: CartItem)
    ensures SumLines(products, cart + [item]) == SumLines(products, cart) + LineTotal(products, item)
  {
    if |cart| > 0 {
      assert (cart + [item])[1..] == cart[1..] + [item];
      SumLinesAppend(products, cart[1..], item);
    }
  }

  /** The sum from the right, split at its last entry. */
  lemma SumLinesLast(products: seq<Product>, cart: seq<CartItem>)
    requires |cart| > 0
    ensures SumLines(products, cart) ==
              SumLines(products, cart[..|cart| - 1]) + LineTotal(products, cart[|cart| - 1])
  {
    var front, last := cart[..|cart| - 1], cart[|cart| - 1];
    SumLinesAppend(products, front, last);
    assert front + [last] == cart;
  }

  /** Exact sums do not depend on the order of the additions. */
  lemma {:induction false} CartTotalIsSum(products: seq<Product>, cart: seq<CartItem>)
    ensures CartTotal(products, cart) == SumLines(products, cart)
  {
    if |cart| > 0 {
      var front := cart[..|cart| - 1];
      var line := LineTotal(products, cart[|cart| - 1]);
      assert CartTotal(products, cart) == CartTotal(products, front) + line;
      CartTotalIsSum(products, front);
      SumLinesLast(products, cart);
    }
  }


  /** The total splits into the lines of one product and the rest of the cart. */
  lemma {:induction false} SumLinesSplit(products: seq<Product>, cart: seq<CartItem>, id: string)
    ensures SumLines(products, cart) ==
              SumLines(products, Remove(cart, id)) + Times(UnitPrice(products, id), QuantityOf(cart, id))
  {
    if |cart| > 0 {
      SumLinesSplit(products, cart[1..], id);
      if cart[0].productId == id {
        SplitStepSame(products, cart, id);
      } else {
        SplitStepOther(products, cart, id);
      }
    }
  }

  /** One step of the split when the first entry is the product's. */
  lemma SplitStepSame(products: seq<Product>, cart: seq<CartItem>, id: string)
    requires |cart| > 0 && cart[0].productId == id
    requires SumLines(products, cart[1..]) ==
               SumLines(products, Remove(cart[1..], id)) + Times(UnitPrice(products, id), QuantityOf(cart[1..], id))
    ensures SumLines(products, cart) ==
              SumLines(products, Remove(cart, id)) + Times(UnitPrice(products, id), QuantityOf(cart, id))
  {
    var tail := cart[1..];
    var u := UnitPrice(products, id);
    var q0, qt := cart[0].quantity, QuantityOf(tail, id);
    assert SumLines(products, cart) == LineTotal(products, cart[0]) + SumLines(products, tail);
    assert Remove(cart, id) == Remove(tail, id);
    assert LineTotal(products, cart[0]) == Times(u, q0);
    assert QuantityOf(cart, id) == q0 + qt;
    TimesAdd(u, q0, qt);
    var a, b, c := Times(u, q0), Times(u, qt), SumLines(products, Remove(tail, id));
    assert SumLines(products, cart) == a + (c + b);
    assert Times(u, q0 + qt) == a + b;
  }

  /** One step of the split when the first entry is another product's. */
  lemma SplitStepOther(products: seq<Product>, cart: seq<CartItem>, id: string)
    requires |cart| > 0 && cart[0].productId != id
    requires SumLines(products, cart[1..]) ==
               SumLines(products, Remove(cart[1..], id)) + Times(UnitPrice(products, id), QuantityOf(cart[1..], id))
    ensures SumLines(products, cart) ==
              SumLines(products, Remove(cart, id)) + Times(UnitPrice(products, id), QuantityOf(cart, id))
  {
    var tail := cart[1..];
    var rest := Remove(tail, id);
    assert SumLines(products, cart) == LineTotal(products, cart[0]) + SumLines(products, tail);
    assert Remove(cart, id) == [cart[0]] + rest;
    assert ([cart[0]] + rest)[1..] == rest;
    assert SumLines(products, [cart[0]] + rest) == LineTotal(products, cart[0]) + SumLines(products, rest);
    assert QuantityOf(cart, id) == QuantityOf(tail, id);
  }

  /** A map over one product's entries leaves the other entries alone. */
  lemma {:induction false} RemoveAfterMap(cart: seq<CartItem>, id: string, f: int -> int)
    ensures Remove(MapEntries(cart, id, f), id) == Remove(cart, id)
  {
    if |cart| > 0 {
      RemoveAfterMap(cart[1..], id, f);
      assert MapEntries(cart, id, f)[1..] == MapEntries(cart[1..], id, f);
    }
  }

  /** How a map over one product's entries moves the total. */
  lemma MapEntriesTotal(products: seq<Product>, cart: seq<CartItem>, id: string, f: int -> int)
    ensures CartTotal(products, MapEntries(cart, id, f)) + Times(UnitPrice(products, id), QuantityOf(cart, id))
            == CartTotal(products, cart) + Times(UnitPrice(products, id), QuantityOf(MapEntries(cart, id, f), id))
  {
    var r := MapEntries(cart, id, f);
    CartTotalIsSum(products, cart);
    CartTotalIsSum(products, r);
    SumLinesSplit(products, cart, id);
    SumLinesSplit(products, r, id);
    RemoveAfterMap(cart, id, f);
  }

  /** Buying one more unit adds its price to the total, whether the product
      was in the cart or not. */
  lemma AddToCartTotal(products: seq<Product>, cart: seq<CartItem>, id: string)
    requires CartWellFormed(cart)
    ensures CartTotal(products, AddToCart(cart, id)) == CartTotal(products, cart) + UnitPrice(products, id)
  {
    var u := UnitPrice(products, id);
    if InCart(cart, id) {
      MapEntriesWellFormed(cart, id, AddOne);
      MapEntriesQuantity(cart, id, AddOne, id);
      MapEntriesTotal(products, cart, id, AddOne);
      TimesAdd(u, QuantityOf(cart, id), 1);
    } else {
      assert (cart + [CartItem(id, 1)])[..|cart|] == cart;
    }
  }

  /** The plus button adds one price for an entry already there, and nothing
      otherwise. */
  lemma IncrementTotal(products: seq<Product>, cart: seq<CartItem>, id: string)
    requires CartWellFormed(cart)
    ensures CartTotal(products, Increment(cart, id)) ==
              CartTotal(products, cart) + (if InCart(cart, id) then UnitPrice(products, id) else 0.0)
  {
    var u := UnitPrice(products, id);
    MapEntriesWellFormed(cart, id, AddOne);
    MapEntriesQuantity(cart, id, AddOne, id);
    MapEntriesTotal(products, cart, id, AddOne);
    TimesAdd(u, QuantityOf(cart, id), 1);
    if !InCart(cart, id) {
      QuantityOfAbsent(cart, id);
    }
  }

  /** The minus button takes one price off, unless the entry is down to its
      last unit. */
  lemma DecrementTotal(products: seq<Product>, cart: seq<CartItem>, id: string)
    requires CartWellFormed(cart)
    ensures CartTotal(products, Decrement(cart, id)) ==
              CartTotal(products, cart) - (if QuantityOf(cart, id) > 1 then UnitPrice(products, id) else 0.0)
  {
    var u := UnitPrice(products, id);
    var q := QuantityOf(cart, id);
    MapEntriesWellFormed(cart, id, DropOneFloorOne);
    MapEntriesQuantity(cart, id, DropOneFloorOne, id);
    MapEntriesTotal(products, cart, id, DropOneFloorOne);
    if !InCart(cart, id) {
      QuantityOfAbsent(cart, id);
    } else if q > 1 {
      TimesAdd(u, q - 1, 1);
    } else {
      var i :| 0 <= i < |cart| && cart[i].productId == id;
      QuantityOfEntry(cart, i);
    }
  }

  /** The remove button takes off everything the entry contributed. */
  lemma RemoveTotal(products: seq<Product>, cart: seq<CartItem>, id: string)
    ensures CartTotal(products, Remove(cart, id)) ==
              CartTotal(products, cart) - Times(UnitPrice(products, id), QuantityOf(cart, id))
  {
    CartTotalIsSum(products, cart);
    CartTotalIsSum(products, Remove(cart, id));
    SumLinesSplit(products, cart, id);
  }

  /** One entry of the cart adds the price of the product it names times its
      units, and nothing when no product has that id. */
  lemma LineTotalIsPriceTimesUnits(products: seq<Product>, item: CartItem)
    ensures Find(products, item.productId).Some? ==>
              LineTotal(products, item) == Find(products, item.productId).value.price * (item.quantity as real)
    ensures Find(products, item.productId).None? ==> LineTotal(products, item) == 0.0
  {
    TimesIsProduct(UnitPrice(products, item.productId), item.quantity);
  }

  function SampleProduct(id: string, category: string, price: real, quantity: int): Product {
    Product(id, "NIKE", "AIRMAX", "42", "BLACK", price, 0.0, category, [], 0, quantity)
  }

  /** Two units at 10 make 20, and an entry whose product is gone adds
      nothing. */
  lemma CartTotalExample()
    ensures CartTotal([SampleProduct("a", "CALZADO", 10.0, 3), SampleProduct("b", "CALZADO", 5.0, 1)],
                      [CartItem("a", 2), CartItem("zz", 4)]) == 20.0
  {
    var products := [SampleProduct("a", "CALZADO", 10.0, 3), SampleProduct("b", "CALZADO", 5.0, 1)];
    var cart := [CartItem("a", 2), CartItem("zz", 4)];
    assert UnitPrice(products, "a") == 10.0;
    assert UnitPrice(products, "zz") == 0.0;
    assert cart[..1] == [CartItem("a", 2)];
    assert Times(10.0, 2) == 20.0;
    assert Times(0.0, 4) == 0.0;
  }

  /** A product filed under "todo" gives a second catch-all tab: the list is
      not checked against the label it is prefixed with. */
  lemma CatchAllCategoryRepeated()
    ensures Categories([SampleProduct("a", "todo", 1.0, 1)]) == [AllCategories, AllCategories]
  {
    var products := [SampleProduct("a", "todo", 1.0, 1)];
    var keys := CategoryKeys(products);
    assert keys[0] == Upper("todo");
    assert Upper("todo") == "TODO";
    assert keys == ["TODO"];
    SingleCategory("TODO");
  }

  /** One non-empty key goes through the pipeline unchanged. */
  lemma SingleCategory(x: string)
    requires x != []
    ensures Sort(DropEmpty(Dedup([x]))) == [x]
  {
    assert Dedup([x]) == [x];
    assert DropEmpty([x]) == [x];
    assert Sort([x]) == [x];
  }
}
