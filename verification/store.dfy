/** The commands of the storefront as transitions of one immutable session:
    `saveData` and its role guard, `updateQuantity`, the four cart commands
    and `handleLogin` (app.tsx). Persisting to local storage is not modelled:
    a save is the replacement of the store document. */
module Store {
  import opened Wrappers
  import opened Text
  import opened Types
  import opened Seqs

  /** What the commands read and write: the store code of the session, the
      role and display mode it grants, the store document and the cart. */
  datatype Session = Session(
    storeCode: Option<string>,
    role: Role,
    mode: DisplayMode,
    data: StoreData,
    cart: seq<CartItem>)

  /** `saveData`: a viewer's writes are dropped, an administrator's replace
      the document. */
  function SaveData(s: Session, newData: StoreData): (r: Session)
    ensures r == s.(data := r.data)
    ensures r.data == (if s.role == Viewer then s.data else newData)
  {
    if s.role == Viewer then s else s.(data := newData)
  }

  function Max(a: int, b: int): int {
    if a >= b then a else b
  }

  // ---------------------------------------------------------------------------
  // updateQuantity

  predicate NonNegativeStock(products: seq<Product>) {
    forall k :: 0 <= k < |products| ==> products[k].quantity >= 0
  }

  /** The product list `updateQuantity(id, delta)` saves: every product with
      that id moves by `delta`, floored at 0; every other field and every
      other product stays as it was. */
  function AdjustQuantity(products: seq<Product>, id: string, delta: int): (r: seq<Product>)
    ensures |r| == |products|
    ensures forall k :: 0 <= k < |r| ==> r[k] == products[k].(quantity := r[k].quantity)
    ensures forall k :: 0 <= k < |r| && products[k].id != id ==> r[k] == products[k]
    ensures forall k :: 0 <= k < |r| && products[k].id == id ==>
              r[k].quantity >= 0
              && (r[k].quantity == products[k].quantity + delta
                  || (r[k].quantity == 0 && products[k].quantity + delta < 0))
    ensures NonNegativeStock(products) ==> NonNegativeStock(r)
  {
    seq(|products|, k requires 0 <= k < |products| =>
      if products[k].id == id then products[k].(quantity := Max(0, products[k].quantity + delta))
      else products[k])
  }

  /** `updateQuantity`: the adjusted list goes through `saveData`, so a viewer
      changes nothing and an administrator changes the product list only. */
  function UpdateQuantity(s: Session, id: string, delta: int): (r: Session)
    ensures s.role == Viewer ==> r == s
    ensures r == s.(data := s.data.(products := r.data.products))
    ensures s.role == Admin ==> r.data.products == AdjustQuantity(s.data.products, id, delta)
  {
    SaveData(s, s.data.(products := AdjustQuantity(s.data.products, id, delta)))
  }

  /** Taking stock out and putting it back restores the list, as long as no
      count hit the floor on the way. */
  lemma AdjustQuantityUndo(products: seq<Product>, id: string, delta: int)
    requires forall k :: 0 <= k < |products| && products[k].id == id ==>
               products[k].quantity >= 0 && products[k].quantity + delta >= 0
    ensures AdjustQuantity(AdjustQuantity(products, id, delta), id, -delta) == products
  {
    var once := AdjustQuantity(products, id, delta);
    var back := AdjustQuantity(once, id, -delta);
    forall k | 0 <= k < |products|
      ensures back[k] == products[k]
    {
      if products[k].id == id {
        assert once[k].quantity == products[k].quantity + delta;
        assert back[k].quantity == products[k].quantity;
      }
    }
  }

  // ---------------------------------------------------------------------------
  // The cart

  /** What the cart commands keep: one entry per product, each for at least
      one unit. */
  predicate CartWellFormed(cart: seq<CartItem>) {
    && (forall i :: 0 <= i < |cart| ==> cart[i].quantity >= 1)
    && (forall i, j :: 0 <= i < j < |cart| ==> cart[i].productId != cart[j].productId)
  }

  predicate InCart(cart: seq<CartItem>, id: string) {
    exists i :: 0 <= i < |cart| && cart[i].productId == id
  }

  /** Units of product `id` in the cart, over all its entries. */
  function QuantityOf(cart: seq<CartItem>, id: string): int {
    if |cart| == 0 then 0
    else (if cart[0].productId == id then cart[0].quantity else 0) + QuantityOf(cart[1..], id)
  }

  lemma {:induction false} QuantityOfAbsent(cart: seq<CartItem>, id: string)
    requires !InCart(cart, id)
    ensures QuantityOf(cart, id) == 0
  {
    if |cart| > 0 {
      assert forall a :: 0 <= a < |cart[1..]| ==> cart[1..][a] == cart[a + 1];
      QuantityOfAbsent(cart[1..], id);
    }
  }

  /** In a well-formed cart the units of a product are those of its one entry. */
  lemma {:induction false} QuantityOfEntry(cart: seq<CartItem>, i: nat)
    requires CartWellFormed(cart) && i < |cart|
    ensures QuantityOf(cart, cart[i].productId) == cart[i].quantity
  {
    var tail := cart[1..];
    assert CartWellFormed(tail) by {
      assert forall a :: 0 <= a < |tail| ==> tail[a] == cart[a + 1];
    }
    if i == 0 {
      QuantityOfAbsent(tail, cart[0].productId);
    } else {
      assert cart[0].productId != cart[i].productId;
      assert tail[i - 1] == cart[i];
      QuantityOfEntry(tail, i - 1);
    }
  }

  /** `prev.map(i => i.productId === id ? {...i, quantity: f(i.quantity)} : i)`:
      the shape of every quantity-changing cart command. */
  function MapEntries(cart: seq<CartItem>, id: string, f: int -> int): (r: seq<CartItem>)
    ensures |r| == |cart|
    ensures forall k :: 0 <= k < |r| ==> r[k].productId == cart[k].productId
    ensures forall k :: 0 <= k < |r| && cart[k].productId != id ==> r[k] == cart[k]
    ensures forall k :: 0 <= k < |r| && cart[k].productId == id ==> r[k].quantity == f(cart[k].quantity)
  {
    if |cart| == 0 then []
    else
      [if cart[0].productId == id then cart[0].(quantity := f(cart[0].quantity)) else cart[0]]
      + MapEntries(cart[1..], id, f)
  }

  /** Units after a map: `f` of the old units for the product's one entry, and
      nothing else moves. */
  lemma MapEntriesQuantity(cart: seq<CartItem>, id: string, f: int -> int, other: string)
    requires CartWellFormed(cart) && CartWellFormed(MapEntries(cart, id, f))
    ensures QuantityOf(MapEntries(cart, id, f), other) ==
              if other != id then QuantityOf(cart, other)
              else if InCart(cart, id) then f(QuantityOf(cart, id))
              else 0
  {
    var r := MapEntries(cart, id, f);
    if i :| 0 <= i < |cart| && cart[i].productId == other {
      QuantityOfEntry(cart, i);
      QuantityOfEntry(r, i);
    } else {
      QuantityOfAbsent(cart, other);
      assert !InCart(r, other);
      QuantityOfAbsent(r, other);
    }
  }

  /** The ids stay, each quantity stays at least one: well-formedness survives
      a map whose `f` never goes below one. */
  lemma MapEntriesWellFormed(cart: seq<CartItem>, id: string, f: int -> int)
    requires CartWellFormed(cart)
    requires forall q :: q >= 1 ==> f(q) >= 1
    ensures CartWellFormed(MapEntries(cart, id, f))
  {
    var r := MapEntries(cart, id, f);
    forall i | 0 <= i < |r|
      ensures r[i].quantity >= 1
    {
      assert cart[i].quantity >= 1;
    }
  }

  function AddOne(q: int): int {
    q + 1
  }

  function DropOneFloorOne(q: int): int {
    Max(1, q - 1)
  }

  /** `addToCart`: one more unit of an entry already there, or a new entry
      for one unit at the end. */
  function AddToCart(cart: seq<CartItem>, id: string): (r: seq<CartItem>)
    ensures InCart(cart, id) ==> |r| == |cart| && forall k :: 0 <= k < |r| ==> r[k].productId == cart[k].productId
    ensures !InCart(cart, id) ==> r == cart + [CartItem(id, 1)]
    ensures InCart(r, id)
    ensures CartWellFormed(cart) ==> CartWellFormed(r)
  {
    if InCart(cart, id) then
      var r := MapEntries(cart, id, AddOne);
      assert InCart(r, id) by {
        var i :| 0 <= i < |cart| && cart[i].productId == id;
        assert r[i].productId == id;
      }
      if CartWellFormed(cart) then MapEntriesWellFormed(cart, id, AddOne); r else r
    else
      var r := cart + [CartItem(id, 1)];
      assert r[|cart|].productId == id;
      assert CartWellFormed(cart) ==> CartWellFormed(r) by {
        if CartWellFormed(cart) {
          forall i, j | 0 <= i < j < |r|
            ensures r[i].productId != r[j].productId
          {
            if j == |cart| {
              assert r[i] == cart[i];
            }
          }
        }
      }
      r
  }

  /** The cart's minus button: one unit less, but never below one. */
  function Decrement(cart: seq<CartItem>, id: string): (r: seq<CartItem>)
    ensures |r| == |cart|
    ensures forall k :: 0 <= k < |r| ==> r[k].productId == cart[k].productId
    ensures CartWellFormed(cart) ==> CartWellFormed(r)
  {
    if CartWellFormed(cart) then MapEntriesWellFormed(cart, id, DropOneFloorOne); MapEntries(cart, id, DropOneFloorOne)
    else MapEntries(cart, id, DropOneFloorOne)
  }

  /** The cart's plus button: one unit more of an entry already there (no
      entry is created). */
  function Increment(cart: seq<CartItem>, id: string): (r: seq<CartItem>)
    ensures |r| == |cart|
    ensures forall k :: 0 <= k < |r| ==> r[k].productId == cart[k].productId
    ensures CartWellFormed(cart) ==> CartWellFormed(r)
  {
    if CartWellFormed(cart) then MapEntriesWellFormed(cart, id, AddOne); MapEntries(cart, id, AddOne)
    else MapEntries(cart, id, AddOne)
  }

  /** The cart's remove button: every entry for `id` goes, the others stay in
      order and keep their multiplicity. */
  function Remove(cart: seq<CartItem>, id: string): (r: seq<CartItem>)
    ensures !InCart(r, id)
    ensures IsSubsequence(r, cart)
    ensures forall k :: 0 <= k < |r| ==> r[k] in cart
    ensures forall k :: 0 <= k < |cart| && cart[k].productId != id ==> cart[k] in r
    ensures |r| <= |cart|
  {
    if |cart| == 0 then []
    else
      var rest := Remove(cart[1..], id);
      assert cart == [cart[0]] + cart[1..];
      if cart[0].productId == id then
        SubsequenceCons(rest, cart[1..], cart[0]);
        rest
      else
        assert ([cart[0]] + rest)[1..] == rest;
        [cart[0]] + rest
  }

  /** Removing keeps every other entry as often as it was there. */
  lemma {:induction false} RemoveCount(cart: seq<CartItem>, id: string)
    ensures forall e :: multiset(Remove(cart, id))[e] == if e.productId == id then 0 else multiset(cart)[e]
  {
    if |cart| > 0 {
      RemoveCount(cart[1..], id);
      assert cart == [cart[0]] + cart[1..];
    }
  }

  /** A well-formed cart with a fresh entry for at least one unit in front
      is well formed. */
  lemma ConsWellFormed(x: CartItem, rest: seq<CartItem>)
    requires CartWellFormed(rest) && x.quantity >= 1
    requires forall k :: 0 <= k < |rest| ==> rest[k].productId != x.productId
    ensures CartWellFormed([x] + rest)
  {
    var r := [x] + rest;
    assert forall k :: 0 < k < |r| ==> r[k] == rest[k - 1];
  }

  lemma {:induction false} RemoveWellFormed(cart: seq<CartItem>, id: string)
    requires CartWellFormed(cart)
    ensures CartWellFormed(Remove(cart, id))
  {
    if |cart| > 0 {
      var tail := cart[1..];
      assert forall a :: 0 <= a < |tail| ==> tail[a] == cart[a + 1];
      RemoveWellFormed(tail, id);
      if cart[0].productId != id {
        var rest := Remove(tail, id);
        assert forall k :: 0 <= k < |rest| ==> rest[k] in tail;
        ConsWellFormed(cart[0], rest);
      }
    }
  }

  /** Removing one product takes all its units and no other product's. */
  lemma {:induction false} RemoveQuantity(cart: seq<CartItem>, id: string, other: string)
    ensures QuantityOf(Remove(cart, id), other) == if other == id then 0 else QuantityOf(cart, other)
  {
    if |cart| > 0 {
      RemoveQuantity(cart[1..], id, other);
    }
  }

  /** `addToCart` adds one unit of the product and none of any other. */
  lemma AddToCartQuantity(cart: seq<CartItem>, id: string, other: string)
    requires CartWellFormed(cart)
    ensures QuantityOf(AddToCart(cart, id), other) ==
              QuantityOf(cart, other) + (if other == id then 1 else 0)
  {
    if InCart(cart, id) {
      MapEntriesWellFormed(cart, id, AddOne);
      MapEntriesQuantity(cart, id, AddOne, other);
    } else {
      QuantityOfAbsent(cart, id);
      QuantityOfAppend(cart, CartItem(id, 1), other);
    }
  }

  /** The plus button adds one unit of a product already in the cart. */
  lemma IncrementQuantity(cart: seq<CartItem>, id: string, other: string)
    requires CartWellFormed(cart)
    ensures QuantityOf(Increment(cart, id), other) ==
              QuantityOf(cart, other) + (if other == id && InCart(cart, id) then 1 else 0)
  {
    assert Increment(cart, id) == MapEntries(cart, id, AddOne);
    MapEntriesWellFormed(cart, id, AddOne);
    MapEntriesQuantity(cart, id, AddOne, other);
    if !InCart(cart, id) {
      QuantityOfAbsent(cart, id);
    }
  }

  /** The minus button takes one unit of the product, but leaves at least one. */
  lemma DecrementQuantity(cart: seq<CartItem>, id: string, other: string)
    requires CartWellFormed(cart)
    ensures QuantityOf(Decrement(cart, id), other) ==
              if other == id && InCart(cart, id) then Max(1, QuantityOf(cart, id) - 1)
              else QuantityOf(cart, other)
  {
    assert Decrement(cart, id) == MapEntries(cart, id, DropOneFloorOne);
    MapEntriesWellFormed(cart, id, DropOneFloorOne);
    MapEntriesQuantity(cart, id, DropOneFloorOne, other);
    if !InCart(cart, id) {
      QuantityOfAbsent(cart, id);
    }
  }

  lemma {:induction false} QuantityOfAppend(cart: seq<CartItem>, item: CartItem, id: string)
    ensures QuantityOf(cart + [item], id) ==
              QuantityOf(cart, id) + (if item.productId == id then item.quantity else 0)
  {
    if |cart| > 0 {
      assert (cart + [item])[1..] == cart[1..] + [item];
      QuantityOfAppend(cart[1..], item, id);
    }
  }

  // ---------------------------------------------------------------------------
  // handleLogin

  const AdminCode: string := "POWERSPORT"
  const ViewerCode: string := "CATALOGO"

  /** `handleLogin`: the code, trimmed and upper-cased, must be one of the two
      access codes; anything else leaves the session as it was. */
  function HandleLogin(s: Session, code: string): (r: Session)
    ensures r.data == s.data && r.cart == s.cart
    ensures Upper(Trim(code)) == AdminCode ==>
              r.storeCode == Some(AdminCode) && r.role == Admin && r.mode == Stock
    ensures Upper(Trim(code)) == ViewerCode ==>
              r.storeCode == Some(ViewerCode) && r.role == Viewer && r.mode == Catalog
    ensures Upper(Trim(code)) != AdminCode && Upper(Trim(code)) != ViewerCode ==> r == s
  {
    var clean := Upper(Trim(code));
    if clean == AdminCode then s.(storeCode := Some(AdminCode), role := Admin, mode := Stock)
    else if clean == ViewerCode then s.(storeCode := Some(ViewerCode), role := Viewer, mode := Catalog)
    else s
  }

  /** Upper-casing never turns a character into whitespace, so it keeps a
      trimmed string trimmed. */
  lemma UpperKeepsTrimmed(t: string)
    requires IsTrimmed(t)
    ensures IsTrimmed(Upper(t))
  {
  }

  /** Login only sees the trimmed, upper-cased code: feeding it that code
      instead of the typed one changes nothing. */
  lemma LoginNormalises(s: Session, code: string)
    ensures HandleLogin(s, Upper(Trim(code))) == HandleLogin(s, code)
  {
    var t := Trim(code);
    var u := Upper(t);
    UpperKeepsTrimmed(t);
    TrimTrimmed(u);
    UpperIsUpper(t);
  }
}
