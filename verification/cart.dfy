/**
 The cart store: a list of cart lines keyed by product id. Every operation
 builds a new list from the old one (merge by id, `map`, `filter`); nothing is
 updated in place. Prices are whole THB.
 */
module Cart {
  import Seqs

  datatype CartItem = CartItem(id: string, name: string, price: int, quantity: int)

  type Items = seq<CartItem>

  function Id(x: CartItem): string { x.id }

  /** The key invariant: at most one line per product id. */
  predicate UniqueIds(c: Items)
  {
    Seqs.UniqueBy(c, Id)
  }

  predicate HasId(c: Items, id: string)
  {
    exists i :: 0 <= i < |c| && c[i].id == id
  }

  /** The line survives the post-decrement filter. */
  predicate Positive(x: CartItem)
  {
    x.quantity > 0
  }

  predicate AllPositive(c: Items)
  {
    forall i :: 0 <= i < |c| ==> Positive(c[i])
  }

  /** The cart a shopper can build: one line per product, every quantity positive. */
  predicate WellFormed(c: Items)
  {
    UniqueIds(c) && AllPositive(c)
  }

  /** How many units of product `id` the cart holds, over every line carrying that id. */
  function QuantityOf(c: Items, id: string): int
  {
    if |c| == 0 then 0
    else (if c[0].id == id then c[0].quantity else 0) + QuantityOf(c[1..], id)
  }

  /** The price of the cart: the sum of `price * quantity` over its lines. */
  ghost function PriceSum(c: Items): int
  {
    if |c| == 0 then 0 else c[0].price * c[0].quantity + PriceSum(c[1..])
  }

  /** The cart's `reduce`: the left fold of `price * quantity` over the lines, starting from `acc`. */
  function PriceFold(acc: int, c: Items): (r: int)
    ensures r == acc + PriceSum(c)
    decreases |c|
  {
    if |c| == 0 then acc else PriceFold(acc + c[0].price * c[0].quantity, c[1..])
  }

  /** The cart price shown in the cart and in the payment modal, folded from 0. */
  function TotalPrice(c: Items): (r: int)
    ensures r == PriceSum(c)
    ensures AllPositive(c) && (forall i :: 0 <= i < |c| ==> c[i].price > 0) ==> (r > 0 <==> |c| > 0)
  {
    PriceFoldPositive(c);
    PriceFold(0, c)
  }

  lemma {:induction false} PriceFoldPositive(c: Items)
    ensures AllPositive(c) && (forall i :: 0 <= i < |c| ==> c[i].price > 0) ==> (PriceSum(c) > 0 <==> |c| > 0)
  {
    if |c| > 0 {
      PriceFoldPositive(c[1..]);
      if AllPositive(c) && (forall i :: 0 <= i < |c| ==> c[i].price > 0) {
        assert Positive(c[0]);
        assert AllPositive(c[1..]) by {
          forall i | 0 <= i < |c[1..]| ensures Positive(c[1..][i]) {
            assert c[1..][i] == c[i + 1];
          }
        }
        assert c[0].price * c[0].quantity > 0;
      }
    }
  }

  function Bumped(x: CartItem, id: string, delta: int): CartItem
  {
    if x.id == id then x.(quantity := x.quantity + delta) else x
  }

  /** `map`: every line with key `id` gets `delta` more units; the others are untouched. */
  function Bump(c: Items, id: string, delta: int): (r: Items)
    ensures |r| == |c|
    ensures forall i :: 0 <= i < |c| ==> r[i] == Bumped(c[i], id, delta)
  {
    if |c| == 0 then [] else [Bumped(c[0], id, delta)] + Bump(c[1..], id, delta)
  }

  /** A line is in the bumped cart exactly when its un-bumped form is in the cart. */
  lemma BumpMember(c: Items, id: string, delta: int, x: CartItem)
    ensures x in Bump(c, id, delta) <==> if x.id == id then x.(quantity := x.quantity - delta) in c else x in c
  {
    var r := Bump(c, id, delta);
    var y := if x.id == id then x.(quantity := x.quantity - delta) else x;
    if x in r {
      var i :| 0 <= i < |r| && r[i] == x;
      assert c[i] == y;
    }
    if y in c {
      var i :| 0 <= i < |c| && c[i] == y;
      assert r[i] == x;
    }
  }

  /** `map`: every line with key `id` gets quantity `q`; the others are untouched. */
  function Set(c: Items, id: string, q: int): (r: Items)
    ensures |r| == |c|
    ensures forall i :: 0 <= i < |c| ==> r[i] == if c[i].id == id then c[i].(quantity := q) else c[i]
  {
    if |c| == 0 then []
    else [if c[0].id == id then c[0].(quantity := q) else c[0]] + Set(c[1..], id, q)
  }

  /**
   `addToCart`: merge into the line with the same id (adding the item's
   quantity), or append the item when no line has its id.
   */
  function AddToCart(c: Items, item: CartItem): (r: Items)
    ensures HasId(c, item.id) ==>
      |r| == |c| &&
      forall i :: 0 <= i < |c| ==>
        r[i].id == c[i].id && r[i].name == c[i].name && r[i].price == c[i].price &&
        r[i].quantity == c[i].quantity + (if c[i].id == item.id then item.quantity else 0)
    ensures !HasId(c, item.id) ==> |r| == |c| + 1 && r[..|c|] == c && r[|c|] == item
  {
    if Seqs.Find(c, (x: CartItem) => x.id == item.id).Some? then Bump(c, item.id, item.quantity)
    else c + [item]
  }

  /** `removeFromCart`: drop every line with key `id`. */
  function RemoveFromCart(c: Items, id: string): (r: Items)
    ensures !HasId(r, id)
    ensures forall x: CartItem :: x in r <==> x in c && x.id != id
    ensures forall x: CartItem :: multiset(r)[x] == if x.id != id then multiset(c)[x] else 0
    ensures Seqs.IsSubsequence(r, c)
  {
    Seqs.FilterOrder(c, (x: CartItem) => x.id != id);
    Seqs.Filter(c, (x: CartItem) => x.id != id)
  }

  /** `updateQuantity`: set the quantity of the lines with key `id`, with no lower bound. */
  function UpdateQuantity(c: Items, id: string, q: int): (r: Items)
    ensures |r| == |c|
    ensures forall i :: 0 <= i < |c| ==>
      r[i].id == c[i].id && r[i].name == c[i].name && r[i].price == c[i].price &&
      r[i].quantity == (if c[i].id == id then q else c[i].quantity)
  {
    Set(c, id, q)
  }

  /** `incrementQuantity`: one more unit on the lines with key `id`. */
  function IncrementQuantity(c: Items, id: string): (r: Items)
    ensures |r| == |c|
    ensures forall i :: 0 <= i < |c| ==>
      r[i].id == c[i].id && r[i].name == c[i].name && r[i].price == c[i].price &&
      r[i].quantity == c[i].quantity + (if c[i].id == id then 1 else 0)
    ensures !HasId(c, id) ==> r == c
  {
    Bump(c, id, 1)
  }

  /**
   `decrementQuantity`: one unit fewer on the lines with key `id`, then drop
   every line whose quantity is no longer positive.
   */
  function DecrementQuantity(c: Items, id: string): (r: Items)
    ensures AllPositive(r)
    ensures forall x: CartItem :: x.id != id ==> (x in r <==> x in c && x.quantity > 0)
    ensures forall x: CartItem :: x.id == id ==> (x in r <==> x.quantity > 0 && x.(quantity := x.quantity + 1) in c)
    ensures forall x: CartItem :: multiset(r)[x] == if x.quantity > 0 then multiset(Bump(c, id, -1))[x] else 0
    ensures Seqs.IsSubsequence(r, Bump(c, id, -1))
  {
    DecrementMembers(c, id);
    Seqs.FilterOrder(Bump(c, id, -1), Positive);
    Seqs.Filter(Bump(c, id, -1), Positive)
  }

  lemma DecrementMembers(c: Items, id: string)
    ensures forall x: CartItem :: x.id != id ==>
      (x in Seqs.Filter(Bump(c, id, -1), Positive) <==> x in c && x.quantity > 0)
    ensures forall x: CartItem :: x.id == id ==>
      (x in Seqs.Filter(Bump(c, id, -1), Positive) <==> x.quantity > 0 && x.(quantity := x.quantity + 1) in c)
  {
    var b := Bump(c, id, -1);
    forall x: CartItem | x.id != id
      ensures x in Seqs.Filter(b, Positive) <==> x in c && x.quantity > 0
    {
      BumpMember(c, id, -1, x);
    }
    forall x: CartItem | x.id == id
      ensures x in Seqs.Filter(b, Positive) <==> x.quantity > 0 && x.(quantity := x.quantity + 1) in c
    {
      BumpMember(c, id, -1, x);
      assert x.(quantity := x.quantity - -1) == x.(quantity := x.quantity + 1);
      assert x in b <==> x.(quantity := x.quantity + 1) in c;
    }
  }

  /** `clearCart`. */
  function ClearCart(): (r: Items)
    ensures |r| == 0
  {
    []
  }

  // ---------------------------------------------------------------------------
  // Per-product views of the cart
  // ---------------------------------------------------------------------------

  /** Number of lines carrying key `id`. */
  function LinesOf(c: Items, id: string): nat
  {
    if |c| == 0 then 0 else (if c[0].id == id then 1 else 0) + LinesOf(c[1..], id)
  }

  /** Sum of the unit prices of the lines with key `id`: the unit price of that line in a unique-keyed cart. */
  function UnitPrice(c: Items, id: string): int
  {
    if |c| == 0 then 0 else (if c[0].id == id then c[0].price else 0) + UnitPrice(c[1..], id)
  }

  lemma {:induction false} LinesOfHasId(c: Items, id: string)
    ensures LinesOf(c, id) > 0 <==> HasId(c, id)
    ensures LinesOf(c, id) == 0 ==> QuantityOf(c, id) == 0 && UnitPrice(c, id) == 0
  {
    if |c| > 0 {
      LinesOfHasId(c[1..], id);
      assert forall i :: 1 <= i < |c| ==> c[i] == c[1..][i - 1];
      if HasId(c[1..], id) {
        var i :| 0 <= i < |c[1..]| && c[1..][i].id == id;
        assert c[i + 1].id == id;
      }
    }
  }

  /** In a unique-keyed cart the per-product views read off the one line carrying the key. */
  lemma {:induction false} UniqueLine(c: Items, k: nat)
    requires UniqueIds(c) && k < |c|
    ensures LinesOf(c, c[k].id) == 1
    ensures QuantityOf(c, c[k].id) == c[k].quantity
    ensures UnitPrice(c, c[k].id) == c[k].price
  {
    Seqs.UniqueByTail(c, Id);
    if k == 0 {
      forall i | 0 <= i < |c[1..]|
        ensures c[1..][i].id != c[0].id
      {
        assert c[1..][i] in c[1..];
      }
      LinesOfHasId(c[1..], c[0].id);
    } else {
      assert c[1..][k - 1] == c[k];
      assert Id(c[0]) != Id(c[k]) by {
        assert Seqs.UniqueBy(c, Id);
      }
      UniqueLine(c[1..], k - 1);
    }
  }

  /** A unique-keyed cart has at most one line per key. */
  lemma UniqueLinesAtMostOne(c: Items, id: string)
    requires UniqueIds(c)
    ensures LinesOf(c, id) == if HasId(c, id) then 1 else 0
  {
    if HasId(c, id) {
      var k :| 0 <= k < |c| && c[k].id == id;
      UniqueLine(c, k);
    } else {
      LinesOfHasId(c, id);
    }
  }

  lemma {:induction false} BumpQuantity(c: Items, id: string, delta: int, k: string)
    ensures QuantityOf(Bump(c, id, delta), k) == QuantityOf(c, k) + (if k == id then delta * LinesOf(c, id) else 0)
  {
    if |c| > 0 {
      var r := Bump(c, id, delta);
      assert r[1..] == Bump(c[1..], id, delta);
      BumpQuantity(c[1..], id, delta, k);
    }
  }

  lemma {:induction false} BumpPrice(c: Items, id: string, delta: int)
    ensures PriceSum(Bump(c, id, delta)) == PriceSum(c) + delta * UnitPrice(c, id)
  {
    if |c| > 0 {
      var r := Bump(c, id, delta);
      assert r[1..] == Bump(c[1..], id, delta);
      BumpPrice(c[1..], id, delta);
      assert r[0].price * r[0].quantity == c[0].price * c[0].quantity + (if c[0].id == id then delta * c[0].price else 0);
    }
  }

  lemma {:induction false} AppendViews(c: Items, x: CartItem, k: string)
    ensures QuantityOf(c + [x], k) == QuantityOf(c, k) + (if x.id == k then x.quantity else 0)
    ensures PriceSum(c + [x]) == PriceSum(c) + x.price * x.quantity
  {
    if |c| == 0 {
      assert [x][1..] == [];
    } else {
      assert (c + [x])[1..] == c[1..] + [x];
      AppendViews(c[1..], x, k);
    }
  }

  /** Dropping only lines that hold no units changes neither a product's quantity nor the price. */
  lemma {:induction false} FilterViews(c: Items, keep: CartItem -> bool, k: string)
    requires forall i :: 0 <= i < |c| && !keep(c[i]) ==> c[i].quantity == 0 || c[i].id != k
    ensures QuantityOf(Seqs.Filter(c, keep), k) == QuantityOf(c, k)
  {
    if |c| > 0 {
      assert forall i :: 1 <= i < |c| ==> c[i] == c[1..][i - 1];
      FilterViews(c[1..], keep, k);
      if keep(c[0]) {
        assert ([c[0]] + Seqs.Filter(c[1..], keep))[1..] == Seqs.Filter(c[1..], keep);
      }
    }
  }

  lemma {:induction false} FilterPrice(c: Items, keep: CartItem -> bool)
    requires forall i :: 0 <= i < |c| && !keep(c[i]) ==> c[i].quantity == 0
    ensures PriceSum(Seqs.Filter(c, keep)) == PriceSum(c)
  {
    if |c| > 0 {
      assert forall i :: 1 <= i < |c| ==> c[i] == c[1..][i - 1];
      FilterPrice(c[1..], keep);
      if keep(c[0]) {
        assert ([c[0]] + Seqs.Filter(c[1..], keep))[1..] == Seqs.Filter(c[1..], keep);
      }
    }
  }

  /** Rewriting quantities in place keeps the keys, hence their uniqueness. */
  lemma SameKeysKeepUnique(c: Items, r: Items)
    requires UniqueIds(c)
    requires |r| == |c| && forall i :: 0 <= i < |c| ==> r[i].id == c[i].id
    ensures UniqueIds(r)
  {
    forall i, j | 0 <= i < j < |r| ensures Id(r[i]) != Id(r[j]) {
      assert Id(c[i]) != Id(c[j]);
    }
  }

  // ---------------------------------------------------------------------------
  // What each cart operation does to the per-product quantities and the price
  // ---------------------------------------------------------------------------

  /**
   `addToCart` keeps one line per product, adds exactly `item.quantity` units
   of `item.id` and none of any other product, and raises the price by those
   units at the unit price of the line already in the cart (the item's own
   price only when it is new).
   */
  lemma AddToCartEffect(c: Items, item: CartItem)
    requires UniqueIds(c)
    ensures UniqueIds(AddToCart(c, item))
    ensures forall k :: (QuantityOf(AddToCart(c, item), k) ==
      QuantityOf(c, k) + (if k == item.id then item.quantity else 0))
    ensures TotalPrice(AddToCart(c, item)) ==
      TotalPrice(c) + item.quantity * (if HasId(c, item.id) then UnitPrice(c, item.id) else item.price)
    ensures AllPositive(c) && item.quantity > 0 ==> AllPositive(AddToCart(c, item))
  {
    if HasId(c, item.id) {
      AddToExisting(c, item);
    } else {
      AddNewLine(c, item);
    }
  }

  /** `addToCart` for a product already in the cart: its one line gains the units. */
  lemma AddToExisting(c: Items, item: CartItem)
    requires UniqueIds(c) && HasId(c, item.id)
    ensures UniqueIds(AddToCart(c, item))
    ensures forall k :: (QuantityOf(AddToCart(c, item), k) ==
      QuantityOf(c, k) + (if k == item.id then item.quantity else 0))
    ensures TotalPrice(AddToCart(c, item)) == TotalPrice(c) + item.quantity * UnitPrice(c, item.id)
    ensures AllPositive(c) && item.quantity > 0 ==> AllPositive(AddToCart(c, item))
  {
    var r := AddToCart(c, item);
    UniqueLinesAtMostOne(c, item.id);
    assert r == Bump(c, item.id, item.quantity);
    SameKeysKeepUnique(c, r);
    forall k ensures QuantityOf(r, k) == QuantityOf(c, k) + (if k == item.id then item.quantity else 0) {
      BumpQuantity(c, item.id, item.quantity, k);
    }
    BumpPrice(c, item.id, item.quantity);
    if AllPositive(c) && item.quantity > 0 {
      forall i | 0 <= i < |r| ensures Positive(r[i]) {
        assert Positive(c[i]);
      }
    }
  }

  /** `addToCart` for a product not in the cart: the item becomes the last line. */
  lemma AddNewLine(c: Items, item: CartItem)
    requires UniqueIds(c) && !HasId(c, item.id)
    ensures UniqueIds(AddToCart(c, item))
    ensures forall k :: (QuantityOf(AddToCart(c, item), k) ==
      QuantityOf(c, k) + (if k == item.id then item.quantity else 0))
    ensures TotalPrice(AddToCart(c, item)) == TotalPrice(c) + item.quantity * item.price
    ensures AllPositive(c) && item.quantity > 0 ==> AllPositive(AddToCart(c, item))
  {
    var r := AddToCart(c, item);
    assert r == c + [item];
    forall i, j | 0 <= i < j < |r| ensures Id(r[i]) != Id(r[j]) {
      if j == |c| {
        assert r[i] == c[i];
      } else {
        assert Id(c[i]) != Id(c[j]);
      }
    }
    forall k ensures QuantityOf(r, k) == QuantityOf(c, k) + (if k == item.id then item.quantity else 0) {
      AppendViews(c, item, k);
    }
    AppendViews(c, item, item.id);
  }

  /** `incrementQuantity` adds one unit of `id` (when it is in the cart) at its unit price. */
  lemma IncrementQuantityEffect(c: Items, id: string)
    requires UniqueIds(c)
    ensures UniqueIds(IncrementQuantity(c, id))
    ensures forall k :: (QuantityOf(IncrementQuantity(c, id), k) ==
      QuantityOf(c, k) + (if k == id && HasId(c, id) then 1 else 0))
    ensures TotalPrice(IncrementQuantity(c, id)) == TotalPrice(c) + UnitPrice(c, id)
    ensures AllPositive(c) ==> AllPositive(IncrementQuantity(c, id))
  {
    var r := IncrementQuantity(c, id);
    SameKeysKeepUnique(c, r);
    UniqueLinesAtMostOne(c, id);
    forall k ensures QuantityOf(r, k) == QuantityOf(c, k) + (if k == id && HasId(c, id) then 1 else 0) {
      BumpQuantity(c, id, 1, k);
    }
    BumpPrice(c, id, 1);
  }

  /**
   `decrementQuantity` on a well-formed cart removes one unit of `id` (when it
   is in the cart), dropping the line when that was its last unit, lowers the
   price by its unit price, and leaves the cart well-formed.
   */
  lemma DecrementQuantityEffect(c: Items, id: string)
    requires WellFormed(c)
    ensures WellFormed(DecrementQuantity(c, id))
    ensures forall k :: (QuantityOf(DecrementQuantity(c, id), k) ==
      QuantityOf(c, k) - (if k == id && HasId(c, id) then 1 else 0))
    ensures TotalPrice(DecrementQuantity(c, id)) == TotalPrice(c) - UnitPrice(c, id)
    ensures !HasId(c, id) ==> DecrementQuantity(c, id) == c
  {
    var b := Bump(c, id, -1);
    var r := DecrementQuantity(c, id);
    assert forall i :: 0 <= i < |b| ==> b[i].quantity >= 0 && (!Positive(b[i]) ==> b[i].quantity == 0);
    SameKeysKeepUnique(c, b);
    Seqs.FilterKeepsUnique(b, Positive, Id);
    UniqueLinesAtMostOne(c, id);
    forall k ensures QuantityOf(r, k) == QuantityOf(c, k) - (if k == id && HasId(c, id) then 1 else 0) {
      BumpQuantity(c, id, -1, k);
      FilterViews(b, Positive, k);
    }
    BumpPrice(c, id, -1);
    FilterPrice(b, Positive);
    if !HasId(c, id) {
      assert b == c;
      Seqs.FilterKeepsAll(b, Positive);
    }
  }

  /** `removeFromCart` takes every unit of `id` out and no unit of anything else. */
  lemma RemoveFromCartEffect(c: Items, id: string)
    requires UniqueIds(c)
    ensures UniqueIds(RemoveFromCart(c, id))
    ensures forall k :: QuantityOf(RemoveFromCart(c, id), k) == if k == id then 0 else QuantityOf(c, k)
    ensures AllPositive(c) ==> AllPositive(RemoveFromCart(c, id))
  {
    var keep := (x: CartItem) => x.id != id;
    var r := RemoveFromCart(c, id);
    assert forall i :: 0 <= i < |r| ==> r[i] in c;
    Seqs.FilterKeepsUnique(c, keep, Id);
    forall k ensures QuantityOf(r, k) == if k == id then 0 else QuantityOf(c, k) {
      if k == id {
        LinesOfHasId(r, id);
      } else {
        FilterViews(c, keep, k);
      }
    }
  }

  /**
   `updateQuantity` sets the units of `id` (when it is in the cart) to exactly
   `q` and leaves every other product alone. Nothing bounds `q`.
   */
  lemma UpdateQuantityEffect(c: Items, id: string, q: int)
    requires UniqueIds(c)
    ensures UniqueIds(UpdateQuantity(c, id, q))
    ensures forall k :: (QuantityOf(UpdateQuantity(c, id, q), k) ==
      if k == id && HasId(c, id) then q else QuantityOf(c, k))
    ensures AllPositive(c) && q > 0 ==> AllPositive(UpdateQuantity(c, id, q))
  {
    var r := UpdateQuantity(c, id, q);
    SameKeysKeepUnique(c, r);
    forall k ensures QuantityOf(r, k) == if k == id && HasId(c, id) then q else QuantityOf(c, k) {
      if k == id && HasId(c, id) {
        var i :| 0 <= i < |c| && c[i].id == id;
        UniqueLine(c, i);
        SameKeysKeepUnique(c, r);
        UniqueLine(r, i);
      } else {
        SetViews(c, id, q, k);
      }
    }
  }

  lemma {:induction false} SetViews(c: Items, id: string, q: int, k: string)
    requires k != id || !HasId(c, id)
    ensures QuantityOf(Set(c, id, q), k) == QuantityOf(c, k)
  {
    if |c| > 0 {
      var r := Set(c, id, q);
      assert r[1..] == Set(c[1..], id, q);
      assert !HasId(c, id) ==> !HasId(c[1..], id) by {
        if HasId(c[1..], id) {
          var i :| 0 <= i < |c[1..]| && c[1..][i].id == id;
          assert c[i + 1].id == id;
        }
      }
      SetViews(c[1..], id, q, k);
    }
  }

  /** Unlike `decrementQuantity`, `updateQuantity` can leave a line with no units in the cart. */
  lemma UpdateQuantityCanEmptyLine()
    ensures var c := [CartItem("p1", "Water", 10, 2)];
      WellFormed(c) && UpdateQuantity(c, "p1", 0) == [CartItem("p1", "Water", 10, 0)] &&
      !AllPositive(UpdateQuantity(c, "p1", 0))
  {
    var c := [CartItem("p1", "Water", 10, 2)];
    assert !Positive(UpdateQuantity(c, "p1", 0)[0]);
  }

  // ---------------------------------------------------------------------------
  // The cart as a sequence of shopper actions
  // ---------------------------------------------------------------------------

  datatype Action =
    | Add(item: CartItem)
    | Remove(id: string)
    | Update(id: string, q: int)
    | Increment(id: string)
    | Decrement(id: string)
    | Clear

  /** The store's update for one action. */
  function Apply(c: Items, a: Action): Items
  {
    match a
    case Add(item) => AddToCart(c, item)
    case Remove(id) => RemoveFromCart(c, id)
    case Update(id, q) => UpdateQuantity(c, id, q)
    case Increment(id) => IncrementQuantity(c, id)
    case Decrement(id) => DecrementQuantity(c, id)
    case Clear => ClearCart()
  }

  function Run(c: Items, actions: seq<Action>): Items
    decreases |actions|
  {
    if |actions| == 0 then c else Run(Apply(c, actions[0]), actions[1..])
  }

  /** The actions the storefront issues: adds and quantity updates carry a positive quantity. */
  predicate Shopper(a: Action)
  {
    match a
    case Add(item) => item.quantity > 0
    case Update(_, q) => q > 0
    case _ => true
  }

  /** Whatever a shopper does, the cart keeps one line per product and no line without units. */
  lemma {:induction false} RunKeepsWellFormed(c: Items, actions: seq<Action>)
    requires WellFormed(c)
    requires forall i :: 0 <= i < |actions| ==> Shopper(actions[i])
    ensures WellFormed(Run(c, actions))
    decreases |actions|
  {
    if |actions| > 0 {
      var a := actions[0];
      assert Run(c, actions) == Run(Apply(c, a), actions[1..]);
      match a {
        case Add(item) => AddToCartEffect(c, item);
        case Remove(id) => RemoveFromCartEffect(c, id);
        case Update(id, q) => UpdateQuantityEffect(c, id, q);
        case Increment(id) => IncrementQuantityEffect(c, id);
        case Decrement(id) => DecrementQuantityEffect(c, id);
        case Clear =>
      }
      RunKeepsWellFormed(Apply(c, a), actions[1..]);
    }
  }

  /** Clearing twice is clearing once, and both leave an empty cart. */
  lemma ClearIdempotent(c: Items)
    ensures Apply(Apply(c, Clear), Clear) == Apply(c, Clear) == []
  {
  }

  /** One line at 10 THB x 2: one increment gives 3 units and 30 THB; three decrements empty the cart. */
  lemma IncrementDecrementScenario()
    ensures var c1 := IncrementQuantity([CartItem("p1", "Water", 10, 2)], "p1");
      c1 == [CartItem("p1", "Water", 10, 3)] && TotalPrice(c1) == 30 &&
      Run(c1, [Decrement("p1"), Decrement("p1"), Decrement("p1")]) == []
  {
    var c1 := IncrementQuantity([CartItem("p1", "Water", 10, 2)], "p1");
    assert c1 == [CartItem("p1", "Water", 10, 3)];
    var c2 := DecrementQuantity(c1, "p1");
    assert c2[0] == CartItem("p1", "Water", 10, 2) by {
      assert c2 == [CartItem("p1", "Water", 10, 2)];
    }
  }
}
