/**
 * The cart of src/main.ts. The source keeps one module-level `cart` list and
 * its event handlers replace it with `map`/`filter` transforms of itself; here
 * the list is the `items` field of a `Cart` object and each handler is a method.
 * The transforms are functions on `seq<CartItem>`, specified and proved below.
 */
module CartEngine {
  import opened Lists
  import opened Products

  /** One cart line: a catalog product and how many of it are ordered. */
  datatype CartItem = CartItem(dessert: Product, quantity: int)

  // ---------------------------------------------------------------------------
  // formatCategoryName

  /** Display name of a category: a two-entry lookup table with the raw name as fallback. */
  function FormatCategoryName(category: string): (name: string)
    ensures category == "Creme Brulee" ==> name == "Crème Brûlée"
    ensures category != "Creme Brulee" ==> name == category
  {
    var categoryMap := map["Creme Brulee" := "Crème Brûlée", "Panna Cotta" := "Panna Cotta"];
    if category in categoryMap && categoryMap[category] != "" then categoryMap[category] else category
  }

  // ---------------------------------------------------------------------------
  // The cart invariant

  predicate PositiveQuantities(items: seq<CartItem>)
  {
    forall k :: 0 <= k < |items| ==> items[k].quantity >= 1
  }

  predicate UniqueIds(items: seq<CartItem>)
  {
    forall i, j :: 0 <= i < j < |items| ==> items[i].dessert.id != items[j].dessert.id
  }

  /** Every line orders at least one unit, and no product has two lines. */
  predicate WellFormed(items: seq<CartItem>)
  {
    PositiveQuantities(items) && UniqueIds(items)
  }

  lemma UniqueIdsTail(items: seq<CartItem>)
    requires UniqueIds(items) && items != []
    ensures UniqueIds(items[1..])
    ensures forall y :: y in items[1..] ==> y.dessert.id != items[0].dessert.id
  {
    forall y | y in items[1..] ensures y.dessert.id != items[0].dessert.id {
      var m :| 0 <= m < |items[1..]| && items[1..][m] == y;
      assert items[m + 1] == y;
    }
  }

  // ---------------------------------------------------------------------------
  // Lookup: cart.find(item => item.dessert.id === id) and `?.quantity ?? 0`

  /** Position `k` is the first line for product `id`. */
  predicate FirstWithId(items: seq<CartItem>, id: string, k: int)
  {
    0 <= k < |items| && items[k].dessert.id == id &&
    forall j :: 0 <= j < k ==> items[j].dessert.id != id
  }

  function Find(items: seq<CartItem>, id: string): (r: Option<CartItem>)
    ensures r.None? <==> forall k :: 0 <= k < |items| ==> items[k].dessert.id != id
    ensures forall k :: FirstWithId(items, id, k) ==> r == Some(items[k])
  {
    if items == [] then None
    else if items[0].dessert.id == id then Some(items[0])
    else
      assert forall k :: FirstWithId(items, id, k) ==> FirstWithId(items[1..], id, k - 1);
      Find(items[1..], id)
  }

  /** The quantity shown on a product card: that of the product's first line, or 0. */
  function QuantityIn(items: seq<CartItem>, id: string): (q: int)
    ensures (forall k :: 0 <= k < |items| ==> items[k].dessert.id != id) ==> q == 0
    ensures forall k :: FirstWithId(items, id, k) ==> q == items[k].quantity
  {
    match Find(items, id)
    case Some(item) => item.quantity
    case None => 0
  }

  /** With unique ids, a product's quantity is that of its only line. */
  lemma QuantityInAt(items: seq<CartItem>, k: int)
    requires UniqueIds(items) && 0 <= k < |items|
    ensures QuantityIn(items, items[k].dessert.id) == items[k].quantity
  {
    assert FirstWithId(items, items[k].dessert.id, k);
  }

  /** In a well-formed cart a product's quantity is positive exactly when it has a line. */
  lemma QuantityInWellFormed(items: seq<CartItem>, id: string)
    ensures WellFormed(items) ==> QuantityIn(items, id) >= 0
    ensures WellFormed(items) ==>
              (QuantityIn(items, id) == 0 <==> forall k :: 0 <= k < |items| ==> items[k].dessert.id != id)
  {
    if WellFormed(items) && exists k :: 0 <= k < |items| && items[k].dessert.id == id {
      var k :| 0 <= k < |items| && items[k].dessert.id == id;
      QuantityInAt(items, k);
    }
  }

  // ---------------------------------------------------------------------------
  // The decrement and remove transforms

  function DecrementIfId(item: CartItem, id: string): CartItem
  {
    if item.dessert.id == id then item.(quantity := item.quantity - 1) else item
  }

  /** `cart.map(it => it.dessert.id === id ? { ...it, quantity: it.quantity - 1 } : it)`. */
  function DecrementAll(items: seq<CartItem>, id: string): (r: seq<CartItem>)
    ensures |r| == |items|
    ensures forall k :: 0 <= k < |items| ==> r[k] == DecrementIfId(items[k], id)
  {
    if items == [] then [] else [DecrementIfId(items[0], id)] + DecrementAll(items[1..], id)
  }

  /** `cart.filter(item => item.dessert.id !== id)`. */
  function RemoveId(items: seq<CartItem>, id: string): (r: seq<CartItem>)
    ensures forall x {:trigger multiset(r)[x]} :: multiset(r)[x] == if x.dessert.id != id then multiset(items)[x] else 0
  {
    FilterMultiset((item: CartItem) => item.dessert.id != id, items);
    Filter((item: CartItem) => item.dessert.id != id, items)
  }

  // ---------------------------------------------------------------------------
  // calculateTotal and the item count

  function LineTotal(item: CartItem): int
  {
    item.dessert.price * item.quantity
  }

  function LineQuantity(item: CartItem): int
  {
    item.quantity
  }

  /** `cart.reduce((total, item) => total + item.dessert.price * item.quantity, 0)`. */
  function CalculateTotal(items: seq<CartItem>): (total: int)
    ensures total == Sum(items, LineTotal)
  {
    Reduce(0, items, LineTotal)
  }

  /** `cart.reduce((sum, item) => sum + item.quantity, 0)`. */
  function ItemCount(items: seq<CartItem>): (count: int)
    ensures count == Sum(items, LineQuantity)
  {
    Reduce(0, items, LineQuantity)
  }

  lemma CountAtLeastLines(items: seq<CartItem>)
    ensures PositiveQuantities(items) ==> ItemCount(items) >= |items|
  {
    if PositiveQuantities(items) {
      forall x | x in items ensures LineQuantity(x) >= 1 {
        var k :| 0 <= k < |items| && items[k] == x;
      }
      SumAtLeast(items, LineQuantity, 1);
    }
  }

  lemma TotalNonNegative(items: seq<CartItem>)
    ensures PositiveQuantities(items) ==> CalculateTotal(items) >= 0
  {
    if PositiveQuantities(items) {
      forall x | x in items ensures LineTotal(x) >= 0 {
        var k :| 0 <= k < |items| && items[k] == x;
        assert x.quantity >= 1;
      }
      SumAtLeast(items, LineTotal, 0);
    }
  }

  // ---------------------------------------------------------------------------
  // Properties of remove

  /** Removing an id that no line has changes nothing. */
  lemma RemoveAbsent(items: seq<CartItem>, id: string)
    requires forall k :: 0 <= k < |items| ==> items[k].dessert.id != id
    ensures RemoveId(items, id) == items
  {
    FilterKeepsAll((item: CartItem) => item.dessert.id != id, items);
  }

  /** Every line for `id` goes, every other line stays, in the original order. */
  lemma RemoveDeletesEveryLine(items: seq<CartItem>, id: string)
    ensures IsSubsequence(RemoveId(items, id), items)
    ensures forall x :: x in RemoveId(items, id) <==> x in items && x.dessert.id != id
    ensures QuantityIn(RemoveId(items, id), id) == 0
  {
    FilterIsSubsequence((item: CartItem) => item.dessert.id != id, items);
    var r := RemoveId(items, id);
    forall k | 0 <= k < |r| ensures r[k].dessert.id != id {
      assert r[k] in r;
    }
  }

  lemma RemoveIdempotent(items: seq<CartItem>, id: string)
    ensures RemoveId(RemoveId(items, id), id) == RemoveId(items, id)
  {
    RemoveDeletesEveryLine(items, id);
    var r := RemoveId(items, id);
    forall k | 0 <= k < |r| ensures r[k].dessert.id != id {
      assert r[k] in r;
    }
    RemoveAbsent(r, id);
  }

  lemma RemoveKeepsPositive(items: seq<CartItem>, id: string)
    requires PositiveQuantities(items)
    ensures PositiveQuantities(RemoveId(items, id))
  {
    var r := RemoveId(items, id);
    forall k | 0 <= k < |r| ensures r[k].quantity >= 1 {
      assert r[k] in items;
      var m :| 0 <= m < |items| && items[m] == r[k];
    }
  }

  lemma {:induction false} RemoveKeepsUniqueIds(items: seq<CartItem>, id: string)
    requires UniqueIds(items)
    ensures UniqueIds(RemoveId(items, id))
  {
    if items != [] {
      var x, rest := items[0], items[1..];
      UniqueIdsTail(items);
      RemoveKeepsUniqueIds(rest, id);
      var r' := RemoveId(rest, id);
      var r := RemoveId(items, id);
      if x.dessert.id != id {
        assert r == [x] + r';
        forall i, j | 0 <= i < j < |r| ensures r[i].dessert.id != r[j].dessert.id {
          assert r[j] == r'[j - 1] && r'[j - 1] in rest;
          if i > 0 {
            assert r[i] == r'[i - 1];
          }
        }
      } else {
        assert r == r';
      }
    }
  }

  lemma RemovePreservesWellFormed(items: seq<CartItem>, id: string)
    requires WellFormed(items)
    ensures WellFormed(RemoveId(items, id))
  {
    RemoveKeepsPositive(items, id);
    RemoveKeepsUniqueIds(items, id);
  }

  /** With unique ids, removing the product of line `k` deletes exactly that line. */
  lemma {:induction false} RemoveAt(items: seq<CartItem>, k: int)
    requires UniqueIds(items) && 0 <= k < |items|
    ensures RemoveId(items, items[k].dessert.id) == items[..k] + items[k + 1..]
  {
    var id := items[k].dessert.id;
    UniqueIdsTail(items);
    var p := (item: CartItem) => item.dessert.id != id;
    if k == 0 {
      assert RemoveId(items, id) == Filter(p, items[1..]);
      FilterKeepsAll(p, items[1..]);
    } else {
      RemoveAt(items[1..], k - 1);
      assert items[1..][k - 1].dessert.id == id;
      assert items[0].dessert.id != id;
      assert RemoveId(items, id) == [items[0]] + RemoveId(items[1..], id);
      assert items[..k] == [items[0]] + items[1..][..k - 1];
      assert items[k + 1..] == items[1..][k..];
    }
  }

  /** Removing a present product: one line fewer, its units and its line total gone. */
  lemma RemovePresent(items: seq<CartItem>, k: int)
    requires WellFormed(items) && 0 <= k < |items|
    ensures var r := RemoveId(items, items[k].dessert.id);
            && r == items[..k] + items[k + 1..]
            && |r| == |items| - 1
            && WellFormed(r)
            && QuantityIn(r, items[k].dessert.id) == 0
            && ItemCount(r) == ItemCount(items) - items[k].quantity
            && CalculateTotal(r) == CalculateTotal(items) - LineTotal(items[k])
  {
    RemoveAt(items, k);
    RemovePreservesWellFormed(items, items[k].dessert.id);
    RemoveDeletesEveryLine(items, items[k].dessert.id);
    SumWithout(items, k, LineQuantity);
    SumWithout(items, k, LineTotal);
  }

  // ---------------------------------------------------------------------------
  // Properties of decrement

  /** With unique ids, the decrementing map touches line `k` and nothing else. */
  lemma DecrementAllAt(items: seq<CartItem>, k: int)
    requires UniqueIds(items) && 0 <= k < |items|
    ensures DecrementAll(items, items[k].dessert.id)
            == items[k := items[k].(quantity := items[k].quantity - 1)]
  {
    var id := items[k].dessert.id;
    var r := DecrementAll(items, id);
    var u := items[k := items[k].(quantity := items[k].quantity - 1)];
    forall j | 0 <= j < |items| ensures r[j] == u[j] {
      if j != k {
        assert items[j].dessert.id != id by {
          if j < k { assert items[j].dessert.id != items[k].dessert.id; }
          else { assert items[k].dessert.id != items[j].dessert.id; }
        }
      }
    }
  }

  /** Replacing a line by one for the same product with a positive quantity keeps the invariant. */
  lemma UpdateKeepsWellFormed(items: seq<CartItem>, k: int, y: CartItem)
    requires WellFormed(items) && 0 <= k < |items|
    requires y.dessert == items[k].dessert && y.quantity >= 1
    ensures WellFormed(items[k := y])
  {
    var r := items[k := y];
    assert forall j :: 0 <= j < |r| ==> r[j].dessert == items[j].dessert;
    assert forall j :: 0 <= j < |r| && j != k ==> r[j] == items[j];
  }

  lemma LineTotalOneLess(item: CartItem)
    ensures LineTotal(item.(quantity := item.quantity - 1)) == LineTotal(item) - item.dessert.price
  {
    assert item.dessert.price * (item.quantity - 1) == item.dessert.price * item.quantity - item.dessert.price;
  }

  /** Quantity above one: that line loses one unit; length, order and every other line are kept. */
  lemma DecrementAboveOne(items: seq<CartItem>, k: int)
    requires WellFormed(items) && 0 <= k < |items| && items[k].quantity > 1
    ensures var id := items[k].dessert.id;
            var r := DecrementAll(items, id);
            && r == items[k := items[k].(quantity := items[k].quantity - 1)]
            && WellFormed(r)
            && QuantityIn(r, id) == items[k].quantity - 1
            && ItemCount(r) == ItemCount(items) - 1
            && CalculateTotal(r) == CalculateTotal(items) - items[k].dessert.price
  {
    var y := items[k].(quantity := items[k].quantity - 1);
    DecrementAllAt(items, k);
    UpdateKeepsWellFormed(items, k, y);
    QuantityInAt(items[k := y], k);
    SumUpdate(items, k, y, LineQuantity);
    SumUpdate(items, k, y, LineTotal);
    LineTotalOneLess(items[k]);
  }

  /** Quantity exactly one: the line goes; the rest keep their order. */
  lemma DecrementLastUnit(items: seq<CartItem>, k: int)
    requires WellFormed(items) && 0 <= k < |items| && items[k].quantity == 1
    ensures var id := items[k].dessert.id;
            var r := RemoveId(items, id);
            && r == items[..k] + items[k + 1..]
            && WellFormed(r)
            && QuantityIn(r, id) == 0
            && ItemCount(r) == ItemCount(items) - 1
            && CalculateTotal(r) == CalculateTotal(items) - items[k].dessert.price
  {
    RemovePresent(items, k);
  }

  /**
   * The "-" handler on a well-formed cart: the map when the shown quantity is
   * above 1, the filter when it is 1, no change for an absent product.
   */
  lemma DecrementFacts(items: seq<CartItem>, id: string)
    requires WellFormed(items)
    ensures var q := QuantityIn(items, id);
            var r := if q > 1 then DecrementAll(items, id)
                     else if q == 1 then RemoveId(items, id)
                     else items;
            && WellFormed(r)
            && (q == 0 ==> r == items)
            && (q > 0 ==> ItemCount(r) == ItemCount(items) - 1 && QuantityIn(r, id) == q - 1)
            && (forall k :: 0 <= k < |items| && items[k].dessert.id == id ==>
                  CalculateTotal(r) == CalculateTotal(items) - items[k].dessert.price)
  {
    var q := QuantityIn(items, id);
    var r := if q > 1 then DecrementAll(items, id)
             else if q == 1 then RemoveId(items, id)
             else items;
    QuantityInWellFormed(items, id);
    forall k | 0 <= k < |items| && items[k].dessert.id == id
      ensures CalculateTotal(r) == CalculateTotal(items) - items[k].dessert.price
    {
      QuantityInAt(items, k);
      if q > 1 {
        DecrementAboveOne(items, k);
      } else {
        DecrementLastUnit(items, k);
      }
    }
    if q > 0 {
      var k :| 0 <= k < |items| && items[k].dessert.id == id;
      QuantityInAt(items, k);
      if q > 1 {
        DecrementAboveOne(items, k);
      } else {
        DecrementLastUnit(items, k);
      }
    }
  }

  // ---------------------------------------------------------------------------
  // The cart state and its handlers

  class Cart {
    var items: seq<CartItem>

    ghost predicate Valid()
      reads this
    {
      WellFormed(items)
    }

    /** `let cart: CartItem[] = []`. */
    constructor ()
      ensures Valid() && items == []
    {
      items := [];
    }

    /** `calculateTotal()`. */
    function Total(): (total: int)
      reads this
      ensures Valid() ==> total >= 0
      ensures items == [] ==> total == 0
    {
      TotalNonNegative(items);
      CalculateTotal(items)
    }

    /** The "Your Cart (n)" count. */
    function Count(): (count: int)
      reads this
      ensures Valid() ==> count >= |items|
      ensures items == [] ==> count == 0
    {
      CountAtLeastLines(items);
      ItemCount(items)
    }

    /** The quantity shown on the card of product `id`. */
    function QuantityOf(id: string): (q: int)
      reads this
      ensures Valid() ==> q >= 0
      ensures Valid() ==> (q == 0 <==> forall k :: 0 <= k < |items| ==> items[k].dessert.id != id)
    {
      QuantityInWellFormed(items, id);
      QuantityIn(items, id)
    }

    /** The "-" button of a product card. */
    method Decrement(id: string)
      requires Valid()
      modifies this
      ensures Valid()
      ensures var q := old(QuantityOf(id));
              items == if q > 1 then DecrementAll(old(items), id)
                       else if q == 1 then RemoveId(old(items), id)
                       else old(items)
      ensures old(QuantityOf(id)) == 0 ==> items == old(items)
      ensures old(QuantityOf(id)) > 0 ==>
                Count() == old(Count()) - 1 && QuantityOf(id) == old(QuantityOf(id)) - 1
      ensures forall k :: 0 <= k < |old(items)| && old(items)[k].dessert.id == id ==>
                Total() == old(Total()) - old(items)[k].dessert.price
    {
      DecrementFacts(items, id);
      var item := Find(items, id);
      if item.Some? {
        if item.value.quantity > 1 {
          items := DecrementAll(items, id);
        } else if item.value.quantity == 1 {
          items := RemoveId(items, id);
        }
      }
    }

    /** The remove button of a cart line. */
    method Remove(id: string)
      requires Valid()
      modifies this
      ensures Valid()
      ensures items == RemoveId(old(items), id)
      ensures QuantityOf(id) == 0
      ensures Count() == old(Count()) - old(QuantityOf(id))
      ensures forall k :: 0 <= k < |old(items)| && old(items)[k].dessert.id == id ==>
                Total() == old(Total()) - LineTotal(old(items)[k])
    {
      if Find(items, id).Some? {
        ghost var k :| 0 <= k < |items| && items[k].dessert.id == id;
        QuantityInAt(items, k);
        RemovePresent(items, k);
      } else {
        RemoveAbsent(items, id);
      }
      items := RemoveId(items, id);
    }

    /** `startNewOrder()`: `cart = []`. */
    method Reset()
      modifies this
      ensures Valid() && items == []
      ensures Count() == 0 && Total() == 0
    {
      items := [];
    }
  }
}
