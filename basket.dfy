/** The shopping basket: `addToBasket`, `removeFromBasket` and
    `getTotalCost`. The recursive functions `Add` and `Remove` define what
    the two operations do to the list of lines; the class `Basket` holds the
    list and updates it by index as the component does (look the line up,
    bump or lower its quantity, splice it out at zero). */
module Shopping {
  import opened Catalog

  /** One basket line: a product and how many of it are in the basket. */
  datatype BasketItem = BasketItem(product: Product, quantity: int)

  /** `findIndex` on the product id: the first line for `id`, or -1. */
  function IndexOf(lines: seq<BasketItem>, id: int): (i: int)
    ensures -1 <= i < |lines|
    ensures 0 <= i ==> lines[i].product.id == id
    ensures forall k :: 0 <= k < |lines| && (i == -1 || k < i) ==> lines[k].product.id != id
  {
    if lines == [] then -1
    else if lines[0].product.id == id then 0
    else
      var rest := IndexOf(lines[1..], id);
      if rest == -1 then -1 else rest + 1
  }

  /** The basket invariant: at most one line per product id, and every line
      holds at least one item. */
  ghost predicate WellFormed(lines: seq<BasketItem>)
  {
    (forall k :: 0 <= k < |lines| ==> lines[k].quantity >= 1) &&
    (forall k, m :: 0 <= k < m < |lines| ==> lines[k].product.id != lines[m].product.id)
  }

  /** Adding `p`: the first line with its id gains one item; without such a
      line, a new line with one item goes at the end. */
  function Add(lines: seq<BasketItem>, p: Product): (r: seq<BasketItem>)
    ensures |r| == if IndexOf(lines, p.id) == -1 then |lines| + 1 else |lines|
  {
    if lines == [] then [BasketItem(p, 1)]
    else if lines[0].product.id == p.id then [lines[0].(quantity := lines[0].quantity + 1)] + lines[1..]
    else [lines[0]] + Add(lines[1..], p)
  }

  /** Removing `p`: the first line with its id loses one item and disappears
      when that leaves none; without such a line nothing changes. */
  function Remove(lines: seq<BasketItem>, p: Product): (r: seq<BasketItem>)
    ensures IndexOf(lines, p.id) == -1 ==> r == lines
  {
    if lines == [] then []
    else if lines[0].product.id == p.id then
      if lines[0].quantity - 1 == 0 then lines[1..]
      else [lines[0].(quantity := lines[0].quantity - 1)] + lines[1..]
    else [lines[0]] + Remove(lines[1..], p)
  }

  /** How many items of product `id` the basket holds, over all its lines. */
  function QuantityOf(lines: seq<BasketItem>, id: int): int
  {
    if lines == [] then 0
    else (if lines[0].product.id == id then lines[0].quantity else 0) + QuantityOf(lines[1..], id)
  }

  /** What `Add` does, by index: an existing line is bumped in place, with the
      length and every other line unchanged; otherwise the new line is
      appended after the unchanged old ones. */
  lemma {:induction false} AddAt(lines: seq<BasketItem>, p: Product)
    ensures var i := IndexOf(lines, p.id);
      if i == -1 then Add(lines, p) == lines + [BasketItem(p, 1)]
      else Add(lines, p) == lines[i := lines[i].(quantity := lines[i].quantity + 1)]
  {
    if lines != [] && lines[0].product.id != p.id {
      AddAt(lines[1..], p);
    }
  }

  /** What `Remove` does to the line at index `i`, which holds `p`, or to
      nothing when `i` is -1. */
  ghost predicate RemovedAt(lines: seq<BasketItem>, p: Product, i: int)
    requires -1 <= i < |lines|
  {
    if i == -1 then Remove(lines, p) == lines
    else if lines[i].quantity - 1 == 0 then Remove(lines, p) == lines[..i] + lines[i + 1..]
    else Remove(lines, p) == lines[i := lines[i].(quantity := lines[i].quantity - 1)]
  }

  /** What `Remove` does, by index: no line means no change; a line with one
      item is spliced out, keeping the order of the others; any other line
      loses one item in place. */
  lemma {:induction false} RemoveAt(lines: seq<BasketItem>, p: Product)
    ensures RemovedAt(lines, p, IndexOf(lines, p.id))
  {
    if lines != [] {
      if lines[0].product.id == p.id {
        RemoveAtHead(lines, p);
      } else {
        RemoveAt(lines[1..], p);
        RemoveAtTail(lines, p);
      }
    }
  }

  /** `RemoveAt` when the first line holds `p`. */
  lemma RemoveAtHead(lines: seq<BasketItem>, p: Product)
    requires lines != [] && lines[0].product.id == p.id
    ensures RemovedAt(lines, p, IndexOf(lines, p.id))
  {
    var lowered := lines[0].(quantity := lines[0].quantity - 1);
    assert IndexOf(lines, p.id) == 0;
    if lowered.quantity != 0 {
      assert lines[0 := lowered] == [lowered] + lines[1..];
    }
  }

  /** `RemoveAt` carried from the lines after the first to the whole list. */
  lemma RemoveAtTail(lines: seq<BasketItem>, p: Product)
    requires lines != [] && lines[0].product.id != p.id
    requires RemovedAt(lines[1..], p, IndexOf(lines[1..], p.id))
    ensures RemovedAt(lines, p, IndexOf(lines, p.id))
  {
    var j := IndexOf(lines[1..], p.id);
    if j != -1 {
      assert IndexOf(lines, p.id) == j + 1;
      assert lines[1..][j] == lines[j + 1];
      if lines[j + 1].quantity - 1 == 0 {
        SpliceBehindHead(lines, p, j);
      } else {
        UpdateBehindHead(lines, p, j);
      }
    }
  }

  /** A line spliced out behind the first line, seen from the whole list. */
  lemma SpliceBehindHead(lines: seq<BasketItem>, p: Product, j: int)
    requires 0 <= j < |lines| - 1 && lines[0].product.id != p.id
    requires Remove(lines[1..], p) == lines[1..][..j] + lines[1..][j + 1..]
    ensures Remove(lines, p) == lines[..j + 1] + lines[j + 2..]
  {
    assert Remove(lines, p) == [lines[0]] + Remove(lines[1..], p);
    assert lines[..j + 1] == [lines[0]] + lines[1..][..j];
    assert lines[1..][j + 1..] == lines[j + 2..];
  }

  /** A line lowered in place behind the first line, seen from the whole list. */
  lemma UpdateBehindHead(lines: seq<BasketItem>, p: Product, j: int)
    requires 0 <= j < |lines| - 1 && lines[0].product.id != p.id
    requires Remove(lines[1..], p) == lines[1..][j := lines[j + 1].(quantity := lines[j + 1].quantity - 1)]
    ensures Remove(lines, p) == lines[j + 1 := lines[j + 1].(quantity := lines[j + 1].quantity - 1)]
  {
    var item := lines[j + 1].(quantity := lines[j + 1].quantity - 1);
    var r := [lines[0]] + lines[1..][j := item];
    assert Remove(lines, p) == r;
    assert forall k :: 0 <= k < |lines| ==> r[k] == lines[j + 1 := item][k];
  }

  /** Adding keeps the basket invariant. */
  lemma AddKeepsWellFormed(lines: seq<BasketItem>, p: Product)
    requires WellFormed(lines)
    ensures WellFormed(Add(lines, p))
  {
    AddAt(lines, p);
  }

  /** Removing keeps the basket invariant. */
  lemma RemoveKeepsWellFormed(lines: seq<BasketItem>, p: Product)
    requires WellFormed(lines)
    ensures WellFormed(Remove(lines, p))
  {
    RemoveAt(lines, p);
    var i := IndexOf(lines, p.id);
    if i != -1 && lines[i].quantity - 1 == 0 {
      SpliceKeepsWellFormed(lines, i);
    } else if i != -1 {
      var r := lines[i := lines[i].(quantity := lines[i].quantity - 1)];
      assert forall k :: 0 <= k < |r| ==> r[k].product == lines[k].product;
    }
  }

  /** Deleting a line keeps the basket invariant. */
  lemma SpliceKeepsWellFormed(lines: seq<BasketItem>, i: int)
    requires WellFormed(lines) && 0 <= i < |lines|
    ensures WellFormed(lines[..i] + lines[i + 1..])
  {
    var r := lines[..i] + lines[i + 1..];
    forall k | 0 <= k < |r|
      ensures r[k] == lines[if k < i then k else k + 1]
    {
    }
  }

  /** Removing a product right after adding it restores the basket. */
  lemma {:induction false} RemoveUndoesAdd(lines: seq<BasketItem>, p: Product)
    requires WellFormed(lines)
    ensures Remove(Add(lines, p), p) == lines
  {
    if lines != [] && lines[0].product.id != p.id {
      RemoveUndoesAdd(lines[1..], p);
    }
  }

  /** Adding `p` raises its quantity by one and leaves every other
      product's. */
  lemma {:induction false} AddQuantity(lines: seq<BasketItem>, p: Product, id: int)
    ensures QuantityOf(Add(lines, p), id) == QuantityOf(lines, id) + if id == p.id then 1 else 0
  {
    if lines != [] && lines[0].product.id != p.id {
      AddQuantity(lines[1..], p, id);
      assert Add(lines, p)[1..] == Add(lines[1..], p);
    }
  }

  /** In a well-formed basket a product has a line exactly when its quantity
      is positive. */
  lemma {:induction false} QuantityPositive(lines: seq<BasketItem>, id: int)
    requires forall k :: 0 <= k < |lines| ==> lines[k].quantity >= 1
    ensures QuantityOf(lines, id) >= 0
    ensures QuantityOf(lines, id) > 0 <==> IndexOf(lines, id) != -1
  {
    if lines != [] {
      QuantityPositive(lines[1..], id);
    }
  }

  /** In a well-formed basket, removing `p` lowers its quantity by one when
      it is there and leaves every other product's. */
  lemma {:induction false} RemoveQuantity(lines: seq<BasketItem>, p: Product, id: int)
    requires WellFormed(lines)
    ensures QuantityOf(Remove(lines, p), id)
         == if id == p.id && QuantityOf(lines, id) > 0 then QuantityOf(lines, id) - 1 else QuantityOf(lines, id)
  {
    QuantityPositive(lines, id);
    if lines != [] && lines[0].product.id != p.id {
      RemoveQuantity(lines[1..], p, id);
      assert Remove(lines, p)[1..] == Remove(lines[1..], p);
    }
  }

  /** `p` added `n` times to a basket. */
  function AddTimes(lines: seq<BasketItem>, p: Product, n: nat): seq<BasketItem>
  {
    if n == 0 then lines else Add(AddTimes(lines, p, n - 1), p)
  }

  /** Adding a product `n` times to an empty basket gives one line with `n`
      items. */
  lemma {:induction false} AddTimesFromEmpty(p: Product, n: nat)
    requires n >= 1
    ensures AddTimes([], p, n) == [BasketItem(p, n)]
  {
    if n > 1 {
      AddTimesFromEmpty(p, n - 1);
    }
  }

  /** The cost of one line, `price * quantity`. */
  function Subtotal(item: BasketItem): (cost: int)
    ensures item.product.price >= 0 && item.quantity >= 0 ==> cost >= 0
    ensures item.quantity == 0 ==> cost == 0
  {
    item.product.price * item.quantity
  }

  /** One more (or fewer) item changes a line's cost by the item price. */
  lemma SubtotalStep(item: BasketItem, d: int)
    ensures Subtotal(item.(quantity := item.quantity + d)) == Subtotal(item) + item.product.price * d
  {
    assert item.product.price * (item.quantity + d) == item.product.price * item.quantity + item.product.price * d;
  }

  /** `getTotalCost` before formatting: the sum of the line costs, in pence.
      Prices are integers here, so the order of the `reduce` does not
      matter. */
  function Cost(lines: seq<BasketItem>): (total: int)
    ensures lines == [] ==> total == 0
    ensures (forall k :: 0 <= k < |lines| ==> lines[k].product.price >= 0 && lines[k].quantity >= 0) ==> total >= 0
  {
    if lines == [] then 0 else Subtotal(lines[0]) + Cost(lines[1..])
  }

  /** Adding a catalog product raises the total by its price. */
  lemma {:induction false} CostAdd(lines: seq<BasketItem>, p: Product)
    requires forall k :: 0 <= k < |lines| && lines[k].product.id == p.id ==> lines[k].product.price == p.price
    ensures Cost(Add(lines, p)) == Cost(lines) + p.price
  {
    if lines == [] {
    } else if lines[0].product.id == p.id {
      SubtotalStep(lines[0], 1);
    } else {
      CostAdd(lines[1..], p);
      assert Add(lines, p)[1..] == Add(lines[1..], p);
    }
  }

  /** Removing a catalog product lowers the total by its price when the
      basket holds it, and leaves it alone otherwise. */
  lemma {:induction false} CostRemove(lines: seq<BasketItem>, p: Product)
    requires forall k :: 0 <= k < |lines| && lines[k].product.id == p.id ==> lines[k].product.price == p.price
    ensures Cost(Remove(lines, p)) == Cost(lines) - if IndexOf(lines, p.id) == -1 then 0 else p.price
  {
    if lines == [] {
    } else if lines[0].product.id == p.id {
      SubtotalStep(lines[0], -1);
    } else {
      CostRemove(lines[1..], p);
      assert Remove(lines, p)[1..] == Remove(lines[1..], p);
    }
  }

  /** The basket state of the component. */
  class Basket {
    var lines: seq<BasketItem>

    ghost predicate Valid()
      reads this
    {
      WellFormed(lines)
    }

    /** The basket starts empty. */
    constructor ()
      ensures Valid() && lines == []
    {
      lines := [];
    }

    /** `addToBasket`. */
    method AddToBasket(product: Product)
      requires Valid()
      modifies this
      ensures Valid()
      ensures lines == Add(old(lines), product)
      ensures QuantityOf(lines, product.id) == old(QuantityOf(lines, product.id)) + 1
    {
      AddAt(lines, product);
      AddKeepsWellFormed(lines, product);
      AddQuantity(lines, product, product.id);
      var existingItemIndex := IndexOf(lines, product.id);
      if existingItemIndex != -1 {
        var updatedBasket := lines;
        updatedBasket := updatedBasket[existingItemIndex :=
          updatedBasket[existingItemIndex].(quantity := updatedBasket[existingItemIndex].quantity + 1)];
        lines := updatedBasket;
      } else {
        lines := lines + [BasketItem(product, 1)];
      }
    }

    /** `removeFromBasket`. */
    method RemoveFromBasket(product: Product)
      requires Valid()
      modifies this
      ensures Valid()
      ensures lines == Remove(old(lines), product)
      ensures old(QuantityOf(lines, product.id)) == 0 ==> lines == old(lines)
      ensures old(QuantityOf(lines, product.id)) > 0 ==> QuantityOf(lines, product.id) == old(QuantityOf(lines, product.id)) - 1
    {
      RemoveAt(lines, product);
      RemoveKeepsWellFormed(lines, product);
      RemoveQuantity(lines, product, product.id);
      QuantityPositive(lines, product.id);
      var existingItemIndex := IndexOf(lines, product.id);
      if existingItemIndex != -1 {
        var updatedBasket := lines;
        updatedBasket := updatedBasket[existingItemIndex :=
          updatedBasket[existingItemIndex].(quantity := updatedBasket[existingItemIndex].quantity - 1)];
        if updatedBasket[existingItemIndex].quantity == 0 {
          updatedBasket := updatedBasket[..existingItemIndex] + updatedBasket[existingItemIndex + 1..];
        }
        lines := updatedBasket;
      }
    }

    /** `getTotalCost`, in pence and unformatted. */
    function TotalCost(): (total: int)
      reads this
      requires Valid()
      ensures lines == [] ==> total == 0
      ensures (forall k :: 0 <= k < |lines| ==> lines[k].product.price >= 0) ==> total >= 0
    {
      Cost(lines)
    }
  }
}
