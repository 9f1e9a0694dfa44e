/** The cart page: the running total, the guarded "Clear All" action and the
    choice between the empty-cart notice and the item list with its total. */
module Cart {
  import opened Base
  import opened Storage

  /** A cart line as the cart page reads it from the store. */
  datatype CartItem = CartItem(
    id: int,
    title: string,
    price: real,
    quantity: int,
    images: seq<string>,
    rating: Option<real>)

  /** `item.price * item.quantity`. */
  function LineTotal(item: CartItem): real
  {
    item.price * item.quantity as real
  }

  /** The `reduce` callback run from left to right, starting from `acc`. */
  function FoldTotal(acc: real, items: seq<CartItem>): real
    decreases |items|
  {
    if |items| == 0 then acc else FoldTotal(acc + LineTotal(items[0]), items[1..])
  }

  /** Reference definition: the sum of the line totals. */
  function Sum(items: seq<CartItem>): real
    decreases |items|
  {
    if |items| == 0 then 0.0 else LineTotal(items[0]) + Sum(items[1..])
  }

  /** Folding from `acc` adds the sum of the line totals to `acc`. */
  lemma {:induction false} FoldIsSum(acc: real, items: seq<CartItem>)
    ensures FoldTotal(acc, items) == acc + Sum(items)
    decreases |items|
  {
    if |items| > 0 {
      FoldIsSum(acc + LineTotal(items[0]), items[1..]);
    }
  }

  /** `calculateTotal`: `items.reduce((total, item) => total + item.price *
      item.quantity, 0)`. It is the sum of the line totals, so an empty cart
      totals zero. */
  function CalculateTotal(items: seq<CartItem>): (total: real)
    ensures total == Sum(items)
    ensures |items| == 0 ==> total == 0.0
  {
    FoldIsSum(0.0, items);
    FoldTotal(0.0, items)
  }

  /** The sum over two consecutive runs of lines is the sum of their sums. */
  lemma {:induction false} SumConcat(a: seq<CartItem>, b: seq<CartItem>)
    ensures Sum(a + b) == Sum(a) + Sum(b)
    decreases |a|
  {
    if |a| == 0 {
      assert a + b == b;
    } else {
      assert (a + b)[1..] == a[1..] + b;
      SumConcat(a[1..], b);
    }
  }

  /** Taking line `j` out of a cart lowers the sum by that line's total. */
  lemma {:induction false} SumWithout(b: seq<CartItem>, j: int)
    requires 0 <= j < |b|
    ensures Sum(b) == LineTotal(b[j]) + Sum(b[..j] + b[j + 1..])
    decreases j
  {
    if j == 0 {
      assert b[..j] + b[j + 1..] == b[1..];
    } else {
      var tail := b[1..];
      SumWithout(tail, j - 1);
      var rest := tail[..j - 1] + tail[j..];
      assert b[..j] + b[j + 1..] == [b[0]] + rest;
      assert ([b[0]] + rest)[1..] == rest;
    }
  }

  /** Taking line `j` out of a cart removes one copy of it from the cart's
      multiset of lines. */
  lemma MultisetWithout<T>(b: seq<T>, j: int)
    requires 0 <= j < |b|
    ensures multiset(b[..j] + b[j + 1..]) == multiset(b) - multiset{b[j]}
  {
    assert b == b[..j] + [b[j]] + b[j + 1..];
  }

  /** Adding a line at the end raises the total by exactly that line's
      price times quantity. */
  lemma TotalAppend(items: seq<CartItem>, item: CartItem)
    ensures CalculateTotal(items + [item]) == CalculateTotal(items) + LineTotal(item)
  {
    SumConcat(items, [item]);
  }

  /** The total does not depend on the order of the lines. */
  lemma {:induction false} TotalIgnoresOrder(a: seq<CartItem>, b: seq<CartItem>)
    requires multiset(a) == multiset(b)
    ensures CalculateTotal(a) == CalculateTotal(b)
    decreases |a|
  {
    if |a| > 0 {
      var x := a[0];
      assert x in multiset(b);
      var j :| 0 <= j < |b| && b[j] == x;
      var rest := b[..j] + b[j + 1..];
      SumWithout(b, j);
      MultisetWithout(b, j);
      assert a == [x] + a[1..];
      assert multiset(a[1..]) == multiset(a) - multiset{x};
      TotalIgnoresOrder(a[1..], rest);
    }
  }

  /** With non-negative prices and quantities the total is non-negative. */
  lemma {:induction false} TotalNonNegative(items: seq<CartItem>)
    requires forall i :: 0 <= i < |items| ==> items[i].price >= 0.0 && items[i].quantity >= 0
    ensures CalculateTotal(items) >= 0.0
    decreases |items|
  {
    if |items| > 0 {
      TotalNonNegative(items[1..]);
      var x := items[0];
      assert x.price * x.quantity as real >= 0.0;
    }
  }

  /** The only action the cart page dispatches on "Clear All". What the cart
      reducer does with it is not part of this model. */
  datatype CartAction = ClearCart

  /** "No items to clear!" versus "Cart cleared successfully!". */
  datatype ClearOutcome = NothingToClear | Cleared

  /** What `clearAll` produces: its outcome, the actions it dispatched, the
      store afterwards and whether the success banner is showing. */
  datatype ClearResult = ClearResult(
    outcome: ClearOutcome,
    dispatched: seq<CartAction>,
    store: Store,
    alertVisible: bool)

  /** `clearAll`: refuses on an empty cart; otherwise dispatches `clearCart`,
      removes the stored cart and raises the success banner. */
  function ClearAll(items: seq<CartItem>, store: Store, alertVisible: bool): (r: ClearResult)
    ensures r.outcome == NothingToClear <==> |items| == 0
    ensures |items| == 0 ==> r.dispatched == [] && r.store == store && r.alertVisible == alertVisible
    ensures |items| > 0 ==> r.dispatched == [ClearCart] && r.alertVisible
    ensures |items| > 0 ==> CartKey !in r.store && AgreeOutside(store, r.store, {CartKey})
  {
    if |items| == 0 then ClearResult(NothingToClear, [], store, alertVisible)
    else ClearResult(Cleared, [ClearCart], store - {CartKey}, true)
  }

  /** What the cart page shows below its header. */
  datatype CartView =
    | EmptyNotice
    | ItemList(lines: seq<CartItem>, total: real)

  /** The page shows "No items in cart." for an empty cart, and otherwise the
      lines followed by the total. */
  function Render(items: seq<CartItem>): (v: CartView)
    ensures v.EmptyNotice? <==> |items| == 0
    ensures v.ItemList? ==> v.lines == items && v.total == Sum(items)
  {
    if |items| == 0 then EmptyNotice else ItemList(items, CalculateTotal(items))
  }
}
