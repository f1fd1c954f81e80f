/**
  Invoice line items and the authoritative total. The server never takes a
  total from the caller: it folds the item amounts with
  `sum + (Number(it.amount) || 0)`, so an amount that does not coerce to a
  number adds nothing instead of failing the request.
 */
module Billing {
  import opened Base

  /**
    A line item as sent by the caller and stored verbatim. `amount` is the
    value `Number(it.amount)` coerces to, or `None` when that is NaN (a
    missing field, a non-numeric string, an object).
   */
  datatype Item = Item(description: string, amount: Option<real>)

  /** What one item adds to the total: NaN and zero both become 0. */
  function Contribution(it: Item): real
  {
    it.amount.GetOr(0.0)
  }

  /** Reference definition of the total: the sum of every item's contribution. */
  function Sum(items: seq<Item>): real
  {
    if items == [] then 0.0 else Contribution(items[0]) + Sum(items[1..])
  }

  /** The total of a concatenation is the sum of the totals. */
  lemma {:induction false} SumAppend(a: seq<Item>, b: seq<Item>)
    ensures Sum(a + b) == Sum(a) + Sum(b)
    decreases |a|
  {
    if a != [] {
      SumAppend(a[1..], b);
      assert (a + b)[1..] == a[1..] + b;
    } else {
      assert a + b == b;
    }
  }

  /** Items whose amount is missing or non-numeric do not change the total. */
  lemma {:induction false} SumSkipsNonNumeric(a: seq<Item>, description: string, b: seq<Item>)
    ensures Sum(a + [Item(description, None)] + b) == Sum(a + b)
  {
    SumAppend(a + [Item(description, None)], b);
    SumAppend(a, [Item(description, None)]);
    SumAppend(a, b);
  }

  /** With non-negative amounts, as the billing screen sends them, the total is non-negative. */
  lemma {:induction false} SumNonNegative(items: seq<Item>)
    requires forall i :: 0 <= i < |items| ==> items[i].amount.None? || items[i].amount.value >= 0.0
    ensures Sum(items) >= 0.0
    decreases |items|
  {
    if items != [] {
      SumNonNegative(items[1..]);
    }
  }

  /**
    `items.reduce((sum, it) => sum + (Number(it.amount) || 0), 0)`: a left
    fold, which computes the reference sum.
   */
  method Reduce(items: seq<Item>) returns (total: real)
    ensures total == Sum(items)
  {
    total := 0.0;
    var i := 0;
    while i < |items|
      invariant 0 <= i <= |items|
      invariant total == Sum(items[..i])
    {
      assert items[..i + 1] == items[..i] + [items[i]];
      SumAppend(items[..i], [items[i]]);
      total := total + Contribution(items[i]);
      i := i + 1;
    }
    assert items[..i] == items;
  }
}
