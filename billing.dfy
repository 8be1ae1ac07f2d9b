/**
 * The order/bill aggregator: order lines and the customer's running bill.
 * Arithmetic is on unbounded integers (see README for Java's 32-bit `int`).
 */
module Billing {
  import opened Catalog

  /** One line of the cart: an item and the quantity asked for (Main.java validates neither). */
  datatype Order = Order(item: FoodItem, quantity: int)
  {
    /**
     * The line total: unit price times quantity.  Neither factor is checked,
     * so a negative quantity gives a negative line that lowers the bill.
     */
    function CalculateTotal(): (t: int)
      ensures item.price == 0 || quantity == 0 ==> t == 0
      ensures item.price >= 0 && quantity >= 0 ==> t >= 0
      ensures item.price > 0 && quantity < 0 ==> t < 0
      ensures item.price > 0 && quantity > 0 ==> t >= quantity && t >= item.price
    {
      item.price * quantity
    }
  }

  /** The sum of the line totals of `orders`. */
  function SumOfTotals(orders: seq<Order>): int
  {
    if orders == [] then 0 else orders[0].CalculateTotal() + SumOfTotals(orders[1..])
  }

  /** The sum over a concatenation is the sum of the sums. */
  lemma {:induction false} SumOfTotalsConcat(a: seq<Order>, b: seq<Order>)
    ensures SumOfTotals(a + b) == SumOfTotals(a) + SumOfTotals(b)
  {
    if a == [] {
      assert a + b == b;
    } else {
      assert (a + b)[1..] == a[1..] + b;
      SumOfTotalsConcat(a[1..], b);
    }
  }

  /** The total quantity over `orders`. */
  function SumOfQuantities(orders: seq<Order>): int
  {
    if orders == [] then 0 else orders[0].quantity + SumOfQuantities(orders[1..])
  }

  /**
   * However many lines of one item a bill holds, their totals add up to the
   * item's price times the total quantity ordered.
   */
  lemma {:induction false} SingleItemTotal(item: FoodItem, orders: seq<Order>)
    requires forall k :: 0 <= k < |orders| ==> orders[k].item == item
    ensures SumOfTotals(orders) == item.price * SumOfQuantities(orders)
  {
    if orders != [] {
      SingleItemTotal(item, orders[1..]);
      var q, rest := orders[0].quantity, SumOfQuantities(orders[1..]);
      assert item.price * (q + rest) == item.price * q + item.price * rest;
    }
  }

  /**
   * The bill with its running total.  Main.java creates one at start-up and
   * keeps it for the whole run: every customer's orders go onto it.
   */
  class Bill {
    var orders: seq<Order>
    var total: int
    var customerName: string
    var mobileNumber: string

    /** The running total always equals the sum of the line totals. */
    ghost predicate Valid()
      reads this
    {
      total == SumOfTotals(orders)
    }

    /** An empty cart whose total is 0; no customer is attached yet. */
    constructor ()
      ensures Valid() && orders == [] && total == 0
      ensures customerName == "" && mobileNumber == ""
    {
      orders := [];
      total := 0;
      customerName := "";
      mobileNumber := "";
    }

    method SetCustomerDetails(name: string, mobile: string)
      modifies this`customerName, this`mobileNumber
      ensures customerName == name && mobileNumber == mobile
    {
      customerName := name;
      mobileNumber := mobile;
    }

    /** Appends one line at the end and adds its line total to the running total. */
    method AddOrder(order: Order)
      requires Valid()
      modifies this`orders, this`total
      ensures Valid()
      ensures orders == old(orders) + [order]
      ensures total == old(total) + order.CalculateTotal()
    {
      SumOfTotalsConcat(orders, [order]);
      orders := orders + [order];
      total := total + order.CalculateTotal();
    }
  }
}
