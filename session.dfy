/**
 * The customer ordering loop of the session driver: one menu choice at a
 * time, guarded by the item count before the positional lookup.
 */
module Session {
  import opened Wrappers
  import opened Catalog
  import opened Billing

  /** What one "Enter Your Choice" answer leads to. */
  datatype Selection = Exit | InvalidChoice | Selected(item: FoodItem)

  /**
   * 0 ends the session; a choice outside 1..getItemCount() is reported as
   * "Invalid Choice"; any other choice is looked up by position.  The guard is
   * what keeps the looked-up item from being null.
   */
  method SelectItem(menu: Menu, choice: int) returns (s: Selection)
    ensures s == Exit <==> choice == 0
    ensures s == InvalidChoice <==> choice != 0 && !(1 <= choice <= |menu.rows|)
    ensures s.Selected? ==> 1 <= choice <= |menu.rows| && s.item == ItemOf(menu.rows[choice - 1])
  {
    if choice == 0 {
      return Exit;
    }
    if choice < 1 || choice > menu.ItemCount() {
      return InvalidChoice;
    }
    var selected := menu.GetItem(choice);
    s := Selected(selected.value);
  }

  /** One pass of the ordering loop: select, then put `quantity` of the item in the cart. */
  method TakeOrder(menu: Menu, bill: Bill, choice: int, quantity: int) returns (s: Selection)
    requires bill.Valid()
    modifies bill
    ensures bill.Valid()
    ensures s == Exit <==> choice == 0
    ensures s == InvalidChoice <==> choice != 0 && !(1 <= choice <= |menu.rows|)
    ensures s.Selected? ==> 1 <= choice <= |menu.rows| && s.item == ItemOf(menu.rows[choice - 1])
    ensures s.Selected? ==> bill.orders == old(bill.orders) + [Order(s.item, quantity)]
                            && bill.total == old(bill.total) + s.item.price * quantity
    ensures !s.Selected? ==> bill.orders == old(bill.orders) && bill.total == old(bill.total)
    ensures bill.customerName == old(bill.customerName) && bill.mobileNumber == old(bill.mobileNumber)
  {
    s := SelectItem(menu, choice);
    if s.Selected? {
      bill.AddOrder(Order(s.item, quantity));
    }
  }

  /**
   * A customer's details go onto the bill and the next order is taken, as
   * Main.java does it: on the one bill made at start-up, so the lines of
   * every earlier customer stay on it and keep counting towards its total.
   */
  method ServeOnSharedBill(menu: Menu, bill: Bill, name: string, mobile: string,
                           choice: int, quantity: int) returns (s: Selection)
    requires bill.Valid()
    modifies bill
    ensures bill.Valid()
    ensures bill.customerName == name && bill.mobileNumber == mobile
    ensures s == Exit <==> choice == 0
    ensures s == InvalidChoice <==> choice != 0 && !(1 <= choice <= |menu.rows|)
    ensures s.Selected? ==> 1 <= choice <= |menu.rows| && s.item == ItemOf(menu.rows[choice - 1])
    ensures s.Selected? ==> bill.orders == old(bill.orders) + [Order(s.item, quantity)]
                            && bill.total == old(bill.total) + s.item.price * quantity
    ensures !s.Selected? ==> bill.orders == old(bill.orders) && bill.total == old(bill.total)
  {
    bill.SetCustomerDetails(name, mobile);
    s := TakeOrder(menu, bill, choice, quantity);
  }

  /**
   * Two customers one after the other on the shared bill: the first orders
   * two coffees at 50, the second three buns at 20.  The second customer's
   * bill lists both lines and totals 160 instead of their own 60.
   */
  method SharedBillCarriesPreviousCustomer() returns (secondLines: nat, secondTotal: int)
    ensures secondLines == 2 && secondTotal == 160
  {
    var menu := new Menu();
    var coffeeId := menu.AddItem("Coffee", 50);
    var bunId := menu.AddItem("Bun", 20);
    var bill := new Bill();
    var first := ServeOnSharedBill(menu, bill, "Asha", "9876543210", 1, 2);
    var second := ServeOnSharedBill(menu, bill, "Ravi", "9123456780", 2, 3);
    assert bill.orders == [Order(FoodItem("Coffee", 50), 2), Order(FoodItem("Bun", 20), 3)];
    secondLines, secondTotal := |bill.orders|, bill.total;
  }

  /** A bill of the customer's own: no lines, total 0, their name and number. */
  method StartCustomerBill(name: string, mobile: string) returns (bill: Bill)
    ensures fresh(bill) && bill.Valid()
    ensures bill.orders == [] && bill.total == 0
    ensures bill.customerName == name && bill.mobileNumber == mobile
  {
    bill := new Bill();
    bill.SetCustomerDetails(name, mobile);
  }

  /** With a bill per customer, the second customer pays for their own three buns only. */
  method SeparateBillsPerCustomer() returns (secondLines: nat, secondTotal: int)
    ensures secondLines == 1 && secondTotal == 60
  {
    var menu := new Menu();
    var coffeeId := menu.AddItem("Coffee", 50);
    var bunId := menu.AddItem("Bun", 20);
    var firstBill := StartCustomerBill("Asha", "9876543210");
    var first := TakeOrder(menu, firstBill, 1, 2);
    var secondBill := StartCustomerBill("Ravi", "9123456780");
    var second := TakeOrder(menu, secondBill, 2, 3);
    secondLines, secondTotal := |secondBill.orders|, secondBill.total;
  }

  /** Coffee at 50 and Bun at 20; two coffees and three buns come to 2*50 + 3*20. */
  method CoffeeAndBunBill() returns (total: int)
    ensures total == 160
  {
    var menu := new Menu();
    var coffeeId := menu.AddItem("Coffee", 50);
    var bunId := menu.AddItem("Bun", 20);
    var bill := StartCustomerBill("Asha", "9876543210");
    var first := TakeOrder(menu, bill, 1, 2);
    var second := TakeOrder(menu, bill, 2, 3);
    total := bill.total;
  }

  /**
   * Removing Coffee by its id moves Bun to position 1 of the listing, but
   * "Index" 1 typed afterwards is still read as an id, finds no row, and
   * leaves the table as it is.
   */
  method PositionsShiftButIdsDoNot() returns (firstShown: Option<FoodItem>, removedAgain: bool)
    ensures firstShown == Some(FoodItem("Bun", 20))
    ensures !removedAgain
  {
    var menu := new Menu();
    var coffeeId := menu.AddItem("Coffee", 50);
    var bunId := menu.AddItem("Bun", 20);
    var affected, removed := menu.RemoveItem(coffeeId);
    firstShown := menu.GetItem(1);
    affected, removedAgain := menu.RemoveItem(1);
  }
}
