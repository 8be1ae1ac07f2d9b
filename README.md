# Café till: menu, bill, mobile-number and admin checks

A model of the core of a console point-of-sale program for a café. Customers
register with a name and a mobile number, pick items from a numbered menu and
receive a bill; administrators log in and add, remove or re-price menu items.
The program keeps its state in a relational database. Here every table is an
in-memory sequence of rows, and each SQL statement the program issues is a
function over that sequence:

- `Catalog`: the `menu(id, name, price)` table as a `Menu` class holding a
  `seq<Row>` and the AUTO_INCREMENT counter. `LIMIT offset, 1`,
  `DELETE ... WHERE id = ?` and `UPDATE ... WHERE id = ?` are the recursive
  functions `Limit`, `DeleteWhereId` and `UpdatePriceWhereId`. `Matching`
  counts the rows a `WHERE id = ?` clause selects, which is the "rows
  affected" count.
- `Billing`: an `Order` line and the `Bill` class. The class invariant is
  that the running total equals the sum of the line totals. The program
  makes one bill at start-up and keeps it for the whole run.
- `Registration`: the `\d{10}` mobile-number check and the loop that asks
  again until the number is valid. The loop reads from a finite sequence of
  input lines.
- `Admins`: the credential lookup and the seeding of the default account.
- `Session`: the guard on the customer's menu choice, one step of the
  ordering loop, and two worked sessions.

Modelling assumption: the menu is read with `SELECT` statements that have no
`ORDER BY` (Main.java:66, 154). The model takes rows to come back in
ascending id order, which is insertion order. The number shown beside an item
is its 1-based position in that order. Remove and modify ask for an "Index"
but use the number typed as an id. The model reproduces this:
`GaplessIdsArePositions` shows that ids and positions agree whenever the ids
are exactly 1..n (true until a row other than the last is removed), and
`PositionsShiftButIdsDoNot` shows a case where they differ.

The model follows what the code checks, not what the data is meant to be.
`addItem` checks neither that the name is non-empty nor that the price is
non-negative. Quantities are not checked for positivity either. Order lines
are kept only in the in-memory bill; this program writes no `orders` rows.

## Model

| member | source | states |
|---|---|---|
| `Catalog.Limit` | Main.java:154-158 | `LIMIT offset, count` yields `min(count, rows - offset)` rows, none once the offset is past the end, and the k-th of them is row `offset + k` |
| `Catalog.Matching` | Main.java:107-108 | the number of rows `WHERE id = ?` selects (the rows-affected count) is at most the row count, and is positive iff some row carries the id |
| `Catalog.DeleteWhereIdCount` | Main.java:104-107 | `DELETE ... WHERE id = ?` removes exactly as many rows as the clause selects |
| `Catalog.DeleteWhereIdMembers` | Main.java:104-107 | after the delete, a row is in the table iff it was there before and its id differs from the one given |
| `Catalog.UpdatePriceWhereId` | Main.java:124-128 | the update keeps the table's length; each row whose id matches gets the new price and all other fields stay; every other row stays as it was |
| `Catalog.MatchingIsZeroOrOne` | Main.java:52 | `id` is the primary key, so `WHERE id = ?` matches exactly one row when some row has that id, otherwise none; this gives rows affected 1 or 0 |
| `Catalog.DeleteAbsent` | Main.java:104-112 | deleting an id that no row carries leaves the table unchanged (the "Invalid Index" case) |
| `Catalog.DeleteMatching` | Main.java:104-110 | deleting the id of the row at position i removes exactly that row; the rows before and after keep their order |
| `Catalog.DeleteKeepsAscending` | Main.java:104-107 | after a delete, the remaining rows are still in ascending id order |
| `Catalog.GaplessIdsArePositions` | Main.java:69-74 | whenever the ids are exactly 1..n (true until a row other than the last is removed), deleting the "Index" k removes exactly the row listed at position k |
| `Catalog.Menu.constructor` | Main.java:50-61 | a newly created menu table is empty and its counter starts at 1 |
| `Catalog.Menu.Open` | Main.java:50-61 | an existing table is used as it is, with its rows and counter |
| `Catalog.Menu.ItemCount` | Main.java:140-151 | `COUNT(*)` is the number of rows; positions 1..count are exactly the positions that `getItem` resolves to an item |
| `Catalog.Menu.GetItem` | Main.java:153-167 | `getItem(n)` gives name and price of the row at position n-1 when 1 <= n <= row count, and null otherwise (also for n < 1, where the store rejects the negative offset) |
| `Catalog.Menu.AddItem` | Main.java:89-93 | appends one row at the end with the counter's id, which no existing row carries; earlier rows unchanged; counter advances; ascending-id invariant kept |
| `Catalog.Menu.RemoveItem` | Main.java:104-113 | deletes by id; rows affected is 1 if a row had that id, else 0; success is reported iff rows affected > 0; on failure the table is unchanged, on success exactly that row is gone |
| `Catalog.Menu.ModifyPrice` | Main.java:124-134 | changes only the price of the row whose id matches; ids, names, order and other rows are unchanged; success iff a row matched |
| `Billing.Order.CalculateTotal` | Main.java:231-233 | the line total is `item.price * quantity` with no sign assumption on either factor: zero when either is zero, non-negative when both are, negative when the price is positive and the quantity negative |
| `Billing.SingleItemTotal` | Main.java:231-233 | lines that all carry one item add up to that item's price times the total quantity ordered |
| `Billing.SumOfTotalsConcat` | Main.java:270-273 | the sum of line totals over two consecutive runs of orders is the sum of the two sums |
| `Billing.Bill.constructor` | Main.java:259-263 | a new bill has no orders and total 0, which satisfies the total invariant |
| `Billing.Bill.SetCustomerDetails` | Main.java:265-268 | records the customer's name and mobile number |
| `Billing.Bill.AddOrder` | Main.java:270-273 | appends exactly one order at the end, leaves earlier orders unchanged, raises the total by the order's line total, and keeps total == sum of line totals |
| `Registration.MatchesDigitsIff` | Main.java:500 | the whole string matches `\d{n}` iff it has length n and every character is an ASCII digit |
| `Registration.IsValidMobileNumber` | Main.java:499-501 | valid iff exactly 10 characters, each in '0'..'9' (no '+', spaces or separators) |
| `Registration.SampleNumbers` | Main.java:499-501 | "12345", "12345678901", "123-456-7890" and "+919876543210" are rejected; "9876543210" is accepted |
| `Registration.GetValidatedMobileNumber` | Main.java:485-497 | returns the first valid line of the input and nothing before it is valid; returns none only when no line is valid |
| `Admins.Authenticate` | Main.java:209-214 | true iff some admins row has both username and password equal to the given strings |
| `Admins.SeededTableAdmitsOnlyDefault` | Main.java:478 | a table holding only the seeded row admits ("admin", "password") and no other pair |
| `Admins.AdminTable.constructor` | Main.java:468-476 | the admins table as it exists when the program starts |
| `Admins.AdminTable.SeedDefaultAdmin` | Main.java:477-479 | inserts ('admin', 'password') only when the table is empty; afterwards the table is non-empty and every credential accepted before is still accepted |
| `Session.SelectItem` | Main.java:431-441 | choice 0 exits; a choice outside 1..getItemCount() is "Invalid Choice"; otherwise the selected item is the row at that position and is never null |
| `Session.TakeOrder` | Main.java:428-447 | a valid choice appends one order for the selected item and quantity to the bill; exit and invalid choices leave the bill unchanged; the total invariant holds |
| `Session.ServeOnSharedBill` | Main.java:407-447 | as the program runs: the next customer's details overwrite the old ones on the one bill, and a valid choice appends their order after every earlier customer's lines, adding to the same total |
| `Session.SharedBillCarriesPreviousCustomer` | Main.java:407-455 | after one customer orders two coffees and the next three buns, the second customer's bill has both lines and totals 160, not 60 |
| `Session.StartCustomerBill` | Main.java:259-268 | a bill of the customer's own starts with no lines, total 0, and their name and number |
| `Session.SeparateBillsPerCustomer` | Main.java:407-455 | with a bill per customer, the second customer's bill has their one line and totals 60 |
| `Session.CoffeeAndBunBill` | Main.java:441-447 | with Coffee at 50 and Bun at 20, two coffees and three buns make a total of 160 |
| `Session.PositionsShiftButIdsDoNot` | Main.java:101-113 | after removing Coffee by its id, position 1 shows Bun, yet "Index" 1 removes nothing and reports "Invalid Index" |

## Left out

- The shared bill (see Findings): Main.java never resets its one `Bill` between customers. `ServeOnSharedBill` models that; the worked sessions use a fresh bill per customer. The full role loop that would chain customers is not modelled.
- Java's 32-bit `int`: the model uses unbounded integers, so `price * quantity`, `total +=` and the id counter do not wrap around.
- Database connection, `CREATE TABLE` statements, SQL text and `SQLException` handling (Main.java:50-61, 404, 463-465, 468-483). The one error path modelled is the negative `LIMIT` offset in `getItem`, which ends in the same null result. The `getItemCount` fallback of 0 after an error is not modelled.
- Column limits and defaults of the store: `VARCHAR(255)` length limits, and the store's string collation. The model compares admin credentials and ids exactly; a case-insensitive collation in the store is not modelled.
- Console I/O: prompts, `Scanner` parsing (including its exception on non-numeric input), `displayMenu`, `generateBill`, the "continue ordering (Y/N)" question and `System.exit`. Inputs become method parameters; `getValidatedMobileNumber` reads a finite sequence of lines, and running out of lines returns none (the program's `nextLine` would throw).
- `printBill` and `PrintableBill` (Main.java:301-398): host print-service calls and floating-point page geometry.
- `insertCustomer` (Main.java:503-515): the customer id comes from the database.
- The role loop and the admin-panel menu loop (Main.java:169-201, 410-462): interactive dispatch over `Scanner` input; the operations they call are modelled.
- `FoodItem.setPrice` (Main.java:34-36): never called.
- `Billing.Bill.constructor`: customer name and mobile number start as null in the program; the model starts them as empty strings.

## Findings

| source | as written | input that shows it | evidently intended | confidence | as-written member | corrected member |
|---|---|---|---|---|---|---|
| Main.java:407-455 | one `Bill` is created before the role loop and never replaced; after a customer answers "N" the loop takes the next customer, whose `setCustomerDetails` only overwrites name and number | customer 1 orders 2 × Coffee (50), customer 2 orders 3 × Bun (20): customer 2's bill shows both lines and a total of 160 | each customer gets a bill with only their own lines (total 60 for customer 2) | high; not executed | `Session.SharedBillCarriesPreviousCustomer` | `Session.SeparateBillsPerCustomer` |
