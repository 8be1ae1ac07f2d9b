/**
 * The catalog store: the `menu(id, name, price)` table held in memory.
 *
 * The table is a sequence of rows in ascending id order.  The program reads it
 * with `SELECT` statements that carry no `ORDER BY`; the model assumes that the
 * store returns rows in primary-key order, which is also insertion order since
 * ids come from an AUTO_INCREMENT counter.  The number shown beside an item in
 * the menu listing is its 1-based position in this sequence, not its id.
 */
module Catalog {
  import opened Wrappers

  /** What the customer workflow gets back from a lookup: a name and a unit price. */
  datatype FoodItem = FoodItem(name: string, price: int)

  /** One row of the `menu` table. */
  datatype Row = Row(id: int, name: string, price: int)

  function ItemOf(r: Row): FoodItem
  {
    FoodItem(r.name, r.price)
  }

  /** Rows come in strictly ascending id order; in particular ids are unique. */
  ghost predicate AscendingIds(rows: seq<Row>)
  {
    forall i, j :: 0 <= i < j < |rows| ==> rows[i].id < rows[j].id
  }

  predicate HasId(rows: seq<Row>, id: int)
  {
    exists i :: 0 <= i < |rows| && rows[i].id == id
  }

  /**
   * The rows a `LIMIT offset, count` clause lets through: the scan skips
   * `offset` rows and then yields rows until it has `count` of them or runs out.
   */
  function Limit(rows: seq<Row>, offset: nat, count: nat): (page: seq<Row>)
    ensures |page| == if offset >= |rows| then 0
                      else if count <= |rows| - offset then count
                      else |rows| - offset
    ensures forall k :: 0 <= k < |page| ==> page[k] == rows[offset + k]
  {
    if rows == [] || count == 0 then []
    else if offset > 0 then Limit(rows[1..], offset - 1, count)
    else [rows[0]] + Limit(rows[1..], 0, count - 1)
  }

  /** How many rows a `WHERE id = ?` clause selects. */
  function Matching(rows: seq<Row>, id: int): (m: nat)
    ensures m <= |rows|
    ensures m > 0 <==> HasId(rows, id)
  {
    if rows == [] then 0
    else
      assert forall k :: 1 <= k < |rows| ==> rows[1..][k - 1] == rows[k];
      (if rows[0].id == id then 1 else 0) + Matching(rows[1..], id)
  }

  /** `DELETE FROM menu WHERE id = ?`: the rows that survive, in their order. */
  function DeleteWhereId(rows: seq<Row>, id: int): seq<Row>
  {
    if rows == [] then []
    else (if rows[0].id == id then [] else [rows[0]]) + DeleteWhereId(rows[1..], id)
  }

  /** The delete takes out exactly as many rows as the `WHERE id = ?` clause selects. */
  lemma {:induction false} DeleteWhereIdCount(rows: seq<Row>, id: int)
    ensures |DeleteWhereId(rows, id)| == |rows| - Matching(rows, id)
  {
    if rows != [] {
      DeleteWhereIdCount(rows[1..], id);
    }
  }

  /** After the delete, a row is in the table iff it was there before and carries another id. */
  lemma {:induction false} DeleteWhereIdMembers(rows: seq<Row>, id: int)
    ensures forall r :: r in DeleteWhereId(rows, id) <==> r in rows && r.id != id
  {
    if rows != [] {
      DeleteWhereIdMembers(rows[1..], id);
      assert rows == [rows[0]] + rows[1..];
    }
  }

  /** `UPDATE menu SET price = ? WHERE id = ?`: the table afterwards. */
  function UpdatePriceWhereId(rows: seq<Row>, id: int, price: int): (updated: seq<Row>)
    ensures |updated| == |rows|
    ensures forall k :: 0 <= k < |rows| ==>
              updated[k] == if rows[k].id == id then rows[k].(price := price) else rows[k]
  {
    if rows == [] then []
    else [if rows[0].id == id then rows[0].(price := price) else rows[0]]
         + UpdatePriceWhereId(rows[1..], id, price)
  }

  /** Because id is a key, a `WHERE id = ?` clause selects one row or none. */
  lemma {:induction false} MatchingIsZeroOrOne(rows: seq<Row>, id: int)
    requires AscendingIds(rows)
    ensures Matching(rows, id) == if HasId(rows, id) then 1 else 0
  {
    if rows != [] {
      MatchingIsZeroOrOne(rows[1..], id);
      if rows[0].id == id {
        assert !HasId(rows[1..], id) by {
          forall i | 0 <= i < |rows[1..]| ensures rows[1..][i].id != id {
            assert rows[1..][i] == rows[i + 1];
          }
        }
      } else if HasId(rows, id) {
        var i :| 0 <= i < |rows| && rows[i].id == id;
        assert rows[1..][i - 1] == rows[i];
      } else {
        assert !HasId(rows[1..], id) by {
          forall i | 0 <= i < |rows[1..]| ensures rows[1..][i].id != id {
            assert rows[1..][i] == rows[i + 1];
          }
        }
      }
    }
  }

  /** Deleting an id no row carries leaves the table exactly as it was. */
  lemma {:induction false} DeleteAbsent(rows: seq<Row>, id: int)
    requires !HasId(rows, id)
    ensures DeleteWhereId(rows, id) == rows
  {
    if rows != [] {
      assert rows[0].id != id;
      assert !HasId(rows[1..], id) by {
        forall i | 0 <= i < |rows[1..]| ensures rows[1..][i].id != id {
          assert rows[1..][i] == rows[i + 1];
        }
      }
      DeleteAbsent(rows[1..], id);
      assert [rows[0]] + rows[1..] == rows;
    }
  }

  /** Dropping the first row keeps the rest in ascending id order. */
  lemma AscendingTail(rows: seq<Row>)
    requires AscendingIds(rows) && rows != []
    ensures AscendingIds(rows[1..])
  {
  }

  /** In ascending order no later row repeats the first row's id. */
  lemma FirstIdNotInTail(rows: seq<Row>)
    requires AscendingIds(rows) && rows != []
    ensures !HasId(rows[1..], rows[0].id)
  {
  }

  /**
   * Deleting the id of the row at position i removes that row and no other;
   * the rows before and after it keep their order.
   */
  lemma {:induction false} DeleteMatching(rows: seq<Row>, id: int, i: nat)
    requires AscendingIds(rows)
    requires i < |rows| && rows[i].id == id
    ensures DeleteWhereId(rows, id) == rows[..i] + rows[i + 1..]
  {
    var tail := rows[1..];
    AscendingTail(rows);
    if i == 0 {
      FirstIdNotInTail(rows);
      DeleteAbsent(tail, id);
      assert DeleteWhereId(rows, id) == DeleteWhereId(tail, id);
      assert rows[..0] + rows[1..] == tail;
    } else {
      assert rows[0].id != id by { assert rows[0].id < rows[i].id; }
      assert DeleteWhereId(rows, id) == [rows[0]] + DeleteWhereId(tail, id);
      assert tail[i - 1] == rows[i];
      DeleteMatching(tail, id, i - 1);
      assert tail[..i - 1] == rows[1..i] && tail[i..] == rows[i + 1..];
      assert [rows[0]] + rows[1..i] == rows[..i];
    }
  }

  /** Deleting rows keeps the remaining ones in ascending id order. */
  lemma {:induction false} DeleteKeepsAscending(rows: seq<Row>, id: int)
    requires AscendingIds(rows)
    ensures AscendingIds(DeleteWhereId(rows, id))
  {
    if rows != [] {
      var tail := DeleteWhereId(rows[1..], id);
      AscendingTail(rows);
      DeleteKeepsAscending(rows[1..], id);
      DeleteWhereIdMembers(rows[1..], id);
      if rows[0].id != id {
        var all := [rows[0]] + tail;
        forall b | 1 <= b < |all| ensures rows[0].id < all[b].id {
          assert all[b] == tail[b - 1] && tail[b - 1] in rows[1..];
        }
        assert DeleteWhereId(rows, id) == all;
      }
    }
  }

  /**
   * Whenever the ids are exactly 1, 2, ..., n (true until a row other than
   * the last is removed) the "Index" an administrator reads off the listing
   * names the row with that id, so deleting it removes exactly the row shown
   * at that position.
   */
  lemma GaplessIdsArePositions(rows: seq<Row>, index: int)
    requires forall k :: 0 <= k < |rows| ==> rows[k].id == k + 1
    requires 1 <= index <= |rows|
    ensures DeleteWhereId(rows, index) == rows[..index - 1] + rows[index..]
  {
    DeleteMatching(rows, index, index - 1);
  }

  /** The `menu` table together with its AUTO_INCREMENT counter. */
  class Menu {
    var rows: seq<Row>
    /** The id the next insert receives; within one server run ids are not reused. */
    var nextId: int

    ghost predicate Valid()
      reads this
    {
      AscendingIds(rows) && 1 <= nextId &&
      forall k :: 0 <= k < |rows| ==> 1 <= rows[k].id < nextId
    }

    /** A freshly created, empty table. */
    constructor ()
      ensures Valid() && rows == [] && nextId == 1
    {
      rows := [];
      nextId := 1;
    }

    /** A table that already exists, as `CREATE TABLE IF NOT EXISTS` finds it. */
    constructor Open(existing: seq<Row>, counter: int)
      requires AscendingIds(existing) && 1 <= counter
      requires forall k :: 0 <= k < |existing| ==> 1 <= existing[k].id < counter
      ensures Valid() && rows == existing && nextId == counter
    {
      rows := existing;
      nextId := counter;
    }

    /** `SELECT COUNT(*) FROM menu`: the positions 1..n are exactly those getItem resolves. */
    function ItemCount(): (n: nat)
      reads this
      ensures n == |rows|
      ensures forall index :: GetItem(index).Some? <==> 1 <= index <= n
    {
      |rows|
    }

    /**
     * `SELECT * FROM menu LIMIT index - 1, 1`: the item at 1-based position
     * `index`, or None (Java's null) when no row is there.  A position below 1
     * gives a negative offset, which the store rejects; the program catches that
     * error and also returns null.
     */
    function GetItem(index: int): (r: Option<FoodItem>)
      reads this
      ensures r.Some? <==> 1 <= index <= |rows|
      ensures r.Some? ==> r.value == ItemOf(rows[index - 1])
    {
      if index < 1 then None
      else
        var page := Limit(rows, index - 1, 1);
        if page == [] then None else Some(ItemOf(page[0]))
    }

    /** `INSERT INTO menu (name, price)`: one new row at the end with a fresh id. */
    method AddItem(name: string, price: int) returns (id: int)
      requires Valid()
      modifies this
      ensures Valid()
      ensures id == old(nextId) && !HasId(old(rows), id)
      ensures rows == old(rows) + [Row(id, name, price)]
      ensures nextId == old(nextId) + 1
    {
      id := nextId;
      rows := rows + [Row(id, name, price)];
      nextId := nextId + 1;
    }

    /**
     * `DELETE FROM menu WHERE id = ?` with the number the administrator typed
     * as "Index"; `removed` is the "Item Removed Successfully!" branch.
     */
    method RemoveItem(id: int) returns (affected: nat, removed: bool)
      requires Valid()
      modifies this`rows
      ensures Valid()
      ensures rows == DeleteWhereId(old(rows), id)
      ensures affected == (if HasId(old(rows), id) then 1 else 0)
      ensures removed <==> affected > 0
      ensures !removed ==> rows == old(rows)
      ensures removed ==> exists i :: 0 <= i < |old(rows)| && old(rows)[i].id == id &&
                                      rows == old(rows)[..i] + old(rows)[i + 1..]
    {
      ghost var before := rows;
      MatchingIsZeroOrOne(rows, id);
      DeleteKeepsAscending(rows, id);
      affected := Matching(rows, id);
      rows := DeleteWhereId(rows, id);
      removed := affected > 0;
      if removed {
        ghost var i :| 0 <= i < |before| && before[i].id == id;
        DeleteMatching(before, id, i);
      } else {
        DeleteAbsent(before, id);
      }
      DeleteWhereIdMembers(before, id);
      forall k | 0 <= k < |rows| ensures 1 <= rows[k].id < nextId {
        assert rows[k] in before;
      }
    }

    /**
     * `UPDATE menu SET price = ? WHERE id = ?` with the number typed as
     * "Index".  `affected` counts the rows the clause matched, so giving an
     * item its current price still reports "Price Modified Successfully!".
     */
    method ModifyPrice(id: int, newPrice: int) returns (affected: nat, modified: bool)
      requires Valid()
      modifies this`rows
      ensures Valid()
      ensures rows == UpdatePriceWhereId(old(rows), id, newPrice)
      ensures affected == (if HasId(old(rows), id) then 1 else 0)
      ensures modified <==> affected > 0
      ensures |rows| == |old(rows)|
      ensures forall k :: 0 <= k < |rows| ==>
                rows[k].id == old(rows)[k].id && rows[k].name == old(rows)[k].name &&
                rows[k].price == (if rows[k].id == id then newPrice else old(rows)[k].price)
    {
      MatchingIsZeroOrOne(rows, id);
      affected := Matching(rows, id);
      rows := UpdatePriceWhereId(rows, id, newPrice);
      modified := affected > 0;
    }
  }
}
