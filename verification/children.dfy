/**
 * StudentOrderDaoImpl.findChildren, on the two-query path: the orders are
 * indexed by id (Collectors.toMap), the children of all of them are
 * fetched with one query whose IN list is built from their ids, and every
 * child row is appended to the order with its id.
 *
 * The child table stands in for the database: the query keeps the rows
 * whose order id the IN list names, in table order.
 */
module Children {
  import opened Wrappers
  import opened Jdbc
  import opened Domain
  import opened IdList
  import Aggregation

  /** A row of jc_student_child joined with its register office, as fillChild decodes it. */
  datatype ChildRow = ChildRow(orderId: int, child: Child)

  predicate Distinct(ids: seq<int>)
  {
    forall i, j | 0 <= i < j < |ids| :: ids[i] != ids[j]
  }

  /** Indexing one more order, under an id not yet in the map, keeps the map in step with the list. */
  lemma IndexedSnoc(maps: map<int, nat>, init: seq<StudentOrder>, o: StudentOrder)
    requires Aggregation.Indexed(maps, init) && o.studentOrderId !in maps
    ensures Aggregation.Indexed(maps[o.studentOrderId := |init|], init + [o])
  {
    var ids, m := Aggregation.Ids(init + [o]), maps[o.studentOrderId := |init|];
    assert ids == Aggregation.Ids(init) + [o.studentOrderId];
    forall id ensures id in m <==> id in ids {
      assert id in ids <==> id in Aggregation.Ids(init) || id == o.studentOrderId;
    }
    forall id | id in m ensures m[id] == Aggregation.Find(ids, id) {
      Aggregation.FindAppend(Aggregation.Ids(init), o.studentOrderId, id);
    }
  }

  /** Collectors.toMap over the ids: it throws on the first id seen twice. */
  function IndexById(orders: seq<StudentOrder>): (r: Result<map<int, nat>, DaoError>)
    ensures r.Success? <==> Distinct(Aggregation.Ids(orders))
    ensures r.Success? ==> Aggregation.Indexed(r.value, orders)
    ensures r.Failure? ==> r.error.DuplicateKey?
  {
    if orders == [] then Success(map[])
    else
      var init := orders[..|orders| - 1];
      var id := orders[|orders| - 1].studentOrderId;
      assert Aggregation.Ids(orders) == Aggregation.Ids(init) + [id];
      match IndexById(init)
      case Failure(e) => Failure(e)
      case Success(m) =>
        if id in m then Failure(DuplicateKey(id))
        else
          assert orders == init + [orders[|orders| - 1]];
          IndexedSnoc(m, init, orders[|orders| - 1]);
          Success(m[id := |init|])
  }

  /** The rows SELECT_CHILD + list returns: None when the list does not parse, as "()" does not. */
  function SelectChild(table: seq<ChildRow>, list: string): Result<seq<ChildRow>, DaoError>
  {
    match ParseInList(list)
    case None => Failure(StorageFailure)
    case Some(ids) => Success(Selected(table, ids))
  }

  /** The rows of the table whose order id is one of ids, in table order. */
  function Selected(table: seq<ChildRow>, ids: seq<int>): (rows: seq<ChildRow>)
    ensures forall k | 0 <= k < |rows| :: rows[k].orderId in ids
  {
    if table == [] then []
    else
      var last := table[|table| - 1];
      Selected(table[..|table| - 1], ids) + (if last.orderId in ids then [last] else [])
  }

  /** The children of the rows with order id id, in row order. */
  function ChildrenFor(rows: seq<ChildRow>, id: int): seq<Child>
  {
    if rows == [] then []
    else
      var last := rows[|rows| - 1];
      ChildrenFor(rows[..|rows| - 1], id) + (if last.orderId == id then [last.child] else [])
  }

  /**
   * The attaching loop after `rows`: each row's child is appended to the
   * order with its id; a row whose id has no order makes maps.get return
   * null, and the loop stops there.
   */
  function Attach(orders: seq<StudentOrder>, rows: seq<ChildRow>): (r: Result<seq<StudentOrder>, DaoError>)
    ensures r.Success? ==> Aggregation.Ids(r.value) == Aggregation.Ids(orders)
  {
    if rows == [] then Success(orders)
    else
      var last := rows[|rows| - 1];
      match Attach(orders, rows[..|rows| - 1])
      case Failure(e) => Failure(e)
      case Success(o) =>
        var i := Aggregation.Find(Aggregation.Ids(orders), last.orderId);
        if i == |orders| then Failure(NoSuchOrder(last.orderId))
        else
          var o' := o[i := Aggregation.AddChild(o[i], last.child)];
          assert Aggregation.Ids(o') == Aggregation.Ids(o);
          Success(o')
  }

  /** Once the loop has failed, later rows change nothing. */
  lemma {:induction false} AttachFailed(orders: seq<StudentOrder>, rows: seq<ChildRow>, k: nat)
    requires k <= |rows| && Attach(orders, rows[..k]).Failure?
    ensures Attach(orders, rows) == Attach(orders, rows[..k])
  {
    if k < |rows| {
      assert rows[..|rows| - 1][..k] == rows[..k];
      AttachFailed(orders, rows[..|rows| - 1], k);
    } else {
      assert rows[..k] == rows;
    }
  }

  /** The while (rs.next()) loop of findChildren. */
  method AttachChildren(orders: seq<StudentOrder>, maps: map<int, nat>, rows: seq<ChildRow>)
    returns (r: Result<seq<StudentOrder>, DaoError>)
    requires Aggregation.Indexed(maps, orders)
    ensures r == Attach(orders, rows)
  {
    var result := orders;
    var k := 0;
    while k < |rows|
      invariant k <= |rows|
      invariant Attach(orders, rows[..k]) == Success(result)
    {
      var row := rows[k];
      assert rows[..k + 1][..k] == rows[..k];
      if row.orderId !in maps {
        AttachFailed(orders, rows, k + 1);
        return Failure(NoSuchOrder(row.orderId));
      }
      var i := maps[row.orderId];
      result := result[i := Aggregation.AddChild(result[i], row.child)];
      k := k + 1;
    }
    assert rows[..k] == rows;
    return Success(result);
  }

  /** Every row names one of the ids. */
  predicate Known(rows: seq<ChildRow>, ids: seq<int>)
  {
    forall k | 0 <= k < |rows| :: rows[k].orderId in ids
  }

  lemma KnownSnoc(rows: seq<ChildRow>, ids: seq<int>)
    requires rows != []
    ensures Known(rows, ids) <==> Known(rows[..|rows| - 1], ids) && rows[|rows| - 1].orderId in ids
  {
    assert forall k | 0 <= k < |rows| - 1 :: rows[..|rows| - 1][k] == rows[k];
  }

  /** The loop succeeds exactly when every row has an order. */
  lemma {:induction false} AttachSucceeds(orders: seq<StudentOrder>, rows: seq<ChildRow>)
    ensures Attach(orders, rows).Success? <==> Known(rows, Aggregation.Ids(orders))
  {
    if rows != [] {
      var init := rows[..|rows| - 1];
      AttachSucceeds(orders, init);
      KnownSnoc(rows, Aggregation.Ids(orders));
    }
  }

  /** With distinct ids, a successful loop has added to each order exactly the children of its rows. */
  lemma {:induction false} AttachContents(orders: seq<StudentOrder>, rows: seq<ChildRow>)
    requires Distinct(Aggregation.Ids(orders)) && Attach(orders, rows).Success?
    ensures var o := Attach(orders, rows).value;
            |o| == |orders| &&
            forall i | 0 <= i < |orders| ::
              o[i] == orders[i].(children := orders[i].children + ChildrenFor(rows, orders[i].studentOrderId))
  {
    if rows != [] {
      var init, last := rows[..|rows| - 1], rows[|rows| - 1];
      AttachContents(orders, init);
      var o := Attach(orders, rows).value;
      var oi := Attach(orders, init).value;
      var ids := Aggregation.Ids(orders);
      var j := Aggregation.Find(ids, last.orderId);
      assert o == oi[j := Aggregation.AddChild(oi[j], last.child)];
      forall i | 0 <= i < |orders|
        ensures o[i] == orders[i].(children := orders[i].children + ChildrenFor(rows, orders[i].studentOrderId))
      {
        assert ids[i] == orders[i].studentOrderId;
        if i != j {
          assert ids[j] == last.orderId;
        }
      }
    }
  }

  /** The query with the ids' list returns, for each of the ids, all its children. */
  lemma {:induction false} SelectedChildren(table: seq<ChildRow>, ids: seq<int>, id: int)
    requires id in ids
    ensures ChildrenFor(Selected(table, ids), id) == ChildrenFor(table, id)
  {
    if table != [] {
      SelectedChildren(table[..|table| - 1], ids, id);
      var s := Selected(table, ids);
      var last := table[|table| - 1];
      if last.orderId in ids {
        assert s[..|s| - 1] == Selected(table[..|table| - 1], ids);
      } else {
        assert s == Selected(table[..|table| - 1], ids);
      }
    }
  }

  /** findChildren itself. */
  method FindChildren(orders: seq<StudentOrder>, table: seq<ChildRow>) returns (r: Result<seq<StudentOrder>, DaoError>)
    ensures !Distinct(Aggregation.Ids(orders)) ==> r.Failure? && r.error.DuplicateKey?
    ensures Distinct(Aggregation.Ids(orders)) && orders == [] ==> r == Failure(StorageFailure)
    ensures Distinct(Aggregation.Ids(orders)) && orders != [] ==>
              && r.Success? && |r.value| == |orders|
              && forall i | 0 <= i < |orders| ::
                   r.value[i] == orders[i].(children := orders[i].children + ChildrenFor(table, orders[i].studentOrderId))
  {
    var ids := Aggregation.Ids(orders);
    var cl := InList(ids);
    var maps := IndexById(orders);
    if maps.Failure? {
      return Failure(maps.error);
    }
    InListRoundTrip(ids);
    var rows := SelectChild(table, cl);
    if rows.Failure? {
      return Failure(rows.error);
    }
    r := AttachChildren(orders, maps.value, rows.value);
    AttachSucceeds(orders, rows.value);
    AttachContents(orders, rows.value);
    forall i | 0 <= i < |orders|
      ensures ChildrenFor(rows.value, orders[i].studentOrderId) == ChildrenFor(table, orders[i].studentOrderId)
    {
      assert ids[i] == orders[i].studentOrderId;
      SelectedChildren(table, ids, orders[i].studentOrderId);
    }
  }
}
