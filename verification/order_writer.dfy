/**
 * StudentOrderDaoImpl.saveStudentOrder and saveChildren: the header insert,
 * its generated key, the child batch and the transaction around them.
 *
 * The database is a Connection holding the committed rows of
 * jc_student_order and jc_student_child, the rows the open transaction has
 * written but not committed, and the key sequence (which, as a PostgreSQL
 * sequence, is not rolled back). Which statements fail is given as a
 * parameter, since the database decides it.
 */
module OrderWriter {
  import opened Wrappers
  import opened Jdbc
  import opened Domain
  import opened OrderParams

  /** A row of jc_student_order: its generated key and the 35 values of INSERT_ORDER. */
  datatype StoredOrder = StoredOrder(id: int, values: seq<Value>)

  /** Which steps of one save the database lets fail, and whether getGeneratedKeys returns a row. */
  datatype Faults = Faults(insertFails: bool, keyReturned: bool, batchFails: bool, commitFails: bool)

  class Connection {
    var autoCommit: bool
    var orders: seq<StoredOrder>
    var children: seq<seq<Value>>
    var pendingOrders: seq<StoredOrder>
    var pendingChildren: seq<seq<Value>>
    var nextKey: int

    /** A connection as ConnectionBuilder hands it out: auto-commit on, no open transaction. */
    constructor (orders: seq<StoredOrder>, children: seq<seq<Value>>, nextKey: int)
      ensures autoCommit && Idle()
      ensures this.orders == orders && this.children == children && this.nextKey == nextKey
    {
      autoCommit := true;
      this.orders := orders;
      this.children := children;
      pendingOrders := [];
      pendingChildren := [];
      this.nextKey := nextKey;
    }

    /** No uncommitted writes. */
    predicate Idle()
      reads this
    {
      pendingOrders == [] && pendingChildren == []
    }

    /** setAutoCommit: switching it on commits what is pending. */
    method SetAutoCommit(on: bool)
      modifies this
      ensures autoCommit == on && nextKey == old(nextKey)
      ensures if on then orders == old(orders) + old(pendingOrders) && children == old(children) + old(pendingChildren) && Idle()
              else orders == old(orders) && children == old(children)
                   && pendingOrders == old(pendingOrders) && pendingChildren == old(pendingChildren)
    {
      if on {
        orders := orders + pendingOrders;
        children := children + pendingChildren;
        pendingOrders := [];
        pendingChildren := [];
      }
      autoCommit := on;
    }

    /**
     * executeUpdate of INSERT_ORDER, then getGeneratedKeys: the row takes the
     * next key, which comes back unless the driver returns no key row.
     */
    method ExecuteInsert(values: seq<Value>, fails: bool, keyReturned: bool) returns (ok: bool, key: Option<int>)
      modifies this
      ensures ok == !fails && autoCommit == old(autoCommit) && children == old(children) && pendingChildren == old(pendingChildren)
      ensures fails ==> key == None && nextKey == old(nextKey) && orders == old(orders) && pendingOrders == old(pendingOrders)
      ensures !fails ==>
                && nextKey == old(nextKey) + 1
                && key == (if keyReturned then Some(old(nextKey)) else None)
                && if autoCommit then orders == old(orders) + [StoredOrder(old(nextKey), values)] && pendingOrders == old(pendingOrders)
                   else orders == old(orders) && pendingOrders == old(pendingOrders) + [StoredOrder(old(nextKey), values)]
    {
      if fails {
        return false, None;
      }
      var row := StoredOrder(nextKey, values);
      if autoCommit {
        orders := orders + [row];
      } else {
        pendingOrders := pendingOrders + [row];
      }
      key := if keyReturned then Some(nextKey) else None;
      nextKey := nextKey + 1;
      ok := true;
    }

    /** executeBatch of INSERT_CHILD: all the queued rows, or (on failure) none of them. */
    method ExecuteBatch(rows: seq<seq<Value>>, fails: bool) returns (ok: bool)
      modifies this
      ensures ok == !fails && autoCommit == old(autoCommit) && nextKey == old(nextKey)
      ensures orders == old(orders) && pendingOrders == old(pendingOrders)
      ensures fails ==> children == old(children) && pendingChildren == old(pendingChildren)
      ensures !fails ==>
                if autoCommit then children == old(children) + rows && pendingChildren == old(pendingChildren)
                else children == old(children) && pendingChildren == old(pendingChildren) + rows
    {
      if fails {
        return false;
      }
      if autoCommit {
        children := children + rows;
      } else {
        pendingChildren := pendingChildren + rows;
      }
      ok := true;
    }

    /** commit: the pending rows become committed; with auto-commit on, commit is refused. */
    method Commit(fails: bool) returns (ok: bool)
      modifies this
      ensures ok == (!fails && !old(autoCommit)) && autoCommit == old(autoCommit) && nextKey == old(nextKey)
      ensures ok ==> orders == old(orders) + old(pendingOrders) && children == old(children) + old(pendingChildren) && Idle()
      ensures !ok ==> orders == old(orders) && children == old(children)
                      && pendingOrders == old(pendingOrders) && pendingChildren == old(pendingChildren)
    {
      if fails || autoCommit {
        return false;
      }
      orders := orders + pendingOrders;
      children := children + pendingChildren;
      pendingOrders := [];
      pendingChildren := [];
      ok := true;
    }

    /** rollback: the pending rows are gone; the key sequence keeps its value. */
    method Rollback()
      modifies this
      ensures Idle() && autoCommit == old(autoCommit) && nextKey == old(nextKey)
      ensures orders == old(orders) && children == old(children)
    {
      pendingOrders := [];
      pendingChildren := [];
    }
  }

  /** The rows the child batch holds for an order saved under key soId, one per child, in order. */
  function ChildRows(cs: seq<Child>, soId: int): (rows: seq<seq<Value>>)
    ensures |rows| == |cs|
    ensures forall k | 0 <= k < |cs| :: |rows[k]| == ChildPlaceholders && rows[k][0] == Num(soId) && rows[k][1..] == ChildValues(cs[k])
  {
    seq(|cs|, k requires 0 <= k < |cs| => ChildRowValues(cs[k], soId))
  }

  /** Every slot of the statement set exactly n times. */
  ghost predicate WrittenTimes(st: PreparedStatement, n: int)
    reads st
  {
    forall k | 0 <= k < |st.writes| :: st.writes[k] == n
  }

  /** One pass of saveChildren's loop: slot 1 the order id, slots 2..13 the child, each set once. */
  method BindChildRow(st: PreparedStatement, child: Child, soId: int)
    requires st.Valid() && st.slots.Length == ChildPlaceholders
    modifies st, st.slots
    ensures st.Valid() && st.slots.Length == ChildPlaceholders && st.batch == old(st.batch)
    ensures st.AllBound() && st.Values() == ChildRowValues(child, soId)
    ensures forall k | 0 <= k < |st.writes| :: st.writes[k] == old(st.writes[k]) + 1
  {
    ghost var s0 := st.slots[..];
    st.Set(1, Num(soId));
    SetParamsForChild(st, child);
    FillFill(s0, 1, [Num(soId)], ChildValues(child));
    FillWhole(s0, ChildRowValues(child, soId));
    BoundInjective(st.Values(), ChildRowValues(child, soId));
  }

  /**
   * saveChildren: one batch row per child, slot 1 the order id and slots
   * 2..13 the child, each slot set once per row; then executeBatch.
   */
  method SaveChildren(con: Connection, so: StudentOrder, soId: int, batchFails: bool) returns (ok: bool)
    modifies con
    ensures ok == !batchFails && con.autoCommit == old(con.autoCommit) && con.nextKey == old(con.nextKey)
    ensures con.orders == old(con.orders) && con.pendingOrders == old(con.pendingOrders)
    ensures batchFails ==> con.children == old(con.children) && con.pendingChildren == old(con.pendingChildren)
    ensures !batchFails ==>
              if con.autoCommit then con.children == old(con.children) + ChildRows(so.children, soId) && con.pendingChildren == old(con.pendingChildren)
              else con.children == old(con.children) && con.pendingChildren == old(con.pendingChildren) + ChildRows(so.children, soId)
  {
    var st := new PreparedStatement(ChildPlaceholders);
    for i := 0 to |so.children|
      modifies st, st.slots
      invariant st.Valid() && st.slots.Length == ChildPlaceholders
      invariant st.batch == ChildRows(so.children[..i], soId)
      invariant WrittenTimes(st, i)
    {
      var child := so.children[i];
      BindChildRow(st, child, soId);
      st.AddBatch();
      assert ChildRows(so.children[..i + 1], soId) == ChildRows(so.children[..i], soId) + [ChildRowValues(child, soId)];
    }
    assert so.children[..|so.children|] == so.children;
    ok := con.ExecuteBatch(st.batch, batchFails);
  }

  /**
   * saveStudentOrder: auto-commit off, the header bound (status START, the
   * time `now`) and inserted, the children batched under the returned key
   * (-1 when none came back), then commit; any failure rolls back.
   */
  method SaveStudentOrder(con: Connection, so: StudentOrder, now: Timestamp, faults: Faults)
    returns (r: Result<int, DaoError>)
    requires con.Idle()
    modifies con
    ensures !con.autoCommit && con.Idle()
    ensures r.Success? <==> !faults.insertFails && !faults.batchFails && !faults.commitFails
    ensures r.Success? ==>
              && r.value == (if faults.keyReturned then old(con.nextKey) else -1)
              && con.orders == old(con.orders) + [StoredOrder(old(con.nextKey), HeaderValues(so, now))]
              && con.children == old(con.children) + ChildRows(so.children, r.value)
    ensures r.Failure? ==> r == Failure(StorageFailure) && con.orders == old(con.orders) && con.children == old(con.children)
    ensures con.nextKey == old(con.nextKey) + (if faults.insertFails then 0 else 1)
  {
    var result := -1;
    con.SetAutoCommit(false);
    var st := new PreparedStatement(OrderPlaceholders);
    BindHeader(st, so, now);
    var ok, key := con.ExecuteInsert(st.Values(), faults.insertFails, faults.keyReturned);
    if !ok {
      con.Rollback();
      return Failure(StorageFailure);
    }
    if key.Some? {
      result := key.value;
    }
    ok := SaveChildren(con, so, result, faults.batchFails);
    if !ok {
      con.Rollback();
      return Failure(StorageFailure);
    }
    ok := con.Commit(faults.commitFails);
    if !ok {
      con.Rollback();
      return Failure(StorageFailure);
    }
    return Success(result);
  }
}
