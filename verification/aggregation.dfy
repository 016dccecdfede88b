/**
 * StudentOrderDaoImpl.getStudentOrdersOneSelect: one joined row per child,
 * folded into orders. The first row of an order id builds the order, every
 * row appends its child to the order with its id, and when the query
 * returned `limit` rows or more the last order is dropped, since the limit
 * may have cut its children short.
 *
 * A row here is the pair getFullStudentOrder and fillChild decode from it;
 * its order id is the header's, as both read the first column labelled
 * student_order_id.
 */
module Aggregation {
  import opened Wrappers
  import opened Jdbc
  import opened Domain

  datatype Row = Row(header: StudentOrder, child: Child)

  function Key(r: Row): int
  {
    r.header.studentOrderId
  }

  /** The order ids of the rows, in row order. */
  function Keys(rows: seq<Row>): (ks: seq<int>)
    ensures |ks| == |rows| && forall i | 0 <= i < |rows| :: ks[i] == Key(rows[i])
  {
    seq(|rows|, i requires 0 <= i < |rows| => Key(rows[i]))
  }

  /** The ids of the orders, in list order. */
  function Ids(orders: seq<StudentOrder>): (ids: seq<int>)
    ensures |ids| == |orders| && forall i | 0 <= i < |orders| :: ids[i] == orders[i].studentOrderId
  {
    seq(|orders|, i requires 0 <= i < |orders| => orders[i].studentOrderId)
  }

  /** StudentOrder.addChild. */
  function AddChild(so: StudentOrder, c: Child): StudentOrder
  {
    so.(children := so.children + [c])
  }

  /** Position of the first occurrence of id in ids, |ids| when absent. */
  function Find(ids: seq<int>, id: int): (i: nat)
    ensures i <= |ids|
    ensures i < |ids| ==> ids[i] == id
    ensures forall j | 0 <= j < i :: ids[j] != id
    ensures i < |ids| <==> id in ids
  {
    if ids == [] then 0
    else if ids[0] == id then 0
    else 1 + Find(ids[1..], id)
  }

  /** One turn of the loop: append the row's child to its order, creating the order from this row if it is new. */
  function Step(orders: seq<StudentOrder>, r: Row): seq<StudentOrder>
  {
    var i := Find(Ids(orders), Key(r));
    if i < |orders| then orders[i := AddChild(orders[i], r.child)]
    else orders + [AddChild(r.header, r.child)]
  }

  /** The result list after the loop has consumed `rows`. */
  function Fold(rows: seq<Row>): seq<StudentOrder>
  {
    if rows == [] then [] else Step(Fold(rows[..|rows| - 1]), rows[|rows| - 1])
  }

  /**
   * What getStudentOrdersOneSelect returns: the folded orders, minus the last
   * one when the row counter reached `limit`. With no rows and a limit of at
   * most zero, LinkedList.remove(-1) throws.
   */
  function OneSelect(rows: seq<Row>, limit: int): Result<seq<StudentOrder>, DaoError>
  {
    var orders := Fold(rows);
    if |rows| >= limit then
      if orders == [] then Failure(IndexOutOfBounds) else Success(orders[..|orders| - 1])
    else Success(orders)
  }

  /** The map sends each id of the list, and nothing else, to the id's position. */
  ghost predicate Indexed(maps: map<int, nat>, orders: seq<StudentOrder>)
  {
    && (forall id :: id in maps <==> id in Ids(orders))
    && (forall id | id in maps :: maps[id] == Find(Ids(orders), id))
  }

  /** One turn of the loop, with the map's lookups, does what Step says and keeps the map in step with the list. */
  lemma StepByMap(orders: seq<StudentOrder>, maps: map<int, nat>, r: Row)
    requires Indexed(maps, orders)
    ensures var m1 := if Key(r) in maps then maps else maps[Key(r) := |orders|];
            var o1 := if Key(r) in maps then orders else orders + [r.header];
            && Key(r) in m1 && m1[Key(r)] < |o1|
            && o1[m1[Key(r)] := AddChild(o1[m1[Key(r)]], r.child)] == Step(orders, r)
            && Indexed(m1, Step(orders, r))
  {
    var k := Key(r);
    var i := Find(Ids(orders), k);
    if k in maps {
      assert Ids(Step(orders, r)) == Ids(orders);
    } else {
      assert i == |orders|;
      var o1 := orders + [r.header];
      assert Ids(Step(orders, r)) == Ids(orders) + [k];
      assert Ids(o1) == Ids(orders) + [k];
      forall id | id in maps[k := |orders|]
        ensures maps[k := |orders|][id] == Find(Ids(orders) + [k], id)
      {
        FindAppend(Ids(orders), k, id);
      }
    }
  }

  lemma {:induction false} FindAppend(ids: seq<int>, k: int, id: int)
    ensures Find(ids + [k], id) == if id in ids then Find(ids, id) else if id == k then |ids| else |ids| + 1
  {
    if ids != [] {
      assert (ids + [k])[1..] == ids[1..] + [k];
      FindAppend(ids[1..], k, id);
    }
  }

  /** The loop itself: the id-to-position map stands for Java's id-to-object map, whose values alias the list's. */
  method GetStudentOrdersOneSelect(rows: seq<Row>, limit: int) returns (r: Result<seq<StudentOrder>, DaoError>)
    ensures r == OneSelect(rows, limit)
  {
    var result: seq<StudentOrder> := [];
    var maps: map<int, nat> := map[];
    var counter := 0;
    while counter < |rows|
      invariant counter <= |rows|
      invariant result == Fold(rows[..counter])
      invariant Indexed(maps, result)
    {
      var row := rows[counter];
      var soId := Key(row);
      StepByMap(result, maps, row);
      if soId !in maps {
        maps := maps[soId := |result|];
        result := result + [row.header];
      }
      var i := maps[soId];
      result := result[i := AddChild(result[i], row.child)];
      assert rows[..counter + 1][..counter] == rows[..counter];
      counter := counter + 1;
    }
    assert rows[..counter] == rows;
    if counter >= limit {
      if |result| == 0 {
        return Failure(IndexOutOfBounds);
      }
      result := result[..|result| - 1];
    }
    return Success(result);
  }

  // ---------------------------------------------------------------------
  // A reference definition of the result: one order per distinct id, in
  // order of first appearance, carrying the header of the id's first row
  // and the children of all its rows.
  // ---------------------------------------------------------------------

  /** The distinct values of ks, each where it first appears. */
  function Dedup(ks: seq<int>): (d: seq<int>)
    ensures forall k :: k in d <==> k in ks
    ensures forall i, j | 0 <= i < j < |d| :: d[i] != d[j]
  {
    if ks == [] then []
    else
      var d := Dedup(ks[..|ks| - 1]);
      var k := ks[|ks| - 1];
      assert forall x :: x in ks <==> x in ks[..|ks| - 1] || x == k by {
        assert ks == ks[..|ks| - 1] + [k];
      }
      if k in d then d else d + [k]
  }

  /** The children of the rows with order id k, in row order. */
  function ChildrenOf(rows: seq<Row>, k: int): seq<Child>
  {
    if rows == [] then []
    else ChildrenOf(rows[..|rows| - 1], k) + (if Key(rows[|rows| - 1]) == k then [rows[|rows| - 1].child] else [])
  }

  /** The order the rows with id k make up. */
  function Group(rows: seq<Row>, k: int): (so: StudentOrder)
    requires k in Keys(rows)
    ensures so.studentOrderId == k
  {
    var h := rows[Find(Keys(rows), k)].header;
    h.(children := h.children + ChildrenOf(rows, k))
  }

  function Groups(rows: seq<Row>): (orders: seq<StudentOrder>)
    ensures Ids(orders) == Dedup(Keys(rows))
  {
    var d := Dedup(Keys(rows));
    var orders := seq(|d|, i requires 0 <= i < |d| => Group(rows, d[i]));
    assert Ids(orders) == d;
    orders
  }

  lemma KeysSnoc(rows: seq<Row>)
    requires rows != []
    ensures Keys(rows) == Keys(rows[..|rows| - 1]) + [Key(rows[|rows| - 1])]
    ensures Keys(rows)[..|rows| - 1] == Keys(rows[..|rows| - 1])
  {
  }

  lemma {:induction false} ChildrenOfAbsent(rows: seq<Row>, k: int)
    requires k !in Keys(rows)
    ensures ChildrenOf(rows, k) == []
  {
    if rows != [] {
      KeysSnoc(rows);
      ChildrenOfAbsent(rows[..|rows| - 1], k);
    }
  }

  lemma ChildrenOfSnoc(rows: seq<Row>, k: int)
    requires rows != []
    ensures var init, last := rows[..|rows| - 1], rows[|rows| - 1];
            ChildrenOf(rows, k) == ChildrenOf(init, k) + (if Key(last) == k then [last.child] else [])
  {
  }

  /** How one more row changes the order of an id. */
  lemma GroupSnoc(rows: seq<Row>, k: int)
    requires rows != [] && k in Keys(rows)
    ensures var init, last := rows[..|rows| - 1], rows[|rows| - 1];
            Group(rows, k) ==
              if k !in Keys(init) then AddChild(last.header, last.child)
              else if Key(last) == k then AddChild(Group(init, k), last.child)
              else Group(init, k)
  {
    var init, last := rows[..|rows| - 1], rows[|rows| - 1];
    KeysSnoc(rows);
    FindAppend(Keys(init), Key(last), k);
    ChildrenOfSnoc(rows, k);
    if k !in Keys(init) {
      ChildrenOfAbsent(init, k);
      GroupNew(rows, k);
    } else {
      GroupOld(rows, k);
    }
  }

  lemma GroupNew(rows: seq<Row>, k: int)
    requires rows != [] && k in Keys(rows)
    requires Find(Keys(rows), k) == |rows| - 1
    requires ChildrenOf(rows, k) == [rows[|rows| - 1].child]
    ensures Group(rows, k) == AddChild(rows[|rows| - 1].header, rows[|rows| - 1].child)
  {
  }

  lemma GroupOld(rows: seq<Row>, k: int)
    requires rows != [] && k in Keys(rows[..|rows| - 1])
    requires Find(Keys(rows), k) == Find(Keys(rows[..|rows| - 1]), k)
    requires ChildrenOf(rows, k) == ChildrenOf(rows[..|rows| - 1], k) + (if Key(rows[|rows| - 1]) == k then [rows[|rows| - 1].child] else [])
    ensures Group(rows, k) ==
              if Key(rows[|rows| - 1]) == k then AddChild(Group(rows[..|rows| - 1], k), rows[|rows| - 1].child)
              else Group(rows[..|rows| - 1], k)
  {
    var f := Find(Keys(rows), k);
    assert rows[f] == rows[..|rows| - 1][f];
  }

  /** The reference result after one more row is one more Step on the reference result before it. */
  lemma GroupsSnoc(rows: seq<Row>)
    requires rows != []
    ensures Groups(rows) == Step(Groups(rows[..|rows| - 1]), rows[|rows| - 1])
  {
    var init, last := rows[..|rows| - 1], rows[|rows| - 1];
    KeysSnoc(rows);
    if Key(last) in Keys(init) {
      GroupsSnocOld(rows);
    } else {
      GroupsSnocNew(rows);
    }
  }

  /** A row of an id seen before extends that id's order and leaves the others alone. */
  lemma GroupsSnocOld(rows: seq<Row>)
    requires rows != [] && Keys(rows) == Keys(rows[..|rows| - 1]) + [Key(rows[|rows| - 1])]
    requires Key(rows[|rows| - 1]) in Keys(rows[..|rows| - 1])
    ensures Groups(rows) == Step(Groups(rows[..|rows| - 1]), rows[|rows| - 1])
  {
    var init, last := rows[..|rows| - 1], rows[|rows| - 1];
    var k := Key(last);
    var d := Dedup(Keys(init));
    assert Dedup(Keys(rows)) == d;
    var g, g' := Groups(init), Groups(rows);
    var j := Find(Ids(g), k);
    assert d[j] == k;
    var s := Step(g, last);
    assert s == g[j := AddChild(g[j], last.child)];
    forall i | 0 <= i < |d| ensures g'[i] == s[i] {
      GroupSnoc(rows, d[i]);
    }
  }

  /** A row of a new id adds that id's order at the end. */
  lemma GroupsSnocNew(rows: seq<Row>)
    requires rows != [] && Keys(rows) == Keys(rows[..|rows| - 1]) + [Key(rows[|rows| - 1])]
    requires Key(rows[|rows| - 1]) !in Keys(rows[..|rows| - 1])
    ensures Groups(rows) == Step(Groups(rows[..|rows| - 1]), rows[|rows| - 1])
  {
    var init, last := rows[..|rows| - 1], rows[|rows| - 1];
    var k := Key(last);
    var d := Dedup(Keys(init));
    assert Dedup(Keys(rows)) == d + [k];
    var g, g' := Groups(init), Groups(rows);
    var s := Step(g, last);
    assert s == g + [AddChild(last.header, last.child)];
    forall i | 0 <= i < |d| + 1 ensures g'[i] == s[i] {
      GroupSnoc(rows, (d + [k])[i]);
    }
  }

  /** The loop builds exactly the reference result. */
  lemma {:induction false} FoldIsGroups(rows: seq<Row>)
    ensures Fold(rows) == Groups(rows)
  {
    if rows != [] {
      FoldIsGroups(rows[..|rows| - 1]);
      GroupsSnoc(rows);
    }
  }

  /** Rows whose order ids come sorted, as ORDER BY so.student_order_id returns them. */
  predicate SortedById(rows: seq<Row>)
  {
    forall i, j | 0 <= i <= j < |rows| :: Key(rows[i]) <= Key(rows[j])
  }

  predicate Ascending(ks: seq<int>)
  {
    forall i, j | 0 <= i <= j < |ks| :: ks[i] <= ks[j]
  }

  /** Of ascending ids, the last distinct one is the last one. */
  lemma {:induction false} DedupAscendingLast(ks: seq<int>)
    requires ks != [] && Ascending(ks)
    ensures Dedup(ks) != [] && Dedup(ks)[|Dedup(ks)| - 1] == ks[|ks| - 1]
  {
    var init, k := ks[..|ks| - 1], ks[|ks| - 1];
    if k in Dedup(init) {
      assert k in init;
      DedupAscendingLast(init);
    }
  }

  /** The distinct ids of a prefix are a prefix of the distinct ids. */
  lemma {:induction false} DedupPrefix(ks: seq<int>, m: nat)
    requires m <= |ks|
    ensures |Dedup(ks[..m])| <= |Dedup(ks)|
    ensures Dedup(ks[..m]) == Dedup(ks)[..|Dedup(ks[..m])|]
  {
    if m < |ks| {
      var init := ks[..|ks| - 1];
      assert init[..m] == ks[..m];
      DedupPrefix(init, m);
    } else {
      assert ks[..m] == ks;
    }
  }

  lemma {:induction false} FindPrefix(ids: seq<int>, m: nat, id: int)
    requires m <= |ids| && id in ids[..m]
    ensures Find(ids[..m], id) == Find(ids, id)
  {
    if ids[0] != id {
      assert ids[..m][1..] == ids[1..][..m - 1];
      FindPrefix(ids[1..], m - 1, id);
    }
  }

  lemma {:induction false} ChildrenOfPrefix(all: seq<Row>, m: nat, k: int)
    requires m <= |all|
    requires forall p | m <= p < |all| :: Key(all[p]) != k
    ensures ChildrenOf(all[..m], k) == ChildrenOf(all, k)
  {
    if m < |all| {
      var init := all[..|all| - 1];
      assert init[..m] == all[..m];
      ChildrenOfPrefix(init, m, k);
    } else {
      assert all[..m] == all;
    }
  }

  /** An id none of whose rows lies past the cut has the same order before and after it. */
  lemma GroupPrefix(all: seq<Row>, m: nat, k: int)
    requires m <= |all| && k in Keys(all[..m])
    requires forall p | m <= p < |all| :: Key(all[p]) != k
    ensures k in Keys(all) && Group(all[..m], k) == Group(all, k)
  {
    assert Keys(all[..m]) == Keys(all)[..m];
    FindPrefix(Keys(all), m, k);
    ChildrenOfPrefix(all, m, k);
    var f := Find(Keys(all), k);
    assert all[..m][f] == all[f];
  }

  /**
   * The query runs with LIMIT limit over rows sorted by order id, so the
   * loop sees the first min(limit, |all|) of them. Every order returned is
   * then complete, the returned orders are the first ones of the unlimited
   * result, and nothing is dropped when the limit was not reached.
   */
  lemma OneSelectComplete(all: seq<Row>, limit: int)
    requires SortedById(all) && limit >= 1
    ensures var m := if |all| < limit then |all| else limit;
            var r := OneSelect(all[..m], limit);
            && r.Success?
            && |r.value| <= |Groups(all)|
            && r.value == Groups(all)[..|r.value|]
            && (|all| < limit ==> r.value == Groups(all))
  {
    var m := if |all| < limit then |all| else limit;
    FoldIsGroups(all[..m]);
    if |all| < limit {
      assert all[..m] == all;
    } else {
      CutGroups(all, m);
    }
  }

  /**
   * Over rows sorted by id, the orders of a prefix are the first orders of
   * the whole, all of them but possibly the last one complete.
   */
  lemma CutGroups(all: seq<Row>, m: nat)
    requires SortedById(all) && 1 <= m <= |all|
    ensures var g := Groups(all[..m]);
            && g != [] && |g| <= |Groups(all)|
            && g[..|g| - 1] == Groups(all)[..|g| - 1]
  {
    var rows := all[..m];
    var ks := Keys(all);
    assert Keys(rows) == ks[..m];
    DedupPrefix(ks, m);
    assert Ascending(Keys(rows));
    DedupAscendingLast(Keys(rows));
    var d := Dedup(Keys(rows));
    var g := Groups(rows);
    forall i | 0 <= i < |d| - 1
      ensures g[i] == Groups(all)[i]
    {
      CutGroup(all, m, d[i]);
    }
  }

  /** An id of the prefix below its last id has all its rows inside the prefix. */
  lemma CutGroup(all: seq<Row>, m: nat, k: int)
    requires SortedById(all) && 1 <= m <= |all|
    requires k in Keys(all[..m]) && k != Key(all[m - 1])
    ensures k in Keys(all) && Group(all[..m], k) == Group(all, k)
  {
    var j :| 0 <= j < m && Keys(all[..m])[j] == k;
    assert all[j] == all[..m][j];
    assert k < Key(all[m - 1]);
    GroupPrefix(all, m, k);
  }

  /** The loop fails only when there are no rows and the limit is at most zero (LinkedList.remove(-1)). */
  lemma OneSelectFails(rows: seq<Row>, limit: int)
    ensures OneSelect(rows, limit).Failure? <==> rows == [] && limit <= 0
  {
    FoldIsGroups(rows);
    if rows != [] {
      assert Keys(rows)[0] in Dedup(Keys(rows));
    }
  }

  /** The children of the rows, in row order. */
  function RowChildren(rows: seq<Row>): (cs: seq<Child>)
    ensures |cs| == |rows| && forall k | 0 <= k < |rows| :: cs[k] == rows[k].child
  {
    seq(|rows|, k requires 0 <= k < |rows| => rows[k].child)
  }

  /** Rows that all carry the same header fold into that one order holding every row's child. */
  lemma {:induction false} FoldOneOrder(rows: seq<Row>, h: StudentOrder)
    requires rows != [] && forall k | 0 <= k < |rows| :: rows[k].header == h
    ensures Fold(rows) == [h.(children := h.children + RowChildren(rows))]
  {
    var init, last := rows[..|rows| - 1], rows[|rows| - 1];
    if init == [] {
      assert RowChildren(rows) == [last.child];
    } else {
      FoldOneOrder(init, h);
      var g := h.(children := h.children + RowChildren(init));
      assert Ids([g]) == [Key(last)];
      assert Find(Ids([g]), Key(last)) == 0;
      assert RowChildren(rows) == RowChildren(init) + [last.child];
      assert Fold(rows) == Step([g], last);
      assert Step([g], last) == [AddChild(g, last.child)];
      assert h.children + RowChildren(init) + [last.child] == h.children + RowChildren(rows);
    }
  }
}
