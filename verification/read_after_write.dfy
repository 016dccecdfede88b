/**
 * What the one-query listing gives back of an order saveStudentOrder
 * committed: each joined row decodes to the stored header and one stored
 * child, and the rows of the order fold into the order with all its
 * children, unless the order has `limit` children or more. As written, each
 * child comes back with the marriage office's area and name; with ro_c
 * aliased and fillChild reading the aliases, it comes back as saved.
 */
module ReadAfterWrite {
  import opened Wrappers
  import opened Jdbc
  import opened Domain
  import opened OrderParams
  import opened OrderDecode
  import opened OrderWriter
  import Aggregation

  /** The header getFullStudentOrder reads for an order saved under key at time now. */
  function SavedHeader(so: StudentOrder, now: Timestamp, key: int): StudentOrder
  {
    StudentOrder(key, now, START, ReadableAdult(so.husband), ReadableAdult(so.wife), [],
                 so.marriageCertificateId, so.marriageDate, so.marriageOffice)
  }

  /**
   * The child as the query and fillChild as written give it back: the
   * register office keeps its id but takes the marriage office's area and
   * name, since the unaliased `r_office_*` labels resolve to the `ro` join.
   */
  function ListedChild(so: StudentOrder, c: Child): Child
  {
    ReadableChild(c).(issueDepartment := RegisterOffice(c.issueDepartment.officeId,
                                         so.marriageOffice.officeAreaId, so.marriageOffice.officeName))
  }

  /**
   * As written: the joined row for the k-th committed child row of an order
   * saved under key decodes to the saved header and that child, with the
   * marriage office's area and name on the child's register office.
   */
  lemma SavedRowReadsBackAsWritten(so: StudentOrder, now: Timestamp, key: int, k: nat)
    requires k < |so.children|
    ensures var row := SelectOrdersFullRow(AsWritten, key, HeaderValues(so, now), so.marriageOffice,
                                           so.husband.issueDepartment, so.wife.issueDepartment,
                                           ChildRows(so.children, key)[k], so.children[k].issueDepartment);
            && GetFullStudentOrder(row) == Success(SavedHeader(so, now, key))
            && FillChild(row) == Success(ListedChild(so, so.children[k]))
  {
    var c := so.children[k];
    assert ChildRows(so.children, key)[k] == ChildRowValues(c, key);
    ReadBackOrder(AsWritten, key, so, now, c);
    ReadBackChildAsWritten(key, so, now, c);
  }

  /**
   * With ro_c aliased and fillChild reading the aliases, the joined row for
   * the k-th committed child row decodes to the saved header and that child.
   */
  lemma SavedRowReadsBack(so: StudentOrder, now: Timestamp, key: int, k: nat)
    requires k < |so.children|
    ensures var row := SelectOrdersFullRow(Aliased, key, HeaderValues(so, now), so.marriageOffice,
                                           so.husband.issueDepartment, so.wife.issueDepartment,
                                           ChildRows(so.children, key)[k], so.children[k].issueDepartment);
            && GetFullStudentOrder(row) == Success(SavedHeader(so, now, key))
            && FillChildIn(Aliased, row) == Success(ReadableChild(so.children[k]))
  {
    var c := so.children[k];
    assert ChildRows(so.children, key)[k] == ChildRowValues(c, key);
    ReadBackOrder(Aliased, key, so, now, c);
    ReadBackChild(key, so, now, c);
  }

  /** The decoded rows of one order: its header with each of the decoded children, in child order. */
  function OrderRows(h: StudentOrder, cs: seq<Child>): (rows: seq<Aggregation.Row>)
    ensures |rows| == |cs|
  {
    seq(|cs|, k requires 0 <= k < |cs| => Aggregation.Row(h, cs[k]))
  }

  /** The children as the corrected query and decoder give them back. */
  function ReadableChildren(cs: seq<Child>): seq<Child>
  {
    seq(|cs|, k requires 0 <= k < |cs| => ReadableChild(cs[k]))
  }

  /** The children as the query and fillChild as written give them back. */
  function ListedChildren(so: StudentOrder): seq<Child>
  {
    seq(|so.children|, k requires 0 <= k < |so.children| => ListedChild(so, so.children[k]))
  }

  /**
   * Listing one order on its own: with fewer rows than the limit it comes
   * back with all its decoded children; an order with no children has no
   * joined row and is not listed; one with `limit` children or more is
   * dropped as possibly cut.
   */
  lemma OrderListedAlone(h: StudentOrder, cs: seq<Child>, limit: int)
    requires h.children == []
    ensures var r := Aggregation.OneSelect(OrderRows(h, cs), limit);
            && (|cs| < limit && cs != [] ==> r == Success([h.(children := cs)]))
            && (|cs| < limit && cs == [] ==> r == Success([]))
            && (|cs| >= limit && cs != [] ==> r == Success([]))
  {
    var rows := OrderRows(h, cs);
    if rows != [] {
      Aggregation.FoldOneOrder(rows, h);
      assert Aggregation.RowChildren(rows) == cs;
      assert h.children + cs == cs;
    }
  }

  /** With the corrected query and decoder, a saved order listed alone comes back whole. */
  lemma SavedOrderListed(so: StudentOrder, now: Timestamp, key: int, limit: int)
    ensures var h := SavedHeader(so, now, key);
            var r := Aggregation.OneSelect(OrderRows(h, ReadableChildren(so.children)), limit);
            && (|so.children| < limit && so.children != [] ==> r == Success([h.(children := ReadableChildren(so.children))]))
            && (|so.children| < limit && so.children == [] ==> r == Success([]))
            && (|so.children| >= limit && so.children != [] ==> r == Success([]))
  {
    OrderListedAlone(SavedHeader(so, now, key), ReadableChildren(so.children), limit);
  }

  /**
   * As written, a saved order listed alone comes back with every child, but
   * each child's register office carries the marriage office's area and name.
   */
  lemma SavedOrderListedAsWritten(so: StudentOrder, now: Timestamp, key: int, limit: int)
    ensures var h := SavedHeader(so, now, key);
            var r := Aggregation.OneSelect(OrderRows(h, ListedChildren(so)), limit);
            && (|so.children| < limit && so.children != [] ==> r == Success([h.(children := ListedChildren(so))]))
            && (|so.children| < limit && so.children == [] ==> r == Success([]))
            && (|so.children| >= limit && so.children != [] ==> r == Success([]))
  {
    OrderListedAlone(SavedHeader(so, now, key), ListedChildren(so), limit);
  }
}
