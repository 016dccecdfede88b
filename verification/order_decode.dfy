/**
 * Decoding one row of a result set into an order, an adult or a child
 * (getFullStudentOrder, fillStudentOrder, fillMariage, fillAdult, fillChild),
 * and what a decoded row gives back of what saveStudentOrder wrote.
 */
module OrderDecode {
  import opened Wrappers
  import opened Jdbc
  import opened Domain
  import opened OrderParams
  import opened AdultReads

  /** fillAdult: read an adult from the columns labelled with prefix `pref` ("h_" or "w_"). */
  function FillAdult(rs: ResultRow, pref: Prefix): Result<Adult, DaoError>
  {
    var surName :- GetString(rs, Prefixed(pref, SurName));
    var givenName :- GetString(rs, Prefixed(pref, GivenName));
    var patronymic :- GetString(rs, Prefixed(pref, Patronymic));
    var dayOfBirth :- GetDate(rs, Prefixed(pref, DateOfBirth));
    var seria :- GetString(rs, Prefixed(pref, PassportSeria));
    var number :- GetString(rs, Prefixed(pref, PassportNumber));
    var issueDate :- GetDate(rs, Prefixed(pref, PassportDate));
    var poId :- GetLong(rs, Prefixed(pref, PassportOfficeId));
    var poArea :- GetString(rs, Prefixed(pref, POfficeAreaId));
    var poName :- GetString(rs, Prefixed(pref, POfficeName));
    var streetCode :- GetLong(rs, Prefixed(pref, StreetCode));
    var postCode :- GetString(rs, Prefixed(pref, PostIndex));
    var building :- GetString(rs, Prefixed(pref, Building));
    var extension :- GetString(rs, Prefixed(pref, Extension));
    var apartment :- GetString(rs, Prefixed(pref, Appartment));
    var universityId :- GetLong(rs, Prefixed(pref, UniversityId));
    var studentId :- GetString(rs, Prefixed(pref, StudentNumber));
    var address := Address(postCode, Street(streetCode, ""), building, extension, apartment);
    Success(Adult(Person(surName, givenName, patronymic, dayOfBirth, address), seria, number, issueDate,
                  PassportOffice(poId, poArea, poName), University(universityId, ""), studentId))
  }

  /**
   * fillChild: the child's own columns carry prefix "c_"; its register office's
   * area and name are read from the unprefixed labels r_office_area_id and
   * r_office_name.
   */
  function FillChild(rs: ResultRow): Result<Child, DaoError>
  {
    FillChildWith(rs, Plain(ROfficeAreaId), Plain(ROfficeName))
  }

  /** fillChild reading the child's register-office area and name from the given labels. */
  function FillChildWith(rs: ResultRow, areaLabel: Col, nameLabel: Col): Result<Child, DaoError>
  {
    var surName :- GetString(rs, Prefixed(ChildPrefix, SurName));
    var givenName :- GetString(rs, Prefixed(ChildPrefix, GivenName));
    var patronymic :- GetString(rs, Prefixed(ChildPrefix, Patronymic));
    var dayOfBirth :- GetDate(rs, Prefixed(ChildPrefix, DateOfBirth));
    var certificate :- GetString(rs, Prefixed(ChildPrefix, CertificateNumber));
    var issueDate :- GetDate(rs, Prefixed(ChildPrefix, CertificateDate));
    var roId :- GetLong(rs, Prefixed(ChildPrefix, RegisterOfficeId));
    var roArea :- GetString(rs, areaLabel);
    var roName :- GetString(rs, nameLabel);
    var streetCode :- GetLong(rs, Prefixed(ChildPrefix, StreetCode));
    var postCode :- GetString(rs, Prefixed(ChildPrefix, PostIndex));
    var building :- GetString(rs, Prefixed(ChildPrefix, Building));
    var extension :- GetString(rs, Prefixed(ChildPrefix, Extension));
    var apartment :- GetString(rs, Prefixed(ChildPrefix, Appartment));
    var address := Address(postCode, Street(streetCode, ""), building, extension, apartment);
    Success(Child(Person(surName, givenName, patronymic, dayOfBirth, address), certificate, issueDate,
                  RegisterOffice(roId, roArea, roName)))
  }

  /** getFullStudentOrder: fillStudentOrder, fillMariage, then husband and wife; no children yet. */
  function GetFullStudentOrder(rs: ResultRow): Result<StudentOrder, DaoError>
  {
    var id :- GetLong(rs, Plain(StudentOrderId));
    var date :- GetTimestamp(rs, Plain(StudentOrderDate));
    var status :- GetLong(rs, Plain(StudentOrderStatus));
    var certificate :- GetString(rs, Plain(CertificateId));
    var marriageDate :- GetDate(rs, Plain(MarriageDate));
    var roId :- GetLong(rs, Plain(RegisterOfficeId));
    var roArea :- GetString(rs, Plain(ROfficeAreaId));
    var roName :- GetString(rs, Plain(ROfficeName));
    var husband :- FillAdult(rs, Husband);
    var wife :- FillAdult(rs, Wife);
    Success(StudentOrder(id, date, status, husband, wife, [], certificate, marriageDate,
                         RegisterOffice(roId, roArea, roName)))
  }

  /**
   * How the child's register-office join (ro_c) is labelled in SELECT_ORDERS_FULL:
   * AsWritten keeps r_office_area_id and r_office_name, the labels the marriage
   * office's join (ro) already carries; Aliased renames them c_r_office_area_id
   * and c_r_office_name.
   */
  datatype Layout = AsWritten | Aliased

  function ChildOfficeArea(layout: Layout): Col
  {
    if layout == AsWritten then Plain(ROfficeAreaId) else Prefixed(ChildPrefix, ROfficeAreaId)
  }

  function ChildOfficeName(layout: Layout): Col
  {
    if layout == AsWritten then Plain(ROfficeName) else Prefixed(ChildPrefix, ROfficeName)
  }

  /** The column labels of one SELECT_ORDERS_FULL row: so.*, the three office joins, soc.*, ro_c. */
  function SelectLabels(layout: Layout): seq<Col>
  {
    [Plain(StudentOrderId)] + InsertOrderColumns
    + [Plain(ROfficeAreaId), Plain(ROfficeName),
       Prefixed(Husband, POfficeAreaId), Prefixed(Husband, POfficeName),
       Prefixed(Wife, POfficeAreaId), Prefixed(Wife, POfficeName)]
    + InsertChildColumns
    + [ChildOfficeArea(layout), ChildOfficeName(layout)]
  }

  /**
   * One SELECT_ORDERS_FULL row for a stored order (key `id`, stored header
   * values), the directory entries its joins pick up, and one stored child row.
   */
  function SelectOrdersFullRow(layout: Layout, id: int, header: seq<Value>, ro: RegisterOffice,
                               hpo: PassportOffice, wpo: PassportOffice,
                               child: seq<Value>, roc: RegisterOffice): ResultRow
  {
    ResultRow(SelectLabels(layout),
      [Num(id)] + header
      + [Str(ro.officeAreaId), Str(ro.officeName),
         Str(hpo.officeAreaId), Str(hpo.officeName),
         Str(wpo.officeAreaId), Str(wpo.officeName)]
      + child
      + [Str(roc.officeAreaId), Str(roc.officeName)])
  }

  /** What reading an adult back loses: the street's and the university's names. */
  function ReadableAdult(a: Adult): Adult
  {
    a.(person := a.person.(address := a.person.address.(street := Street(a.person.address.street.streetCode, ""))),
       university := University(a.university.universityId, ""))
  }

  /** What reading a child back loses: the street's name. */
  function ReadableChild(c: Child): Child
  {
    c.(person := c.person.(address := c.person.address.(street := Street(c.person.address.street.streetCode, ""))))
  }

  /**
   * The row the one-select query returns for order `so` stored under key `id`
   * at time `now` and its child `c`, when every join finds the directory entry
   * the order refers to.
   */
  function StoredRow(layout: Layout, id: int, so: StudentOrder, now: Timestamp, c: Child): ResultRow
  {
    SelectOrdersFullRow(layout, id, HeaderValues(so, now), so.marriageOffice,
                        so.husband.issueDepartment, so.wife.issueDepartment,
                        ChildRowValues(c, id), c.issueDepartment)
  }

  /** The adult whose columns carry prefix p. */
  function AdultOf(so: StudentOrder, p: Prefix): Adult
  {
    if p == Husband then so.husband else so.wife
  }

  /** Index of an adult's first column in a SELECT_ORDERS_FULL row (husband 3..17, wife 18..32). */
  function AdultOffset(p: Prefix): nat
  {
    if p == Husband then 3 else 18
  }

  /** Index of an adult's passport-office area column (name follows it). */
  function OfficeOffset(p: Prefix): nat
  {
    if p == Husband then 38 else 40
  }

  /** Columns 3..32 are the husband's and the wife's. */
  lemma AdultBlocks(layout: Layout)
    ensures forall j | 3 <= j < 18 :: SelectLabels(layout)[j] == Prefixed(Husband, AdultNames[j - 3])
    ensures forall j | 18 <= j < 33 :: SelectLabels(layout)[j] == Prefixed(Wife, AdultNames[j - 18])
  {
  }

  /** Columns 0..2 and 33..42 are the order's own, its joins' and the child row's order id. */
  lemma PlainBlocks(layout: Layout)
    ensures var labels := SelectLabels(layout);
      && labels[0] == Plain(StudentOrderId) && labels[1] == Plain(StudentOrderStatus) && labels[2] == Plain(StudentOrderDate)
      && labels[33] == Plain(CertificateId) && labels[34] == Plain(RegisterOfficeId) && labels[35] == Plain(MarriageDate)
      && labels[36] == Plain(ROfficeAreaId) && labels[37] == Plain(ROfficeName)
      && labels[38] == Prefixed(Husband, POfficeAreaId) && labels[39] == Prefixed(Husband, POfficeName)
      && labels[40] == Prefixed(Wife, POfficeAreaId) && labels[41] == Prefixed(Wife, POfficeName)
      && labels[42] == Plain(StudentOrderId)
  {
  }

  /** The values of a stored row, column by column. */
  lemma RowValues(layout: Layout, id: int, so: StudentOrder, now: Timestamp, c: Child)
    ensures var v := StoredRow(layout, id, so, now, c).values;
      && |v| == 57
      && v[0] == Num(id) && v[1] == Num(START) && v[2] == Stamp(now)
      && v[3..18] == AdultValues(so.husband) && v[18..33] == AdultValues(so.wife)
      && v[33] == Str(so.marriageCertificateId) && v[34] == Num(so.marriageOffice.officeId)
      && v[35] == DateValue(so.marriageDate)
      && v[36] == Str(so.marriageOffice.officeAreaId) && v[37] == Str(so.marriageOffice.officeName)
      && v[38] == Str(so.husband.issueDepartment.officeAreaId) && v[39] == Str(so.husband.issueDepartment.officeName)
      && v[40] == Str(so.wife.issueDepartment.officeAreaId) && v[41] == Str(so.wife.issueDepartment.officeName)
      && v[42] == Num(id) && v[43..55] == ChildValues(c)
      && v[55] == Str(c.issueDepartment.officeAreaId) && v[56] == Str(c.issueDepartment.officeName)
  {
    var v := StoredRow(layout, id, so, now, c).values;
    var h := HeaderValues(so, now);
    HeaderShape(so, now);
    ChildRowShape(c, id);
    assert v[1..36] == h;
    HeaderPart(v[1..36], so, now);
    assert v[42..55] == ChildRowValues(c, id);
  }

  /** Slots of the header statement, as columns 1..35 of the row. */
  lemma HeaderPart(h: seq<Value>, so: StudentOrder, now: Timestamp)
    requires h == HeaderValues(so, now)
    ensures |h| == 35 && h[0] == Num(START) && h[1] == Stamp(now)
    ensures h[2..17] == AdultValues(so.husband) && h[17..32] == AdultValues(so.wife)
    ensures h[32] == Str(so.marriageCertificateId) && h[33] == Num(so.marriageOffice.officeId)
    ensures h[34] == DateValue(so.marriageDate)
  {
    HeaderShape(so, now);
    assert h[32..] == MarriageValues(so);
  }

  /**
   * The labels of columns 0..42 of a SELECT_ORDERS_FULL row, as lookups by
   * label see them: the order's own and its joins' columns one by one, and
   * the adults' columns by the rank of their names.
   */
  ghost predicate OrderLabels(labels: seq<Col>)
  {
    && |labels| == 57
    && labels[0] == Plain(StudentOrderId) && labels[1] == Plain(StudentOrderStatus) && labels[2] == Plain(StudentOrderDate)
    && (forall j | 3 <= j < 18 :: labels[j].Prefixed? && labels[j].prefix == Husband && AdultRank(labels[j].name) == j - 3)
    && (forall j | 18 <= j < 33 :: labels[j].Prefixed? && labels[j].prefix == Wife && AdultRank(labels[j].name) == j - 18)
    && labels[33] == Plain(CertificateId) && labels[34] == Plain(RegisterOfficeId) && labels[35] == Plain(MarriageDate)
    && labels[36] == Plain(ROfficeAreaId) && labels[37] == Plain(ROfficeName)
    && labels[38] == Prefixed(Husband, POfficeAreaId) && labels[39] == Prefixed(Husband, POfficeName)
    && labels[40] == Prefixed(Wife, POfficeAreaId) && labels[41] == Prefixed(Wife, POfficeName)
    && labels[42] == Plain(StudentOrderId)
  }

  lemma LabelsShape(layout: Layout)
    ensures OrderLabels(SelectLabels(layout))
  {
    var labels := SelectLabels(layout);
    AdultNamesRanked();
    AdultBlocks(layout);
    PlainBlocks(layout);
    ChildBlock(layout);
    forall j | 3 <= j < 18 ensures AdultRank(labels[j].name) == j - 3 {
      assert labels[j].name == AdultNames[j - 3];
    }
    forall j | 18 <= j < 33 ensures AdultRank(labels[j].name) == j - 18 {
      assert labels[j].name == AdultNames[j - 18];
    }
  }

  /** The adult's i-th column is where the lookup by label lands. */
  lemma AdultColumnFirst(labels: seq<Col>, p: Prefix, i: nat)
    requires OrderLabels(labels) && p != ChildPrefix && i < |AdultNames|
    ensures FirstAt(labels, AdultOffset(p) + i, Prefixed(p, AdultNames[i]))
  {
    var o, n := AdultOffset(p), AdultNames[i];
    AdultNamesRanked();
    assert AdultRank(n) == i;
    AdultRankNames(labels[o + i].name);
    forall j | 0 <= j < o + i
      ensures labels[j] != Prefixed(p, n)
    {
      if 3 <= j < 33 {
        assert AdultRank(labels[j].name) != i || labels[j].prefix != p;
      }
    }
  }

  /** The passport-office join's columns are where the lookup by label lands. */
  lemma OfficeColumnsFirst(labels: seq<Col>, p: Prefix)
    requires OrderLabels(labels) && p != ChildPrefix
    ensures FirstAt(labels, OfficeOffset(p), Prefixed(p, POfficeAreaId))
    ensures FirstAt(labels, OfficeOffset(p) + 1, Prefixed(p, POfficeName))
  {
    forall j | 0 <= j < OfficeOffset(p) + 1
      ensures (j < OfficeOffset(p) ==> labels[j] != Prefixed(p, POfficeAreaId)) && labels[j] != Prefixed(p, POfficeName)
    {
      if 3 <= j < 33 {
        assert 0 <= AdultRank(labels[j].name);
      }
    }
  }

  /** The order's own columns are where the lookups by label land. */
  lemma OrderColumnsFirst(labels: seq<Col>)
    requires OrderLabels(labels)
    ensures FirstAt(labels, 0, Plain(StudentOrderId))
    ensures FirstAt(labels, 1, Plain(StudentOrderStatus))
    ensures FirstAt(labels, 2, Plain(StudentOrderDate))
    ensures FirstAt(labels, 33, Plain(CertificateId))
    ensures FirstAt(labels, 34, Plain(RegisterOfficeId))
    ensures FirstAt(labels, 35, Plain(MarriageDate))
    ensures FirstAt(labels, 36, Plain(ROfficeAreaId))
    ensures FirstAt(labels, 37, Plain(ROfficeName))
  {
    forall j | 3 <= j < 33 ensures labels[j].Prefixed? { }
  }

  /** Looking up the adult's i-th column in the stored row gives the i-th value setParamsForAdult bound. */
  lemma AdultGet(layout: Layout, id: int, so: StudentOrder, now: Timestamp, c: Child, p: Prefix, i: nat)
    requires p != ChildPrefix && i < |AdultNames|
    ensures Get(StoredRow(layout, id, so, now, c), Prefixed(p, AdultNames[i])) == Success(AdultValues(AdultOf(so, p))[i])
  {
    var rs, o := StoredRow(layout, id, so, now, c), AdultOffset(p);
    RowValues(layout, id, so, now, c);
    assert rs.values[o + i] == rs.values[o..o + 15][i];
    LabelsShape(layout);
    AdultColumnFirst(SelectLabels(layout), p, i);
    GetFirst(rs, Prefixed(p, AdultNames[i]), o + i);
  }

  /** Looking up the passport-office join's columns gives the adult's issuing office. */
  lemma OfficeGet(layout: Layout, id: int, so: StudentOrder, now: Timestamp, c: Child, p: Prefix)
    requires p != ChildPrefix
    ensures Get(StoredRow(layout, id, so, now, c), Prefixed(p, POfficeAreaId)) == Success(Str(AdultOf(so, p).issueDepartment.officeAreaId))
    ensures Get(StoredRow(layout, id, so, now, c), Prefixed(p, POfficeName)) == Success(Str(AdultOf(so, p).issueDepartment.officeName))
  {
    var rs := StoredRow(layout, id, so, now, c);
    RowValues(layout, id, so, now, c);
    LabelsShape(layout);
    OfficeColumnsFirst(SelectLabels(layout), p);
    GetFirst(rs, Prefixed(p, POfficeAreaId), OfficeOffset(p));
    GetFirst(rs, Prefixed(p, POfficeName), OfficeOffset(p) + 1);
  }

  /** An adult decodes from any row whose columns hold its values under prefix p. */
  lemma FillAdultFrom(rs: ResultRow, p: Prefix, a: Adult)
    requires p != ChildPrefix
    requires forall n {:trigger Get(rs, Prefixed(p, n))} | 0 <= AdultRank(n) < |AdultValues(a)| :: Get(rs, Prefixed(p, n)) == Success(AdultValues(a)[AdultRank(n)])
    requires Get(rs, Prefixed(p, POfficeAreaId)) == Success(Str(a.issueDepartment.officeAreaId))
    requires Get(rs, Prefixed(p, POfficeName)) == Success(Str(a.issueDepartment.officeName))
    ensures FillAdult(rs, p) == Success(ReadableAdult(a))
  {
    AdultPersonReads(rs, p, a);
    AdultPassportReads(rs, p, a);
    AdultAddressReads(rs, p, a);
    AdultStudentReads(rs, p, a);
  }

  /**
   * Reading the husband (slots 3..17) or the wife (slots 18..32) back from the
   * joined row gives the adult that was written, up to the street and
   * university names.
   */
  lemma ReadBackAdult(layout: Layout, id: int, so: StudentOrder, now: Timestamp, c: Child, p: Prefix)
    requires p != ChildPrefix
    ensures FillAdult(StoredRow(layout, id, so, now, c), p) == Success(ReadableAdult(AdultOf(so, p)))
  {
    var a := AdultOf(so, p);
    forall n | 0 <= AdultRank(n) < |AdultValues(a)|
      ensures Get(StoredRow(layout, id, so, now, c), Prefixed(p, n)) == Success(AdultValues(a)[AdultRank(n)])
    {
      AdultRankNames(n);
      AdultGet(layout, id, so, now, c, p, AdultRank(n));
    }
    OfficeGet(layout, id, so, now, c, p);
    FillAdultFrom(StoredRow(layout, id, so, now, c), p, AdultOf(so, p));
  }

  /** Looking up the order's own columns gives the values bound for the header, and the marriage office's join. */
  lemma OrderGet(layout: Layout, id: int, so: StudentOrder, now: Timestamp, c: Child)
    ensures var rs := StoredRow(layout, id, so, now, c);
      && Get(rs, Plain(StudentOrderId)) == Success(Num(id))
      && Get(rs, Plain(StudentOrderStatus)) == Success(Num(START))
      && Get(rs, Plain(StudentOrderDate)) == Success(Stamp(now))
      && Get(rs, Plain(CertificateId)) == Success(Str(so.marriageCertificateId))
      && Get(rs, Plain(RegisterOfficeId)) == Success(Num(so.marriageOffice.officeId))
      && Get(rs, Plain(MarriageDate)) == Success(DateValue(so.marriageDate))
      && Get(rs, Plain(ROfficeAreaId)) == Success(Str(so.marriageOffice.officeAreaId))
      && Get(rs, Plain(ROfficeName)) == Success(Str(so.marriageOffice.officeName))
  {
    var rs := StoredRow(layout, id, so, now, c);
    RowValues(layout, id, so, now, c);
    LabelsShape(layout);
    OrderColumnsFirst(SelectLabels(layout));
    GetFirst(rs, Plain(StudentOrderId), 0);
    GetFirst(rs, Plain(StudentOrderStatus), 1);
    GetFirst(rs, Plain(StudentOrderDate), 2);
    GetFirst(rs, Plain(CertificateId), 33);
    GetFirst(rs, Plain(RegisterOfficeId), 34);
    GetFirst(rs, Plain(MarriageDate), 35);
    GetFirst(rs, Plain(ROfficeAreaId), 36);
    GetFirst(rs, Plain(ROfficeName), 37);
  }

  /**
   * Reading the order back from a row of its joined result gives the order as
   * saveStudentOrder stored it: the key it was stored under, the timestamp and
   * the START status written in place of its own, both adults as ReadableAdult
   * sees them, no children yet, and the marriage fields and office.
   */
  lemma ReadBackOrder(layout: Layout, id: int, so: StudentOrder, now: Timestamp, c: Child)
    ensures GetFullStudentOrder(StoredRow(layout, id, so, now, c))
         == Success(StudentOrder(id, now, START, ReadableAdult(so.husband), ReadableAdult(so.wife), [],
                                 so.marriageCertificateId, so.marriageDate, so.marriageOffice))
  {
    var rs := StoredRow(layout, id, so, now, c);
    var o := StudentOrder(id, now, START, ReadableAdult(so.husband), ReadableAdult(so.wife), [],
                          so.marriageCertificateId, so.marriageDate, so.marriageOffice);
    ReadBackAdult(layout, id, so, now, c, Husband);
    assert FillAdult(rs, Husband) == Success(o.husband);
    ReadBackAdult(layout, id, so, now, c, Wife);
    assert FillAdult(rs, Wife) == Success(o.wife);
    OrderGet(layout, id, so, now, c);
    GetFullFrom(rs, o);
  }

  /** An order without children decodes from any row whose order columns and adults hold its fields. */
  lemma GetFullFrom(rs: ResultRow, o: StudentOrder)
    requires o.children == []
    requires Get(rs, Plain(StudentOrderId)) == Success(Num(o.studentOrderId))
    requires Get(rs, Plain(StudentOrderStatus)) == Success(Num(o.studentOrderStatus))
    requires Get(rs, Plain(StudentOrderDate)) == Success(Stamp(o.studentOrderDate))
    requires Get(rs, Plain(CertificateId)) == Success(Str(o.marriageCertificateId))
    requires Get(rs, Plain(RegisterOfficeId)) == Success(Num(o.marriageOffice.officeId))
    requires Get(rs, Plain(MarriageDate)) == Success(DateValue(o.marriageDate))
    requires Get(rs, Plain(ROfficeAreaId)) == Success(Str(o.marriageOffice.officeAreaId))
    requires Get(rs, Plain(ROfficeName)) == Success(Str(o.marriageOffice.officeName))
    requires FillAdult(rs, Husband) == Success(o.husband) && FillAdult(rs, Wife) == Success(o.wife)
    ensures GetFullStudentOrder(rs) == Success(o)
  {
  }

  /** Columns 42..56: soc.* (student_order_id, then the child's twelve), then ro_c's two. */
  lemma ChildBlock(layout: Layout)
    ensures |SelectLabels(layout)| == 57
    ensures SelectLabels(layout)[42] == Plain(StudentOrderId)
    ensures forall j | 43 <= j < 55 :: SelectLabels(layout)[j] == Prefixed(ChildPrefix, ChildNames[j - 43])
    ensures SelectLabels(layout)[55] == ChildOfficeArea(layout) && SelectLabels(layout)[56] == ChildOfficeName(layout)
  {
  }

  /** No column before the child's own carries the child prefix. */
  lemma NoChildPrefixBefore(labels: seq<Col>, n: Name)
    requires OrderLabels(labels)
    ensures forall j | 0 <= j < 43 :: labels[j] != Prefixed(ChildPrefix, n)
  {
    forall j | 0 <= j < 43 ensures labels[j] != Prefixed(ChildPrefix, n) {
      if 3 <= j < 33 {
        assert labels[j].prefix != ChildPrefix;
      }
    }
  }

  /** The child's i-th column is where the lookup by label lands. */
  lemma ChildColumnFirst(layout: Layout, i: nat)
    requires i < |ChildNames|
    ensures FirstAt(SelectLabels(layout), 43 + i, Prefixed(ChildPrefix, ChildNames[i]))
  {
    var labels := SelectLabels(layout);
    ChildNamesRanked();
    ChildBlock(layout);
    LabelsShape(layout);
    NoChildPrefixBefore(labels, ChildNames[i]);
    forall j | 43 <= j < 43 + i
      ensures labels[j] != Prefixed(ChildPrefix, ChildNames[i])
    {
      assert ChildRank(ChildNames[j - 43]) == j - 43;
    }
  }

  /** With ro_c aliased, its two columns are where the lookups by the aliased labels land. */
  lemma AliasedOfficeFirst()
    ensures FirstAt(SelectLabels(Aliased), 55, Prefixed(ChildPrefix, ROfficeAreaId))
    ensures FirstAt(SelectLabels(Aliased), 56, Prefixed(ChildPrefix, ROfficeName))
  {
    var labels := SelectLabels(Aliased);
    ChildNamesRanked();
    ChildBlock(Aliased);
    LabelsShape(Aliased);
    NoChildPrefixBefore(labels, ROfficeAreaId);
    NoChildPrefixBefore(labels, ROfficeName);
    forall j | 43 <= j < 55
      ensures labels[j] != Prefixed(ChildPrefix, ROfficeAreaId) && labels[j] != Prefixed(ChildPrefix, ROfficeName)
    {
      assert ChildRank(ChildNames[j - 43]) == j - 43;
    }
  }

  /** Looking up the child's i-th column in the stored row gives the i-th value setParamsForChild bound. */
  lemma ChildGet(layout: Layout, id: int, so: StudentOrder, now: Timestamp, c: Child, i: nat)
    requires i < |ChildNames|
    ensures Get(StoredRow(layout, id, so, now, c), Prefixed(ChildPrefix, ChildNames[i])) == Success(ChildValues(c)[i])
  {
    var rs := StoredRow(layout, id, so, now, c);
    RowValues(layout, id, so, now, c);
    assert rs.values[43 + i] == rs.values[43..55][i];
    ChildColumnFirst(layout, i);
    GetFirst(rs, Prefixed(ChildPrefix, ChildNames[i]), 43 + i);
  }

  /** A child decodes from any row whose columns hold its values, with the office area and name the given labels hold. */
  lemma FillChildFrom(rs: ResultRow, areaLabel: Col, nameLabel: Col, ch: Child, area: string, name: string)
    requires forall i | 0 <= i < |ChildNames| :: Get(rs, Prefixed(ChildPrefix, ChildNames[i])) == Success(ChildValues(ch)[i])
    requires Get(rs, areaLabel) == Success(Str(area)) && Get(rs, nameLabel) == Success(Str(name))
    ensures FillChildWith(rs, areaLabel, nameLabel)
         == Success(ReadableChild(ch).(issueDepartment := RegisterOffice(ch.issueDepartment.officeId, area, name)))
  {
    var vs := ChildValues(ch);
    ChildValuesAt(ch);
    assert Get(rs, Prefixed(ChildPrefix, ChildNames[0])) == Success(vs[0]);
    assert Get(rs, Prefixed(ChildPrefix, ChildNames[1])) == Success(vs[1]);
    assert Get(rs, Prefixed(ChildPrefix, ChildNames[2])) == Success(vs[2]);
    assert Get(rs, Prefixed(ChildPrefix, ChildNames[3])) == Success(vs[3]);
    assert Get(rs, Prefixed(ChildPrefix, ChildNames[4])) == Success(vs[4]);
    assert Get(rs, Prefixed(ChildPrefix, ChildNames[5])) == Success(vs[5]);
    assert Get(rs, Prefixed(ChildPrefix, ChildNames[6])) == Success(vs[6]);
    assert Get(rs, Prefixed(ChildPrefix, ChildNames[7])) == Success(vs[7]);
    assert Get(rs, Prefixed(ChildPrefix, ChildNames[8])) == Success(vs[8]);
    assert Get(rs, Prefixed(ChildPrefix, ChildNames[9])) == Success(vs[9]);
    assert Get(rs, Prefixed(ChildPrefix, ChildNames[10])) == Success(vs[10]);
    assert Get(rs, Prefixed(ChildPrefix, ChildNames[11])) == Success(vs[11]);
  }

  /** Every column of the child reads back from the stored row. */
  lemma ChildColumnsGet(layout: Layout, id: int, so: StudentOrder, now: Timestamp, c: Child)
    ensures forall i | 0 <= i < |ChildNames| ::
      Get(StoredRow(layout, id, so, now, c), Prefixed(ChildPrefix, ChildNames[i])) == Success(ChildValues(c)[i])
  {
    forall i | 0 <= i < |ChildNames|
      ensures Get(StoredRow(layout, id, so, now, c), Prefixed(ChildPrefix, ChildNames[i])) == Success(ChildValues(c)[i])
    {
      ChildGet(layout, id, so, now, c, i);
    }
  }

  /**
   * As the query is written, fillChild on a joined row gives the child that was
   * stored, except that its register office's area and name are the marriage
   * office's: r_office_area_id and r_office_name first label ro's columns.
   */
  lemma ReadBackChildAsWritten(id: int, so: StudentOrder, now: Timestamp, c: Child)
    ensures FillChild(StoredRow(AsWritten, id, so, now, c))
         == Success(ReadableChild(c).(issueDepartment := RegisterOffice(c.issueDepartment.officeId,
                                         so.marriageOffice.officeAreaId, so.marriageOffice.officeName)))
  {
    ChildColumnsGet(AsWritten, id, so, now, c);
    OrderGet(AsWritten, id, so, now, c);
    FillChildFrom(StoredRow(AsWritten, id, so, now, c), Plain(ROfficeAreaId), Plain(ROfficeName),
                  c, so.marriageOffice.officeAreaId, so.marriageOffice.officeName);
  }

  /**
   * So the child comes back intact exactly when its register office has the
   * marriage office's area and name.
   */
  lemma ChildOfficeMixup(id: int, so: StudentOrder, now: Timestamp, c: Child)
    ensures FillChild(StoredRow(AsWritten, id, so, now, c)) == Success(ReadableChild(c))
        <==> c.issueDepartment.officeAreaId == so.marriageOffice.officeAreaId
             && c.issueDepartment.officeName == so.marriageOffice.officeName
  {
    ReadBackChildAsWritten(id, so, now, c);
  }

  /** fillChild reading the child's office area and name from the labels ro_c carries under `layout`. */
  function FillChildIn(layout: Layout, rs: ResultRow): Result<Child, DaoError>
  {
    FillChildWith(rs, ChildOfficeArea(layout), ChildOfficeName(layout))
  }

  /** With ro_c aliased and fillChild reading the aliases, the child reads back as it was stored. */
  lemma ReadBackChild(id: int, so: StudentOrder, now: Timestamp, c: Child)
    ensures FillChildIn(Aliased, StoredRow(Aliased, id, so, now, c)) == Success(ReadableChild(c))
  {
    var rs := StoredRow(Aliased, id, so, now, c);
    ChildColumnsGet(Aliased, id, so, now, c);
    RowValues(Aliased, id, so, now, c);
    AliasedOfficeFirst();
    GetFirst(rs, Prefixed(ChildPrefix, ROfficeAreaId), 55);
    GetFirst(rs, Prefixed(ChildPrefix, ROfficeName), 56);
    FillChildFrom(rs, Prefixed(ChildPrefix, ROfficeAreaId), Prefixed(ChildPrefix, ROfficeName),
                  c, c.issueDepartment.officeAreaId, c.issueDepartment.officeName);
  }
}
