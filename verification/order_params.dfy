/**
 * Parameter layout of the two INSERT statements of StudentOrderDaoImpl and
 * the setParams* helpers that bind an order's fields to their numbered slots.
 */
module OrderParams {
  import opened Wrappers
  import opened Jdbc
  import opened Domain

  /** The 15 column names an adult occupies, in the order setParamsForAdult binds them. */
  const AdultNames: seq<Name> := [
    SurName, GivenName, Patronymic, DateOfBirth, PassportSeria, PassportNumber, PassportDate,
    PassportOfficeId, PostIndex, StreetCode, Building, Extension, Appartment, UniversityId, StudentNumber]

  /** The 12 column names a child occupies, in the order setParamsForChild binds them. */
  const ChildNames: seq<Name> := [
    SurName, GivenName, Patronymic, DateOfBirth, CertificateNumber, CertificateDate, RegisterOfficeId,
    PostIndex, StreetCode, Building, Extension, Appartment]

  /** The column labels `names` carry under prefix `p`. */
  function PrefixAll(p: Prefix, names: seq<Name>): (cols: seq<Col>)
    ensures |cols| == |names|
    ensures forall i | 0 <= i < |names| :: cols[i] == Prefixed(p, names[i])
  {
    seq(|names|, i requires 0 <= i < |names| => Prefixed(p, names[i]))
  }

  /** The 35 columns of INSERT_ORDER, in the order of its column list. */
  const InsertOrderColumns: seq<Col> :=
    [Plain(StudentOrderStatus), Plain(StudentOrderDate)]
    + PrefixAll(Husband, AdultNames) + PrefixAll(Wife, AdultNames)
    + [Plain(CertificateId), Plain(RegisterOfficeId), Plain(MarriageDate)]

  /** The 13 columns of INSERT_CHILD, in the order of its column list. */
  const InsertChildColumns: seq<Col> := [Plain(StudentOrderId)] + PrefixAll(ChildPrefix, ChildNames)

  /** Position of a name among AdultNames, -1 for the others. */
  function AdultRank(n: Name): int
  {
    match n
    case SurName => 0 case GivenName => 1 case Patronymic => 2 case DateOfBirth => 3
    case PassportSeria => 4 case PassportNumber => 5 case PassportDate => 6 case PassportOfficeId => 7
    case PostIndex => 8 case StreetCode => 9 case Building => 10 case Extension => 11
    case Appartment => 12 case UniversityId => 13 case StudentNumber => 14
    case _ => -1
  }

  /** Position of a name among ChildNames, -1 for the others. */
  function ChildRank(n: Name): int
  {
    match n
    case SurName => 0 case GivenName => 1 case Patronymic => 2 case DateOfBirth => 3
    case CertificateNumber => 4 case CertificateDate => 5 case RegisterOfficeId => 6
    case PostIndex => 7 case StreetCode => 8 case Building => 9 case Extension => 10
    case Appartment => 11
    case _ => -1
  }

  /** No adult column is named twice: each name's rank is its position. */
  lemma AdultNamesRanked()
    ensures forall i | 0 <= i < |AdultNames| :: AdultRank(AdultNames[i]) == i
  {
  }

  /** A name with an adult rank sits at that position of AdultNames. */
  lemma AdultRankNames(n: Name)
    requires 0 <= AdultRank(n)
    ensures AdultRank(n) < |AdultNames| && AdultNames[AdultRank(n)] == n
  {
  }

  /** No child column is named twice: each name's rank is its position. */
  lemma ChildNamesRanked()
    ensures forall i | 0 <= i < |ChildNames| :: ChildRank(ChildNames[i]) == i
  {
  }

  /** Number of `?` placeholders in INSERT_ORDER and INSERT_CHILD. */
  const OrderPlaceholders := 35
  const ChildPlaceholders := 13

  function PersonValues(p: Person): seq<Value>
  {
    [Str(p.surName), Str(p.givenName), Str(p.patronymic), DateValue(p.dayOfBirth)]
  }

  function AddressValues(a: Address): seq<Value>
  {
    [Str(a.postCode), Num(a.street.streetCode), Str(a.building), Str(a.extension), Str(a.apartment)]
  }

  /** The passport slots of an adult: series, number, issue date and issuing office. */
  function PassportValues(a: Adult): seq<Value>
  {
    [Str(a.passportSeria), Str(a.passportNumber), DateValue(a.issueDate), Num(a.issueDepartment.officeId)]
  }

  /** The last two slots of an adult: university and student number. */
  function StudentValues(a: Adult): seq<Value>
  {
    [Num(a.university.universityId), Str(a.studentId)]
  }

  /** The 15 values setParamsForAdult binds, first slot first. */
  function AdultValues(a: Adult): seq<Value>
  {
    PersonValues(a.person) + PassportValues(a) + AddressValues(a.person.address) + StudentValues(a)
  }

  /** The 12 values setParamsForChild binds to slots 2..13. */
  function ChildValues(c: Child): seq<Value>
  {
    PersonValues(c.person)
    + [Str(c.certificateNumber), DateValue(c.issueDate), Num(c.issueDepartment.officeId)]
    + AddressValues(c.person.address)
  }

  /** The 35 values bound for the header insert: status START and the current time come first. */
  function HeaderValues(so: StudentOrder, now: Timestamp): seq<Value>
  {
    [Num(START), Stamp(now)]
    + AdultValues(so.husband) + AdultValues(so.wife) + MarriageValues(so)
  }

  /** The last three header slots: the marriage certificate, its register office and the date. */
  function MarriageValues(so: StudentOrder): seq<Value>
  {
    [Str(so.marriageCertificateId), Num(so.marriageOffice.officeId), DateValue(so.marriageDate)]
  }

  /** One row of the child batch: slot 1 is the order id, slots 2..13 the child. */
  function ChildRowValues(c: Child, soId: int): seq<Value>
  {
    [Num(soId)] + ChildValues(c)
  }

  /** The header statement's values fill its placeholders one for one, status and date first. */
  lemma HeaderShape(so: StudentOrder, now: Timestamp)
    ensures |HeaderValues(so, now)| == OrderPlaceholders == |InsertOrderColumns|
    ensures HeaderValues(so, now)[0] == Num(START) && HeaderValues(so, now)[1] == Stamp(now)
    ensures HeaderValues(so, now)[2..17] == AdultValues(so.husband)
    ensures HeaderValues(so, now)[17..32] == AdultValues(so.wife)
    ensures HeaderValues(so, now)[32..] == MarriageValues(so)
  {
  }

  /** The fifteen adult values one by one. */
  lemma AdultValuesAt(a: Adult)
    ensures var vs := AdultValues(a);
      && |vs| == 15
      && vs[0] == Str(a.person.surName) && vs[1] == Str(a.person.givenName) && vs[2] == Str(a.person.patronymic)
      && vs[3] == DateValue(a.person.dayOfBirth)
      && vs[4] == Str(a.passportSeria) && vs[5] == Str(a.passportNumber) && vs[6] == DateValue(a.issueDate)
      && vs[7] == Num(a.issueDepartment.officeId)
      && vs[8] == Str(a.person.address.postCode) && vs[9] == Num(a.person.address.street.streetCode)
      && vs[10] == Str(a.person.address.building) && vs[11] == Str(a.person.address.extension)
      && vs[12] == Str(a.person.address.apartment)
      && vs[13] == Num(a.university.universityId) && vs[14] == Str(a.studentId)
  {
  }

  /** The twelve child values one by one. */
  lemma ChildValuesAt(c: Child)
    ensures var vs := ChildValues(c);
      && |vs| == 12
      && vs[0] == Str(c.person.surName) && vs[1] == Str(c.person.givenName) && vs[2] == Str(c.person.patronymic)
      && vs[3] == DateValue(c.person.dayOfBirth)
      && vs[4] == Str(c.certificateNumber) && vs[5] == DateValue(c.issueDate) && vs[6] == Num(c.issueDepartment.officeId)
      && vs[7] == Str(c.person.address.postCode) && vs[8] == Num(c.person.address.street.streetCode)
      && vs[9] == Str(c.person.address.building) && vs[10] == Str(c.person.address.extension)
      && vs[11] == Str(c.person.address.apartment)
  {
  }

  /** The order's own id, status, date and children never reach the header statement. */
  lemma HeaderIgnoresServerFields(so: StudentOrder, id: int, status: int, date: Timestamp, children: seq<Child>, now: Timestamp)
    ensures HeaderValues(so, now)
         == HeaderValues(so.(studentOrderId := id, studentOrderStatus := status,
                             studentOrderDate := date, children := children), now)
  {
  }

  /** A child row fills the 13 child placeholders, with the order id in slot 1. */
  lemma ChildRowShape(c: Child, soId: int)
    ensures |ChildRowValues(c, soId)| == ChildPlaceholders == |InsertChildColumns|
    ensures ChildRowValues(c, soId)[0] == Num(soId)
  {
  }

  method SetParamForPerson(st: PreparedStatement, start: int, person: Person)
    requires st.Valid() && 1 <= start && start + 3 <= st.slots.Length
    modifies st, st.slots
    ensures st.slots[..] == Fill(old(st.slots[..]), start, PersonValues(person))
    ensures st.Valid() && st.writes == Bump(old(st.writes), start, 4) && st.batch == old(st.batch)
  {
    ghost var s0, w0 := st.slots[..], st.writes;
    st.Set(start, Str(person.surName));
    SetNext(st, start, s0, w0, [Str(person.surName)], start + 1, Str(person.givenName));
    SetNext(st, start, s0, w0, [Str(person.surName), Str(person.givenName)], start + 2, Str(person.patronymic));
    SetNext(st, start, s0, w0, [Str(person.surName), Str(person.givenName), Str(person.patronymic)], start + 3,
            DateValue(person.dayOfBirth));
  }

  method SetParamsForAddress(st: PreparedStatement, start: int, person: Person)
    requires st.Valid() && 1 <= start && start + 4 <= st.slots.Length
    modifies st, st.slots
    ensures st.slots[..] == Fill(old(st.slots[..]), start, AddressValues(person.address))
    ensures st.Valid() && st.writes == Bump(old(st.writes), start, 5) && st.batch == old(st.batch)
  {
    ghost var s0, w0 := st.slots[..], st.writes;
    var a := person.address;
    st.Set(start, Str(a.postCode));
    SetNext(st, start, s0, w0, [Str(a.postCode)], start + 1, Num(a.street.streetCode));
    SetNext(st, start, s0, w0, [Str(a.postCode), Num(a.street.streetCode)], start + 2, Str(a.building));
    SetNext(st, start, s0, w0, [Str(a.postCode), Num(a.street.streetCode), Str(a.building)], start + 3, Str(a.extension));
    SetNext(st, start, s0, w0, [Str(a.postCode), Num(a.street.streetCode), Str(a.building), Str(a.extension)], start + 4, Str(a.apartment));
  }

  /**
   * One setter call in a run of them: with the slots from `start` holding
   * `done`, the next slot, `at`, gets v.
   */
  method SetNext(st: PreparedStatement, start: int, ghost s0: seq<Option<Value>>, ghost w0: seq<int>, ghost done: seq<Value>,
                 at: int, v: Value)
    requires st.Valid() && 1 <= start && at == start + |done| <= st.slots.Length == |s0| == |w0|
    requires st.slots[..] == Fill(s0, start, done) && st.writes == Bump(w0, start, |done|)
    modifies st, st.slots
    ensures st.Valid() && st.batch == old(st.batch)
    ensures st.slots[..] == Fill(s0, start, done + [v]) && st.writes == Bump(w0, start, |done| + 1)
  {
    st.Set(at, v);
    FillFill(s0, start, done, [v]);
    BumpBump(w0, start, |done|, 1);
  }

  /** The passport part of setParamsForAdult, from slot `at` (start + 4). */
  method SetPassport(st: PreparedStatement, at: int, adult: Adult)
    requires st.Valid() && 1 <= at && at + 3 <= st.slots.Length
    modifies st, st.slots
    ensures st.slots[..] == Fill(old(st.slots[..]), at, PassportValues(adult))
    ensures st.Valid() && st.writes == Bump(old(st.writes), at, 4) && st.batch == old(st.batch)
  {
    ghost var s0, w0 := st.slots[..], st.writes;
    st.Set(at, Str(adult.passportSeria));
    SetNext(st, at, s0, w0, [Str(adult.passportSeria)], at + 1, Str(adult.passportNumber));
    SetNext(st, at, s0, w0, [Str(adult.passportSeria), Str(adult.passportNumber)], at + 2, DateValue(adult.issueDate));
    SetNext(st, at, s0, w0, [Str(adult.passportSeria), Str(adult.passportNumber), DateValue(adult.issueDate)], at + 3,
            Num(adult.issueDepartment.officeId));
  }

  /** The university and student number of setParamsForAdult, from slot `at` (start + 13). */
  method SetStudent(st: PreparedStatement, at: int, adult: Adult)
    requires st.Valid() && 1 <= at && at + 1 <= st.slots.Length
    modifies st, st.slots
    ensures st.slots[..] == Fill(old(st.slots[..]), at, StudentValues(adult))
    ensures st.Valid() && st.writes == Bump(old(st.writes), at, 2) && st.batch == old(st.batch)
  {
    ghost var s0, w0 := st.slots[..], st.writes;
    st.Set(at, Num(adult.university.universityId));
    SetNext(st, at, s0, w0, [Num(adult.university.universityId)], at + 1, Str(adult.studentId));
  }

  method SetParamsForAdult(st: PreparedStatement, start: int, adult: Adult)
    requires st.Valid() && 1 <= start && start + 14 <= st.slots.Length
    modifies st, st.slots
    ensures st.slots[..] == Fill(old(st.slots[..]), start, AdultValues(adult))
    ensures st.Valid() && st.writes == Bump(old(st.writes), start, 15) && st.batch == old(st.batch)
  {
    ghost var s0, w0 := st.slots[..], st.writes;
    ghost var person := PersonValues(adult.person);
    ghost var passport := PassportValues(adult);
    ghost var address := AddressValues(adult.person.address);
    SetParamForPerson(st, start, adult.person);
    ghost var s1, w1 := st.slots[..], st.writes;
    SetPassport(st, start + 4, adult);
    Extended(s0, w0, start, person, passport, s1, w1, st.slots[..], st.writes);
    s1, w1 := st.slots[..], st.writes;
    SetParamsForAddress(st, start + 8, adult.person);
    Extended(s0, w0, start, person + passport, address, s1, w1, st.slots[..], st.writes);
    s1, w1 := st.slots[..], st.writes;
    SetStudent(st, start + 13, adult);
    Extended(s0, w0, start, person + passport + address, StudentValues(adult), s1, w1, st.slots[..], st.writes);
  }

  /** setParamsForChild: slots 2..13 of INSERT_CHILD. */
  method SetParamsForChild(st: PreparedStatement, child: Child)
    requires st.Valid() && ChildPlaceholders <= st.slots.Length
    modifies st, st.slots
    ensures st.slots[..] == Fill(old(st.slots[..]), 2, ChildValues(child))
    ensures st.Valid() && st.writes == Bump(old(st.writes), 2, 12) && st.batch == old(st.batch)
  {
    ghost var s0, w0 := st.slots[..], st.writes;
    ghost var person := PersonValues(child.person);
    SetParamForPerson(st, 2, child.person);
    SetNext(st, 2, s0, w0, person, 6, Str(child.certificateNumber));
    SetNext(st, 2, s0, w0, person + [Str(child.certificateNumber)], 7, DateValue(child.issueDate));
    ghost var done := person + [Str(child.certificateNumber), DateValue(child.issueDate)];
    SetNext(st, 2, s0, w0, done, 8, Num(child.issueDepartment.officeId));
    done := done + [Num(child.issueDepartment.officeId)];
    ghost var s1, w1 := st.slots[..], st.writes;
    SetParamsForAddress(st, 9, child.person);
    Extended(s0, w0, 2, done, AddressValues(child.person.address), s1, w1, st.slots[..], st.writes);
  }

  /** The husband's 15 slots from `at` (3), then the wife's (18). */
  method SetSpouses(st: PreparedStatement, at: int, so: StudentOrder)
    requires st.Valid() && 1 <= at && at + 29 <= st.slots.Length
    modifies st, st.slots
    ensures st.slots[..] == Fill(old(st.slots[..]), at, AdultValues(so.husband) + AdultValues(so.wife))
    ensures st.Valid() && st.writes == Bump(old(st.writes), at, 30) && st.batch == old(st.batch)
  {
    ghost var s0, w0 := st.slots[..], st.writes;
    SetParamsForAdult(st, at, so.husband);
    ghost var s1, w1 := st.slots[..], st.writes;
    SetParamsForAdult(st, at + 15, so.wife);
    Extended(s0, w0, at, AdultValues(so.husband), AdultValues(so.wife), s1, w1, st.slots[..], st.writes);
  }

  /** The marriage slots of saveStudentOrder, from slot `at` (33). */
  method SetMarriage(st: PreparedStatement, at: int, so: StudentOrder)
    requires st.Valid() && 1 <= at && at + 2 <= st.slots.Length
    modifies st, st.slots
    ensures st.slots[..] == Fill(old(st.slots[..]), at, MarriageValues(so))
    ensures st.Valid() && st.writes == Bump(old(st.writes), at, 3) && st.batch == old(st.batch)
  {
    ghost var s0, w0 := st.slots[..], st.writes;
    st.Set(at, Str(so.marriageCertificateId));
    SetNext(st, at, s0, w0, [Str(so.marriageCertificateId)], at + 1, Num(so.marriageOffice.officeId));
    SetNext(st, at, s0, w0, [Str(so.marriageCertificateId), Num(so.marriageOffice.officeId)], at + 2, DateValue(so.marriageDate));
  }

  /**
   * The header binding of saveStudentOrder: status START, the current time,
   * husband from slot 3, wife from slot 18, then the marriage fields. Whatever
   * the slots held before, afterwards every placeholder is bound exactly once.
   */
  method BindHeader(st: PreparedStatement, so: StudentOrder, now: Timestamp)
    requires st.Valid() && st.slots.Length == OrderPlaceholders
    modifies st, st.slots
    ensures st.AllBound() && st.Values() == HeaderValues(so, now)
    ensures st.Valid() && st.writes == Bump(old(st.writes), 1, OrderPlaceholders) && st.batch == old(st.batch)
  {
    ghost var s0, w0 := st.slots[..], st.writes;
    st.Set(1, Num(START));
    SetNext(st, 1, s0, w0, [Num(START)], 2, Stamp(now));
    ghost var done := [Num(START), Stamp(now)];
    ghost var s1, w1 := st.slots[..], st.writes;
    SetSpouses(st, 3, so);
    Extended(s0, w0, 1, done, AdultValues(so.husband) + AdultValues(so.wife), s1, w1, st.slots[..], st.writes);
    done := done + (AdultValues(so.husband) + AdultValues(so.wife));
    s1, w1 := st.slots[..], st.writes;
    SetMarriage(st, 33, so);
    Extended(s0, w0, 1, done, MarriageValues(so), s1, w1, st.slots[..], st.writes);
    done := done + MarriageValues(so);
    assert done == HeaderValues(so, now);
    FillWhole(s0, done);
    BoundInjective(st.Values(), done);
  }

  /** A run of bindings from `start` followed by the next run: one longer run. */
  lemma Extended(s0: seq<Option<Value>>, w0: seq<int>, start: int, done: seq<Value>, more: seq<Value>,
                 s1: seq<Option<Value>>, w1: seq<int>, s2: seq<Option<Value>>, w2: seq<int>)
    requires 1 <= start && start - 1 + |done| + |more| <= |s0| == |w0|
    requires s1 == Fill(s0, start, done) && w1 == Bump(w0, start, |done|)
    requires s2 == Fill(s1, start + |done|, more) && w2 == Bump(w1, start + |done|, |more|)
    ensures s2 == Fill(s0, start, done + more) && w2 == Bump(w0, start, |done| + |more|)
  {
    FillFill(s0, start, done, more);
    BumpBump(w0, start, |done|, |more|);
  }

  /** Binding as many values as there are slots, from slot 1, binds them all. */
  lemma FillWhole(slots: seq<Option<Value>>, vs: seq<Value>)
    requires |vs| == |slots|
    ensures Fill(slots, 1, vs) == Bound(vs)
  {
  }

  lemma BoundInjective(a: seq<Value>, b: seq<Value>)
    requires Bound(a) == Bound(b)
    ensures a == b
  {
    assert |a| == |b|;
    forall k | 0 <= k < |a| ensures a[k] == b[k] {
      assert Bound(a)[k] == Bound(b)[k];
    }
  }
}
