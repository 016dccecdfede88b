/**
 * The typed getters fillAdult applies to an adult's columns (getString,
 * getDate, getLong), for a row whose columns hold the values
 * setParamsForAdult bound, each found under its own label.
 */
module AdultReads {
  import opened Wrappers
  import opened Jdbc
  import opened Domain
  import opened OrderParams

  /** The typed reads of an adult's name and date of birth. */
  lemma AdultPersonReads(rs: ResultRow, p: Prefix, a: Adult)
    requires forall n {:trigger Get(rs, Prefixed(p, n))} | 0 <= AdultRank(n) < |AdultValues(a)| :: Get(rs, Prefixed(p, n)) == Success(AdultValues(a)[AdultRank(n)])
    ensures GetString(rs, Prefixed(p, SurName)) == Success(a.person.surName)
    ensures GetString(rs, Prefixed(p, GivenName)) == Success(a.person.givenName)
    ensures GetString(rs, Prefixed(p, Patronymic)) == Success(a.person.patronymic)
    ensures GetDate(rs, Prefixed(p, DateOfBirth)) == Success(a.person.dayOfBirth)
  {
    var vs := AdultValues(a);
    AdultValuesAt(a);
    assert AdultRank(SurName) == 0 && AdultRank(GivenName) == 1 && AdultRank(Patronymic) == 2 && AdultRank(DateOfBirth) == 3;
    ReadString(rs, Prefixed(p, SurName), vs[0]);
    ReadString(rs, Prefixed(p, GivenName), vs[1]);
    ReadString(rs, Prefixed(p, Patronymic), vs[2]);
    ReadDate(rs, Prefixed(p, DateOfBirth), vs[3]);
  }

  /** The typed reads of an adult's passport columns. */
  lemma AdultPassportReads(rs: ResultRow, p: Prefix, a: Adult)
    requires forall n {:trigger Get(rs, Prefixed(p, n))} | 0 <= AdultRank(n) < |AdultValues(a)| :: Get(rs, Prefixed(p, n)) == Success(AdultValues(a)[AdultRank(n)])
    ensures GetString(rs, Prefixed(p, PassportSeria)) == Success(a.passportSeria)
    ensures GetString(rs, Prefixed(p, PassportNumber)) == Success(a.passportNumber)
    ensures GetDate(rs, Prefixed(p, PassportDate)) == Success(a.issueDate)
    ensures GetLong(rs, Prefixed(p, PassportOfficeId)) == Success(a.issueDepartment.officeId)
  {
    var vs := AdultValues(a);
    AdultValuesAt(a);
    assert AdultRank(PassportSeria) == 4 && AdultRank(PassportNumber) == 5 && AdultRank(PassportDate) == 6 && AdultRank(PassportOfficeId) == 7;
    ReadString(rs, Prefixed(p, PassportSeria), vs[4]);
    ReadString(rs, Prefixed(p, PassportNumber), vs[5]);
    ReadDate(rs, Prefixed(p, PassportDate), vs[6]);
    ReadLong(rs, Prefixed(p, PassportOfficeId), vs[7]);
  }

  /** The typed reads of an adult's address columns. */
  lemma AdultAddressReads(rs: ResultRow, p: Prefix, a: Adult)
    requires forall n {:trigger Get(rs, Prefixed(p, n))} | 0 <= AdultRank(n) < |AdultValues(a)| :: Get(rs, Prefixed(p, n)) == Success(AdultValues(a)[AdultRank(n)])
    ensures GetString(rs, Prefixed(p, PostIndex)) == Success(a.person.address.postCode)
    ensures GetLong(rs, Prefixed(p, StreetCode)) == Success(a.person.address.street.streetCode)
    ensures GetString(rs, Prefixed(p, Building)) == Success(a.person.address.building)
    ensures GetString(rs, Prefixed(p, Extension)) == Success(a.person.address.extension)
    ensures GetString(rs, Prefixed(p, Appartment)) == Success(a.person.address.apartment)
  {
    var vs := AdultValues(a);
    AdultValuesAt(a);
    assert AdultRank(PostIndex) == 8 && AdultRank(StreetCode) == 9 && AdultRank(Building) == 10 && AdultRank(Extension) == 11 && AdultRank(Appartment) == 12;
    ReadString(rs, Prefixed(p, PostIndex), vs[8]);
    ReadLong(rs, Prefixed(p, StreetCode), vs[9]);
    ReadString(rs, Prefixed(p, Building), vs[10]);
    ReadString(rs, Prefixed(p, Extension), vs[11]);
    ReadString(rs, Prefixed(p, Appartment), vs[12]);
  }

  /** The typed reads of an adult's university and student number. */
  lemma AdultStudentReads(rs: ResultRow, p: Prefix, a: Adult)
    requires forall n {:trigger Get(rs, Prefixed(p, n))} | 0 <= AdultRank(n) < |AdultValues(a)| :: Get(rs, Prefixed(p, n)) == Success(AdultValues(a)[AdultRank(n)])
    ensures GetLong(rs, Prefixed(p, UniversityId)) == Success(a.university.universityId)
    ensures GetString(rs, Prefixed(p, StudentNumber)) == Success(a.studentId)
  {
    var vs := AdultValues(a);
    AdultValuesAt(a);
    assert AdultRank(UniversityId) == 13 && AdultRank(StudentNumber) == 14;
    ReadLong(rs, Prefixed(p, UniversityId), vs[13]);
    ReadString(rs, Prefixed(p, StudentNumber), vs[14]);
  }
}
