/**
 * The slice of JDBC the data-access layer relies on: typed column values,
 * column labels, a result-set row read by label, and a prepared statement
 * whose numbered parameter slots are filled in place.
 */
module Jdbc {
  import opened Wrappers

  /** java.time.LocalDate, kept opaque: Date.valueOf and toLocalDate are identities here. */
  datatype Date = Date(year: int, month: int, day: int)

  /** java.time.LocalDateTime, kept opaque. */
  datatype Timestamp = Timestamp(date: Date, nanoOfDay: int)

  /** A value bound to a slot or read from a column (setString/setLong/setInt/setDate/setTimestamp). */
  datatype Value = Str(s: string) | Num(n: int) | DateValue(d: Date) | Stamp(t: Timestamp)

  /** The label prefixes the code concatenates in front of a column name: "h_", "w_" and "c_". */
  datatype Prefix = Husband | Wife | ChildPrefix

  /** Column names as they appear after the prefix (sur_name, passport_seria, ...). */
  datatype Name =
    | StudentOrderId | StudentOrderStatus | StudentOrderDate
    | SurName | GivenName | Patronymic | DateOfBirth
    | PassportSeria | PassportNumber | PassportDate | PassportOfficeId
    | POfficeAreaId | POfficeName
    | PostIndex | StreetCode | Building | Extension | Appartment
    | UniversityId | StudentNumber
    | CertificateId | RegisterOfficeId | MarriageDate
    | ROfficeAreaId | ROfficeName
    | CertificateNumber | CertificateDate

  /**
   * A column label: either a bare name ("certificate_id") or a prefixed one
   * ("h_" + "sur_name"). Two labels are the same text exactly when they are
   * the same Col value.
   */
  datatype Col = Plain(name: Name) | Prefixed(prefix: Prefix, name: Name)

  /** Failures the data-access layer can surface. */
  datatype DaoError =
    | InvalidAreaId(areaId: string)   // SQLException thrown by buildParam
    | IndexOutOfBounds                // an unchecked index exception (substring, List.remove)
    | ColumnNotFound(col: Col)        // ResultSet has no column with that label
    | WrongType(col: Col)             // the column holds a value of another type
    | DuplicateKey(id: int)           // Collectors.toMap on a repeated key
    | NoSuchOrder(id: int)            // Map.get returned null for a child row
    | StorageFailure                  // any SQLException raised by the store

  /** One row of a result set: its column labels, in select order, and the values. */
  datatype ResultRow = ResultRow(labels: seq<Col>, values: seq<Value>)

  /** Position of the first column at or after `from` labelled `c`, or |labels| if none. */
  function IndexOf(labels: seq<Col>, c: Col, from: nat): (i: nat)
    requires from <= |labels|
    ensures from <= i <= |labels|
    ensures i < |labels| ==> labels[i] == c
    ensures forall j | from <= j < i :: labels[j] != c
    decreases |labels| - from
  {
    if from == |labels| then from
    else if labels[from] == c then from
    else IndexOf(labels, c, from + 1)
  }

  /** ResultSet.getXxx(label): a label that occurs several times resolves to its first column. */
  function Get(rs: ResultRow, c: Col): (r: Result<Value, DaoError>)
    ensures r.Success? <==> c in rs.labels[..Min(|rs.labels|, |rs.values|)]
  {
    var i := IndexOf(rs.labels, c, 0);
    if i < |rs.labels| && i < |rs.values| then Success(rs.values[i]) else Failure(ColumnNotFound(c))
  }

  function Min(a: int, b: int): int { if a <= b then a else b }

  /** Column k is the first one labelled c. */
  predicate FirstAt(labels: seq<Col>, k: nat, c: Col)
  {
    k < |labels| && labels[k] == c && forall j | 0 <= j < k :: labels[j] != c
  }

  /** Get resolves a label to its first occurrence: column k when no earlier column carries it. */
  lemma GetFirst(rs: ResultRow, c: Col, k: nat)
    requires FirstAt(rs.labels, k, c) && k < |rs.values|
    ensures Get(rs, c) == Success(rs.values[k])
  {
    var i := IndexOf(rs.labels, c, 0);
    assert i <= k;
  }

  /** A column holding a string reads as that string. */
  lemma ReadString(rs: ResultRow, c: Col, v: Value)
    requires Get(rs, c) == Success(v) && v.Str?
    ensures GetString(rs, c) == Success(v.s)
  {
  }

  /** A column holding a number reads as that number. */
  lemma ReadLong(rs: ResultRow, c: Col, v: Value)
    requires Get(rs, c) == Success(v) && v.Num?
    ensures GetLong(rs, c) == Success(v.n)
  {
  }

  /** A column holding a date reads as that date. */
  lemma ReadDate(rs: ResultRow, c: Col, v: Value)
    requires Get(rs, c) == Success(v) && v.DateValue?
    ensures GetDate(rs, c) == Success(v.d)
  {
  }

  function GetString(rs: ResultRow, c: Col): Result<string, DaoError>
  {
    var v :- Get(rs, c);
    if v.Str? then Success(v.s) else Failure(WrongType(c))
  }

  function GetLong(rs: ResultRow, c: Col): Result<int, DaoError>
  {
    var v :- Get(rs, c);
    if v.Num? then Success(v.n) else Failure(WrongType(c))
  }

  function GetDate(rs: ResultRow, c: Col): Result<Date, DaoError>
  {
    var v :- Get(rs, c);
    if v.DateValue? then Success(v.d) else Failure(WrongType(c))
  }

  function GetTimestamp(rs: ResultRow, c: Col): Result<Timestamp, DaoError>
  {
    var v :- Get(rs, c);
    if v.Stamp? then Success(v.t) else Failure(WrongType(c))
  }

  /** Write counts after one more write to each of the n slots from `start` (1-based). */
  function Bump(writes: seq<int>, start: int, n: nat): (r: seq<int>)
    requires 1 <= start && start - 1 + n <= |writes|
    ensures |r| == |writes|
  {
    seq(|writes|, k requires 0 <= k < |writes| =>
      if start - 1 <= k < start - 1 + n then writes[k] + 1 else writes[k])
  }

  /** Writing two adjacent runs of slots is writing their union once. */
  lemma BumpBump(writes: seq<int>, start: int, a: nat, b: nat)
    requires 1 <= start && start - 1 + a + b <= |writes|
    ensures Bump(Bump(writes, start, a), start + a, b) == Bump(writes, start, a + b)
  {
  }

  /** Every value bound: the shape of a slot array once all placeholders are set. */
  function Bound(vs: seq<Value>): (r: seq<Option<Value>>)
    ensures |r| == |vs| && forall k | 0 <= k < |vs| :: r[k] == Some(vs[k])
  {
    if vs == [] then [] else [Some(vs[0])] + Bound(vs[1..])
  }

  /** Slots after binding `vs` to the 1-based slots start, start + 1, ...; the rest are kept. */
  function Fill(slots: seq<Option<Value>>, start: int, vs: seq<Value>): (r: seq<Option<Value>>)
    requires 1 <= start && start - 1 + |vs| <= |slots|
    ensures |r| == |slots|
  {
    seq(|slots|, k requires 0 <= k < |slots| =>
      if start - 1 <= k < start - 1 + |vs| then Some(vs[k - start + 1]) else slots[k])
  }

  /** Binding two adjacent runs of slots one after the other binds their concatenation. */
  lemma FillFill(slots: seq<Option<Value>>, start: int, a: seq<Value>, b: seq<Value>)
    requires 1 <= start && start - 1 + |a| + |b| <= |slots|
    ensures Fill(Fill(slots, start, a), start + |a|, b) == Fill(slots, start, a + b)
  {
    var l := Fill(Fill(slots, start, a), start + |a|, b);
    var r := Fill(slots, start, a + b);
    forall k | 0 <= k < |slots| ensures l[k] == r[k] {
      if start - 1 + |a| <= k < start - 1 + |a| + |b| {
        assert (a + b)[k - start + 1] == b[k - start + 1 - |a|];
      }
    }
  }

  /**
   * java.sql.PreparedStatement: numbered parameter slots (1-based) filled in
   * place, and the rows queued by addBatch. `writes` counts, per slot, how
   * often it was set, so that "each placeholder set exactly once" can be stated.
   */
  class PreparedStatement {
    const slots: array<Option<Value>>
    ghost var writes: seq<int>
    var batch: seq<seq<Value>>

    /** A statement with n placeholders, none of them bound yet. */
    constructor (n: nat)
      ensures slots.Length == n && fresh(slots)
      ensures forall k | 0 <= k < n :: slots[k] == None
      ensures writes == seq(n, _ => 0) && batch == []
      ensures Valid()
    {
      slots := new Option<Value>[n](_ => None);
      writes := seq(n, _ => 0);
      batch := [];
    }

    ghost predicate Valid()
      reads this
    {
      |writes| == slots.Length
    }

    /** True when every placeholder has a value. */
    predicate AllBound()
      reads slots
    {
      forall k | 0 <= k < slots.Length :: slots[k].Some?
    }

    /** The bound values, slot 1 first. */
    function Values(): (vs: seq<Value>)
      reads slots
      requires AllBound()
      ensures |vs| == slots.Length && Bound(vs) == slots[..]
    {
      var vs := seq(slots.Length, k reads slots requires 0 <= k < slots.Length && AllBound() => slots[k].value);
      assert Bound(vs) == slots[..];
      vs
    }

    /** setString/setLong/setInt/setDate/setTimestamp on the 1-based slot `index`. */
    method Set(index: int, v: Value)
      requires Valid() && 1 <= index <= slots.Length
      modifies this, slots
      ensures Valid() && slots[..] == Fill(old(slots[..]), index, [v])
      ensures writes == Bump(old(writes), index, 1) && batch == old(batch)
    {
      slots[index - 1] := Some(v);
      writes := Bump(writes, index, 1);
    }

    /** addBatch: queue the current values as one row of the batch. */
    method AddBatch()
      requires AllBound()
      modifies this
      ensures batch == old(batch) + [Values()] && writes == old(writes)
    {
      batch := batch + [Values()];
    }
  }
}
