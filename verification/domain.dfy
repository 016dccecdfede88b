/**
 * The records the data-access layer reads and writes: a student marriage
 * order with its two adults, its children and the directory entries they
 * refer to. Java's Person base class becomes the `person` part shared by
 * Adult and Child.
 */
module Domain {
  import opened Jdbc

  datatype Street = Street(streetCode: int, streetName: string)

  datatype PassportOffice = PassportOffice(officeId: int, officeAreaId: string, officeName: string)

  datatype RegisterOffice = RegisterOffice(officeId: int, officeAreaId: string, officeName: string)

  datatype University = University(universityId: int, universityName: string)

  datatype Address = Address(postCode: string, street: Street, building: string, extension: string, apartment: string)

  datatype Person = Person(surName: string, givenName: string, patronymic: string, dayOfBirth: Date, address: Address)

  datatype Adult = Adult(
    person: Person,
    passportSeria: string,
    passportNumber: string,
    issueDate: Date,
    issueDepartment: PassportOffice,
    university: University,
    studentId: string)

  datatype Child = Child(person: Person, certificateNumber: string, issueDate: Date, issueDepartment: RegisterOffice)

  /** The order header; `studentOrderStatus` is the ordinal of StudentOrderStatus. */
  datatype StudentOrder = StudentOrder(
    studentOrderId: int,
    studentOrderDate: Timestamp,
    studentOrderStatus: int,
    husband: Adult,
    wife: Adult,
    children: seq<Child>,
    marriageCertificateId: string,
    marriageDate: Date,
    marriageOffice: RegisterOffice)

  /** StudentOrderStatus.START.ordinal(): START is the first constant of the enum. */
  const START: int := 0
}
