/** The stored records of the portal, with the fields the modelled code reads. */
module Records {
  import opened Common

  datatype Admin = Admin(adminId: string, name: string, passwordHash: string)

  datatype Student = Student(
    studentId: string,
    name: string,
    passwordHash: string,
    email: string,
    phone: string,
    address: string,
    progId: string,
    progName: string)

  /** A project; `createdAt` is the creation instant as a number. */
  datatype Project = Project(
    id: string,
    title: string,
    description: string,
    studentId: string,
    category: string,
    adminId: string,
    reportUrl: Option<string>,
    grade: string,
    createdAt: int)

  /** A borrow request; `status` is stored as the string the client sent. */
  datatype Request = Request(id: string, studentId: string, projectId: string, status: string)

  /** A borrow request as the dashboard reads it, with its request date. */
  datatype BorrowRequest = BorrowRequest(
    id: string,
    projectId: string,
    studentId: string,
    status: string,
    requestDate: int)
}
