/** Row shapes of the three tables the core reads and writes
    (attendance, registration, badge). Nullable columns are `Option`s;
    timestamps are integer milliseconds. */
module Models {
  import opened Base

  /** Status strings stored in the `status` column of a registration. */
  const Pending := "pending"
  const Approved := "approved"
  const Rejected := "rejected"

  datatype Registration = Registration(
    registrationId: string,
    eventId: Option<string>,    // the `event` relation's key; absent when the relation is null
    status: string,             // any text; the services write the three constants above
    fullName: string,
    phoneNumber: string,
    nationalId: string,
    email: Option<string>,
    organization: Option<string>,
    registrationDate: int,
    approvalDate: Option<int>,
    approvedBy: Option<string>,
    adminId: Option<string>)    // the `admin` relation's key

  datatype Attendance = Attendance(
    attendanceId: string,
    fullName: string,
    checkInTime: int,
    bankAccountNumber: Option<string>,
    bankName: Option<string>,
    registrationId: string,
    eventId: string,
    nationalId: Option<string>,
    phoneNumber: Option<string>,
    email: Option<string>,
    organization: Option<string>)

  /** A saved badge row: the columns of the badge entity. The `badgeUrl`
      column that a migration adds is not an entity column, so nothing the
      core saves reaches it. */
  datatype Badge = Badge(
    badgeId: string,
    registrationId: string,
    qrCode: string)
}
