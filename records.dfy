/** The database rows the core reads and writes: visit requests, visitors,
    visitor-log (ledger) entries and staff accounts, with exactly the columns
    the scan, request and profile handlers use. */
module Records {
  import opened Seqs

  type UserId = nat
  /** A visit session id; the source draws a uuid4, the model a never-reused number. */
  type SessionId = nat
  /** A civil date in the Asia/Manila calendar, as a day number. */
  type Day = int

  /** The `Request.status` strings "Pending", "Approve", "Reject", "Completed". */
  datatype RequestStatus = Pending | Approve | Reject | Completed

  /** The `VisitorLog.status` strings "Checked-In" and "Checked-Out". */
  datatype LogStatus = CheckedIn | CheckedOut

  function StatusText(s: LogStatus): (t: string)
    ensures t == "Checked-In" || t == "Checked-Out"
    ensures (t == "Checked-In") == (s == CheckedIn)
  {
    match s
    case CheckedIn => "Checked-In"
    case CheckedOut => "Checked-Out"
  }

  /** One visit request (table `request`). */
  datatype Request = Request(
    id: nat,
    name: string,
    email: string,
    number: string,
    purpose: string,
    destination: string,
    address: string,
    uniqueCode: string,
    status: RequestStatus,
    groupCode: Option<string>,
    approvedBy: Option<UserId>)

  /** A visitor's permanent identity (table `visitor`); its id is its position in the table. */
  datatype Visitor = Visitor(
    name: string,
    email: string,
    number: string,
    qrCode: string,
    groupCode: Option<string>,
    lastPurpose: string,
    lastDestination: string,
    lastAddress: Option<string>)

  /** One ledger entry (table `visitor_log`); `day` is the Manila date of its timestamp. */
  datatype VisitorLog = VisitorLog(
    visitorId: nat,
    name: string,
    email: string,
    number: string,
    purpose: string,
    destination: string,
    address: Option<string>,
    status: LogStatus,
    uniqueCode: string,
    sessionId: SessionId,
    day: Day,
    checkInBy: Option<UserId>,
    checkInGate: Option<string>,
    checkOutBy: Option<UserId>,
    checkOutGate: Option<string>,
    approvedBy: Option<UserId>)

  /** The logged-in staff member (`current_user`) performing an action. */
  datatype Actor = Actor(id: UserId, gateRole: Option<string>)

  /** werkzeug's password hash, kept symbolic: it records which password it verifies. */
  datatype PasswordHash = Hashed(password: string)

  /** A staff account (table `user`). */
  datatype User = User(
    id: UserId,
    username: string,
    email: string,
    passwordHash: PasswordHash,
    role: string,
    gateRole: Option<string>,
    totpSecret: Option<string>,
    twoFactorEnabled: bool,
    profilePicture: Option<string>)

  /** `User.check_password`. */
  predicate CheckPassword(u: User, password: string)
  {
    u.passwordHash == Hashed(password)
  }
}
