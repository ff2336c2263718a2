/** The relational store and the mail transport the backend talks to.

    Tables are append-only (the application never deletes a row), so each is a sequence whose
    position gives the auto-increment id: the row with id `k` sits at index `k - 1`. A nullable
    column is an `Option`. `sendEmail` never fails towards its caller (it catches its own
    errors), so sending is appending to an outbox. */
module Store {
  import opened Wrappers
  import opened Collections

  /** A row of `students` (`password` holds the bcrypt digest; `type` is the residence). */
  datatype Student = Student(
    name: string, email: string, passwordHash: string, year: string, sinNumber: string,
    department: string, phone: string, dob: string, address: string, studentType: string)

  /** A row of `staff`; `designation` is the literal key approvals are routed by. */
  datatype StaffMember = StaffMember(
    staffCode: string, name: string, email: string, passwordHash: string,
    department: string, designation: string, phone: string)

  /** A row of `security`. */
  datatype Guard = Guard(name: string, email: string, passwordHash: string, phone: string)

  /** The four approver roles, each owning one `<role>_approval` column of `gate_pass`. */
  datatype Role = ClassAdvisor | Hod | Principal | Warden

  function RoleName(r: Role): string {
    match r
    case ClassAdvisor => "class_advisor"
    case Hod => "hod"
    case Principal => "principal"
    case Warden => "warden"
  }

  /** The four approval columns of a gate pass; each holds NULL or whatever string was written. */
  datatype Approvals = Approvals(
    classAdvisor: Option<string>, hod: Option<string>, principal: Option<string>, warden: Option<string>)
  {
    function Get(r: Role): Option<string> {
      match r
      case ClassAdvisor => classAdvisor
      case Hod => hod
      case Principal => principal
      case Warden => warden
    }

    /** The slots with the one named by `r` replaced by `v`. */
    function Set(r: Role, v: Option<string>): (a: Approvals)
      ensures a.Get(r) == v
      ensures forall o :: o != r ==> a.Get(o) == Get(o)
    {
      match r
      case ClassAdvisor => this.(classAdvisor := v)
      case Hod => this.(hod := v)
      case Principal => this.(principal := v)
      case Warden => this.(warden := v)
    }
  }

  /** A row of `gate_pass` (without its id, which is its position). */
  datatype GatePass = GatePass(
    studentId: int, reason: string, date: string, time: string,
    status: string, exitTime: Option<int>, approvals: Approvals,
    studentType: Option<string>, securityVerification: Option<string>)

  /** A row of `visitors`. */
  datatype Visitor = Visitor(
    name: string, phone: string, reason: string, inTime: string, expectedExitTime: string,
    status: string, concernedPersonName: string, concernedPersonEmail: string)

  /** The values MySQL gives the `gate_pass` columns an `INSERT` leaves out. The schema is not
      part of the repository, so these are a parameter of the store. */
  datatype ColumnDefaults = ColumnDefaults(
    approval: Option<string>, studentType: Option<string>, securityVerification: Option<string>)

  /** One message handed to the mail transport (the HTML body is not modelled). */
  datatype Email = Email(to: string, subject: string)

  /** What a handler sends back: a status code with its JSON `message`, or nothing at all
      (a promise rejected outside any `try`, which the router never answers). */
  datatype Response = Reply(code: int, message: string) | NoReply

  /** `SELECT ... FROM <table> WHERE id = ?` on any table: the row with id `id` sits at index
      `id - 1`. */
  function RowById<T>(rows: seq<T>, id: int): (r: Option<T>)
    ensures r.Some? <==> 1 <= id <= |rows|
    ensures r.Some? ==> r.value == rows[id - 1]
  {
    if 1 <= id <= |rows| then Some(rows[id - 1]) else None
  }

  /** The first row of `SELECT email FROM staff WHERE designation = ?`. */
  function StaffWithDesignation(staff: seq<StaffMember>, designation: string): Option<nat> {
    FirstIndex(staff, (s: StaffMember) => s.designation == designation)
  }

  /** The first row of `SELECT email FROM staff WHERE designation = 'class_advisor' AND department = ?`. */
  function AdvisorOfDepartment(staff: seq<StaffMember>, department: string): Option<nat> {
    FirstIndex(staff, (s: StaffMember) => s.designation == "class_advisor" && s.department == department)
  }

  /** The first row of `SELECT email FROM staff WHERE phone = ?`. */
  function StaffWithPhone(staff: seq<StaffMember>, phone: string): Option<nat> {
    FirstIndex(staff, (s: StaffMember) => s.phone == phone)
  }

  /** The database the controllers share (the connection pool's one schema). */
  class Database {
    const defaults: ColumnDefaults
    var students: seq<Student>
    var staff: seq<StaffMember>
    var guards: seq<Guard>
    var passes: seq<GatePass>
    var visitors: seq<Visitor>

    constructor (defaults: ColumnDefaults)
      ensures this.defaults == defaults
      ensures students == [] && staff == [] && guards == [] && passes == [] && visitors == []
    {
      this.defaults := defaults;
      students, staff, guards, passes, visitors := [], [], [], [], [];
    }
  }

  /** The mail transport: every `sendEmail` call appends one message. */
  class Mailer {
    var outbox: seq<Email>

    constructor ()
      ensures outbox == []
    {
      outbox := [];
    }

    method Send(to: string, subject: string)
      modifies this
      ensures outbox == old(outbox) + [Email(to, subject)]
    {
      outbox := outbox + [Email(to, subject)];
    }
  }
}
