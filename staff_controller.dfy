/** backend/controllers/staffController.js over the `staff` table. Registration checks only
    the e-mail domain: an absent e-mail makes `email.endsWith` throw before the `try`, so the
    request is never answered; an absent password makes `bcrypt.hash` throw and any other
    absent field makes the insert throw, both answered with 500. Empty strings are stored. */
module StaffController {
  import opened Wrappers
  import opened JsText
  import opened Store
  import opened Identity

  datatype StaffRegistration = StaffRegistration(
    staffCode: Option<string>, name: Option<string>, email: Option<string>, password: Option<string>,
    department: Option<string>, designation: Option<string>, phone: Option<string>)

  /** Every field the insert binds is present (the password is bound as its digest). */
  predicate Insertable(q: StaffRegistration) {
    q.staffCode.Some? && q.name.Some? && q.email.Some? && q.password.Some?
    && q.department.Some? && q.designation.Some? && q.phone.Some?
  }

  /** `registerStaff`: the designation is stored as given, whatever it is, so only a row whose
      designation is exactly one of the routing keys ever receives approval requests. */
  function RegisterStaffEffect(staff: seq<StaffMember>, q: StaffRegistration, hash: (string, string) -> string, salt: string)
    : (r: (seq<StaffMember>, Response))
    ensures q.email.None? ==> r == (staff, NoReply)
    ensures q.email.Some? && !CollegeEmail(q.email.value) ==> r == (staff, Reply(400, "Only college email is allowed!"))
    ensures r.1 == Reply(201, "Staff registered successfully!") <==> Insertable(q) && CollegeEmail(q.email.value)
    ensures q.email.Some? && CollegeEmail(q.email.value) && !Insertable(q) ==> r == (staff, Reply(500, "Server error"))
    ensures r.1 != Reply(201, "Staff registered successfully!") ==> r.0 == staff
    ensures r.1 == Reply(201, "Staff registered successfully!") ==>
      r.0 == staff + [StaffMember(q.staffCode.value, q.name.value, q.email.value, hash(q.password.value, salt),
                                  q.department.value, q.designation.value, q.phone.value)]
  {
    if q.email.None? then (staff, NoReply)
    else if !CollegeEmail(q.email.value) then (staff, Reply(400, "Only college email is allowed!"))
    else if !Insertable(q) then (staff, Reply(500, "Server error"))
    else
      (staff + [StaffMember(q.staffCode.value, q.name.value, q.email.value, hash(q.password.value, salt),
                            q.department.value, q.designation.value, q.phone.value)],
       Reply(201, "Staff registered successfully!"))
  }

  method RegisterStaff(db: Database, q: StaffRegistration, hash: (string, string) -> string, salt: string) returns (res: Response)
    modifies db`staff
    ensures (db.staff, res) == RegisterStaffEffect(old(db.staff), q, hash, salt)
  {
    if q.email.None? {
      return NoReply;
    }
    if !CollegeEmail(q.email.value) {
      return Reply(400, "Only college email is allowed!");
    }
    if q.password.None? {
      return Reply(500, "Server error");
    }
    var digest := hash(q.password.value, salt);
    if !Insertable(q) {
      return Reply(500, "Server error");
    }
    db.staff := db.staff + [StaffMember(q.staffCode.value, q.name.value, q.email.value, digest,
                                        q.department.value, q.designation.value, q.phone.value)];
    res := Reply(201, "Staff registered successfully!");
  }

  function EmailOf(s: StaffMember): string { s.email }
  function DigestOf(s: StaffMember): string { s.passwordHash }

  method LoginStaff(db: Database, email: Option<string>, password: Option<string>,
                    compare: (string, string) -> bool, sign: (Claims, string, int) -> string,
                    secret: Option<string>, now: int) returns (r: LoginReply)
    ensures r == LoginEffect(db.staff, EmailOf, DigestOf, "Staff not found!", email, password, compare, sign, secret, now)
  {
    if email.None? {
      return Denied(500, "Server error");
    }
    var found := RowWithEmail(db.staff, EmailOf, email.value);
    if found.None? {
      return Denied(404, "Staff not found!");
    }
    var member := db.staff[found.value];
    if password.None? {
      return Denied(500, "Server error");
    }
    var validPassword := compare(password.value, member.passwordHash);
    if !validPassword {
      return Denied(401, "Invalid password!");
    }
    if Falsy(secret) {
      return Denied(500, "Server error");
    }
    r := LoggedIn(sign(Claims(found.value + 1, member.email), secret.value, now));
  }

  /** The columns the profile query selects (no password). */
  datatype StaffProfile = StaffProfile(
    id: int, staffCode: string, name: string, email: string, department: string, designation: string, phone: string)

  function PublicColumns(id: int, s: StaffMember): StaffProfile {
    StaffProfile(id, s.staffCode, s.name, s.email, s.department, s.designation, s.phone)
  }

  method GetStaffProfile(db: Database, userId: Option<int>) returns (r: ProfileReply<StaffProfile>)
    ensures r == ProfileEffect(db.staff, PublicColumns, userId, "Invalid staff ID", "Staff not found")
  {
    if userId.None? || userId.value == 0 {
      return Refused(400, "Invalid staff ID");
    }
    if !(1 <= userId.value <= |db.staff|) {
      return Refused(404, "Staff not found");
    }
    r := Found(PublicColumns(userId.value, db.staff[userId.value - 1]));
  }

  /** A staff member who has just registered can log in with the same e-mail and password. */
  lemma RegisteredStaffCanLogIn(
    staff: seq<StaffMember>, q: StaffRegistration, hash: (string, string) -> string, salt: string,
    compare: (string, string) -> bool, sign: (Claims, string, int) -> string, secret: Option<string>, now: int)
    requires RegisterStaffEffect(staff, q, hash, salt).1 == Reply(201, "Staff registered successfully!")
    requires forall s :: s in staff ==> s.email != q.email.value
    requires compare(q.password.value, hash(q.password.value, salt))
    requires !Falsy(secret)
    ensures var after := RegisterStaffEffect(staff, q, hash, salt).0;
      LoginEffect(after, EmailOf, DigestOf, "Staff not found!", q.email, q.password, compare, sign, secret, now)
        == LoggedIn(sign(Claims(|staff| + 1, q.email.value), secret.value, now))
  {
    var row := RegisterStaffEffect(staff, q, hash, salt).0[|staff|];
    assert forall j :: 0 <= j < |staff| ==> EmailOf(staff[j]) != EmailOf(row) by {
      forall j | 0 <= j < |staff| ensures EmailOf(staff[j]) != EmailOf(row) {
        assert staff[j] in staff;
      }
    }
    LoginAfterRegistration(staff, row, EmailOf, DigestOf, "Staff not found!", q.password.value,
                           compare, sign, secret, now);
  }
}
