/** backend/controllers/studentController.js over the `students` table. */
module StudentController {
  import opened Wrappers
  import opened JsText
  import opened Store
  import opened Identity

  /** The body of a registration request; an absent field is `None`. */
  datatype StudentRegistration = StudentRegistration(
    name: Option<string>, email: Option<string>, password: Option<string>, year: Option<string>,
    sinNumber: Option<string>, department: Option<string>, phone: Option<string>, dob: Option<string>,
    address: Option<string>, studentType: Option<string>)

  /** None of the ten fields is absent or empty. */
  predicate AllFieldsGiven(q: StudentRegistration) {
    && !Falsy(q.name) && !Falsy(q.email) && !Falsy(q.password) && !Falsy(q.year) && !Falsy(q.sinNumber)
    && !Falsy(q.department) && !Falsy(q.phone) && !Falsy(q.dob) && !Falsy(q.address) && !Falsy(q.studentType)
  }

  /** The row `StudentModel.create` inserts: every field verbatim except the password, which is
      stored as its digest. */
  function RegisteredRow(q: StudentRegistration, hash: (string, string) -> string, salt: string): (row: Student)
    requires AllFieldsGiven(q)
    ensures row.name == q.name.value && row.email == q.email.value && row.year == q.year.value
    ensures row.sinNumber == q.sinNumber.value && row.department == q.department.value
    ensures row.phone == q.phone.value && row.dob == q.dob.value && row.address == q.address.value
    ensures row.studentType == q.studentType.value
    ensures row.passwordHash == hash(q.password.value, salt)
  {
    Student(q.name.value, q.email.value, hash(q.password.value, salt), q.year.value, q.sinNumber.value,
            q.department.value, q.phone.value, q.dob.value, q.address.value, q.studentType.value)
  }

  /** `registerStudent`: the presence check comes first, then the college-domain check; only a
      request passing both is hashed and stored. */
  function RegisterStudentEffect(students: seq<Student>, q: StudentRegistration, hash: (string, string) -> string, salt: string)
    : (r: (seq<Student>, Response))
    ensures !AllFieldsGiven(q) ==> r == (students, Reply(400, "All fields are required!"))
    ensures AllFieldsGiven(q) && !CollegeEmail(q.email.value) ==> r == (students, Reply(400, "Only college email is allowed!"))
    ensures r.1 == Reply(201, "Student registered successfully!") <==> AllFieldsGiven(q) && CollegeEmail(q.email.value)
    ensures r.1 != Reply(201, "Student registered successfully!") ==> r.0 == students
    ensures r.1 == Reply(201, "Student registered successfully!") ==> r.0 == students + [RegisteredRow(q, hash, salt)]
  {
    if !AllFieldsGiven(q) then (students, Reply(400, "All fields are required!"))
    else if !CollegeEmail(q.email.value) then (students, Reply(400, "Only college email is allowed!"))
    else
      (students + [RegisteredRow(q, hash, salt)], Reply(201, "Student registered successfully!"))
  }

  method RegisterStudent(db: Database, q: StudentRegistration, hash: (string, string) -> string, salt: string) returns (res: Response)
    modifies db`students
    ensures (db.students, res) == RegisterStudentEffect(old(db.students), q, hash, salt)
  {
    if !AllFieldsGiven(q) {
      return Reply(400, "All fields are required!");
    }
    if !CollegeEmail(q.email.value) {
      return Reply(400, "Only college email is allowed!");
    }
    var digest := hash(q.password.value, salt);
    db.students := db.students + [Student(q.name.value, q.email.value, digest, q.year.value, q.sinNumber.value,
                                          q.department.value, q.phone.value, q.dob.value, q.address.value, q.studentType.value)];
    res := Reply(201, "Student registered successfully!");
  }

  function EmailOf(s: Student): string { s.email }
  function DigestOf(s: Student): string { s.passwordHash }

  method LoginStudent(db: Database, email: Option<string>, password: Option<string>,
                      compare: (string, string) -> bool, sign: (Claims, string, int) -> string,
                      secret: Option<string>, now: int) returns (r: LoginReply)
    ensures r == LoginEffect(db.students, EmailOf, DigestOf, "Student not found!", email, password, compare, sign, secret, now)
  {
    if email.None? {
      return Denied(500, "Server error");
    }
    var found := RowWithEmail(db.students, EmailOf, email.value);
    if found.None? {
      return Denied(404, "Student not found!");
    }
    var student := db.students[found.value];
    if password.None? {
      return Denied(500, "Server error");
    }
    var validPassword := compare(password.value, student.passwordHash);
    if !validPassword {
      return Denied(401, "Invalid password!");
    }
    if Falsy(secret) {
      return Denied(500, "Server error");
    }
    r := LoggedIn(sign(Claims(found.value + 1, student.email), secret.value, now));
  }

  /** The columns the profile query selects (no password). */
  datatype StudentProfile = StudentProfile(
    id: int, name: string, email: string, year: string, sinNumber: string, department: string,
    phone: string, dob: string, address: string, studentType: string)

  function PublicColumns(id: int, s: Student): StudentProfile {
    StudentProfile(id, s.name, s.email, s.year, s.sinNumber, s.department, s.phone, s.dob, s.address, s.studentType)
  }

  method GetStudentProfile(db: Database, userId: Option<int>) returns (r: ProfileReply<StudentProfile>)
    ensures r == ProfileEffect(db.students, PublicColumns, userId, "Invalid request. Student ID missing.", "Student not found")
  {
    if userId.None? || userId.value == 0 {
      return Refused(400, "Invalid request. Student ID missing.");
    }
    var student := RowById(db.students, userId.value);
    if student.None? {
      return Refused(404, "Student not found");
    }
    r := Found(PublicColumns(userId.value, student.value));
  }

  /** A student who has just registered can log in with the same e-mail and password, and the
      token names the new row, when the e-mail was not registered before, the secret is set and
      `compare` accepts a password against its own digest. */
  lemma RegisteredStudentCanLogIn(
    students: seq<Student>, q: StudentRegistration, hash: (string, string) -> string, salt: string,
    compare: (string, string) -> bool, sign: (Claims, string, int) -> string, secret: Option<string>, now: int)
    requires RegisterStudentEffect(students, q, hash, salt).1 == Reply(201, "Student registered successfully!")
    requires forall s :: s in students ==> s.email != q.email.value
    requires compare(q.password.value, hash(q.password.value, salt))
    requires !Falsy(secret)
    ensures var after := RegisterStudentEffect(students, q, hash, salt).0;
      LoginEffect(after, EmailOf, DigestOf, "Student not found!", q.email, q.password, compare, sign, secret, now)
        == LoggedIn(sign(Claims(|students| + 1, q.email.value), secret.value, now))
  {
    var row := RegisteredRow(q, hash, salt);
    assert forall j :: 0 <= j < |students| ==> EmailOf(students[j]) != EmailOf(row) by {
      forall j | 0 <= j < |students| ensures EmailOf(students[j]) != EmailOf(row) {
        assert students[j] in students;
      }
    }
    LoginAfterRegistration(students, row, EmailOf, DigestOf, "Student not found!", q.password.value,
                           compare, sign, secret, now);
  }
}
