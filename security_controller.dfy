/** backend/controllers/securityController.js over the `security` table. Registration has the
    same shape as the staff one: no presence check, an absent e-mail is never answered, an
    absent password or other field is 500. */
module SecurityController {
  import opened Wrappers
  import opened JsText
  import opened Store
  import opened Identity

  datatype GuardRegistration = GuardRegistration(
    name: Option<string>, email: Option<string>, password: Option<string>, phone: Option<string>)

  predicate Insertable(q: GuardRegistration) {
    q.name.Some? && q.email.Some? && q.password.Some? && q.phone.Some?
  }

  /** `registerSecurity`: the stored row is the name, e-mail, password digest and phone. */
  function RegisterSecurityEffect(guards: seq<Guard>, q: GuardRegistration, hash: (string, string) -> string, salt: string)
    : (r: (seq<Guard>, Response))
    ensures q.email.None? ==> r == (guards, NoReply)
    ensures q.email.Some? && !CollegeEmail(q.email.value) ==> r == (guards, Reply(400, "Only college email is allowed!"))
    ensures r.1 == Reply(201, "Security registered successfully!") <==> Insertable(q) && CollegeEmail(q.email.value)
    ensures q.email.Some? && CollegeEmail(q.email.value) && !Insertable(q) ==> r == (guards, Reply(500, "Server error"))
    ensures r.1 != Reply(201, "Security registered successfully!") ==> r.0 == guards
    ensures r.1 == Reply(201, "Security registered successfully!") ==>
      r.0 == guards + [Guard(q.name.value, q.email.value, hash(q.password.value, salt), q.phone.value)]
  {
    if q.email.None? then (guards, NoReply)
    else if !CollegeEmail(q.email.value) then (guards, Reply(400, "Only college email is allowed!"))
    else if !Insertable(q) then (guards, Reply(500, "Server error"))
    else (guards + [Guard(q.name.value, q.email.value, hash(q.password.value, salt), q.phone.value)],
          Reply(201, "Security registered successfully!"))
  }

  method RegisterSecurity(db: Database, q: GuardRegistration, hash: (string, string) -> string, salt: string) returns (res: Response)
    modifies db`guards
    ensures (db.guards, res) == RegisterSecurityEffect(old(db.guards), q, hash, salt)
  {
    if q.email.None? {
      return NoReply;
    }
    if !CollegeEmail(q.email.value) {
      return Reply(400, "Only college email is allowed!");
    }
    if q.password.None? {
      return Reply(500, "Server error");
    }
    var digest := hash(q.password.value, salt);
    if !Insertable(q) {
      return Reply(500, "Server error");
    }
    db.guards := db.guards + [Guard(q.name.value, q.email.value, digest, q.phone.value)];
    res := Reply(201, "Security registered successfully!");
  }

  function EmailOf(g: Guard): string { g.email }
  function DigestOf(g: Guard): string { g.passwordHash }

  method LoginSecurity(db: Database, email: Option<string>, password: Option<string>,
                       compare: (string, string) -> bool, sign: (Claims, string, int) -> string,
                       secret: Option<string>, now: int) returns (r: LoginReply)
    ensures r == LoginEffect(db.guards, EmailOf, DigestOf, "Security staff not found!", email, password, compare, sign, secret, now)
  {
    if email.None? {
      return Denied(500, "Server error");
    }
    var found := RowWithEmail(db.guards, EmailOf, email.value);
    if found.None? {
      return Denied(404, "Security staff not found!");
    }
    var guard := db.guards[found.value];
    if password.None? {
      return Denied(500, "Server error");
    }
    var validPassword := compare(password.value, guard.passwordHash);
    if !validPassword {
      return Denied(401, "Invalid password!");
    }
    if Falsy(secret) {
      return Denied(500, "Server error");
    }
    r := LoggedIn(sign(Claims(found.value + 1, guard.email), secret.value, now));
  }

  /** The columns the profile query selects (no password). */
  datatype GuardProfile = GuardProfile(id: int, name: string, email: string, phone: string)

  function PublicColumns(id: int, g: Guard): GuardProfile {
    GuardProfile(id, g.name, g.email, g.phone)
  }

  method GetSecurityProfile(db: Database, userId: Option<int>) returns (r: ProfileReply<GuardProfile>)
    ensures r == ProfileEffect(db.guards, PublicColumns, userId, "Invalid security ID", "Security staff not found")
  {
    if userId.None? || userId.value == 0 {
      return Refused(400, "Invalid security ID");
    }
    if !(1 <= userId.value <= |db.guards|) {
      return Refused(404, "Security staff not found");
    }
    r := Found(PublicColumns(userId.value, db.guards[userId.value - 1]));
  }

  /** A guard who has just registered can log in with the same e-mail and password. */
  lemma RegisteredGuardCanLogIn(
    guards: seq<Guard>, q: GuardRegistration, hash: (string, string) -> string, salt: string,
    compare: (string, string) -> bool, sign: (Claims, string, int) -> string, secret: Option<string>, now: int)
    requires RegisterSecurityEffect(guards, q, hash, salt).1 == Reply(201, "Security registered successfully!")
    requires forall g :: g in guards ==> g.email != q.email.value
    requires compare(q.password.value, hash(q.password.value, salt))
    requires !Falsy(secret)
    ensures var after := RegisterSecurityEffect(guards, q, hash, salt).0;
      LoginEffect(after, EmailOf, DigestOf, "Security staff not found!", q.email, q.password, compare, sign, secret, now)
        == LoggedIn(sign(Claims(|guards| + 1, q.email.value), secret.value, now))
  {
    var row := Guard(q.name.value, q.email.value, hash(q.password.value, salt), q.phone.value);
    assert forall j :: 0 <= j < |guards| ==> EmailOf(guards[j]) != EmailOf(row) by {
      forall j | 0 <= j < |guards| ensures EmailOf(guards[j]) != EmailOf(row) {
        assert guards[j] in guards;
      }
    }
    LoginAfterRegistration(guards, row, EmailOf, DigestOf, "Security staff not found!", q.password.value,
                           compare, sign, secret, now);
  }
}
