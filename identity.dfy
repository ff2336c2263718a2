/** What the three user controllers (studentController.js, staffController.js,
    securityController.js) share: the college e-mail rule, `loginX` and `getXProfile`. The
    three differ only in their table and their messages, so each is stated once here over
    any table of rows and instantiated by the controller modules.

    The foreign calls are parameters: `compare` is `bcrypt.compare(password, digest)`, `sign`
    is `jwt.sign(payload, secret, { expiresIn: "1h" })` at time `now`. `jwt.sign` throws when
    the secret is undefined or empty, which the handler's `catch` answers with 500. */
module Identity {
  import opened Wrappers
  import opened JsText
  import opened Collections

  /** The token payload `{ id, email }`. */
  datatype Claims = Claims(id: int, email: string)

  /** A login answer: a refusal, or 200 "Login successful" with the token. */
  datatype LoginReply = Denied(code: int, message: string) | LoggedIn(token: string)

  /** A profile answer: a refusal, or 200 with the selected columns. */
  datatype ProfileReply<P> = Refused(code: int, message: string) | Found(profile: P)

  const CollegeDomain: string := "@shanmugha.edu.in"

  /** Registration accepts only addresses of the college domain. */
  predicate CollegeEmail(email: string) {
    EndsWith(email, CollegeDomain)
  }

  /** `findByEmail`: the position of the first row with that e-mail. */
  function RowWithEmail<T>(rows: seq<T>, emailOf: T -> string, email: string): (r: Option<nat>)
    ensures r.Some? ==> r.value < |rows| && emailOf(rows[r.value]) == email
                        && forall j :: 0 <= j < r.value ==> emailOf(rows[j]) != email
    ensures r.None? <==> forall j :: 0 <= j < |rows| ==> emailOf(rows[j]) != email
  {
    FirstIndex(rows, (x: T) => emailOf(x) == email)
  }

  /** `loginX`: an absent e-mail makes the lookup throw (500); an unknown one is 404; an absent
      password makes `bcrypt.compare` throw (500); a failed compare is 401; a falsy secret
      makes `jwt.sign` throw (500); otherwise the token signs the row's id and e-mail. */
  function LoginEffect<T>(
    rows: seq<T>, emailOf: T -> string, digestOf: T -> string, notFound: string,
    email: Option<string>, password: Option<string>,
    compare: (string, string) -> bool, sign: (Claims, string, int) -> string,
    secret: Option<string>, now: int): (r: LoginReply)
    ensures email.None? ==> r == Denied(500, "Server error")
    ensures email.Some? && RowWithEmail(rows, emailOf, email.value).None? ==> r == Denied(404, notFound)
    ensures email.Some? && RowWithEmail(rows, emailOf, email.value).Some? && password.Some? &&
            !compare(password.value, digestOf(rows[RowWithEmail(rows, emailOf, email.value).value])) ==>
      r == Denied(401, "Invalid password!")
    ensures r.LoggedIn? <==>
      && email.Some? && RowWithEmail(rows, emailOf, email.value).Some? && password.Some?
      && compare(password.value, digestOf(rows[RowWithEmail(rows, emailOf, email.value).value]))
      && !Falsy(secret)
    ensures r.LoggedIn? ==>
      var i := RowWithEmail(rows, emailOf, email.value).value;
      emailOf(rows[i]) == email.value && r.token == sign(Claims(i + 1, email.value), secret.value, now)
    ensures r.Denied? ==> r.code in {401, 404, 500}
  {
    if email.None? then Denied(500, "Server error")
    else match RowWithEmail(rows, emailOf, email.value)
      case None => Denied(404, notFound)
      case Some(i) =>
        if password.None? then Denied(500, "Server error")
        else if !compare(password.value, digestOf(rows[i])) then Denied(401, "Invalid password!")
        else if Falsy(secret) then Denied(500, "Server error")
        else LoggedIn(sign(Claims(i + 1, emailOf(rows[i])), secret.value, now))
  }

  /** `getXProfile`: a falsy `req.user.id` (absent or 0) is 400; an id with no row is 404;
      otherwise the row's public columns. */
  function ProfileEffect<T, P>(rows: seq<T>, project: (int, T) -> P, userId: Option<int>, missingId: string, notFound: string): (r: ProfileReply<P>)
    ensures userId.None? || userId.value == 0 ==> r == Refused(400, missingId)
    ensures r.Found? <==> userId.Some? && 1 <= userId.value <= |rows|
    ensures r.Found? ==> r.profile == project(userId.value, rows[userId.value - 1])
    ensures userId.Some? && userId.value != 0 && r.Refused? ==> r == Refused(404, notFound)
  {
    match userId
    case None => Refused(400, missingId)
    case Some(id) =>
      if id == 0 then Refused(400, missingId)
      else if 1 <= id <= |rows| then Found(project(id, rows[id - 1]))
      else Refused(404, notFound)
  }

  /** What a successful registration promises: logging in right after with the same e-mail
      and password succeeds and the token names the new row, provided no earlier row has that
      e-mail, the secret is set and `compare` accepts every password against its own digest. */
  lemma {:induction false} LoginAfterRegistration<T>(
    rows: seq<T>, row: T, emailOf: T -> string, digestOf: T -> string, notFound: string,
    password: string,
    compare: (string, string) -> bool, sign: (Claims, string, int) -> string, secret: Option<string>, now: int)
    requires forall j :: 0 <= j < |rows| ==> emailOf(rows[j]) != emailOf(row)
    requires compare(password, digestOf(row))
    requires !Falsy(secret)
    ensures LoginEffect(rows + [row], emailOf, digestOf, notFound, Some(emailOf(row)), Some(password), compare, sign, secret, now)
         == LoggedIn(sign(Claims(|rows| + 1, emailOf(row)), secret.value, now))
  {
    var all := rows + [row];
    var i := RowWithEmail(all, emailOf, emailOf(row));
    assert all[|rows|] == row;
    assert forall j :: 0 <= j < |rows| ==> all[j] == rows[j];
    assert i == Some(|rows|);
  }
}
