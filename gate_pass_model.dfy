/** The `gate_pass` table operations of backend/models/GatePassModel.js, plus the row-level
    `UPDATE ... WHERE id = ?` and `SELECT ... JOIN students` forms the controller issues
    directly. */
module GatePassModel {
  import opened Wrappers
  import opened JsText
  import opened Collections
  import opened Store

  /** The argument of `create`. */
  datatype NewPass = NewPass(studentId: int, reason: string, date: string, time: string, isHosteller: bool)

  /** A row of `gate_pass gp JOIN students s ON gp.student_id = s.id`: the pass, its id and
      its student's row (the query's `s.name`, `s.sin_number`, ... columns). */
  datatype PassRow = PassRow(id: int, pass: GatePass, student: Student)

  /** The row `create` inserts: status and the first three slots "Pending", the warden slot
      "Pending" only for a hosteller and NULL otherwise; the columns it does not list take
      their defaults. */
  function CreatedRow(data: NewPass, defaults: ColumnDefaults): (r: GatePass)
    ensures r.status == "Pending" && r.exitTime.None?
    ensures r.approvals.classAdvisor == r.approvals.hod == r.approvals.principal == Some("Pending")
    ensures r.approvals.warden == Some("Pending") <==> data.isHosteller
    ensures r.approvals.warden.None? <==> !data.isHosteller
    ensures r.studentId == data.studentId && r.reason == data.reason && r.date == data.date && r.time == data.time
  {
    GatePass(
      data.studentId, data.reason, data.date, data.time, "Pending", None,
      Approvals(Some("Pending"), Some("Pending"), Some("Pending"),
                if data.isHosteller then Some("Pending") else None),
      defaults.studentType, defaults.securityVerification)
  }

  /** `UPDATE gate_pass SET status = ? WHERE id = ?`: that row's status, nothing else. */
  function WithStatus(passes: seq<GatePass>, id: int, status: string): (r: seq<GatePass>)
    ensures |r| == |passes|
    ensures forall i :: 0 <= i < |r| ==> r[i] == if i == id - 1 then passes[i].(status := status) else passes[i]
  {
    if 1 <= id <= |passes| then passes[id - 1 := passes[id - 1].(status := status)] else passes
  }

  /** `UPDATE gate_pass SET <role>_approval = ? WHERE id = ?`: one slot of one row. */
  function WithApproval(passes: seq<GatePass>, id: int, role: Role, value: Option<string>): (r: seq<GatePass>)
    ensures |r| == |passes|
    ensures forall i :: 0 <= i < |r| && i != id - 1 ==> r[i] == passes[i]
    ensures 1 <= id <= |passes| ==> r[id - 1] == passes[id - 1].(approvals := passes[id - 1].approvals.Set(role, value))
  {
    if 1 <= id <= |passes| then
      passes[id - 1 := passes[id - 1].(approvals := passes[id - 1].approvals.Set(role, value))]
    else passes
  }

  /** `UPDATE gate_pass SET security_verification = ? WHERE id = ?`. */
  function WithVerification(passes: seq<GatePass>, id: int, value: string): (r: seq<GatePass>)
    ensures |r| == |passes|
    ensures forall i :: 0 <= i < |r| ==>
      r[i] == if i == id - 1 then passes[i].(securityVerification := Some(value)) else passes[i]
  {
    if 1 <= id <= |passes| then passes[id - 1 := passes[id - 1].(securityVerification := Some(value))] else passes
  }

  /** `UPDATE gate_pass SET exit_time = NOW(), status = 'Exited' WHERE id = ?` (issued by the
      controller), with the clock reading passed in as `now`. */
  function WithExit(passes: seq<GatePass>, id: int, now: int): (r: seq<GatePass>)
    ensures |r| == |passes|
    ensures forall i :: 0 <= i < |r| ==>
      r[i] == if i == id - 1 then passes[i].(exitTime := Some(now), status := "Exited") else passes[i]
  {
    if 1 <= id <= |passes| then passes[id - 1 := passes[id - 1].(exitTime := Some(now), status := "Exited")] else passes
  }

  /** A row of the join: a pass and the student its `student_id` names. */
  predicate IsJoined(passes: seq<GatePass>, students: seq<Student>, r: PassRow) {
    && 1 <= r.id <= |passes| && r.pass == passes[r.id - 1]
    && RowById(students, r.pass.studentId) == Some(r.student)
  }

  /** The joined rows with ids above `from`, in id order; a pass whose student row is missing
      drops out of an inner join. */
  function JoinFrom(passes: seq<GatePass>, students: seq<Student>, from: nat): (rows: seq<PassRow>)
    requires from <= |passes|
    ensures forall r :: r in rows <==> IsJoined(passes, students, r) && r.id > from
    ensures forall i, j :: 0 <= i < j < |rows| ==> from < rows[i].id < rows[j].id
    decreases |passes| - from
  {
    if from == |passes| then []
    else
      var rest := JoinFrom(passes, students, from + 1);
      match RowById(students, passes[from].studentId)
      case Some(s) => [PassRow(from + 1, passes[from], s)] + rest
      case None => rest
  }

  function Joined(passes: seq<GatePass>, students: seq<Student>): (rows: seq<PassRow>)
    ensures forall r :: r in rows <==> IsJoined(passes, students, r)
    ensures forall i, j :: 0 <= i < j < |rows| ==> rows[i].id < rows[j].id
    ensures Distinct(rows)
  {
    JoinFrom(passes, students, 0)
  }

  /** The joined row with that id, if the pass and its student both exist. */
  function JoinedById(passes: seq<GatePass>, students: seq<Student>, id: int): (r: Option<PassRow>)
    ensures r.Some? <==> 1 <= id <= |passes| && RowById(students, passes[id - 1].studentId).Some?
    ensures r.Some? ==> r.value.id == id && IsJoined(passes, students, r.value)
  {
    if 1 <= id <= |passes| then
      match RowById(students, passes[id - 1].studentId)
      case Some(s) => Some(PassRow(id, passes[id - 1], s))
      case None => None
    else None
  }

  /** `findByStudentId`: exactly the joined rows of that student. */
  function FindByStudentId(passes: seq<GatePass>, students: seq<Student>, studentId: int): (rows: seq<PassRow>)
    ensures forall r :: r in rows <==> IsJoined(passes, students, r) && r.pass.studentId == studentId
  {
    Filter(Joined(passes, students), (r: PassRow) => r.pass.studentId == studentId)
  }

  /** The joined rows whose status is exactly `status`, in id order. */
  function JoinedWithStatus(passes: seq<GatePass>, students: seq<Student>, status: string): (rows: seq<PassRow>)
    ensures forall r :: r in rows <==> IsJoined(passes, students, r) && r.pass.status == status
  {
    Filter(Joined(passes, students), (r: PassRow) => r.pass.status == status)
  }

  /** `findAllPendingPasses`: exactly the joined rows whose status is "Pending". */
  function FindAllPendingPasses(passes: seq<GatePass>, students: seq<Student>): (rows: seq<PassRow>)
    ensures forall r :: r in rows <==> IsJoined(passes, students, r) && r.pass.status == "Pending"
  {
    JoinedWithStatus(passes, students, "Pending")
  }

  /** The column `${role}_approval` names: MySQL column names ignore case, so "HOD" finds
      `hod_approval`; any other text names no column and the statement fails. */
  function ColumnRole(role: string): (r: Option<Role>)
    ensures r.Some? ==> LowerAscii(role) == RoleName(r.value)
    ensures r.None? ==> forall x: Role :: LowerAscii(role) != RoleName(x)
  {
    var name := LowerAscii(role);
    if name == "class_advisor" then Some(ClassAdvisor)
    else if name == "hod" then Some(Hod)
    else if name == "principal" then Some(Principal)
    else if name == "warden" then Some(Warden)
    else None
  }

  /** `getPendingApprovals(role)`: the joined rows whose slot for `role` is exactly "Pending";
      a NULL slot, the overall status and the other slots play no part. `None` is the SQL
      error for a role that names no column. */
  function PendingApprovals(passes: seq<GatePass>, students: seq<Student>, role: string): (rows: Option<seq<PassRow>>)
    ensures rows.None? <==> ColumnRole(role).None?
    ensures rows.Some? ==> forall r :: r in rows.value <==>
      IsJoined(passes, students, r) && r.pass.approvals.Get(ColumnRole(role).value) == Some("Pending")
  {
    match ColumnRole(role)
    case None => None
    case Some(x) => Some(Filter(Joined(passes, students), (r: PassRow) => r.pass.approvals.Get(x) == Some("Pending")))
  }

  /** `create`: appends the new row; its id is the new table length. */
  method Create(db: Database, data: NewPass) returns (insertId: int)
    modifies db`passes
    ensures db.passes == old(db.passes) + [CreatedRow(data, db.defaults)]
    ensures insertId == |db.passes| && RowById(db.passes, insertId) == Some(CreatedRow(data, db.defaults))
  {
    db.passes := db.passes + [CreatedRow(data, db.defaults)];
    insertId := |db.passes|;
  }

  /** `updateStatus`: writes any status into that row, with no check. */
  method UpdateStatus(db: Database, id: int, status: string)
    modifies db`passes
    ensures db.passes == WithStatus(old(db.passes), id, status)
  {
    db.passes := WithStatus(db.passes, id, status);
  }

  /** `updateApproval`: writes one slot with no check of the role or the value; `ok` is false
      when the role names no column (the SQL error). */
  method UpdateApproval(db: Database, id: int, role: string, status: string) returns (ok: bool)
    modifies db`passes
    ensures ok <==> ColumnRole(role).Some?
    ensures ok ==> db.passes == WithApproval(old(db.passes), id, ColumnRole(role).value, Some(status))
    ensures !ok ==> db.passes == old(db.passes)
  {
    var column := ColumnRole(role);
    ok := column.Some?;
    if ok {
      db.passes := WithApproval(db.passes, id, column.value, Some(status));
    }
  }

  /** `updateSecurityVerification`: writes the flag; `ok` is false (the method throws) when no
      row has that id. */
  method UpdateSecurityVerification(db: Database, id: int, status: string) returns (ok: bool)
    modifies db`passes
    ensures ok <==> 1 <= id <= |old(db.passes)|
    ensures db.passes == WithVerification(old(db.passes), id, status)
  {
    ok := 1 <= id <= |db.passes|;
    db.passes := WithVerification(db.passes, id, status);
  }
}
