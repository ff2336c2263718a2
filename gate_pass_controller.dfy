/** The request handlers of backend/controllers/gatePassController.js. Each state-changing
    handler is a method that issues the source's statements in the source's order and is
    proved equal to a pure effect function (new table, e-mails sent, response); the
    properties of the workflow are stated on those functions. */
module GatePassController {
  import opened Wrappers
  import opened JsText
  import opened Collections
  import opened Store
  import opened ApprovalChain
  import opened GatePassModel

  /** What a handler leaves behind: the `gate_pass` table, the e-mails sent, the response. */
  datatype Outcome = Outcome(passes: seq<GatePass>, emails: seq<Email>, response: Response)

  /** `submitGatePass` also returns the new id in its body. */
  datatype Submission = Submission(passes: seq<GatePass>, emails: seq<Email>, response: Response, gatePassId: Option<int>)

  /** `validRoles.includes(role)`: the exact four role names. */
  function ValidRole(role: string): (r: Option<Role>)
    ensures r.Some? <==> role == "class_advisor" || role == "hod" || role == "principal" || role == "warden"
    ensures r.Some? ==> RoleName(r.value) == role
  {
    if role == "class_advisor" then Some(ClassAdvisor)
    else if role == "hod" then Some(Hod)
    else if role == "principal" then Some(Principal)
    else if role == "warden" then Some(Warden)
    else None
  }

  /** The row `submitGatePass` inserts: status "Pending" and the student's current type;
      the approval slots and the verification flag are left to their column defaults. */
  function SubmittedRow(studentId: int, reason: string, date: string, time: string, student: Student, defaults: ColumnDefaults): GatePass {
    GatePass(studentId, reason, date, time, "Pending", None,
             Approvals(defaults.approval, defaults.approval, defaults.approval, defaults.approval),
             Some(student.studentType), defaults.securityVerification)
  }

  /** `submitGatePass`: the student, then a class advisor of the student's department, must
      both be found before anything is stored; then one row is inserted and exactly one
      e-mail goes to the first advisor found. A body field that is undefined makes mysql2
      throw, and the `catch` answers 500: `student_id` at the first query, before any
      lookup, and `reason`, `date` or `time` at the INSERT, after both lookups. Either way
      nothing is stored and no e-mail is sent. */
  function SubmitEffect(
    passes: seq<GatePass>, students: seq<Student>, staff: seq<StaffMember>, defaults: ColumnDefaults,
    studentId: Option<int>, reason: Option<string>, date: Option<string>, time: Option<string>): (r: Submission)
    ensures studentId.None? ==> r == Submission(passes, [], Reply(500, "Server error"), None)
    ensures studentId.Some? && RowById(students, studentId.value).None? ==>
      r == Submission(passes, [], Reply(404, "Student not found"), None)
    ensures studentId.Some? && RowById(students, studentId.value).Some?
            && AdvisorOfDepartment(staff, RowById(students, studentId.value).value.department).None? ==>
      r == Submission(passes, [], Reply(404, "Class Advisor not found"), None)
    ensures studentId.Some? && RowById(students, studentId.value).Some?
            && AdvisorOfDepartment(staff, RowById(students, studentId.value).value.department).Some?
            && (reason.None? || date.None? || time.None?) ==>
      r == Submission(passes, [], Reply(500, "Server error"), None)
    ensures r.gatePassId.Some? <==>
      && studentId.Some? && RowById(students, studentId.value).Some?
      && AdvisorOfDepartment(staff, RowById(students, studentId.value).value.department).Some?
      && reason.Some? && date.Some? && time.Some?
    ensures r.gatePassId.Some? ==>
      var student := students[studentId.value - 1];
      var advisor := staff[AdvisorOfDepartment(staff, student.department).value];
      && advisor.designation == "class_advisor" && advisor.department == student.department
      && r.gatePassId.value == |passes| + 1
      && |r.passes| == |passes| + 1 && r.passes[..|passes|] == passes
      && r.passes[|passes|].studentId == studentId.value && r.passes[|passes|].status == "Pending"
      && r.passes[|passes|].studentType == Some(student.studentType)
      && r.passes[|passes|].reason == reason.value && r.passes[|passes|].date == date.value
      && r.passes[|passes|].time == time.value
      && r.emails == [Email(advisor.email, "Gate Pass Approval Request")]
      && r.response == Reply(201, "Gate pass submitted successfully and email sent for approval")
  {
    match studentId
    case None => Submission(passes, [], Reply(500, "Server error"), None)
    case Some(sid) =>
      match RowById(students, sid)
      case None => Submission(passes, [], Reply(404, "Student not found"), None)
      case Some(student) =>
        match AdvisorOfDepartment(staff, student.department)
        case None => Submission(passes, [], Reply(404, "Class Advisor not found"), None)
        case Some(i) =>
          if reason.None? || date.None? || time.None? then Submission(passes, [], Reply(500, "Server error"), None)
          else
            var row := SubmittedRow(sid, reason.value, date.value, time.value, student, defaults);
            assert (passes + [row])[..|passes|] == passes;
            Submission(passes + [row], [Email(staff[i].email, "Gate Pass Approval Request")],
                       Reply(201, "Gate pass submitted successfully and email sent for approval"), Some(|passes| + 1))
  }

  /** The e-mail an accepted approval sends: to the first staff member holding the next
      approver's designation (in any department; none found means no e-mail), or to the
      student when the pass became finally approved; otherwise none. */
  function Notification(step: Step, staff: seq<StaffMember>, studentEmail: string): (r: seq<Email>)
    ensures |r| <= 1
    ensures step.next.Some? ==>
      match StaffWithDesignation(staff, RoleName(step.next.value))
      case None => r == [] && forall s :: s in staff ==> s.designation != RoleName(step.next.value)
      case Some(i) => staff[i].designation == RoleName(step.next.value)
                      && r == [Email(staff[i].email, "New Gate Pass Approval Request")]
    ensures step.next.None? ==>
      r == if step.finalStatus == "Approved" then [Email(studentEmail, "Gate Pass Approved")] else []
  {
    match step.next
    case Some(x) =>
      (match StaffWithDesignation(staff, RoleName(x))
       case Some(i) => [Email(staff[i].email, "New Gate Pass Approval Request")]
       case None => [])
    case None =>
      if step.finalStatus == "Approved" then [Email(studentEmail, "Gate Pass Approved")] else []
  }

  /** The slots of pass `id` once `decision` is written into `role`'s slot. */
  function SlotsAfter(p: GatePass, role: Role, decision: string): Approvals {
    p.approvals.Set(role, Some(decision))
  }

  /** `approveGatePass`: validate the role, write the decision into that role's slot without
      checking it, then either mark the pass rejected or re-read it and store the status the
      rule chain computes, and send at most one e-mail. An undefined `status` makes the slot
      write throw, and the `catch` answers 500 before anything is written. */
  function ApproveEffect(
    passes: seq<GatePass>, students: seq<Student>, staff: seq<StaffMember>,
    id: int, role: string, status: Option<string>): (r: Outcome)
    // an unknown role is refused before any write
    ensures ValidRole(role).None? ==> r == Outcome(passes, [], Reply(400, "Invalid role"))
    // an undefined decision fails at the first write
    ensures ValidRole(role).Some? && status.None? ==> r == Outcome(passes, [], Reply(500, "Server error"))
    // only row `id` can change, and in it only the role's slot and the status
    ensures |r.passes| == |passes|
    ensures forall i :: 0 <= i < |passes| && i != id - 1 ==> r.passes[i] == passes[i]
    ensures ValidRole(role).Some? && status.Some? && 1 <= id <= |passes| ==>
      r.passes[id - 1] == passes[id - 1].(approvals := SlotsAfter(passes[id - 1], ValidRole(role).value, status.value),
                                          status := r.passes[id - 1].status)
    // a rejection marks the pass, tells no one and succeeds even for an id with no row
    ensures ValidRole(role).Some? && status == Some("Rejected") ==>
      && r.emails == [] && r.response == Reply(200, "Gate pass Rejected by " + role)
      && (1 <= id <= |passes| ==> r.passes[id - 1].status == "Rejected")
    // any other decision answers 404 exactly when the re-read finds nothing, after the slot
    // write and without touching the status
    ensures ValidRole(role).Some? && status.Some? && status.value != "Rejected" && JoinedById(passes, students, id).None? ==>
      && r.emails == [] && r.response == Reply(404, "Gate Pass not found")
      && (1 <= id <= |passes| ==> r.passes[id - 1].status == passes[id - 1].status)
    ensures ValidRole(role).Some? && status.Some? && status.value != "Rejected" && JoinedById(passes, students, id).Some? ==>
      var step := NextStep(SlotsAfter(passes[id - 1], ValidRole(role).value, status.value), passes[id - 1].studentType);
      && r.passes[id - 1].status == step.finalStatus
      && r.emails == Notification(step, staff, JoinedById(passes, students, id).value.student.email)
      && r.response == Reply(200, "Gate pass " + status.value + " by " + role)
    ensures |r.emails| <= 1
  {
    match ValidRole(role)
    case None => Outcome(passes, [], Reply(400, "Invalid role"))
    case Some(x) =>
      match status
      case None => Outcome(passes, [], Reply(500, "Server error"))
      case Some(decision) =>
        var written := WithApproval(passes, id, x, Some(decision));
        if decision == "Rejected" then
          Outcome(WithStatus(written, id, "Rejected"), [], Reply(200, "Gate pass Rejected by " + role))
        else
          match JoinedById(written, students, id)
          case None => Outcome(written, [], Reply(404, "Gate Pass not found"))
          case Some(row) =>
            var step := NextStep(row.pass.approvals, row.pass.studentType);
            Outcome(WithStatus(written, id, step.finalStatus), Notification(step, staff, row.student.email),
                    Reply(200, "Gate pass " + decision + " by " + role))
  }

  /** `exitGatePass`: only a pass whose status is exactly "Approved" may exit; exiting stamps
      the time, sets "Exited" and tells the student if the student row exists. */
  function ExitEffect(passes: seq<GatePass>, students: seq<Student>, id: int, now: int): (r: Outcome)
    ensures RowById(passes, id).None? ==> r == Outcome(passes, [], Reply(404, "Gate Pass not found"))
    ensures RowById(passes, id).Some? && passes[id - 1].status != "Approved" ==>
      r == Outcome(passes, [], Reply(400, "Gate pass not approved yet"))
    ensures r.response.Reply? && r.response.code == 200 <==> RowById(passes, id).Some? && passes[id - 1].status == "Approved"
    ensures r.response.Reply? && r.response.code == 200 ==>
      && r.passes == WithExit(passes, id, now)
      && r.passes[id - 1].status == "Exited" && r.passes[id - 1].exitTime == Some(now)
      && r.emails == (match RowById(students, passes[id - 1].studentId)
                      case Some(s) => [Email(s.email, "Gate Pass Exit Confirmed")]
                      case None => [])
      && r.response == Reply(200, "Exit confirmed by Security")
  {
    match RowById(passes, id)
    case None => Outcome(passes, [], Reply(404, "Gate Pass not found"))
    case Some(p) =>
      if p.status != "Approved" then Outcome(passes, [], Reply(400, "Gate pass not approved yet"))
      else
        var emails := (match RowById(students, p.studentId)
                       case Some(s) => [Email(s.email, "Gate Pass Exit Confirmed")]
                       case None => []);
        Outcome(WithExit(passes, id, now), emails, Reply(200, "Exit confirmed by Security"))
  }

  /** `ORDER BY gp.date DESC, gp.time DESC`: `a` may come first when its date is later, or the
      dates are equal and its time is not earlier. */
  predicate NewestFirst(a: PassRow, b: PassRow) {
    || (a.pass.date != b.pass.date && StringLe(b.pass.date, a.pass.date))
    || (a.pass.date == b.pass.date && StringLe(b.pass.time, a.pass.time))
  }

  lemma NewestFirstIsTotalPreorder()
    ensures TotalPreorder(NewestFirst)
  {
    forall a, b ensures NewestFirst(a, b) || NewestFirst(b, a) {
      StringLeTotal(a.pass.date, b.pass.date);
      StringLeTotal(a.pass.time, b.pass.time);
    }
    forall a, b, c | NewestFirst(a, b) && NewestFirst(b, c) ensures NewestFirst(a, c) {
      var da, db, dc := a.pass.date, b.pass.date, c.pass.date;
      if da == db && db == dc {
        StringLeTransitive(c.pass.time, b.pass.time, a.pass.time);
      } else if da != db && db != dc {
        StringLeTransitive(dc, db, da);
        if da == dc {
          StringLeAntisymmetric(da, db);
        }
      }
    }
  }

  predicate ClearedForSecurity(r: PassRow) {
    r.pass.status == "Approved" || r.pass.status == "Exited"
  }

  /** `getGatePassesForSecurity`: exactly the joined passes whose status is "Approved" or
      "Exited", each once, newest date first and, within a date, newest time first. */
  function SecurityQueue(passes: seq<GatePass>, students: seq<Student>): (rows: seq<PassRow>)
    ensures forall r :: r in rows <==> IsJoined(passes, students, r) && ClearedForSecurity(r)
    ensures multiset(rows) == multiset(Filter(Joined(passes, students), ClearedForSecurity))
    ensures forall r :: multiset(rows)[r] <= 1
    ensures SortedBy(rows, NewestFirst)
  {
    var cleared := Filter(Joined(passes, students), ClearedForSecurity);
    FilterDistinct(Joined(passes, students), ClearedForSecurity);
    DistinctAtMostOnce(cleared);
    NewestFirstIsTotalPreorder();
    SortByCorrect(cleared, NewestFirst);
    assert forall r :: r in SortBy(cleared, NewestFirst) <==> r in multiset(cleared);
    SortBy(cleared, NewestFirst)
  }

  /** `getApprovedGatePasses`: exactly the joined passes whose status is "Approved". */
  function ApprovedPasses(passes: seq<GatePass>, students: seq<Student>): (rows: seq<PassRow>)
    ensures forall r :: r in rows <==> IsJoined(passes, students, r) && r.pass.status == "Approved"
  {
    JoinedWithStatus(passes, students, "Approved")
  }

  // ---------------------------------------------------------------------------------------
  // The handlers.

  method SubmitGatePass(
    db: Database, mail: Mailer, studentId: Option<int>, reason: Option<string>, date: Option<string>, time: Option<string>)
    returns (res: Response, gatePassId: Option<int>)
    modifies db`passes, mail
    ensures var r := SubmitEffect(old(db.passes), db.students, db.staff, db.defaults, studentId, reason, date, time);
      db.passes == r.passes && mail.outbox == old(mail.outbox) + r.emails && res == r.response && gatePassId == r.gatePassId
  {
    if studentId.None? {
      return Reply(500, "Server error"), None;
    }
    var student := RowById(db.students, studentId.value);
    if student.None? {
      return Reply(404, "Student not found"), None;
    }
    var advisor := AdvisorOfDepartment(db.staff, student.value.department);
    if advisor.None? {
      return Reply(404, "Class Advisor not found"), None;
    }
    var staffEmail := db.staff[advisor.value].email;
    if reason.None? || date.None? || time.None? {
      return Reply(500, "Server error"), None;
    }
    db.passes := db.passes + [SubmittedRow(studentId.value, reason.value, date.value, time.value, student.value, db.defaults)];
    gatePassId := Some(|db.passes|);
    mail.Send(staffEmail, "Gate Pass Approval Request");
    res := Reply(201, "Gate pass submitted successfully and email sent for approval");
  }

  method ApproveGatePass(db: Database, mail: Mailer, id: int, role: string, status: Option<string>) returns (res: Response)
    modifies db`passes, mail
    ensures var r := ApproveEffect(old(db.passes), db.students, db.staff, id, role, status);
      db.passes == r.passes && mail.outbox == old(mail.outbox) + r.emails && res == r.response
  {
    var x := ValidRole(role);
    if x.None? {
      return Reply(400, "Invalid role");
    }
    if status.None? {
      return Reply(500, "Server error");
    }
    var decision := status.value;
    db.passes := WithApproval(db.passes, id, x.value, Some(decision));
    if decision == "Rejected" {
      db.passes := WithStatus(db.passes, id, "Rejected");
      return Reply(200, "Gate pass Rejected by " + role);
    }
    var row := JoinedById(db.passes, db.students, id);
    if row.None? {
      return Reply(404, "Gate Pass not found");
    }
    var step := NextStep(row.value.pass.approvals, row.value.pass.studentType);
    db.passes := WithStatus(db.passes, id, step.finalStatus);
    if step.next.Some? {
      var next := StaffWithDesignation(db.staff, RoleName(step.next.value));
      if next.Some? {
        mail.Send(db.staff[next.value].email, "New Gate Pass Approval Request");
      }
    } else if step.finalStatus == "Approved" {
      mail.Send(row.value.student.email, "Gate Pass Approved");
    }
    res := Reply(200, "Gate pass " + decision + " by " + role);
  }

  method ExitGatePass(db: Database, mail: Mailer, id: int, now: int) returns (res: Response)
    modifies db`passes, mail
    ensures var r := ExitEffect(old(db.passes), db.students, id, now);
      db.passes == r.passes && mail.outbox == old(mail.outbox) + r.emails && res == r.response
  {
    var p := RowById(db.passes, id);
    if p.None? {
      return Reply(404, "Gate Pass not found");
    }
    if p.value.status != "Approved" {
      return Reply(400, "Gate pass not approved yet");
    }
    db.passes := WithExit(db.passes, id, now);
    var student := RowById(db.students, p.value.studentId);
    if student.Some? {
      mail.Send(student.value.email, "Gate Pass Exit Confirmed");
    }
    res := Reply(200, "Exit confirmed by Security");
  }

  /** `verifyGatePass`: 500 when the model throws because no row has that id, and 500
      before any write when the body's `status` is undefined. */
  method VerifyGatePass(db: Database, id: int, status: Option<string>) returns (res: Response)
    modifies db`passes
    ensures status.None? ==> db.passes == old(db.passes) && res == Reply(500, "Server error")
    ensures status.Some? ==> db.passes == WithVerification(old(db.passes), id, status.value)
    ensures status.Some? ==>
      res == if 1 <= id <= |old(db.passes)| then Reply(200, "Gate pass " + status.value + " by security.")
             else Reply(500, "Server error")
  {
    if status.None? {
      return Reply(500, "Server error");
    }
    var ok := UpdateSecurityVerification(db, id, status.value);
    res := if ok then Reply(200, "Gate pass " + status.value + " by security.") else Reply(500, "Server error");
  }

  /** `updateGatePassStatus`: writes any status, bypassing the approval chain; an undefined
      `status` makes the write throw, which answers 500 with nothing written. */
  method UpdateGatePassStatus(db: Database, id: int, status: Option<string>) returns (res: Response)
    modifies db`passes
    ensures status.None? ==> db.passes == old(db.passes) && res == Reply(500, "Server error")
    ensures status.Some? ==> db.passes == WithStatus(old(db.passes), id, status.value) && res == Reply(200, "Gate pass status updated!")
  {
    if status.None? {
      return Reply(500, "Server error");
    }
    UpdateStatus(db, id, status.value);
    res := Reply(200, "Gate pass status updated!");
  }

  /** `getGatePassesForSecurity`. */
  method GetGatePassesForSecurity(db: Database) returns (code: int, rows: seq<PassRow>)
    ensures code == 200
    ensures forall r :: r in rows ==> r.pass.status != "Pending" && r.pass.status != "Rejected"
    ensures rows == SecurityQueue(db.passes, db.students)
  {
    code, rows := 200, SecurityQueue(db.passes, db.students);
  }

  /** `getPendingApprovals`: the model's rows, or 500 for a role that names no column. */
  method GetPendingApprovals(db: Database, role: string) returns (code: int, rows: seq<PassRow>)
    ensures code == 200 || code == 500
    ensures code == 500 <==> ColumnRole(role).None?
    ensures code == 200 ==> forall r :: r in rows <==>
      IsJoined(db.passes, db.students, r) && r.pass.approvals.Get(ColumnRole(role).value) == Some("Pending")
    ensures code == 500 ==> rows == []
  {
    var result := PendingApprovals(db.passes, db.students, role);
    if result.None? {
      code, rows := 500, [];
    } else {
      code, rows := 200, result.value;
    }
  }

  // ---------------------------------------------------------------------------------------
  // Properties that relate several requests.

  /** Approving twice with the same role and decision changes nothing the second time and
      sends the same e-mail again: the chain is recomputed from the stored slots. */
  lemma ApproveIsIdempotent(passes: seq<GatePass>, students: seq<Student>, staff: seq<StaffMember>, id: int, role: string, status: Option<string>)
    ensures var first := ApproveEffect(passes, students, staff, id, role, status);
      ApproveEffect(first.passes, students, staff, id, role, status) == first
  {
    var first := ApproveEffect(passes, students, staff, id, role, status);
    var second := ApproveEffect(first.passes, students, staff, id, role, status);
    if ValidRole(role).Some? && status.Some? && 1 <= id <= |passes| {
      var x := ValidRole(role).value;
      assert first.passes[id - 1].approvals.Set(x, status) == first.passes[id - 1].approvals;
      assert JoinedById(first.passes, students, id).Some? <==> JoinedById(passes, students, id).Some?;
      assert second.passes == first.passes;
    }
  }

  /** A rejected pass is not final: a later approval by another role rewrites its status. For
      any rejected hosteller pass whose class advisor approved and whose warden slot is empty,
      whatever the HOD slot holds, the principal's approval sets the status back to "Pending"
      and asks the warden (or the HOD while that slot is still empty). */
  lemma RejectionIsNotSticky(passes: seq<GatePass>, students: seq<Student>, staff: seq<StaffMember>, id: int)
    requires JoinedById(passes, students, id).Some?
    requires passes[id - 1].status == "Rejected" && passes[id - 1].studentType == Some("Hosteller")
    requires IsApproved(passes[id - 1].approvals.classAdvisor) && IsEmpty(passes[id - 1].approvals.warden)
    ensures var r := ApproveEffect(passes, students, staff, id, "principal", Some("Approved"));
      var next := if IsEmpty(passes[id - 1].approvals.hod) then Hod else Warden;
      && r.passes[id - 1].status == "Pending"
      && r.emails == Notification(Step(Some(next), "Pending"), staff, students[passes[id - 1].studentId - 1].email)
  {
    ApprovingStep(passes, students, staff, id, "principal", Principal);
    RejectedSlotDoesNotBlockWarden(passes[id - 1].approvals.Set(Principal, Some("Approved")));
  }

  /** An exited pass is not final either: re-approving any slot of a fully approved pass sets
      it back to "Approved", and security can then let it exit a second time. */
  lemma ExitedPassCanExitAgain(passes: seq<GatePass>, students: seq<Student>, staff: seq<StaffMember>, id: int, role: string, now: int, later: int)
    requires ValidRole(role).Some?
    requires JoinedById(passes, students, id).Some?
    requires passes[id - 1].status == "Exited"
    requires FullyApproved(passes[id - 1].approvals, passes[id - 1].studentType)
    ensures var again := ApproveEffect(passes, students, staff, id, role, Some("Approved"));
      && again.passes[id - 1].status == "Approved"
      && ExitEffect(again.passes, students, id, later).response == Reply(200, "Exit confirmed by Security")
  {
    var x := ValidRole(role).value;
    var a := SlotsAfter(passes[id - 1], x, "Approved");
    assert FullyApproved(a, passes[id - 1].studentType);
  }

  /** Exiting twice: the second attempt fails with 400 and changes nothing. */
  lemma SecondExitFails(passes: seq<GatePass>, students: seq<Student>, id: int, now: int, later: int)
    requires ExitEffect(passes, students, id, now).response == Reply(200, "Exit confirmed by Security")
    ensures var first := ExitEffect(passes, students, id, now);
      ExitEffect(first.passes, students, id, later) == Outcome(first.passes, [], Reply(400, "Gate pass not approved yet"))
  {
  }

  /** One approving step on a pass whose row joins: the slot is written, the status becomes
      the one the rule chain computes, the row still joins, and the chain's notification is
      sent to the student's address when the pass is final. */
  lemma ApprovingStep(passes: seq<GatePass>, students: seq<Student>, staff: seq<StaffMember>, id: int, role: string, x: Role)
    requires JoinedById(passes, students, id).Some?
    requires ValidRole(role) == Some(x)
    ensures var r := ApproveEffect(passes, students, staff, id, role, Some("Approved"));
      var step := NextStep(passes[id - 1].approvals.Set(x, Some("Approved")), passes[id - 1].studentType);
      && r.passes[id - 1] == passes[id - 1].(approvals := passes[id - 1].approvals.Set(x, Some("Approved")),
                                             status := step.finalStatus)
      && JoinedById(r.passes, students, id).Some?
      && r.emails == Notification(step, staff, students[passes[id - 1].studentId - 1].email)
  {
    var r := ApproveEffect(passes, students, staff, id, role, Some("Approved"));
    assert r.passes[id - 1].studentId == passes[id - 1].studentId;
  }

  /** The class advisor and then the HOD approving a fresh pass: each asks the next approver,
      the pass stays "Pending", and its row still joins with both slots approved; the student's
      type plays no part yet. */
  lemma FirstTwoApprovals(passes: seq<GatePass>, students: seq<Student>, staff: seq<StaffMember>, id: int)
    requires JoinedById(passes, students, id).Some?
    requires var a := passes[id - 1].approvals; IsEmpty(a.classAdvisor) && IsEmpty(a.hod) && IsEmpty(a.principal)
    ensures var r1 := ApproveEffect(passes, students, staff, id, "class_advisor", Some("Approved"));
      var r2 := ApproveEffect(r1.passes, students, staff, id, "hod", Some("Approved"));
      && r1.passes[id - 1].status == "Pending" && r2.passes[id - 1].status == "Pending"
      && r1.emails == Notification(Step(Some(Hod), "Pending"), staff, students[passes[id - 1].studentId - 1].email)
      && r2.emails == Notification(Step(Some(Principal), "Pending"), staff, students[passes[id - 1].studentId - 1].email)
      && JoinedById(r2.passes, students, id).Some?
      && r2.passes[id - 1] == passes[id - 1].(approvals := passes[id - 1].approvals.(classAdvisor := Some("Approved"), hod := Some("Approved")),
                                              status := "Pending")
  {
    var a0 := passes[id - 1].approvals;
    var r1 := ApproveEffect(passes, students, staff, id, "class_advisor", Some("Approved"));
    ApprovingStep(passes, students, staff, id, "class_advisor", ClassAdvisor);
    var a1 := a0.Set(ClassAdvisor, Some("Approved"));
    assert NextStep(a1, passes[id - 1].studentType) == Step(Some(Hod), "Pending");
    ApprovingStep(r1.passes, students, staff, id, "hod", Hod);
    var a2 := a1.Set(Hod, Some("Approved"));
    assert NextStep(a2, passes[id - 1].studentType) == Step(Some(Principal), "Pending");
  }

  /** A hosteller's pass whose class advisor and HOD approved: the principal's approval asks
      the warden and keeps it "Pending", and the warden's approval makes it "Approved" with
      one e-mail to the student. */
  lemma HostellerFinalSteps(passes: seq<GatePass>, students: seq<Student>, staff: seq<StaffMember>, id: int)
    requires JoinedById(passes, students, id).Some?
    requires passes[id - 1].studentType == Some("Hosteller")
    requires var a := passes[id - 1].approvals;
      IsApproved(a.classAdvisor) && IsApproved(a.hod) && IsEmpty(a.principal) && IsEmpty(a.warden)
    ensures var r3 := ApproveEffect(passes, students, staff, id, "principal", Some("Approved"));
      var r4 := ApproveEffect(r3.passes, students, staff, id, "warden", Some("Approved"));
      && r3.passes[id - 1].status == "Pending" && r4.passes[id - 1].status == "Approved"
      && r3.emails == Notification(Step(Some(Warden), "Pending"), staff, students[passes[id - 1].studentId - 1].email)
      && r4.emails == [Email(students[passes[id - 1].studentId - 1].email, "Gate Pass Approved")]
  {
    var a3 := passes[id - 1].approvals.Set(Principal, Some("Approved"));
    assert NextStep(a3, passes[id - 1].studentType) == Step(Some(Warden), "Pending");
    var r3 := ApproveEffect(passes, students, staff, id, "principal", Some("Approved"));
    ApprovingStep(passes, students, staff, id, "principal", Principal);
    WardenFinalStep(r3.passes, students, staff, id);
  }

  /** A hosteller's pass that the class advisor, the HOD and the principal approved is final
      once the warden approves, with one e-mail to the student. */
  lemma WardenFinalStep(passes: seq<GatePass>, students: seq<Student>, staff: seq<StaffMember>, id: int)
    requires JoinedById(passes, students, id).Some?
    requires passes[id - 1].studentType == Some("Hosteller")
    requires var a := passes[id - 1].approvals;
      IsApproved(a.classAdvisor) && IsApproved(a.hod) && IsApproved(a.principal) && IsEmpty(a.warden)
    ensures var r4 := ApproveEffect(passes, students, staff, id, "warden", Some("Approved"));
      && r4.passes[id - 1].status == "Approved"
      && r4.emails == [Email(students[passes[id - 1].studentId - 1].email, "Gate Pass Approved")]
  {
    var a4 := passes[id - 1].approvals.Set(Warden, Some("Approved"));
    assert NextStep(a4, passes[id - 1].studentType) == Step(None, "Approved");
    ApprovingStep(passes, students, staff, id, "warden", Warden);
  }

  /** A day scholar's pass whose class advisor and HOD approved is final once the principal
      approves: no warden step, and one e-mail to the student. */
  lemma DayScholarFinalStep(passes: seq<GatePass>, students: seq<Student>, staff: seq<StaffMember>, id: int)
    requires JoinedById(passes, students, id).Some?
    requires passes[id - 1].studentType == Some("Day Scholar")
    requires var a := passes[id - 1].approvals;
      IsApproved(a.classAdvisor) && IsApproved(a.hod) && IsEmpty(a.principal)
    ensures var r3 := ApproveEffect(passes, students, staff, id, "principal", Some("Approved"));
      && r3.passes[id - 1].status == "Approved"
      && r3.emails == [Email(students[passes[id - 1].studentId - 1].email, "Gate Pass Approved")]
  {
    var a3 := passes[id - 1].approvals.Set(Principal, Some("Approved"));
    assert NextStep(a3, passes[id - 1].studentType) == Step(None, "Approved");
    ApprovingStep(passes, students, staff, id, "principal", Principal);
  }
}
