/** backend/controllers/visitorController.js. A request body field that is absent is `None`;
    the database driver refuses an undefined bind parameter, so such a field makes the
    statement that binds it throw, which the handler's `catch` answers with 500. */
module VisitorController {
  import opened Wrappers
  import opened JsText
  import opened Store
  import opened VisitorModel

  datatype VisitorRequest = VisitorRequest(
    name: Option<string>, phone: Option<string>, reason: Option<string>, inTime: Option<string>,
    expectedExitTime: Option<string>, concernedPersonName: Option<string>, concernedPersonPhone: Option<string>)

  /** Every field `create` binds is present. */
  predicate Insertable(q: VisitorRequest) {
    q.name.Some? && q.phone.Some? && q.reason.Some? && q.inTime.Some? && q.expectedExitTime.Some?
    && q.concernedPersonName.Some?
  }

  datatype VisitorOutcome = VisitorOutcome(visitors: seq<Visitor>, emails: seq<Email>, response: Response)

  /** `submitVisitor`: the concerned staff member is found by phone alone; a missing one (or
      one with an empty e-mail) is 404; otherwise one "Pending" row addressed to that member is
      stored and one e-mail goes to them. */
  function SubmitVisitorEffect(visitors: seq<Visitor>, staff: seq<StaffMember>, q: VisitorRequest): (r: VisitorOutcome)
    ensures q.concernedPersonPhone.None? ==> r == VisitorOutcome(visitors, [], Reply(500, "Server error"))
    ensures q.concernedPersonPhone.Some? && Falsy(FindStaffEmail(staff, q.concernedPersonPhone.value)) ==>
      r == VisitorOutcome(visitors, [], Reply(404, "Concerned staff not found."))
    // the lookup comes before the insert: a found member with an absent field fails at the insert
    ensures q.concernedPersonPhone.Some? && !Falsy(FindStaffEmail(staff, q.concernedPersonPhone.value)) && !Insertable(q) ==>
      r == VisitorOutcome(visitors, [], Reply(500, "Server error"))
    ensures r.response == Reply(201, "Visitor request submitted and email sent.") <==>
      q.concernedPersonPhone.Some? && !Falsy(FindStaffEmail(staff, q.concernedPersonPhone.value)) && Insertable(q)
    ensures r.response != Reply(201, "Visitor request submitted and email sent.") ==> r.visitors == visitors
    ensures r.response == Reply(201, "Visitor request submitted and email sent.") ==>
      var email := FindStaffEmail(staff, q.concernedPersonPhone.value).value;
      && r.visitors == visitors + [CreatedVisitor(q.name.value, q.phone.value, q.reason.value, q.inTime.value,
                                                  q.expectedExitTime.value, q.concernedPersonName.value, email)]
      && r.visitors[|visitors|].status == "Pending"
      && (exists s :: s in staff && s.phone == q.concernedPersonPhone.value && s.email == email)
      && r.emails == [Email(email, "Visitor Approval Request")]
  {
    match q.concernedPersonPhone
    case None => VisitorOutcome(visitors, [], Reply(500, "Server error"))
    case Some(phone) =>
      var staffEmail := FindStaffEmail(staff, phone);
      if Falsy(staffEmail) then VisitorOutcome(visitors, [], Reply(404, "Concerned staff not found."))
      else if !Insertable(q) then VisitorOutcome(visitors, [], Reply(500, "Server error"))
      else
        var row := CreatedVisitor(q.name.value, q.phone.value, q.reason.value, q.inTime.value, q.expectedExitTime.value,
                                  q.concernedPersonName.value, staffEmail.value);
        VisitorOutcome(visitors + [row], [Email(staffEmail.value, "Visitor Approval Request")],
                       Reply(201, "Visitor request submitted and email sent."))
  }

  method SubmitVisitor(db: Database, mail: Mailer, q: VisitorRequest) returns (res: Response)
    modifies db`visitors, mail
    ensures var r := SubmitVisitorEffect(old(db.visitors), db.staff, q);
      db.visitors == r.visitors && mail.outbox == old(mail.outbox) + r.emails && res == r.response
  {
    if q.concernedPersonPhone.None? {
      return Reply(500, "Server error");
    }
    var staffEmail := FindStaffEmail(db.staff, q.concernedPersonPhone.value);
    if Falsy(staffEmail) {
      return Reply(404, "Concerned staff not found.");
    }
    if !Insertable(q) {
      return Reply(500, "Server error");
    }
    var _ := Create(db, q.name.value, q.phone.value, q.reason.value, q.inTime.value, q.expectedExitTime.value,
                    q.concernedPersonName.value, staffEmail.value);
    mail.Send(staffEmail.value, "Visitor Approval Request");
    res := Reply(201, "Visitor request submitted and email sent.");
  }

  /** The statuses `updateVisitorStatus` accepts. */
  predicate DecisionStatus(status: Option<string>) {
    status == Some("Approved") || status == Some("Rejected")
  }

  /** `updateVisitorStatus`: any status other than exactly "Approved" or "Rejected" is refused
      before the table is touched; an id with no row still answers 200. */
  function UpdateVisitorStatusEffect(visitors: seq<Visitor>, id: int, status: Option<string>): (r: (seq<Visitor>, Response))
    ensures !DecisionStatus(status) ==> r == (visitors, Reply(400, "Invalid status value."))
    ensures DecisionStatus(status) ==>
      && r.1 == Reply(200, "Visitor status updated to " + status.value)
      && |r.0| == |visitors|
      && (forall i :: 0 <= i < |visitors| && i != id - 1 ==> r.0[i] == visitors[i])
      && (1 <= id <= |visitors| ==> r.0[id - 1] == visitors[id - 1].(status := status.value))
  {
    if !DecisionStatus(status) then (visitors, Reply(400, "Invalid status value."))
    else (WithVisitorStatus(visitors, id, status.value), Reply(200, "Visitor status updated to " + status.value))
  }

  method UpdateVisitorStatus(db: Database, id: int, status: Option<string>) returns (res: Response)
    modifies db`visitors
    ensures var r := UpdateVisitorStatusEffect(old(db.visitors), id, status);
      db.visitors == r.0 && res == r.1
  {
    if !DecisionStatus(status) {
      return Reply(400, "Invalid status value.");
    }
    UpdateStatus(db, id, status.value);
    res := Reply(200, "Visitor status updated to " + status.value);
  }

  method GetApprovedVisitors(db: Database) returns (code: int, rows: seq<VisitorRow>)
    ensures code == 200
    ensures rows == ApprovedVisitors(db.visitors)
    ensures forall r :: r in rows ==> r.visitor.status == "Approved"
  {
    code, rows := 200, ApprovedVisitors(db.visitors);
  }

  /** A visitor request that was accepted and then approved is listed for security; one that
      was rejected is not. */
  lemma {:induction false} SubmittedThenDecided(visitors: seq<Visitor>, staff: seq<StaffMember>, q: VisitorRequest, decision: string)
    requires SubmitVisitorEffect(visitors, staff, q).response == Reply(201, "Visitor request submitted and email sent.")
    requires decision == "Approved" || decision == "Rejected"
    ensures var submitted := SubmitVisitorEffect(visitors, staff, q).visitors;
      var decided := UpdateVisitorStatusEffect(submitted, |submitted|, Some(decision)).0;
      (exists r :: r in ApprovedVisitors(decided) && r.id == |submitted|) <==> decision == "Approved"
  {
    var submitted := SubmitVisitorEffect(visitors, staff, q).visitors;
    var decided := UpdateVisitorStatusEffect(submitted, |submitted|, Some(decision)).0;
    var id := |submitted|;
    if decision == "Approved" {
      var row := VisitorRow(id, decided[id - 1]);
      assert row in ApprovedVisitors(decided);
    } else {
      forall r | r in ApprovedVisitors(decided) ensures r.id != id {
        assert decided[id - 1].status == "Rejected";
      }
    }
  }

  /** A request whose concerned person's phone matches no staff member is never stored. */
  lemma UnknownPhoneStoresNothing(visitors: seq<Visitor>, staff: seq<StaffMember>, q: VisitorRequest)
    requires q.concernedPersonPhone.Some?
    requires forall s :: s in staff ==> s.phone != q.concernedPersonPhone.value
    ensures SubmitVisitorEffect(visitors, staff, q) == VisitorOutcome(visitors, [], Reply(404, "Concerned staff not found."))
  {
  }
}
