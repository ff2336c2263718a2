/** The decision `approveGatePass` takes after every non-rejecting write: from the four
    approval slots and the student type captured on the pass, the next approver to notify
    and the status to store (backend/controllers/gatePassController.js:221-249). The rules
    are tried in order and the first that matches wins; there is no stored "current step". */
module ApprovalChain {
  import opened Wrappers
  import opened Store

  /** `isEmpty(val)`: `!val || val === "Pending"`, so NULL, "" and "Pending" all count as empty. */
  predicate IsEmpty(v: Option<string>) {
    v.None? || v.value == "" || v.value == "Pending"
  }

  predicate IsApproved(v: Option<string>) {
    v == Some("Approved")
  }

  /** The pass is finally approved: the first three roles approved, and the warden too when
      the student is a hosteller (a day scholar's warden slot is ignored). */
  predicate FullyApproved(a: Approvals, studentType: Option<string>) {
    && IsApproved(a.classAdvisor) && IsApproved(a.hod) && IsApproved(a.principal)
    && (studentType == Some("Day Scholar") || (studentType == Some("Hosteller") && IsApproved(a.warden)))
  }

  /** The outcome of the rule chain: whom to notify next, and the status to write. */
  datatype Step = Step(next: Option<Role>, finalStatus: string)

  function NextStep(a: Approvals, studentType: Option<string>): (r: Step)
    // the first rule: the HOD is next exactly when the class advisor approved and the HOD slot is empty
    ensures r.next == Some(Hod) <==> IsApproved(a.classAdvisor) && IsEmpty(a.hod)
    // the second rule fires only when the first does not
    ensures r.next == Some(Principal) <==>
      IsApproved(a.classAdvisor) && IsApproved(a.hod) && IsEmpty(a.principal)
    // the third rule does not look at the class advisor's or the HOD's slot
    ensures r.next == Some(Warden) <==>
      && IsApproved(a.principal) && studentType == Some("Hosteller") && IsEmpty(a.warden)
      && !(IsApproved(a.classAdvisor) && IsEmpty(a.hod))
    ensures r.next != Some(ClassAdvisor)
    ensures r.finalStatus == "Approved" <==> FullyApproved(a, studentType)
    ensures r.finalStatus == "Approved" || r.finalStatus == "Pending"
    ensures r.next.Some? ==> r.finalStatus == "Pending"
  {
    if IsApproved(a.classAdvisor) && IsEmpty(a.hod) then
      Step(Some(Hod), "Pending")
    else if IsApproved(a.classAdvisor) && IsApproved(a.hod) && IsEmpty(a.principal) then
      Step(Some(Principal), "Pending")
    else if IsApproved(a.principal) && studentType == Some("Hosteller") && IsEmpty(a.warden) then
      Step(Some(Warden), "Pending")
    else if FullyApproved(a, studentType) then
      Step(None, "Approved")
    else
      Step(None, "Pending")
  }

  /** A day scholar's route never depends on what the warden slot holds. */
  lemma DayScholarIgnoresWarden(a: Approvals, w: Option<string>)
    ensures NextStep(a, Some("Day Scholar")) == NextStep(a.(warden := w), Some("Day Scholar"))
  {
  }

  /** NULL and "Pending" (and "") are interchangeable in every slot: the decision is the same
      whichever of them a column starts with. */
  lemma EmptyValuesInterchangeable(a: Approvals, r: Role, v: Option<string>, w: Option<string>, t: Option<string>)
    requires IsEmpty(v) && IsEmpty(w)
    ensures NextStep(a.Set(r, v), t) == NextStep(a.Set(r, w), t)
  {
    var av, aw := a.Set(r, v), a.Set(r, w);
    assert IsEmpty(av.Get(r)) && IsEmpty(aw.Get(r));
    assert forall o :: o != r ==> av.Get(o) == aw.Get(o);
    assert IsEmpty(av.classAdvisor) <==> IsEmpty(aw.classAdvisor);
    assert IsApproved(av.classAdvisor) <==> IsApproved(aw.classAdvisor);
    assert IsEmpty(av.hod) <==> IsEmpty(aw.hod);
    assert IsApproved(av.hod) <==> IsApproved(aw.hod);
    assert IsEmpty(av.principal) <==> IsEmpty(aw.principal);
    assert IsApproved(av.principal) <==> IsApproved(aw.principal);
    assert IsEmpty(av.warden) <==> IsEmpty(aw.warden);
    assert IsApproved(av.warden) <==> IsApproved(aw.warden);
  }

  /** A principal who approves before the class advisor and the HOD sends a hosteller's pass
      straight to the warden: the third rule checks only the principal's slot. */
  lemma PrincipalFirstRoutesToWarden(p: Option<string>)
    requires IsEmpty(p)
    ensures NextStep(Approvals(p, p, Some("Approved"), p), Some("Hosteller")) == Step(Some(Warden), "Pending")
  {
  }

  /** Whatever the HOD slot holds, a rejection included, it does not stop the chain: once the
      class advisor and the principal have approved, a hosteller's pass with an empty warden slot
      goes to the warden (or back to the HOD while the HOD slot is still empty), "Pending". */
  lemma RejectedSlotDoesNotBlockWarden(a: Approvals)
    requires IsApproved(a.classAdvisor) && IsApproved(a.principal) && IsEmpty(a.warden)
    ensures NextStep(a, Some("Hosteller")) == Step(Some(if IsEmpty(a.hod) then Hod else Warden), "Pending")
  {
  }

  /** A student type other than the two literals (for instance "DayScholar" without the space)
      can never reach "Approved". */
  lemma UnknownTypeNeverApproved(a: Approvals, t: Option<string>)
    requires t != Some("Day Scholar") && t != Some("Hosteller")
    ensures NextStep(a, t).finalStatus == "Pending"
  {
  }
}
