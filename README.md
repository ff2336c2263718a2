# Campus gate-pass system — a Dafny model

This project models the core of a campus gate-pass system. It has an Express/MySQL back end
and a React front end, and covers these flows:

- **Gate passes.** A student submits a gate pass. The class advisor, the HOD and the
  principal approve it, and the warden too for a hosteller, one after another. Security then
  lets the student out.
- **Visitor passes.** A visitor names a staff member by phone number. That staff member
  approves or rejects the visit, and the approved visitors appear on the security guard's
  list.
- **Accounts.** Students, staff and security guards register and log in with a college
  e-mail, and every API call carries a `Bearer` token.
- **Client logic.** The guard's QR scanner reads `STUDPASS:<id>:<timestamp>` and
  `VISPASS:<id>:<timestamp>` tokens. The admin, gate-pass and registration forms validate
  their input, and the security dashboard renders exit times on a 12-hour clock.

How the model is built:

- **Tables.** The MySQL database is a `Store.Database` object whose tables are sequences.
  The row with id `k` sits at index `k - 1`, as `AUTO_INCREMENT` gives it.
- **E-mail.** `sendEmail` appends to the outbox of a `Store.Mailer`. It never fails, because
  the source swallows its own errors.
- **Handlers.** Each Express handler is a method that issues the source's statements in the
  source's order. Each method is proved equal to a pure *effect* function, for example
  `GatePassController.ApproveEffect` or `StudentController.RegisterStudentEffect`. The
  workflow properties are lemmas over those functions.
- **Request fields.** Every body field a handler reads is an `Option` (`Option<string>`, or
  `Option<int>` for the gate-pass `student_id`): `undefined` is `None`, and `!x` is `Falsy`.
  mysql2 refuses an `undefined` bind parameter, and bcrypt and `jwt.sign` throw on missing
  arguments. Where the source's `catch` turns such a throw into a 500, the model does too, at
  the statement that throws: an undefined `student_id` fails the first lookup of
  `submitGatePass`, an undefined `reason`, `date` or `time` fails its insert after both
  lookups, and an undefined `status` fails the first write of `approveGatePass`,
  `verifyGatePass` and `updateGatePassStatus`.
- **The approving role.** `approveGatePass` checks `role` with `validRoles.includes`, so an
  undefined role is refused with 400 "Invalid role" like any string outside the four roles;
  the model takes the role as a string and covers both by `ValidRole(role).None?`.
- **Foreign calls are parameters.** This covers the bcrypt hash and compare, `jwt.sign` and
  `jwt.verify`, the clock (`NOW()` and `Date.now()`), the JavaScript date parser and the
  browser's local-time conversion.
- **React components.** Each component is a class whose fields are the state it sets: toasts
  shown, writes to the `loading` flag, requests sent, `onClose` and navigation calls.
  Validation methods are proved equal to a function that builds the same error list.

Behaviour worth knowing:

- **Rejected and Exited are not final.** A later non-rejecting approval recomputes and
  overwrites the status. See `GatePassController.RejectionIsNotSticky` and
  `GatePassController.ExitedPassCanExitAgain`.
- **"Day Scholar" has a space.** The approval chain compares against the literal
  `"Day Scholar"`. Any other spelling can never reach "Approved"
  (`ApprovalChain.UnknownTypeNeverApproved`).
- **The Bearer prefix is case-sensitive.** The middleware requires the exact prefix
  `"Bearer "`. Section 2.1 of RFC 6750 lets the scheme name be matched case-insensitively,
  but a lower-case `bearer` header gets 401 (`AuthMiddleware.LowerCaseSchemeRefused`).
- **The next approver is any staff member with that designation.** The lookup is not scoped
  to the student's department. When there is no such member, the e-mail is skipped silently.

## Model

| member | source | states |
|---|---|---|
| ApprovalChain.NextStep | backend/controllers/gatePassController.js:221-249 | Each rule's firing condition as an if-and-only-if, in first-match order. The final status is "Approved" exactly when the advisor, HOD and principal approved and the student is a "Day Scholar", or a "Hosteller" whose warden approved. A named next approver implies "Pending". |
| ApprovalChain.DayScholarIgnoresWarden | backend/controllers/gatePassController.js:235-247 | A day scholar's route and status do not depend on the warden slot. |
| ApprovalChain.EmptyValuesInterchangeable | backend/controllers/gatePassController.js:221 | NULL, "" and "Pending" give the same decision in every slot. |
| ApprovalChain.PrincipalFirstRoutesToWarden | backend/controllers/gatePassController.js:235-240 | The warden rule reads only the principal's slot, so an early principal approval routes a hosteller's pass to the warden. |
| ApprovalChain.RejectedSlotDoesNotBlockWarden | backend/controllers/gatePassController.js:227-240 | With the advisor and the principal approved and the warden slot empty, any non-empty HOD value, "Rejected" included, sends a hosteller's pass to the warden; an empty one sends it to the HOD. |
| ApprovalChain.UnknownTypeNeverApproved | backend/controllers/gatePassController.js:241-249 | A student type other than the two literals always yields "Pending". |
| GatePassModel.CreatedRow | backend/models/GatePassModel.js:5-16 | `create` stores status "Pending", the first three slots "Pending", and the warden slot "Pending" iff the student is a hosteller, NULL otherwise. |
| GatePassModel.WithStatus | backend/models/GatePassModel.js:46-50 | `updateStatus` changes only the status of that id. |
| GatePassModel.WithApproval | backend/models/GatePassModel.js:52-56 | `updateApproval` changes only one slot of that id. |
| GatePassModel.WithVerification | backend/models/GatePassModel.js:69-78 | Only security_verification of that id changes. |
| GatePassModel.WithExit | backend/controllers/gatePassController.js:320-323 | Only that row changes: exit time and status "Exited". |
| GatePassModel.JoinFrom | backend/models/GatePassModel.js:22-44 | The inner join with students holds exactly the passes whose student exists, in strictly increasing id order, so no pass appears twice. |
| GatePassModel.Joined | backend/models/GatePassModel.js:22-44 | Membership in the joined table; ids strictly increase along it, so it has no repeated row. |
| GatePassModel.JoinedById | backend/controllers/gatePassController.js:183-197 | The re-read finds a row iff the pass and its student both exist. |
| GatePassModel.FindByStudentId | backend/models/GatePassModel.js:22-32 | Exactly the joined passes of that student. |
| GatePassModel.JoinedWithStatus | backend/models/GatePassModel.js:34-44 | Exactly the joined passes whose status equals the given one. |
| GatePassModel.FindAllPendingPasses | backend/models/GatePassModel.js:34-44 | Exactly the joined passes with status "Pending". |
| GatePassModel.ColumnRole | backend/models/GatePassModel.js:52-68 | Which `<role>_approval` column a role names (MySQL column names ignore case), or none. |
| GatePassModel.PendingApprovals | backend/models/GatePassModel.js:58-68 | Exactly the rows whose slot for that role is "Pending". NULL slots and the overall status play no part. A role naming no column is an SQL error. |
| GatePassModel.Create | backend/models/GatePassModel.js:4-20 | Appends the created row; the insert id is the new row's. |
| GatePassModel.UpdateStatus | backend/models/GatePassModel.js:46-50 | The table becomes `WithStatus` of the old one. |
| GatePassModel.UpdateApproval | backend/models/GatePassModel.js:52-56 | Writes one slot with no check of the value. Fails and leaves the table unchanged iff the role names no column. |
| GatePassModel.UpdateSecurityVerification | backend/models/GatePassModel.js:69-78 | Writes the flag. Reports failure (the source throws) iff no row has that id. |
| GatePassController.ValidRole | backend/controllers/gatePassController.js:160-163 | Exactly the four role names are accepted. |
| GatePassController.SubmitEffect | backend/controllers/gatePassController.js:90-152 | An undefined `student_id` gives 500 before any lookup. Then 404 "Student not found", then 404 "Class Advisor not found". An undefined reason, date or time gives 500 after both lookups. None of these stores or sends anything. Otherwise one "Pending" row carrying the student's type, exactly one e-mail to the first advisor of the student's department, and 201 with the new id. |
| GatePassController.Notification | backend/controllers/gatePassController.js:259-291 | At most one e-mail: to the first staff member with the next approver's designation, to the student on final approval, or none. |
| GatePassController.ApproveEffect | backend/controllers/gatePassController.js:155-298 | 400 for an unknown role before any write, then 500 with nothing written for an undefined status. Only that row's slot and status change. A rejection answers 200 with no e-mail, even for a missing id. Otherwise 404 iff the re-read fails, leaving the status as it was, else the chain's status is stored and its notification sent. |
| GatePassController.ExitEffect | backend/controllers/gatePassController.js:299-344 | 404 for a missing pass, 400 unless the status is exactly "Approved". Otherwise the exit time is stamped, the status becomes "Exited", and the student is e-mailed if the student row exists. |
| GatePassController.NewestFirstIsTotalPreorder | backend/controllers/gatePassController.js:33 | `ORDER BY date DESC, time DESC` is a total preorder. |
| GatePassController.SecurityQueue | backend/controllers/gatePassController.js:26-41 | Exactly the joined Approved/Exited passes, each at most once in the multiset of the result, sorted newest first, and a permutation of the filtered join. |
| GatePassController.ApprovedPasses | backend/controllers/gatePassController.js:65-76 | Exactly the joined passes with status "Approved". |
| GatePassController.SubmitGatePass | backend/controllers/gatePassController.js:90-152 | Table, outbox, response and id are those of `SubmitEffect`. |
| GatePassController.ApproveGatePass | backend/controllers/gatePassController.js:155-298 | Table, outbox and response are those of `ApproveEffect`. |
| GatePassController.ExitGatePass | backend/controllers/gatePassController.js:299-344 | Table, outbox and response are those of `ExitEffect`. |
| GatePassController.VerifyGatePass | backend/controllers/gatePassController.js:78-89 | An undefined status gives 500 with nothing written. Otherwise writes the flag, and answers 200 "Gate pass <status> by security." iff the row exists, else 500. |
| GatePassController.UpdateGatePassStatus | backend/controllers/gatePassController.js:43-53 | An undefined status gives 500 with nothing written. Otherwise writes any status, bypassing the chain, and answers 200. |
| GatePassController.GetGatePassesForSecurity | backend/controllers/gatePassController.js:26-41 | 200 with the security queue; no Pending or Rejected pass appears. |
| GatePassController.GetPendingApprovals | backend/controllers/gatePassController.js:54-63 | 500 iff the role names no column, else exactly the rows pending for that role. |
| GatePassController.ApproveIsIdempotent | backend/controllers/gatePassController.js:168-293 | Applying the same approval again to the table it produced gives the same table, response and e-mail again. |
| GatePassController.RejectionIsNotSticky | backend/controllers/gatePassController.js:223-257 | Any rejected hosteller pass whose advisor approved and whose warden slot is empty goes back to "Pending" when the principal approves, whatever the HOD slot holds; the warden is asked (the HOD while that slot is empty). |
| GatePassController.ExitedPassCanExitAgain | backend/controllers/gatePassController.js:254-323 | Re-approving a fully approved exited pass sets it to "Approved" again, and it can exit a second time. |
| GatePassController.SecondExitFails | backend/controllers/gatePassController.js:315-323 | Right after an exit, a second exit answers 400 and changes nothing. |
| GatePassController.ApprovingStep | backend/controllers/gatePassController.js:168-291 | An "Approved" decision on a pass whose row joins writes the slot, stores the chain's status and sends the chain's notification; the row still joins afterwards. |
| GatePassController.FirstTwoApprovals | backend/controllers/gatePassController.js:221-291 | On a pass with empty advisor, HOD and principal slots, the advisor's approval notifies the HOD and the HOD's notifies the principal. The pass stays "Pending" with both slots approved, whatever the student's type. |
| GatePassController.HostellerFinalSteps | backend/controllers/gatePassController.js:235-291 | For a hosteller past the HOD, the principal's approval keeps the pass "Pending" and notifies the warden. The warden's approval makes it "Approved", with one e-mail to the student. |
| GatePassController.WardenFinalStep | backend/controllers/gatePassController.js:241-291 | For a hosteller whose advisor, HOD and principal approved, the warden's approval makes the pass "Approved" with one e-mail to the student. |
| GatePassController.DayScholarFinalStep | backend/controllers/gatePassController.js:241-291 | For a day scholar past the HOD, the principal's approval makes the pass "Approved" with one e-mail to the student, and the warden is never asked. |
| VisitorModel.CreatedVisitor | backend/models/VisitorModel.js:4-28 | The inserted row has the given fields and status "Pending". |
| VisitorModel.FindStaffEmail | backend/models/VisitorModel.js:31-41 | Matches on phone only. Returns the first match's e-mail, or none iff no staff member has that phone. |
| VisitorModel.WithVisitorStatus | backend/models/VisitorModel.js:44-50 | Only the status of that id changes. |
| VisitorModel.ApprovedFrom | backend/models/VisitorModel.js:52-57 | Exactly the "Approved" rows, with their ids, in strictly increasing id order. |
| VisitorModel.LatestInFirstIsTotalPreorder | backend/models/VisitorModel.js:54 | `ORDER BY in_time DESC` is a total preorder. |
| VisitorModel.ApprovedVisitors | backend/models/VisitorModel.js:52-57 | Every approved visitor, each at most once in the multiset of the result, sorted latest in_time first. |
| VisitorModel.Create | backend/models/VisitorModel.js:4-29 | Appends a "Pending" row and returns its id. |
| VisitorModel.UpdateStatus | backend/models/VisitorModel.js:44-50 | The table becomes `WithVisitorStatus` of the old one. |
| VisitorController.SubmitVisitorEffect | backend/controllers/visitorController.js:4-57 | An undefined phone gives 500. No staff e-mail gives 404. A found member with any other field undefined gives 500 at the insert. None of these stores or sends anything. Otherwise exactly the `CreatedVisitor` row ("Pending", the request's fields verbatim, the resolved e-mail) is appended, one e-mail goes to that same address, and the answer is 201. |
| VisitorController.SubmitVisitor | backend/controllers/visitorController.js:4-57 | Table, outbox and response are those of `SubmitVisitorEffect`, with the row inserted before the e-mail. |
| VisitorController.UpdateVisitorStatusEffect | backend/controllers/visitorController.js:58-73 | Any status but "Approved"/"Rejected" gets 400 with no write. Otherwise the row is written and the answer is 200, whether or not the id exists. |
| VisitorController.UpdateVisitorStatus | backend/controllers/visitorController.js:58-73 | Table and response are those of `UpdateVisitorStatusEffect`. |
| VisitorController.GetApprovedVisitors | backend/controllers/visitorController.js:74-82 | 200 with the model's approved list unchanged. |
| VisitorController.SubmittedThenDecided | backend/controllers/visitorController.js:4-73 | A submitted visitor appears on the approved list iff the staff member's decision was "Approved". |
| VisitorController.UnknownPhoneStoresNothing | backend/controllers/visitorController.js:18-25 | A phone no staff member has gives 404, with no row and no e-mail. |
| Identity.RowWithEmail | backend/controllers/studentController.js:65 | `findByEmail` gives the first row with that e-mail, or none iff no row has it. |
| Identity.LoginEffect | backend/controllers/studentController.js:61-82 | Undefined e-mail gives 500, unknown e-mail 404, failed compare 401, missing secret 500. A token over {id, email} is issued iff the row exists, the compare passes and the secret is set. |
| Identity.ProfileEffect | backend/controllers/studentController.js:83-121 | A falsy id gives 400, a missing row 404; otherwise the row's public columns. |
| Identity.LoginAfterRegistration | backend/controllers/studentController.js:41-78 | Logging in right after registering, with a fresh e-mail, succeeds and the token names the new row. |
| StudentController.RegisteredRow | backend/controllers/studentController.js:41-54 | The stored row holds the name, e-mail, year, SIN number, department, phone, date of birth, address and type verbatim, and the bcrypt digest of the password in place of the password. |
| StudentController.RegisterStudentEffect | backend/controllers/studentController.js:7-59 | Any missing field gives 400 "All fields are required!". Then a non-college e-mail gives 400. Otherwise 201, appending exactly `RegisteredRow`: the hashed password and the other nine fields verbatim. |
| StudentController.RegisterStudent | backend/controllers/studentController.js:7-59 | Table and response are those of `RegisterStudentEffect`. |
| StudentController.LoginStudent | backend/controllers/studentController.js:61-82 | `LoginEffect` over students, with 404 "Student not found!". |
| StudentController.GetStudentProfile | backend/controllers/studentController.js:83-121 | `ProfileEffect` over students with the source's messages. |
| StudentController.RegisteredStudentCanLogIn | backend/controllers/studentController.js:7-82 | A student just registered with a fresh e-mail can log in. |
| StaffController.RegisterStaffEffect | backend/controllers/staffController.js:6-30 | An undefined e-mail throws outside the `try`, so no reply is sent. A non-college e-mail gives 400 before hashing. An undefined field gives 500. Otherwise 201, storing the hashed password and the designation verbatim. |
| StaffController.RegisterStaff | backend/controllers/staffController.js:6-30 | Table and response are those of `RegisterStaffEffect`. |
| StaffController.LoginStaff | backend/controllers/staffController.js:32-52 | `LoginEffect` over staff, with 404 "Staff not found!". |
| StaffController.GetStaffProfile | backend/controllers/staffController.js:53-83 | `ProfileEffect` over staff with the source's messages. |
| StaffController.RegisteredStaffCanLogIn | backend/controllers/staffController.js:6-52 | A staff member just registered with a fresh e-mail can log in. |
| SecurityController.RegisterSecurityEffect | backend/controllers/securityController.js:6-21 | As for staff: no reply for an undefined e-mail, 400 for a non-college e-mail, 500 for an undefined field, otherwise 201 storing {name, email, hash, phone}. |
| SecurityController.RegisterSecurity | backend/controllers/securityController.js:6-21 | Table and response are those of `RegisterSecurityEffect`. |
| SecurityController.LoginSecurity | backend/controllers/securityController.js:23-44 | `LoginEffect` over guards, with 404 "Security staff not found!". |
| SecurityController.GetSecurityProfile | backend/controllers/securityController.js:45-75 | `ProfileEffect` over guards with the source's messages. |
| SecurityController.RegisteredGuardCanLogIn | backend/controllers/securityController.js:6-44 | A guard just registered with a fresh e-mail can log in. |
| AuthMiddleware.BearerToken | backend/middleware/authMiddleware.js:15 | The token is the text after "Bearer " up to the next space. |
| AuthMiddleware.Authenticate | backend/middleware/authMiddleware.js:4-29 | A missing or non-"Bearer " header gives 401. Then a missing secret gives 500. A failed verification gives 400. Success iff the header, the secret and the verification all pass, with the decoded payload as the user. |
| AuthMiddleware.AuthenticateUser | backend/middleware/authMiddleware.js:4-29 | On success sets `req.user` and calls `next` exactly once; otherwise answers and never calls `next`. |
| AuthMiddleware.BearerTokenRoundTrip | backend/middleware/authMiddleware.js:8-15 | "Bearer " + a space-free token passes the check and gives back that token. |
| AuthMiddleware.LowerCaseSchemeRefused | backend/middleware/authMiddleware.js:8-12 | A "bearer " header is refused with 401. |
| AuthMiddleware.SignedTokenAuthenticates | backend/middleware/authMiddleware.js:15-25 | A token that verifies under the secret authenticates as its claims. |
| QrScanner.Process | frontend/client/src/components/security/qr-code-scanner.jsx:94-166 | Not exactly three parts gives the format error. Then the pass is expired iff `now - parseInt(ts) > 86400000`, where NaN never expires. Then "STUDPASS"/"VISPASS" is accepted with `parseInt(id)`, and any other prefix is "Unknown pass type". |
| QrScanner.TokenParts | frontend/client/src/components/student/gate-pass-qr.jsx:20 | A generated token splits into its prefix, id and timestamp. |
| QrScanner.TokenRoundTrip | frontend/client/src/components/security/qr-code-scanner.jsx:98-154 | A token at most 24 hours old parses back to its kind and id. |
| QrScanner.Scanner.ProcessQRData | frontend/client/src/components/security/qr-code-scanner.jsx:94-166 | The state updates and callbacks for each outcome of `Process`. Expiry calls neither callback; errors set the generic message and call `onScanError` with the reason. |
| FormRules.Required | frontend/client/src/components/admin/add-staff-form.jsx:49 | A field adds its "<X> is required" message iff it is empty, and no other message. |
| FormRules.EmailTestMatchesPattern | frontend/client/src/components/admin/add-staff-form.jsx:51 | The executable e-mail test accepts exactly the strings `/^[^\s@]+@[^\s@]+\.[^\s@]+$/` matches. |
| FormRules.EmailTestSound | frontend/client/src/components/admin/add-staff-form.jsx:51 | Whatever the test accepts, the pattern matches. |
| FormRules.EmailTestComplete | frontend/client/src/components/admin/add-staff-form.jsx:51 | Whatever the pattern matches, the test accepts. |
| FormRules.AdminFormErrorsMeaning | frontend/client/src/components/admin/add-staff-form.jsx:47-65 | For any list made of the required messages and the e-mail, length and mismatch messages: "Email is invalid" iff the e-mail is non-empty and fails the pattern; the length message iff the password is non-empty and under 6 UTF-16 units; the mismatch iff the passwords differ; empty iff all fields pass. |
| FormRules.Dialog.Submit | frontend/client/src/components/admin/add-staff-form.jsx:68-103 | With errors, one "Validation Error" toast joined by ". ", and loading is untouched. Otherwise loading goes true then false, the success toast is shown and the dialog closes. |
| AddStaffForm.ValidateForm | frontend/client/src/components/admin/add-staff-form.jsx:45-66 | The pushes build `StaffFormErrors` in source order. The list is empty iff every field is filled, the e-mail matches, the password has 6 or more characters and the passwords match. The e-mail, length and mismatch messages appear under exactly their conditions. |
| AddStaffForm.StaffFormErrorsMeaning | frontend/client/src/components/admin/add-staff-form.jsx:45-66 | The staff form's list is empty iff the form is valid. "Email is invalid", the length message and the mismatch message each appear iff their own condition holds. |
| AddStaffForm.HandleSubmit | frontend/client/src/components/admin/add-staff-form.jsx:68-103 | The submit gate runs with the form's errors and the "Staff added" toast. |
| AddStudentForm.ValidateForm | frontend/client/src/components/admin/add-student-form.jsx:44-61 | As for staff, with the student form's fields and order. |
| AddStudentForm.StudentFormErrorsMeaning | frontend/client/src/components/admin/add-student-form.jsx:44-61 | The student form's list is empty iff the form is valid. "Email is invalid", the length message and the mismatch message each appear iff their own condition holds. |
| AddStudentForm.HandleSubmit | frontend/client/src/components/admin/add-student-form.jsx:64-99 | The submit gate runs with the "Student added" toast. |
| AddSecurityForm.ValidateForm | frontend/client/src/components/admin/add-security-form.jsx:44-61 | As for staff, with the security form's fields and order. |
| AddSecurityForm.SecurityFormErrorsMeaning | frontend/client/src/components/admin/add-security-form.jsx:44-61 | The security form's list is empty iff the form is valid. "Email is invalid", the length message and the mismatch message each appear iff their own condition holds. |
| AddSecurityForm.HandleSubmit | frontend/client/src/components/admin/add-security-form.jsx:64-99 | The submit gate runs with the "Security personnel added" toast. |
| GatePassForm.FailureText | frontend/client/src/components/student/gate-pass-form.jsx:117-136 | The failure toast text is never empty: a thrown message when there is one, else the default. |
| GatePassForm.GatePassDialog.ValidateForm | frontend/client/src/components/student/gate-pass-form.jsx:33-56 | Date, from-time and reason messages in order. "Date cannot be in the past" iff the date parses to an instant before today's midnight, so an empty or invalid date never counts. Empty iff all pass. |
| GatePassForm.GatePassDialog.HandleSubmit | frontend/client/src/components/student/gate-pass-form.jsx:58-140 | With errors, only the toast, and no request. Otherwise the payload {student_id, reason, date, time: fromTime} is sent without vehicleNo, between two loading writes. A truthy gatePassId shows success, empties the form and closes the dialog; anything else shows "Submission failed" and keeps the form. |
| GatePassForm.DateOnlyAgainstLocalMidnight | frontend/client/src/components/student/gate-pass-form.jsx:47-53 | With the date read as UTC midnight of the chosen day and compared with local midnight in a zone up to a day off UTC, a filled form passes iff the day is later than today, or is today and the zone is not west of UTC. |
| GatePassForm.ServerSubmissionAccepted | frontend/client/src/components/student/gate-pass-form.jsx:111 | The dialog reports success exactly for the submissions the server answered with 201. |
| RegisterPage.Rejection | frontend/client/src/pages/register.jsx:22-42 | "Missing fields" iff any of the five fields is empty. Otherwise "Password mismatch" iff the passwords differ. Otherwise valid: at most one message, and no length or format check. |
| RegisterPage.Register.ValidateForm | frontend/client/src/pages/register.jsx:22-42 | Returns true iff `Rejection` gives none, and shows its toast otherwise. |
| RegisterPage.Register.HandleRegister | frontend/client/src/pages/register.jsx:44-71 | A rejected form returns before touching loading or navigating. Otherwise the success toast, a redirect to /login, and loading true then false. |
| SecurityDashboard.Hour12 | frontend/client/src/pages/security-dashboard.jsx:156 | `hours % 12 \|\| 12` lies in 1..12 and is congruent to the hour mod 12. |
| SecurityDashboard.PadStart2 | frontend/client/src/pages/security-dashboard.jsx:154 | Left-pads with '0' to length 2, keeping the text as a suffix. |
| SecurityDashboard.To24Hour | frontend/client/src/pages/security-dashboard.jsx:155-156 | The inverse reading lies in 0..23, and is 12 or more iff PM. |
| SecurityDashboard.Hour12RoundTrip | frontend/client/src/pages/security-dashboard.jsx:155-156 | The 12-hour value and the AM/PM suffix determine the hour: 0 is 12 AM and 12 is 12 PM. |
| SecurityDashboard.PaddedMinutesValue | frontend/client/src/pages/security-dashboard.jsx:154 | The zero-padded minutes parse back to the minutes. |
| SecurityDashboard.ExitTimeRoundTrip | frontend/client/src/pages/security-dashboard.jsx:150-157 | `${hour12}:${mm} ${ampm}` reads back as the same hour and minute. |
| SecurityDashboard.InvalidExitTimeUnreadable | frontend/client/src/pages/security-dashboard.jsx:150-157 | An invalid exit time renders as "12:NaN AM", which reads as no time. |
| SecurityDashboard.ApprovalLabel | frontend/client/src/pages/security-dashboard.jsx:118-127 | "approved" iff the column is exactly "Approved", else "pending". |
| SecurityDashboard.StudentCard | frontend/client/src/pages/security-dashboard.jsx:110-133 | Status passed through. `verified` and the advisor, HOD and principal labels are "approved" iff the column is "Approved". |
| SecurityDashboard.SecurityCardsAreCleared | frontend/client/src/pages/security-dashboard.jsx:98-135 | One card per pass of the security queue, in its order, each "Approved" or "Exited". |
| SecurityDashboard.VisitorCardOf | frontend/client/src/pages/security-dashboard.jsx:149-172 | The date is the in_time prefix before the first "T"; the status is `LowerAscii` of the status; the expected exit time is the 12-hour rendering of the local clock reading; the other fields are the row's. |
| SecurityDashboard.CardDateIsDatePart | frontend/client/src/pages/security-dashboard.jsx:162 | For an in_time "<date>T<time>", the card shows the date. |
| SecurityDashboard.VisitorCardsShowApproved | frontend/client/src/pages/security-dashboard.jsx:137-173 | Every card of the approved-visitor list shows "approved". |
| Store.RowById | backend/controllers/gatePassController.js:95-102 | A row is found iff the id is in the table, and it is the row at index id - 1; the same lookup serves the student and gate-pass tables (gatePassController.js:304-311 for a pass). |
| JsText.SplitAtFirstSeparator | backend/middleware/authMiddleware.js:15 | `split` cuts at the first separator. |
| JsText.JoinSplit | frontend/client/src/components/security/qr-code-scanner.jsx:98 | Joining the pieces of a split gives the text back. |
| JsText.ParseIntDecimal | frontend/client/src/components/security/qr-code-scanner.jsx:106-110 | `parseInt` reads back the decimal text of a non-negative integer. |
| Collections.Filter | backend/models/GatePassModel.js:34-44 | A `WHERE` keeps exactly the rows satisfying the condition, and never adds rows. |
| Collections.FirstIndex | backend/models/StudentModel.js:23-26 | `rows[0]` of a `SELECT`: the first row satisfying the condition, or none iff no row does. |
| Collections.InsertSorted | backend/controllers/gatePassController.js:33 | Inserting into a sorted list keeps it sorted under a total preorder. |
| Collections.InsertPermutes | backend/controllers/gatePassController.js:33 | Inserting adds exactly that one row, so sorting loses and duplicates nothing. |
| JsText.Split | frontend/client/src/components/security/qr-code-scanner.jsx:98 | `split` always yields at least one piece. |
| JsText.SplitPiecesAvoidSeparator | frontend/client/src/components/security/qr-code-scanner.jsx:98 | No piece of a split contains the separator. |
| JsText.TrimStart | frontend/client/src/components/security/qr-code-scanner.jsx:105-110 | `parseInt` skips leading white space: the result is a suffix of the input and does not start with a space. |
| JsText.Utf16Length | frontend/client/src/components/admin/add-staff-form.jsx:62 | `password.length` counts UTF-16 units: between one and two per character. |
| JsText.LowerAscii | frontend/client/src/pages/security-dashboard.jsx:167 | The ASCII part of `toLowerCase`: keeps the length and lowers exactly the ASCII capitals. |
| Store.Mailer.Send | backend/utils/sendEmail.js:3-28 | One e-mail to that recipient with that subject is appended to the outbox, and sending never fails. |
| Collections.FilterDistinct | backend/models/GatePassModel.js:34-44 | A `WHERE` over a list without repeated rows gives a list without repeated rows. |
| Collections.DistinctAtMostOnce | backend/controllers/gatePassController.js:26-41 | A list without repeated rows holds each row at most once as a multiset. |
| Collections.SortByCorrect | backend/models/VisitorModel.js:54 | The `ORDER BY` sort is a sorted permutation of its input. |

## Left out

- **E-mail.** The HTML bodies are not modelled, and neither is the transport, because
  `sendEmail` swallows its own errors. An e-mail is its recipient and subject.
- **Concurrency.** There is no concurrency between requests, including the read-modify-write
  window in `approveGatePass`. Every handler is atomic.
- **Role interpolation.** The role is interpolated into the SQL text of `approveGatePass`
  and `updateApproval`. Only its effect on which column is named is modelled.
- **MySQL behaviour.**
  - Value comparisons are exact. A case-insensitive collation would also match differently
    cased text.
  - Unique-key constraints are not modelled.
  - The schema is not part of the repository, so the columns an `INSERT` leaves out take
    defaults that are a parameter of the store (`Store.ColumnDefaults`).
- **JSON values.** Request fields are strings (the gate-pass `student_id` a number) or
  absent. Other JSON types, `null` included, as field values are not modelled.
- JsText.LowerAscii: case mapping outside ASCII is not modelled. The texts lowered are the
  role in `updateApproval`, compared with four ASCII role names whose letters no non-ASCII
  capital lowers to, and the dashboard's visitor status, which the approved-visitors query
  only ever returns as "Approved".
- GatePassModel.CreatedRow: the `exit_time` column is not in the insert and is taken to
  default to NULL (`None`), as the exit handlers read it; the schema that would say so is not
  part of the repository.
- **Numbers.** The float precision of `parseInt` and `Date` arithmetic is not modelled.
  Integers are unbounded.
- **Dates and time zones.** Date parsing, time zones and local time are parameters: the
  gate-pass form's date parser and today's midnight, and the dashboard's local clock. A
  date-only text such as "2025-04-01" parses as UTC midnight while `setHours(0, 0, 0, 0)`
  gives local midnight, so whether today's date passes the form depends on the browser's
  zone; `GatePassForm.DateOnlyAgainstLocalMidnight` states that case.
- **Path ids.** The `:id` route parameters are strings that MySQL coerces to numbers ("1abc"
  finds row 1, "abc" none). The model takes every path id as an integer already.
- **Camera and QR generation.** Camera scanning, QR image rendering and download are not
  modelled. The scanner's mock pass data is shown as "some data", not its fields.
- **Toasts for impossible failures.** The admin forms and the registration page await a
  timer that cannot fail, so their `catch` toasts are not modelled.
- **Client token.** The gate-pass form's `Authorization` header and its localStorage read
  are not modelled.
- **Out-of-core code.** Routing, including the route-order quirk of gatePassRoutes.js,
  server start-up, the connection pool, and the commented-out handlers are not part of this
  model.
- **Other client code.** Dashboards, profile pages and schema-driven forms other than those
  named above are not part of this model.
- **Other gate-pass handlers.** `getStudentGatePasses` and `getPendingGatePasses` pass the
  model's lists through unchanged. Their queries are modelled as
  `GatePassModel.FindByStudentId` and `GatePassModel.FindAllPendingPasses`.
- GatePassForm.GatePassDialog.HandleSubmit: an answer whose `gatePassId` is a non-numeric
  JSON value is not modelled. Only a missing id, 0 and other numbers are.
- SecurityDashboard.StudentCard: `toTime` keeps the stored exit instant rather than its JSON
  text.

