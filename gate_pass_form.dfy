/** frontend/client/src/components/student/gate-pass-form.jsx: the student's gate-pass dialog.
    `validateForm` reads the form state; `handleSubmit` either shows the validation errors or
    posts the request, interprets the answer and updates the form state. The JavaScript
    `Date` parser and the clock are parameters: `parseDate` gives the instant (in
    milliseconds) a date string denotes, or None for an invalid date, and `todayMidnight` is
    the instant `setHours(0, 0, 0, 0)` makes of the current time. */
module GatePassForm {
  import opened Wrappers
  import opened JsText
  import opened FormRules
  import opened Store
  import opened GatePassController

  /** The `formData` state; every input starts as "". */
  datatype FormData = FormData(date: string, fromTime: string, reason: string, vehicleNo: string)

  const EmptyForm := FormData("", "", "", "")

  /** The JSON body posted to /api/gatepass/submit; `userId` may be undefined, and vehicleNo is
      not sent. */
  datatype Payload = Payload(studentId: Option<int>, reason: string, date: string, time: string)

  /** What the request comes back with: an exception from `fetch` or `req.json()` with its
      message, or a JSON body whose `gatePassId` field may be absent. */
  datatype ServerAnswer = Thrown(message: string) | Answered(gatePassId: Option<int>)

  const PastDateMessage := "Date cannot be in the past"
  const DefaultFailure := "Failed to submit gate pass. Please try again."

  /** `new Date(date)`: the empty string is an invalid date. */
  function SelectedDate(date: string, parseDate: string -> Option<int>): Option<int> {
    if date == "" then None else parseDate(date)
  }

  /** `selectedDate < today`: an invalid date compares false. */
  predicate InPast(date: string, parseDate: string -> Option<int>, todayMidnight: int) {
    SelectedDate(date, parseDate).Some? && SelectedDate(date, parseDate).value < todayMidnight
  }

  /** The list `validateForm` builds, in the order of its checks. */
  function GatePassFormErrors(d: FormData, parseDate: string -> Option<int>, todayMidnight: int): seq<string> {
    Required(Field("Date", d.date)) + Required(Field("From time", d.fromTime)) + Required(Field("Reason", d.reason))
    + (if InPast(d.date, parseDate, todayMidnight) then [PastDateMessage] else [])
  }

  /** `if (res.gatePassId)`: a missing id and the id 0 are both falsy. */
  predicate Accepted(answer: ServerAnswer) {
    answer.Answered? && answer.gatePassId.Some? && answer.gatePassId.value != 0
  }

  /** The description of the "Submission failed" toast: `error.message || default`, where a
      body without an id throws an Error carrying the default text itself. */
  function FailureText(answer: ServerAnswer): (t: string)
    ensures t != ""
    ensures answer.Thrown? && answer.message != "" ==> t == answer.message
  {
    match answer
    case Thrown(m) => if m == "" then DefaultFailure else m
    case Answered(_) => DefaultFailure
  }

  class GatePassDialog {
    var formData: FormData
    var loadingWrites: seq<bool>
    var toasts: seq<Toast>
    var sent: seq<Payload>
    var closeCalls: nat

    constructor ()
      ensures formData == EmptyForm && loadingWrites == [] && toasts == [] && sent == [] && closeCalls == 0
    {
      formData, loadingWrites, toasts, sent, closeCalls := EmptyForm, [], [], [], 0;
    }

    /** `validateForm`: a message for each empty required field, and the past-date message
        exactly when the chosen date is a valid date before today's midnight. */
    method ValidateForm(parseDate: string -> Option<int>, todayMidnight: int) returns (errors: seq<string>)
      ensures errors == GatePassFormErrors(formData, parseDate, todayMidnight)
      ensures errors == [] <==>
        formData.date != "" && formData.fromTime != "" && formData.reason != ""
        && !InPast(formData.date, parseDate, todayMidnight)
      ensures PastDateMessage in errors <==> InPast(formData.date, parseDate, todayMidnight)
    {
      var d := formData;
      errors := Required(Field("Date", d.date));
      errors := errors + Required(Field("From time", d.fromTime));
      errors := errors + Required(Field("Reason", d.reason));
      var selected := SelectedDate(d.date, parseDate);
      if selected.Some? && selected.value < todayMidnight {
        errors := errors + [PastDateMessage];
      }
      assert PastDateMessage != RequiredMessage("Date") && PastDateMessage != RequiredMessage("From time")
        && PastDateMessage != RequiredMessage("Reason");
    }

    /** `handleSubmit`: with errors, one destructive toast and nothing else; otherwise the
        payload is posted between `setLoading(true)` and `setLoading(false)`, and an answer
        carrying a truthy gatePassId shows the success toast, empties the form and closes the
        dialog, while any other answer shows "Submission failed" and keeps the form. */
    method HandleSubmit(userId: Option<int>, answer: ServerAnswer, parseDate: string -> Option<int>, todayMidnight: int)
      modifies this
      ensures var errors := GatePassFormErrors(old(formData), parseDate, todayMidnight);
        |errors| > 0 ==>
          && toasts == old(toasts) + [Toast("Validation Error", Join(errors, ". "), true)]
          && formData == old(formData) && loadingWrites == old(loadingWrites)
          && sent == old(sent) && closeCalls == old(closeCalls)
      ensures GatePassFormErrors(old(formData), parseDate, todayMidnight) == [] ==>
        && sent == old(sent) + [Payload(userId, old(formData).reason, old(formData).date, old(formData).fromTime)]
        && loadingWrites == old(loadingWrites) + [true, false]
        && (Accepted(answer) ==>
              && toasts == old(toasts) + [Toast("Gate pass submitted", "Your gate pass has been submitted successfully and is pending approval.", false)]
              && formData == EmptyForm && closeCalls == old(closeCalls) + 1)
        && (!Accepted(answer) ==>
              && toasts == old(toasts) + [Toast("Submission failed", FailureText(answer), true)]
              && formData == old(formData) && closeCalls == old(closeCalls))
    {
      var errors := ValidateForm(parseDate, todayMidnight);
      if |errors| > 0 {
        toasts := toasts + [Toast("Validation Error", Join(errors, ". "), true)];
        return;
      }
      loadingWrites := loadingWrites + [true];
      var finalData := Payload(userId, formData.reason, formData.date, formData.fromTime);
      sent := sent + [finalData];
      if Accepted(answer) {
        toasts := toasts + [Toast("Gate pass submitted", "Your gate pass has been submitted successfully and is pending approval.", false)];
        formData := EmptyForm;
        closeCalls := closeCalls + 1;
      } else {
        toasts := toasts + [Toast("Submission failed", FailureText(answer), true)];
      }
      loadingWrites := loadingWrites + [false];
    }
  }

  /** Milliseconds in a day. */
  const DayMs := 86400000

  /** The instant of local midnight that starts day `day` (days since the epoch) in a time zone
      `offsetMs` ahead of UTC: what `today.setHours(0, 0, 0, 0)` leaves in `today`. */
  function LocalMidnight(day: int, offsetMs: int): int {
    day * DayMs - offsetMs
  }

  /** The date input gives "YYYY-MM-DD", and `new Date` reads a date-only text as UTC midnight
      of that day. Against local midnight, with the three fields filled, a later day always
      passes and an earlier day always fails, while today's own date passes exactly when the
      browser's zone is not west of UTC. */
  lemma DateOnlyAgainstLocalMidnight(
    d: FormData, parseDate: string -> Option<int>, selected: int, today: int, offsetMs: int)
    requires d.date != "" && d.fromTime != "" && d.reason != ""
    requires parseDate(d.date) == Some(selected * DayMs)
    requires -DayMs < offsetMs < DayMs
    ensures GatePassFormErrors(d, parseDate, LocalMidnight(today, offsetMs)) == [] <==>
      selected > today || (selected == today && offsetMs >= 0)
  {
    if selected > today {
      assert selected * DayMs >= today * DayMs + DayMs;
    } else if selected < today {
      assert selected * DayMs <= today * DayMs - DayMs;
    }
  }

  /** The id `submitGatePass` answers with is the new row's, never 0: the dialog reports
      success for exactly the submissions the server stored. */
  lemma ServerSubmissionAccepted(
    passes: seq<GatePass>, students: seq<Student>, staff: seq<StaffMember>, defaults: ColumnDefaults,
    p: Payload)
    ensures var s := SubmitEffect(passes, students, staff, defaults, p.studentId, Some(p.reason), Some(p.date), Some(p.time));
      Accepted(Answered(s.gatePassId)) <==> s.response.Reply? && s.response.code == 201
  {
  }
}
