/** frontend/client/src/pages/security-dashboard.jsx, inside `fetchUser`: the mapping of the
    gate passes cleared for security and of the approved visitors into the cards the guard
    sees, and the 12-hour rendering of a visitor's expected exit time. How the browser reads
    `expected_exit_time` as a local time is a parameter (`localClock`). */
module SecurityDashboard {
  import opened Wrappers
  import opened JsText
  import opened Store
  import opened GatePassModel
  import opened GatePassController
  import opened VisitorModel

  // ---------------------------------------------------------------------------------------
  // The 12-hour clock.

  /** What `getHours()` and `getMinutes()` return for a valid date. */
  type Hour = h: int | 0 <= h < 24
  type Minute = m: int | 0 <= m < 60

  datatype Clock = Clock(hours: Hour, minutes: Minute)

  /** `hours % 12 || 12`. */
  function Hour12(h: Hour): (r: int)
    ensures 1 <= r <= 12
    ensures r % 12 == h % 12
  {
    if h % 12 == 0 then 12 else h % 12
  }

  /** `hours >= 12 ? "PM" : "AM"`. */
  function Meridiem(h: Hour): string {
    if h >= 12 then "PM" else "AM"
  }

  /** `s.padStart(2, "0")`. */
  function PadStart2(s: string): (t: string)
    ensures |t| == if |s| >= 2 then |s| else 2
    ensures EndsWith(t, s)
    ensures forall i :: 0 <= i < |t| - |s| ==> t[i] == '0'
  {
    if |s| >= 2 then s else if |s| == 1 then "0" + s else "00"
  }

  /** The `expectedExitTime` text. An invalid date has NaN hours and minutes: `NaN >= 12` is
      false, `NaN % 12 || 12` is 12 and the minutes print as "NaN". */
  function ExitTimeText(t: Option<Clock>): string {
    match t
    case None => "12:NaN AM"
    case Some(c) => Decimal(Hour12(c.hours)) + ":" + PadStart2(Decimal(c.minutes)) + " " + Meridiem(c.hours)
  }

  /** The hour of the day a 12-hour reading denotes. */
  function To24Hour(hour12: int, pm: bool): (h: int)
    requires 1 <= hour12 <= 12
    ensures 0 <= h < 24
    ensures h >= 12 <==> pm
  {
    if pm then (if hour12 == 12 then 12 else hour12 + 12) else (if hour12 == 12 then 0 else hour12)
  }

  /** Reads "h:mm AM" / "h:mm PM" back into a clock reading. */
  function ReadExitTime(s: string): Option<Clock> {
    var parts := Split(s, ':');
    if |parts| != 2 then None
    else
      var tail := Split(parts[1], ' ');
      if |tail| != 2 || (tail[1] != "AM" && tail[1] != "PM") then None
      else match (ParseInt(parts[0]), ParseInt(tail[0]))
        case (Some(h12), Some(m)) =>
          if 1 <= h12 <= 12 && 0 <= m < 60 then Some(Clock(To24Hour(h12, tail[1] == "PM"), m)) else None
        case _ => None
  }

  /** Every hour of the day has one 12-hour reading: 1..12 and the suffix give it back. */
  lemma Hour12RoundTrip(h: Hour)
    ensures To24Hour(Hour12(h), Meridiem(h) == "PM") == h
  {
  }

  /** The zero-padded minutes read back as the minutes. */
  lemma PaddedMinutesValue(m: Minute)
    ensures ParseInt(PadStart2(Decimal(m))) == Some(m)
  {
    var d := Decimal(m);
    if m >= 10 {
      ParseIntDecimal(m);
      assert PadStart2(d) == d;
    } else {
      var p := PadStart2(d);
      assert d == [DigitChar(m)];
      assert p == ['0', DigitChar(m)];
      assert DigitValue(DigitChar(m)) == m;
      assert TrimStart(p) == p;
      assert DigitRun(p[1..], 10) == 1;
      assert DigitRun(p, 10) == 2;
      assert p[..2] == p && p[..1] == ['0'];
      assert DigitsValue(['0'], 10) == 0;
      assert DigitsValue(p, 10) == m;
    }
  }

  /** No digit is a separator of the rendering. */
  lemma DigitsHaveNoSeparators(s: string)
    requires forall i :: 0 <= i < |s| ==> '0' <= s[i] <= '9'
    ensures ':' !in s && ' ' !in s
  {
  }

  /** How the rendering splits: at the colon, then at the space. */
  lemma {:induction false} RenderingSplits(hour: string, mm: string, suffix: string)
    requires ':' !in hour && ':' !in mm && ' ' !in mm && ':' !in suffix && ' ' !in suffix
    ensures var parts := Split(hour + ":" + mm + " " + suffix, ':');
      |parts| == 2 && parts[0] == hour && Split(parts[1], ' ') == [mm, suffix]
  {
    var rest := mm + [' '] + suffix;
    assert hour + ":" + mm + " " + suffix == hour + [':'] + rest;
    SplitAtFirstSeparator(hour, rest, ':');
    SplitWithoutSeparator(rest, ':');
    SplitAtFirstSeparator(mm, suffix, ' ');
    SplitWithoutSeparator(suffix, ' ');
  }

  /** Text that splits into an hour, then minutes and a suffix, reads as the clock those
      parts denote. */
  lemma ReadRendering(s: string, hour: string, mm: string, suffix: string, h12: int, m: int)
    requires |Split(s, ':')| == 2 && Split(s, ':')[0] == hour && Split(Split(s, ':')[1], ' ') == [mm, suffix]
    requires suffix == "AM" || suffix == "PM"
    requires ParseInt(hour) == Some(h12) && 1 <= h12 <= 12
    requires ParseInt(mm) == Some(m) && 0 <= m < 60
    ensures ReadExitTime(s) == Some(Clock(To24Hour(h12, suffix == "PM"), m))
  {
  }

  /** The padded minutes hold no separator of the rendering. */
  lemma PaddedMinutesHaveNoSeparators(m: Minute)
    ensures ':' !in PadStart2(Decimal(m)) && ' ' !in PadStart2(Decimal(m))
  {
    DigitsHaveNoSeparators(Decimal(m));
    assert PadStart2(Decimal(m)) == Decimal(m) || PadStart2(Decimal(m)) == "0" + Decimal(m);
  }

  /** How the rendering of a valid time splits, and what its pieces parse to. */
  lemma RenderingParts(c: Clock)
    ensures var parts := Split(ExitTimeText(Some(c)), ':');
      && |parts| == 2 && parts[0] == Decimal(Hour12(c.hours))
      && Split(parts[1], ' ') == [PadStart2(Decimal(c.minutes)), Meridiem(c.hours)]
  {
    var mm := PadStart2(Decimal(c.minutes));
    DigitsHaveNoSeparators(Decimal(Hour12(c.hours)));
    PaddedMinutesHaveNoSeparators(c.minutes);
    RenderingSplits(Decimal(Hour12(c.hours)), mm, Meridiem(c.hours));
  }

  /** The rendering of a valid time is read back as that time. */
  lemma ExitTimeRoundTrip(c: Clock)
    ensures ReadExitTime(ExitTimeText(Some(c))) == Some(c)
  {
    var h12 := Hour12(c.hours);
    RenderingParts(c);
    PaddedMinutesValue(c.minutes);
    ParseIntDecimal(h12);
    Hour12RoundTrip(c.hours);
    ReadRendering(ExitTimeText(Some(c)), Decimal(h12), PadStart2(Decimal(c.minutes)), Meridiem(c.hours), h12, c.minutes);
  }

  /** `parseInt("NaN")` is NaN. */
  lemma NaNUnparsable()
    ensures ParseInt("NaN") == None
  {
    assert !IsSpace('N') && !IsRadixDigit('N', 10);
    assert TrimStart("NaN") == "NaN";
    assert DigitRun("NaN", 10) == 0;
  }

  /** An invalid exit time renders as text that reads as no time at all. */
  lemma InvalidExitTimeUnreadable()
    ensures ReadExitTime(ExitTimeText(None)) == None
  {
    var s := ExitTimeText(None);
    RenderingSplits("12", "NaN", "AM");
    assert "12" + ":" + "NaN" + " " + "AM" == s;
    var parts := Split(s, ':');
    var tail := Split(parts[1], ' ');
    assert tail == ["NaN", "AM"];
    NaNUnparsable();
    assert ParseInt(tail[0]).None?;
  }

  // ---------------------------------------------------------------------------------------
  // The student pass cards.

  /** `=== "Approved" ? "approved" : "pending"`: a missing value (SQL NULL) is pending. */
  function ApprovalLabel(v: Option<string>): (r: string)
    ensures r == "approved" <==> v == Some("Approved")
    ensures r == "approved" || r == "pending"
  {
    if v == Some("Approved") then "approved" else "pending"
  }

  /** The three approvals a card shows; the warden's is not shown. */
  datatype ApprovalLabels = ApprovalLabels(advisor: string, hod: string, principal: string)

  datatype StudentPassCard = StudentPassCard(
    id: int, userId: int, date: string, fromTime: string, toTime: Option<int>, reason: string,
    status: string, verified: string, createdAt: string, approvals: ApprovalLabels,
    studentName: string, department: string)

  /** One row of /api/gatepass/security/all as a card: the status is passed through
      unchanged, the verification and the approvals become "approved"/"pending". */
  function StudentCard(r: PassRow): (c: StudentPassCard)
    ensures c.status == r.pass.status && c.fromTime == r.pass.time && c.createdAt == r.pass.date
    ensures c.verified == "approved" <==> r.pass.securityVerification == Some("Approved")
    ensures c.approvals.advisor == "approved" <==> r.pass.approvals.Get(ClassAdvisor) == Some("Approved")
    ensures c.approvals.hod == "approved" <==> r.pass.approvals.Get(Hod) == Some("Approved")
    ensures c.approvals.principal == "approved" <==> r.pass.approvals.Get(Principal) == Some("Approved")
  {
    StudentPassCard(
      r.id, r.pass.studentId, r.pass.date, r.pass.time, r.pass.exitTime, r.pass.reason,
      r.pass.status, ApprovalLabel(r.pass.securityVerification), r.pass.date,
      ApprovalLabels(ApprovalLabel(r.pass.approvals.classAdvisor), ApprovalLabel(r.pass.approvals.hod),
                     ApprovalLabel(r.pass.approvals.principal)),
      r.student.name, r.student.department)
  }

  /** `apiResponse.map(...)`. */
  function StudentCards(rows: seq<PassRow>): seq<StudentPassCard> {
    seq(|rows|, i requires 0 <= i < |rows| => StudentCard(rows[i]))
  }

  /** The guard's list shows, in the server's order, one card per pass cleared for security,
      each "Approved" or "Exited". */
  lemma SecurityCardsAreCleared(passes: seq<GatePass>, students: seq<Student>)
    ensures var cards := StudentCards(SecurityQueue(passes, students));
      && |cards| == |SecurityQueue(passes, students)|
      && forall i :: 0 <= i < |cards| ==>
           cards[i].id == SecurityQueue(passes, students)[i].id
           && (cards[i].status == "Approved" || cards[i].status == "Exited")
  {
    var rows := SecurityQueue(passes, students);
    forall i | 0 <= i < |rows| ensures rows[i].pass.status == "Approved" || rows[i].pass.status == "Exited" {
      assert rows[i] in rows;
    }
  }

  // ---------------------------------------------------------------------------------------
  // The visitor cards.

  datatype VisitorCard = VisitorCard(
    id: int, visitorName: string, purpose: string, date: string, expectedExitTime: string,
    concernPerson: string, phone: string, status: string)

  /** One row of /api/visitors/approved as a card: the date is the `in_time` text before the
      first "T", the expected exit time is the 12-hour rendering of the local clock reading
      (read back by `ExitTimeRoundTrip`), the status is lower-cased (`LowerAscii`), and the
      other fields are the row's own. */
  function VisitorCardOf(r: VisitorRow, localClock: string -> Option<Clock>): (c: VisitorCard)
    ensures StartsWith(r.visitor.inTime, c.date) && 'T' !in c.date
    ensures |c.date| < |r.visitor.inTime| ==> r.visitor.inTime[|c.date|] == 'T'
    ensures c.status == LowerAscii(r.visitor.status) && |c.status| == |r.visitor.status|
    ensures c.expectedExitTime == ExitTimeText(localClock(r.visitor.expectedExitTime))
    ensures c.id == r.id && c.visitorName == r.visitor.name && c.purpose == r.visitor.reason
    ensures c.concernPerson == r.visitor.concernedPersonName && c.phone == r.visitor.phone
  {
    SplitFirstPiece(r.visitor.inTime, 'T');
    VisitorCard(
      r.id, r.visitor.name, r.visitor.reason, Split(r.visitor.inTime, 'T')[0],
      ExitTimeText(localClock(r.visitor.expectedExitTime)), r.visitor.concernedPersonName,
      r.visitor.phone, LowerAscii(r.visitor.status))
  }

  function VisitorCards(rows: seq<VisitorRow>, localClock: string -> Option<Clock>): seq<VisitorCard> {
    seq(|rows|, i requires 0 <= i < |rows| => VisitorCardOf(rows[i], localClock))
  }

  /** A `DATETIME` rendered as date "T" time shows its date part. */
  lemma {:induction false} CardDateIsDatePart(r: VisitorRow, localClock: string -> Option<Clock>, date: string, time: string)
    requires 'T' !in date
    requires r.visitor.inTime == date + ['T'] + time
    ensures VisitorCardOf(r, localClock).date == date
  {
    SplitAtFirstSeparator(date, time, 'T');
  }

  /** Every visitor on the guard's list is shown as "approved". */
  lemma VisitorCardsShowApproved(visitors: seq<Visitor>, localClock: string -> Option<Clock>)
    ensures var cards := VisitorCards(ApprovedVisitors(visitors), localClock);
      forall i :: 0 <= i < |cards| ==> cards[i].status == "approved"
  {
    var rows := ApprovedVisitors(visitors);
    var cards := VisitorCards(rows, localClock);
    LowerApproved();
    forall i | 0 <= i < |cards| ensures cards[i].status == "approved" {
      assert rows[i] in rows;
    }
  }

  lemma LowerApproved()
    ensures LowerAscii("Approved") == "approved"
  {
    var t := LowerAscii("Approved");
    assert |t| == 8;
    assert t[0] == 'a';
  }
}
