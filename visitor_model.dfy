/** backend/models/VisitorModel.js: the `visitors` table. */
module VisitorModel {
  import opened Wrappers
  import opened Collections
  import opened Store

  /** A row of `visitors` together with its id. */
  datatype VisitorRow = VisitorRow(id: int, visitor: Visitor)

  /** The row `create` inserts: the request's fields with status "Pending". */
  function CreatedVisitor(name: string, phone: string, reason: string, inTime: string, expectedExitTime: string,
                          concernedPersonName: string, concernedPersonEmail: string): (v: Visitor)
    ensures v.status == "Pending"
    ensures v.name == name && v.phone == phone && v.reason == reason && v.inTime == inTime
    ensures v.expectedExitTime == expectedExitTime && v.concernedPersonName == concernedPersonName
    ensures v.concernedPersonEmail == concernedPersonEmail
  {
    Visitor(name, phone, reason, inTime, expectedExitTime, "Pending", concernedPersonName, concernedPersonEmail)
  }

  /** `findStaffEmail`: the e-mail of the first staff member with that phone number, or null.
      The name passed alongside is not consulted. */
  function FindStaffEmail(staff: seq<StaffMember>, phone: string): (r: Option<string>)
    ensures r.None? <==> forall s :: s in staff ==> s.phone != phone
    ensures r.Some? ==> exists i :: (0 <= i < |staff| && staff[i].phone == phone && staff[i].email == r.value
                                     && forall j :: 0 <= j < i ==> staff[j].phone != phone)
  {
    match StaffWithPhone(staff, phone)
    case Some(i) => Some(staff[i].email)
    case None => None
  }

  /** `UPDATE visitors SET status = ? WHERE id = ?`: only row `id`'s status changes (no row
      when there is no such id). */
  function WithVisitorStatus(visitors: seq<Visitor>, id: int, status: string): (r: seq<Visitor>)
    ensures |r| == |visitors|
    ensures forall i :: 0 <= i < |r| ==> r[i] == if i == id - 1 then visitors[i].(status := status) else visitors[i]
  {
    if 1 <= id <= |visitors| then visitors[id - 1 := visitors[id - 1].(status := status)] else visitors
  }

  /** The rows from index `from` on whose status is exactly "Approved", with their ids. */
  function ApprovedFrom(visitors: seq<Visitor>, from: nat): (rows: seq<VisitorRow>)
    requires from <= |visitors|
    ensures forall r :: r in rows <==>
      from < r.id <= |visitors| && r.visitor == visitors[r.id - 1] && r.visitor.status == "Approved"
    ensures forall i, j :: 0 <= i < j < |rows| ==> from < rows[i].id < rows[j].id
    decreases |visitors| - from
  {
    if from == |visitors| then []
    else if visitors[from].status == "Approved" then [VisitorRow(from + 1, visitors[from])] + ApprovedFrom(visitors, from + 1)
    else ApprovedFrom(visitors, from + 1)
  }

  /** `ORDER BY in_time DESC`. */
  predicate LatestInFirst(a: VisitorRow, b: VisitorRow) {
    StringLe(b.visitor.inTime, a.visitor.inTime)
  }

  lemma LatestInFirstIsTotalPreorder()
    ensures TotalPreorder(LatestInFirst)
  {
    forall a, b ensures LatestInFirst(a, b) || LatestInFirst(b, a) {
      StringLeTotal(a.visitor.inTime, b.visitor.inTime);
    }
    forall a, b, c | LatestInFirst(a, b) && LatestInFirst(b, c) ensures LatestInFirst(a, c) {
      StringLeTransitive(c.visitor.inTime, b.visitor.inTime, a.visitor.inTime);
    }
  }

  /** `getApprovedVisitors`: every approved visitor exactly once, latest `in_time` first. */
  function ApprovedVisitors(visitors: seq<Visitor>): (rows: seq<VisitorRow>)
    ensures forall r :: r in rows <==>
      1 <= r.id <= |visitors| && r.visitor == visitors[r.id - 1] && r.visitor.status == "Approved"
    ensures multiset(rows) == multiset(ApprovedFrom(visitors, 0))
    ensures forall r :: multiset(rows)[r] <= 1
    ensures SortedBy(rows, LatestInFirst)
  {
    var approved := ApprovedFrom(visitors, 0);
    assert Distinct(approved);
    DistinctAtMostOnce(approved);
    LatestInFirstIsTotalPreorder();
    SortByCorrect(approved, LatestInFirst);
    assert forall r :: r in SortBy(approved, LatestInFirst) <==> r in multiset(approved);
    SortBy(approved, LatestInFirst)
  }

  /** `create`: appends the row; the new id is the table's new length. */
  method Create(db: Database, name: string, phone: string, reason: string, inTime: string, expectedExitTime: string,
                concernedPersonName: string, concernedPersonEmail: string) returns (insertId: int)
    modifies db`visitors
    ensures db.visitors == old(db.visitors) +
      [CreatedVisitor(name, phone, reason, inTime, expectedExitTime, concernedPersonName, concernedPersonEmail)]
    ensures insertId == |db.visitors|
  {
    db.visitors := db.visitors +
      [CreatedVisitor(name, phone, reason, inTime, expectedExitTime, concernedPersonName, concernedPersonEmail)];
    insertId := |db.visitors|;
  }

  /** `updateStatus`. */
  method UpdateStatus(db: Database, id: int, status: string)
    modifies db`visitors
    ensures db.visitors == WithVisitorStatus(old(db.visitors), id, status)
  {
    db.visitors := WithVisitorStatus(db.visitors, id, status);
  }
}
