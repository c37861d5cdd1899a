/**
 * The record-level business rules of services/service.py over in-memory tables.
 *
 * Each table is a sequence of rows in insertion (rowid) order.  A query without
 * `order_by` returns rows in that order; `order_by(created_at.desc())` returns
 * them newest first, i.e. in reverse insertion order, because `created_at` is
 * the server's clock at insert.  Clock readings enter as parameters.  Commits,
 * refreshes and sessions are persistence plumbing and are not modelled.
 */
module Service {
  import opened Wrappers
  import opened Tables
  import Rag

  // ---------------------------------------------------------------------------
  // Rows
  // ---------------------------------------------------------------------------

  datatype User = User(
    id: nat, username: string, password: string, role: string, isApproved: bool,
    fullName: Option<string>, createdAt: int, lastLogin: Option<int>,
    phone: Option<string>, email: Option<string>)

  /** The values the doctor-management operations write into `DoctorDetails.status`. */
  datatype DoctorStatus = Pending | Active | Inactive | Rejected

  datatype DoctorDetails = DoctorDetails(
    id: nat, userId: Option<nat>, employeeId: string, fullName: string,
    specialization: Option<string>, email: Option<string>, phone: Option<string>,
    phoneVerified: bool, department: Option<string>, qualification: Option<string>,
    experienceYears: Option<int>, licenseNumber: Option<string>, status: DoctorStatus,
    joiningDate: int, createdAt: int, updatedAt: Option<int>,
    approvedAt: Option<int>, approvedBy: Option<int>)

  datatype Patient = Patient(
    id: nat, name: string, age: int, bloodGroup: string, diagnosis: string,
    treatment: string, admissionDate: int, dischargeDate: Option<int>,
    createdAt: int, createdBy: Option<string>)

  datatype ClinicalDocument = ClinicalDocument(
    id: nat, filename: string, content: string, createdAt: int, updatedAt: Option<int>)

  datatype DischargeSummary = DischargeSummary(
    id: nat, patientId: nat, summary: string, approved: bool,
    approvedBy: Option<nat>, doctorName: Option<string>, doctorSignature: Option<string>,
    generatedBy: Option<nat>, createdAt: int, approvedAt: Option<int>)

  /** An `HTTPException` raised by a service function. */
  datatype HttpError = HttpError(statusCode: nat, detail: string)

  function UserKey(u: User): nat { u.id }
  function UserName(u: User): string { u.username }
  function DoctorKey(d: DoctorDetails): nat { d.id }
  function PatientKey(p: Patient): nat { p.id }
  function DocumentKey(d: ClinicalDocument): nat { d.id }
  function DocumentName(d: ClinicalDocument): string { d.filename }
  function SummaryKey(s: DischargeSummary): nat { s.id }

  /** Python's `str(x)` of an optional string column inside an f-string. */
  function Str(x: Option<string>): string
  {
    match x
    case Some(s) => s
    case None => "None"
  }

  function DigitChar(d: nat): char
    requires d < 10
  {
    ('0' as int + d) as char
  }

  /** The value of a decimal digit character. */
  function DigitValue(c: char): nat
  {
    if '0' <= c <= '9' then c as int - '0' as int else 0
  }

  /** The number a string of decimal digits denotes, most significant digit first. */
  function DecimalValue(s: string): nat
    decreases |s|
  {
    if s == [] then 0 else DecimalValue(s[..|s| - 1]) * 10 + DigitValue(s[|s| - 1])
  }

  /** Python's `str(n)` for a non-negative integer. */
  function NatToDecimal(n: nat): (r: string)
    ensures |r| > 0
    ensures forall k :: 0 <= k < |r| ==> '0' <= r[k] <= '9'
    decreases n
  {
    if n < 10 then [DigitChar(n)] else NatToDecimal(n / 10) + [DigitChar(n % 10)]
  }

  /** `str(n)` denotes n, and has no leading zero except for n == 0 itself. */
  lemma {:induction false} NatToDecimalValue(n: nat)
    ensures DecimalValue(NatToDecimal(n)) == n
    ensures n == 0 <==> NatToDecimal(n) == "0"
    ensures n > 0 ==> NatToDecimal(n)[0] != '0'
    decreases n
  {
    var r := NatToDecimal(n);
    if n < 10 {
      assert r[..0] == [];
    } else {
      var front := NatToDecimal(n / 10);
      NatToDecimalValue(n / 10);
      assert r == front + [DigitChar(n % 10)];
      assert r[..|r| - 1] == front;
      assert r[0] == front[0];
    }
  }

  /** Python's `str(n)` for an integer. */
  function IntToDecimal(n: int): string
  {
    if n < 0 then "-" + NatToDecimal(-n) else NatToDecimal(n)
  }

  // ---------------------------------------------------------------------------
  // Queries (what the ORM returns)
  // ---------------------------------------------------------------------------

  predicate IsPendingDetail(d: DoctorDetails) { d.status == Pending }
  predicate IsPendingUser(u: User) { u.role == "doctor" && !u.isApproved }
  predicate IsPendingSummary(s: DischargeSummary) { !s.approved }

  /** `DoctorDetails` with status pending, newest first. */
  function PendingDetailsQuery(ds: seq<DoctorDetails>): seq<DoctorDetails>
  {
    Reverse(Filter(ds, IsPendingDetail))
  }

  /** `User` rows with role doctor that are not approved, in table order. */
  function PendingUsersQuery(us: seq<User>): seq<User>
  {
    Filter(us, IsPendingUser)
  }

  /** Unapproved discharge summaries, newest first. */
  function PendingSummariesQuery(ss: seq<DischargeSummary>): seq<DischargeSummary>
  {
    Reverse(Filter(ss, IsPendingSummary))
  }

  function UserIndex(us: seq<User>, id: int): Option<nat>
  {
    FindFirst(us, (u: User) => u.id == id)
  }

  function DoctorUserIndex(us: seq<User>, id: int): Option<nat>
  {
    FindFirst(us, (u: User) => u.id == id && u.role == "doctor")
  }

  function UserByName(us: seq<User>, username: string): Option<nat>
  {
    FindFirst(us, (u: User) => u.username == username)
  }

  function DoctorIndex(ds: seq<DoctorDetails>, id: int): Option<nat>
  {
    FindFirst(ds, (d: DoctorDetails) => d.id == id)
  }

  function PatientIndex(ps: seq<Patient>, id: int): Option<nat>
  {
    FindFirst(ps, (p: Patient) => p.id == id)
  }

  function DocumentByName(docs: seq<ClinicalDocument>, filename: string): Option<nat>
  {
    FindFirst(docs, (d: ClinicalDocument) => d.filename == filename)
  }

  /** The first unapproved summary of a patient. */
  function PendingSummaryOf(ss: seq<DischargeSummary>, patientId: int): Option<nat>
  {
    FindFirst(ss, (s: DischargeSummary) => s.patientId == patientId && !s.approved)
  }

  function NotOfPatient(patientId: int): DischargeSummary -> bool
  {
    (s: DischargeSummary) => s.patientId != patientId
  }

  /** The newest summary of a patient (`order_by(created_at.desc()).first()`): the last one inserted. */
  function LatestSummaryIndex(ss: seq<DischargeSummary>, patientId: int): (r: Option<nat>)
    ensures r.None? <==> forall k :: 0 <= k < |ss| ==> ss[k].patientId != patientId
    ensures r.Some? ==> (r.value < |ss| && ss[r.value].patientId == patientId
      && forall j :: r.value < j < |ss| ==> ss[j].patientId != patientId)
    decreases |ss|
  {
    if ss == [] then None
    else if ss[|ss| - 1].patientId == patientId then Some(|ss| - 1)
    else LatestSummaryIndex(ss[..|ss| - 1], patientId)
  }

  /** The templates `load_templates` reads, in table order. */
  function Templates(docs: seq<ClinicalDocument>): (r: seq<Rag.Template>)
    ensures |r| == |docs|
    ensures forall i :: 0 <= i < |docs| ==> r[i] == Rag.Template(docs[i].filename, docs[i].content)
  {
    seq(|docs|, i requires 0 <= i < |docs| => Rag.Template(docs[i].filename, docs[i].content))
  }

  // ---------------------------------------------------------------------------
  // get_pending_doctors
  // ---------------------------------------------------------------------------

  /** One entry of the pending-doctors list. */
  datatype PendingDoctorRow = PendingDoctorRow(
    id: Option<nat>, userId: Option<nat>, employeeId: string, fullName: Option<string>,
    specialization: Option<string>, email: Option<string>, phone: Option<string>,
    phoneVerified: bool, department: Option<string>, qualification: Option<string>,
    experienceYears: Option<int>, licenseNumber: Option<string>, status: DoctorStatus,
    createdAt: int, joiningDate: int)

  const NotSpecified: string := "Not Specified"

  /** The entry for a pending `DoctorDetails` row. */
  function DetailRow(d: DoctorDetails): PendingDoctorRow
  {
    PendingDoctorRow(
      Some(d.id), d.userId, d.employeeId, Some(d.fullName), d.specialization, d.email,
      d.phone, d.phoneVerified, d.department, d.qualification, d.experienceYears,
      d.licenseNumber, d.status, d.createdAt, d.joiningDate)
  }

  /** The placeholder entry for an unapproved doctor `User` without a listed detail row. */
  function FallbackRow(u: User): PendingDoctorRow
  {
    PendingDoctorRow(
      None, Some(u.id), u.username, u.fullName, Some(NotSpecified), u.email, u.phone,
      false, Some(NotSpecified), Some(NotSpecified), Some(0), Some(NotSpecified),
      Pending, u.createdAt, u.createdAt)
  }

  function DetailRows(ds: seq<DoctorDetails>): (r: seq<PendingDoctorRow>)
  {
    if ds == [] then [] else DetailRows(ds[..|ds| - 1]) + [DetailRow(ds[|ds| - 1])]
  }

  function EmployeeIds(ds: seq<DoctorDetails>): set<string>
  {
    set i | 0 <= i < |ds| :: ds[i].employeeId
  }

  function FallbackRows(us: seq<User>, seen: set<string>): seq<PendingDoctorRow>
  {
    if us == [] then []
    else
      var u := us[|us| - 1];
      FallbackRows(us[..|us| - 1], seen) + (if u.username in seen then [] else [FallbackRow(u)])
  }

  /** The list `get_pending_doctors` returns for the given tables. */
  function PendingDoctorList(ds: seq<DoctorDetails>, us: seq<User>): seq<PendingDoctorRow>
  {
    var details := PendingDetailsQuery(ds);
    DetailRows(details) + FallbackRows(PendingUsersQuery(us), EmployeeIds(details))
  }

  /** The dashboard's `pending_doctors` count: both queries counted, nothing deduplicated. */
  function DashboardPendingDoctors(ds: seq<DoctorDetails>, us: seq<User>): nat
  {
    |Filter(ds, IsPendingDetail)| + |Filter(us, IsPendingUser)|
  }

  lemma {:induction false} DetailRowsAt(ds: seq<DoctorDetails>)
    ensures |DetailRows(ds)| == |ds|
    ensures forall k :: 0 <= k < |ds| ==> DetailRows(ds)[k] == DetailRow(ds[k])
    decreases |ds|
  {
    if ds != [] {
      DetailRowsAt(ds[..|ds| - 1]);
    }
  }

  lemma {:induction false} FallbackRowsLength(us: seq<User>, seen: set<string>)
    ensures |FallbackRows(us, seen)| <= |us|
    ensures |FallbackRows(us, seen)| == |us| <==> forall i :: 0 <= i < |us| ==> us[i].username !in seen
    decreases |us|
  {
    if us != [] {
      var init := us[..|us| - 1];
      FallbackRowsLength(init, seen);
      assert forall i :: 0 <= i < |init| ==> init[i] == us[i];
    }
  }

  lemma {:induction false} FallbackRowsSound(us: seq<User>, seen: set<string>, k: nat)
    requires k < |FallbackRows(us, seen)|
    ensures exists i :: 0 <= i < |us| && us[i].username !in seen && FallbackRows(us, seen)[k] == FallbackRow(us[i])
    decreases |us|
  {
    var init := us[..|us| - 1];
    var r0 := FallbackRows(init, seen);
    if k < |r0| {
      FallbackRowsSound(init, seen, k);
      var i :| 0 <= i < |init| && init[i].username !in seen && r0[k] == FallbackRow(init[i]);
      assert us[i] == init[i];
    } else {
      assert FallbackRows(us, seen)[k] == FallbackRow(us[|us| - 1]);
    }
  }

  lemma {:induction false} FallbackRowsComplete(us: seq<User>, seen: set<string>, i: nat)
    requires i < |us| && us[i].username !in seen
    ensures FallbackRow(us[i]) in FallbackRows(us, seen)
    decreases |us|
  {
    var init := us[..|us| - 1];
    if i < |init| {
      FallbackRowsComplete(init, seen, i);
      assert us[i] == init[i];
    }
  }

  /**
   * The second loop's entries: no more than the users; as many exactly when no
   * username was seen; each the placeholder of an unseen user; and every unseen
   * user has one.
   */
  lemma FallbackRowsSpec(us: seq<User>, seen: set<string>)
    ensures var r := FallbackRows(us, seen);
      && |r| <= |us|
      && (|r| == |us| <==> forall i :: 0 <= i < |us| ==> us[i].username !in seen)
      && (forall k :: 0 <= k < |r| ==>
            exists i :: 0 <= i < |us| && us[i].username !in seen && r[k] == FallbackRow(us[i]))
      && (forall i :: 0 <= i < |us| && us[i].username !in seen ==> FallbackRow(us[i]) in r)
  {
    FallbackRowsLength(us, seen);
    forall k | 0 <= k < |FallbackRows(us, seen)|
      ensures exists i :: 0 <= i < |us| && us[i].username !in seen && FallbackRows(us, seen)[k] == FallbackRow(us[i])
    {
      FallbackRowsSound(us, seen, k);
    }
    forall i | 0 <= i < |us| && us[i].username !in seen ensures FallbackRow(us[i]) in FallbackRows(us, seen) {
      FallbackRowsComplete(us, seen, i);
    }
  }

  /** The condition of the second loop: the user's username was not seen. */
  function Unseen(seen: set<string>): User -> bool
  {
    (u: User) => u.username !in seen
  }

  /**
   * The second loop's entries are, in table order and each once, the
   * placeholders of the users at the unseen positions.
   */
  lemma FallbackRowsInOrder(us: seq<User>, seen: set<string>)
    ensures |FallbackRows(us, seen)| == |MatchIndices(us, Unseen(seen), |us|)|
    ensures forall k :: 0 <= k < |MatchIndices(us, Unseen(seen), |us|)| ==>
      FallbackRows(us, seen)[k] == FallbackRow(us[MatchIndices(us, Unseen(seen), |us|)[k]])
  {
    FallbackRowsPrefix(us, seen, |us|);
    assert us[..|us|] == us;
  }

  lemma {:induction false} FallbackRowsPrefix(us: seq<User>, seen: set<string>, n: nat)
    requires n <= |us|
    ensures |FallbackRows(us[..n], seen)| == |MatchIndices(us, Unseen(seen), n)|
    ensures forall k :: 0 <= k < |MatchIndices(us, Unseen(seen), n)| ==>
      FallbackRows(us[..n], seen)[k] == FallbackRow(us[MatchIndices(us, Unseen(seen), n)[k]])
    decreases n
  {
    if n > 0 {
      var u := us[n - 1];
      var front, frontIdx := FallbackRows(us[..n - 1], seen), MatchIndices(us, Unseen(seen), n - 1);
      assert us[..n][..n - 1] == us[..n - 1];
      FallbackRowsPrefix(us, seen, n - 1);
      if u.username in seen {
        assert FallbackRows(us[..n], seen) == front;
        assert MatchIndices(us, Unseen(seen), n) == frontIdx;
      } else {
        assert FallbackRows(us[..n], seen) == front + [FallbackRow(u)];
        assert MatchIndices(us, Unseen(seen), n) == frontIdx + [n - 1];
        forall k | 0 <= k < |frontIdx| + 1
          ensures (front + [FallbackRow(u)])[k] == FallbackRow(us[(frontIdx + [n - 1])[k]])
        {
          if k < |frontIdx| {
            assert (front + [FallbackRow(u)])[k] == front[k] && (frontIdx + [n - 1])[k] == frontIdx[k];
          }
        }
      }
    }
  }

  lemma DetailRowsSnoc(ds: seq<DoctorDetails>, i: nat)
    requires i < |ds|
    ensures DetailRows(ds[..i + 1]) == DetailRows(ds[..i]) + [DetailRow(ds[i])]
    ensures EmployeeIds(ds[..i + 1]) == EmployeeIds(ds[..i]) + {ds[i].employeeId}
  {
    var a := ds[..i + 1];
    assert a[..i] == ds[..i] && a[i] == ds[i];
    forall x | x in EmployeeIds(a) ensures x in EmployeeIds(ds[..i]) + {ds[i].employeeId} {
      var k :| 0 <= k < i + 1 && a[k].employeeId == x;
      if k < i {
        assert ds[..i][k] == a[k];
      }
    }
    forall x | x in EmployeeIds(ds[..i]) ensures x in EmployeeIds(a) {
      var k :| 0 <= k < i && ds[..i][k].employeeId == x;
      assert a[k] == ds[..i][k];
    }
  }

  lemma FallbackRowsSnoc(us: seq<User>, j: nat, seen: set<string>)
    requires j < |us|
    ensures FallbackRows(us[..j + 1], seen)
      == FallbackRows(us[..j], seen) + (if us[j].username in seen then [] else [FallbackRow(us[j])])
  {
    assert us[..j + 1][..j] == us[..j];
  }

  /** The first loop of `get_pending_doctors`: one entry per detail row, collecting employee ids. */
  method DetailEntries(details: seq<DoctorDetails>) returns (result: seq<PendingDoctorRow>, seenIds: set<string>)
    ensures result == DetailRows(details)
    ensures seenIds == EmployeeIds(details)
  {
    result := [];
    seenIds := {};
    for i := 0 to |details|
      invariant result == DetailRows(details[..i])
      invariant seenIds == EmployeeIds(details[..i])
    {
      DetailRowsSnoc(details, i);
      result := result + [DetailRow(details[i])];
      seenIds := seenIds + {details[i].employeeId};
    }
    assert details[..|details|] == details;
  }

  /** The second loop of `get_pending_doctors`: a placeholder entry per user whose username was not seen. */
  method FallbackEntries(pendingUsers: seq<User>, seenIds: set<string>) returns (result: seq<PendingDoctorRow>)
    ensures result == FallbackRows(pendingUsers, seenIds)
  {
    result := [];
    for j := 0 to |pendingUsers|
      invariant result == FallbackRows(pendingUsers[..j], seenIds)
    {
      var u := pendingUsers[j];
      FallbackRowsSnoc(pendingUsers, j, seenIds);
      if u.username !in seenIds {
        result := result + [FallbackRow(u)];
      }
    }
    assert pendingUsers[..|pendingUsers|] == pendingUsers;
  }

  /**
   * The pending-doctors list: first one entry per pending detail row, newest
   * first, carrying the row's id; then a placeholder entry (id None,
   * "Not Specified" fields, experience 0, status pending) for each unapproved
   * doctor user whose username is not the employee id of a listed detail row;
   * every such user has its entry, and every entry is pending. That the
   * placeholders follow table order, each once, is `PendingDoctorListOrder`.
   */
  lemma PendingDoctorListSpec(ds: seq<DoctorDetails>, us: seq<User>)
    ensures var details := PendingDetailsQuery(ds);
      var ids := EmployeeIds(details);
      var pendingUsers := PendingUsersQuery(us);
      var r := PendingDoctorList(ds, us);
      && |details| <= |r|
      && (forall k :: 0 <= k < |details| ==>
            r[k] == DetailRow(details[k]) && r[k].id == Some(details[k].id) && details[k] in ds)
      && (forall k :: |details| <= k < |r| ==>
            && r[k].id.None? && r[k].employeeId !in ids
            && r[k].specialization == Some(NotSpecified) && r[k].experienceYears == Some(0)
            && exists i :: 0 <= i < |pendingUsers| && r[k] == FallbackRow(pendingUsers[i]))
      && (forall i :: 0 <= i < |pendingUsers| ==>
            pendingUsers[i].username in ids || FallbackRow(pendingUsers[i]) in r)
      && (forall k :: 0 <= k < |r| ==> r[k].status == Pending)
  {
    var details := PendingDetailsQuery(ds);
    var ids := EmployeeIds(details);
    var pendingUsers := PendingUsersQuery(us);
    var fallback := FallbackRows(pendingUsers, ids);
    var r := PendingDoctorList(ds, us);
    assert r == DetailRows(details) + fallback;
    DetailRowsAt(details);
    FallbackRowsSpec(pendingUsers, ids);
    PendingDetailsSound(ds);
    forall k | |details| <= k < |r|
      ensures r[k].id.None? && r[k].employeeId !in ids && r[k].status == Pending
      ensures r[k].specialization == Some(NotSpecified) && r[k].experienceYears == Some(0)
      ensures exists i :: 0 <= i < |pendingUsers| && r[k] == FallbackRow(pendingUsers[i])
    {
      assert r[k] == fallback[k - |details|];
      var i :| 0 <= i < |pendingUsers| && pendingUsers[i].username !in ids
        && fallback[k - |details|] == FallbackRow(pendingUsers[i]);
    }
    forall k | 0 <= k < |details| ensures r[k] == DetailRow(details[k]) {
      assert r[k] == DetailRows(details)[k];
    }
  }

  /**
   * The placeholder part of the pending-doctors list follows the pending users'
   * table order, one entry for each user at an unseen position and no other.
   */
  lemma PendingDoctorListOrder(ds: seq<DoctorDetails>, us: seq<User>)
    ensures var details := PendingDetailsQuery(ds);
      var pendingUsers := PendingUsersQuery(us);
      var unseen := MatchIndices(pendingUsers, Unseen(EmployeeIds(details)), |pendingUsers|);
      && |PendingDoctorList(ds, us)| == |details| + |unseen|
      && (forall k :: |details| <= k < |PendingDoctorList(ds, us)| ==>
            PendingDoctorList(ds, us)[k] == FallbackRow(pendingUsers[unseen[k - |details|]]))
  {
    var details := PendingDetailsQuery(ds);
    var ids := EmployeeIds(details);
    var pendingUsers := PendingUsersQuery(us);
    var fallback := FallbackRows(pendingUsers, ids);
    var front := DetailRows(details);
    assert PendingDoctorList(ds, us) == front + fallback;
    assert |front| == |details| by {
      DetailRowsAt(details);
    }
    FallbackRowsInOrder(pendingUsers, ids);
    forall k | |front| <= k < |front + fallback| ensures (front + fallback)[k] == fallback[k - |front|] {
    }
  }

  /** The pending detail rows are rows of the table with status pending. */
  lemma PendingDetailsSound(ds: seq<DoctorDetails>)
    ensures forall k :: 0 <= k < |PendingDetailsQuery(ds)| ==>
      PendingDetailsQuery(ds)[k] in ds && PendingDetailsQuery(ds)[k].status == Pending
  {
    NewestFirstMembers(ds, IsPendingDetail);
  }

  /**
   * The pending detail rows are exactly the table's rows with status pending,
   * each once, newest first: entry k is the row at the k-th matching position
   * counted from the end of the table.
   */
  lemma PendingDetailsSpec(ds: seq<DoctorDetails>)
    ensures forall k :: 0 <= k < |PendingDetailsQuery(ds)| ==>
      PendingDetailsQuery(ds)[k] in ds && PendingDetailsQuery(ds)[k].status == Pending
    ensures forall j :: 0 <= j < |ds| && ds[j].status == Pending ==> ds[j] in PendingDetailsQuery(ds)
    ensures |PendingDetailsQuery(ds)| == |MatchIndices(ds, IsPendingDetail, |ds|)|
    ensures forall k :: 0 <= k < |MatchIndices(ds, IsPendingDetail, |ds|)| ==>
      PendingDetailsQuery(ds)[k] == ds[MatchIndices(ds, IsPendingDetail, |ds|)[|MatchIndices(ds, IsPendingDetail, |ds|)| - 1 - k]]
  {
    NewestFirstMembers(ds, IsPendingDetail);
    NewestFirstSpec(ds, IsPendingDetail);
  }

  /**
   * The dashboard count adds the two pending queries without deduplication: it
   * is never below the length of the pending-doctors list, and equals it
   * exactly when no unapproved doctor user's username is the employee id of a
   * pending detail row.
   */
  lemma DashboardOvercounts(ds: seq<DoctorDetails>, us: seq<User>)
    ensures |PendingDoctorList(ds, us)| <= DashboardPendingDoctors(ds, us)
    ensures |PendingDoctorList(ds, us)| == DashboardPendingDoctors(ds, us) <==>
      forall i :: 0 <= i < |PendingUsersQuery(us)| ==>
        PendingUsersQuery(us)[i].username !in EmployeeIds(PendingDetailsQuery(ds))
  {
    var details := PendingDetailsQuery(ds);
    DetailRowsAt(details);
    FallbackRowsSpec(PendingUsersQuery(us), EmployeeIds(details));
  }

  // ---------------------------------------------------------------------------
  // get_all_patients and get_pending_discharges: rows and previews
  // ---------------------------------------------------------------------------

  /** One entry of the patient list. */
  datatype PatientRow = PatientRow(
    id: nat, name: string, age: int, bloodGroup: string, diagnosis: string,
    treatment: string, admissionDate: int, dischargeDate: Option<int>,
    dischargeStatus: string, summaryApproved: bool)

  /** The patient-list entry of p, given the discharge-summary table. */
  function PatientRowOf(p: Patient, ss: seq<DischargeSummary>): PatientRow
  {
    var latest := LatestSummaryIndex(ss, p.id);
    PatientRow(
      p.id, p.name, p.age, p.bloodGroup, p.diagnosis, p.treatment, p.admissionDate,
      p.dischargeDate,
      if latest.Some? && ss[latest.value].approved then "Discharged" else "Active",
      if latest.Some? then ss[latest.value].approved else false)
  }

  /** The newest summary of the patient exists and is approved. */
  ghost predicate LatestApproved(ss: seq<DischargeSummary>, patientId: int)
  {
    exists k :: 0 <= k < |ss| && ss[k].patientId == patientId && ss[k].approved
      && forall j :: k < j < |ss| ==> ss[j].patientId != patientId
  }

  /**
   * A patient's entry copies the patient's fields; its discharge status is
   * "Discharged" exactly when the newest summary of that patient is approved
   * and "Active" otherwise, and `summary_approved` says the same; with no
   * summary at all it is "Active" and not approved.
   */
  lemma PatientRowSpec(p: Patient, ss: seq<DischargeSummary>)
    ensures var row := PatientRowOf(p, ss);
      && row.id == p.id && row.name == p.name && row.age == p.age
      && row.bloodGroup == p.bloodGroup && row.diagnosis == p.diagnosis
      && row.treatment == p.treatment && row.admissionDate == p.admissionDate
      && row.dischargeDate == p.dischargeDate
      && (row.dischargeStatus == "Discharged" <==> LatestApproved(ss, p.id))
      && (row.dischargeStatus == "Active" <==> !LatestApproved(ss, p.id))
      && (row.summaryApproved <==> LatestApproved(ss, p.id))
      && ((forall k :: 0 <= k < |ss| ==> ss[k].patientId != p.id) ==>
            row.dischargeStatus == "Active" && !row.summaryApproved)
  {
    var latest := LatestSummaryIndex(ss, p.id);
    if latest.Some? {
      var k := latest.value;
      if LatestApproved(ss, p.id) {
        var k' :| 0 <= k' < |ss| && ss[k'].patientId == p.id && ss[k'].approved
          && forall j :: k' < j < |ss| ==> ss[j].patientId != p.id;
        assert k' == k;
      }
    }
  }

  /**
   * A new unapproved summary for a patient makes that patient "Active" again
   * and leaves every other patient's entry as it was.
   */
  lemma NewSummaryReopens(p: Patient, ss: seq<DischargeSummary>, record: DischargeSummary)
    requires !record.approved
    ensures p.id == record.patientId ==>
      PatientRowOf(p, ss + [record]).dischargeStatus == "Active"
      && !PatientRowOf(p, ss + [record]).summaryApproved
    ensures p.id != record.patientId ==> PatientRowOf(p, ss + [record]) == PatientRowOf(p, ss)
  {
    assert (ss + [record])[..|ss|] == ss;
  }

  const PreviewLength: nat := 300

  /** The summary preview: the first 300 characters and "..." when longer, else unchanged. */
  function Preview(s: string): (r: string)
    ensures |r| <= PreviewLength + 3
    ensures |s| <= PreviewLength ==> r == s
    ensures |s| > PreviewLength ==> (|r| == PreviewLength + 3
      && r[..PreviewLength] == s[..PreviewLength] && r[PreviewLength..] == "...")
  {
    if |s| > PreviewLength then s[..PreviewLength] + "..." else s
  }

  /** Previewing a preview changes nothing. */
  lemma PreviewIdempotent(s: string)
    ensures Preview(Preview(s)) == Preview(s)
  {
  }

  /** One entry of the pending-discharges list. */
  datatype PendingDischargeRow = PendingDischargeRow(
    summaryId: nat, patientId: nat, patientName: string, summary: string, generatedAt: int)

  function PatientNameOr(ps: seq<Patient>, patientId: int): string
  {
    match PatientIndex(ps, patientId)
    case Some(i) => ps[i].name
    case None => "Unknown"
  }

  function PendingDischargeRowOf(s: DischargeSummary, ps: seq<Patient>): PendingDischargeRow
  {
    PendingDischargeRow(s.id, s.patientId, PatientNameOr(ps, s.patientId), Preview(s.summary), s.createdAt)
  }

  // ---------------------------------------------------------------------------
  // update_patient
  // ---------------------------------------------------------------------------

  /** The loop of `get_all_patients`. */
  method PatientEntries(ps: seq<Patient>, ss: seq<DischargeSummary>) returns (result: seq<PatientRow>)
    ensures |result| == |ps|
    ensures forall i :: 0 <= i < |ps| ==> result[i] == PatientRowOf(ps[i], ss)
  {
    result := [];
    for i := 0 to |ps|
      invariant |result| == i
      invariant forall k :: 0 <= k < i ==> result[k] == PatientRowOf(ps[k], ss)
    {
      var p := ps[i];
      var latest := LatestSummaryIndex(ss, p.id);
      var status := if latest.Some? && ss[latest.value].approved then "Discharged" else "Active";
      var approved := if latest.Some? then ss[latest.value].approved else false;
      result := result + [PatientRow(p.id, p.name, p.age, p.bloodGroup, p.diagnosis, p.treatment,
                                     p.admissionDate, p.dischargeDate, status, approved)];
    }
  }

  /** The loop of `get_pending_discharges`. */
  method PendingDischargeEntries(pending: seq<DischargeSummary>, ps: seq<Patient>) returns (result: seq<PendingDischargeRow>)
    ensures |result| == |pending|
    ensures forall k :: 0 <= k < |pending| ==> result[k] == PendingDischargeRowOf(pending[k], ps)
  {
    result := [];
    for i := 0 to |pending|
      invariant |result| == i
      invariant forall k :: 0 <= k < i ==> result[k] == PendingDischargeRowOf(pending[k], ps)
    {
      var s := pending[i];
      var patient := PatientIndex(ps, s.patientId);
      var name := if patient.Some? then ps[patient.value].name else "Unknown";
      var preview := if |s.summary| > PreviewLength then s.summary[..PreviewLength] + "..." else s.summary;
      result := result + [PendingDischargeRow(s.id, s.patientId, name, preview, s.createdAt)];
    }
  }

  /**
   * The pending summaries query yields exactly the unapproved summaries of the
   * table, each once, newest first.
   */
  lemma PendingSummariesSpec(ss: seq<DischargeSummary>)
    ensures forall k :: 0 <= k < |PendingSummariesQuery(ss)| ==>
      IsPendingSummary(PendingSummariesQuery(ss)[k]) && PendingSummariesQuery(ss)[k] in ss
    ensures forall j :: 0 <= j < |ss| && IsPendingSummary(ss[j]) ==> ss[j] in PendingSummariesQuery(ss)
    ensures |PendingSummariesQuery(ss)| == |MatchIndices(ss, IsPendingSummary, |ss|)|
    ensures forall k :: 0 <= k < |MatchIndices(ss, IsPendingSummary, |ss|)| ==>
      PendingSummariesQuery(ss)[k] == ss[MatchIndices(ss, IsPendingSummary, |ss|)[|MatchIndices(ss, IsPendingSummary, |ss|)| - 1 - k]]
  {
    NewestFirstMembers(ss, IsPendingSummary);
    NewestFirstSpec(ss, IsPendingSummary);
  }

  /** The optional fields of a patient update; None leaves the field as it is. */
  datatype PatientUpdate = PatientUpdate(
    name: Option<string>, age: Option<int>, bloodGroup: Option<string>,
    diagnosis: Option<string>, treatment: Option<string>)

  function Overwrite<T>(current: T, update: Option<T>): T
  {
    if update.Some? then update.value else current
  }

  /**
   * The patient after a partial update: each of the five editable fields takes
   * the update's value when it has one and keeps its value otherwise; no other
   * field changes.
   */
  function ApplyUpdate(p: Patient, u: PatientUpdate): (r: Patient)
    ensures r.(name := p.name, age := p.age, bloodGroup := p.bloodGroup,
               diagnosis := p.diagnosis, treatment := p.treatment) == p
    ensures u.name.Some? ==> r.name == u.name.value
    ensures u.age.Some? ==> r.age == u.age.value
    ensures u.bloodGroup.Some? ==> r.bloodGroup == u.bloodGroup.value
    ensures u.diagnosis.Some? ==> r.diagnosis == u.diagnosis.value
    ensures u.treatment.Some? ==> r.treatment == u.treatment.value
    ensures u.name.None? ==> r.name == p.name
    ensures u.age.None? ==> r.age == p.age
    ensures u.bloodGroup.None? ==> r.bloodGroup == p.bloodGroup
    ensures u.diagnosis.None? ==> r.diagnosis == p.diagnosis
    ensures u.treatment.None? ==> r.treatment == p.treatment
  {
    p.(name := Overwrite(p.name, u.name), age := Overwrite(p.age, u.age),
       bloodGroup := Overwrite(p.bloodGroup, u.bloodGroup),
       diagnosis := Overwrite(p.diagnosis, u.diagnosis),
       treatment := Overwrite(p.treatment, u.treatment))
  }

  /** Applying the same update twice is applying it once; the empty update changes nothing. */
  lemma ApplyUpdateIdempotent(p: Patient, u: PatientUpdate)
    ensures ApplyUpdate(ApplyUpdate(p, u), u) == ApplyUpdate(p, u)
    ensures ApplyUpdate(p, PatientUpdate(None, None, None, None, None)) == p
  {
  }

  // ---------------------------------------------------------------------------
  // login_user
  // ---------------------------------------------------------------------------

  /** The claims the access token is issued for (the JWT encoding is not modelled). */
  datatype TokenClaims = TokenClaims(sub: string, role: string, userId: nat)

  datatype LoginReply = LoginReply(token: TokenClaims, role: string)

  const InvalidCredentials: HttpError := HttpError(401, "Invalid credentials")
  const DoctorNotApproved: HttpError := HttpError(403, "Doctor not approved yet")

  /**
   * The credential and approval checks of `login_user`: 401 when no user has
   * the username or the first such user's password differs, 403 when that user
   * is a doctor that is not approved, and otherwise the user's position.
   */
  function CheckCredentials(us: seq<User>, username: string, password: string): (r: Result<nat, HttpError>)
    ensures r == Err(InvalidCredentials) <==>
      UserByName(us, username).None? || us[UserByName(us, username).value].password != password
    ensures r == Err(DoctorNotApproved) <==>
      && UserByName(us, username).Some?
      && var u := us[UserByName(us, username).value];
      u.password == password && u.role == "doctor" && !u.isApproved
    ensures r.Ok? ==> (r.value < |us| && us[r.value].username == username
      && us[r.value].password == password
      && (us[r.value].role != "doctor" || us[r.value].isApproved)
      && forall j :: 0 <= j < r.value ==> us[j].username != username)
    ensures r.Ok? || r == Err(InvalidCredentials) || r == Err(DoctorNotApproved)
  {
    match UserByName(us, username)
    case None => Err(InvalidCredentials)
    case Some(i) =>
      var u := us[i];
      if u.password != password then Err(InvalidCredentials)
      else if u.role == "doctor" && !u.isApproved then Err(DoctorNotApproved)
      else Ok(i)
  }

  // ---------------------------------------------------------------------------
  // Doctor status operations: replies
  // ---------------------------------------------------------------------------

  datatype ApproveReply =
    | DetailApproved(message: string, doctorId: nat, employeeId: string, status: DoctorStatus)
    | UserApproved(message: string, userId: nat, username: string)

  datatype RejectReply = RejectReply(message: string, doctorId: nat)

  const DoctorNotFound: HttpError := HttpError(404, "Doctor not found")

  /** At most one unapproved discharge summary per patient. */
  ghost predicate AtMostOnePending(ss: seq<DischargeSummary>)
  {
    forall i, j :: 0 <= i < j < |ss| && ss[i].patientId == ss[j].patientId ==> ss[i].approved || ss[j].approved
  }

  /** Appending an unapproved summary for a patient without one keeps one pending summary per patient. */
  lemma AppendKeepsOnePending(ss: seq<DischargeSummary>, record: DischargeSummary)
    requires AtMostOnePending(ss)
    requires PendingSummaryOf(ss, record.patientId).None?
    ensures AtMostOnePending(ss + [record])
  {
    var ss' := ss + [record];
    forall i, j | 0 <= i < j < |ss'| && ss'[i].patientId == ss'[j].patientId
      ensures ss'[i].approved || ss'[j].approved
    {
      if j == |ss| {
        assert ss'[i] == ss[i];
      } else {
        assert ss'[i] == ss[i] && ss'[j] == ss[j];
      }
    }
  }

  /** The query `generate_discharge` gives the pipeline for a patient. */
  function DischargeQuery(p: Patient): string
  {
    "\n    Generate discharge summary for:\n    Name: " + p.name
    + "\n    Age: " + IntToDecimal(p.age)
    + "\n    Blood Group: " + p.bloodGroup
    + "\n    Diagnosis: " + p.diagnosis
    + "\n    Treatment: " + p.treatment
    + "\n    "
  }

  datatype GenerateReply =
    | PendingExists(message: string, summaryId: nat, summary: string)
    | Generated(record: DischargeSummary)

  datatype AddDocumentReply =
    | TemplateExists(message: string, templateId: nat)
    | DocumentAdded(document: ClinicalDocument)

  // ---------------------------------------------------------------------------
  // The database
  // ---------------------------------------------------------------------------

  /**
   * The doctor row the ORM writes back on commit. `updated_at` is declared with
   * `onupdate=func.now()`, so a row whose columns changed is written with the
   * commit time there; a row with no net change is not written at all.
   */
  function Flushed(before: DoctorDetails, after: DoctorDetails, now: int): (r: DoctorDetails)
    ensures r.updatedAt == (if after == before then before.updatedAt else Some(now))
    ensures r.(updatedAt := after.updatedAt) == after
  {
    if after == before then before else after.(updatedAt := Some(now))
  }

  /** The tables the service functions read and write. */
  class Database {
    var users: seq<User>
    var doctors: seq<DoctorDetails>
    var patients: seq<Patient>
    var documents: seq<ClinicalDocument>
    var summaries: seq<DischargeSummary>

    /** The unique constraints of the schema: primary keys, usernames and template filenames. */
    ghost predicate Valid()
      reads this
    {
      && UniqueKeys(users, UserKey) && UniqueKeys(users, UserName)
      && UniqueKeys(doctors, DoctorKey) && UniqueKeys(patients, PatientKey)
      && UniqueKeys(documents, DocumentKey) && UniqueKeys(documents, DocumentName)
      && UniqueKeys(summaries, SummaryKey)
    }

    constructor ()
      ensures Valid()
      ensures users == [] && doctors == [] && patients == [] && documents == [] && summaries == []
    {
      users, doctors, patients, documents, summaries := [], [], [], [], [];
    }

    /**
     * `get_pending_doctors`: the pending detail rows, then the unapproved
     * doctor users not already listed under their employee id.
     */
    method GetPendingDoctors() returns (result: seq<PendingDoctorRow>)
      ensures result == PendingDoctorList(doctors, users)
    {
      var details := PendingDetailsQuery(doctors);
      var pendingUsers := PendingUsersQuery(users);
      var listed, seenIds := DetailEntries(details);
      var fallback := FallbackEntries(pendingUsers, seenIds);
      result := listed + fallback;
    }

    /** `get_all_patients`: one entry per patient, in table order. */
    method GetAllPatients() returns (result: seq<PatientRow>)
      ensures |result| == |patients|
      ensures forall i :: 0 <= i < |patients| ==> result[i] == PatientRowOf(patients[i], summaries)
    {
      result := PatientEntries(patients, summaries);
    }

    /** `get_pending_discharges`: the unapproved summaries, newest first, with previews. */
    method GetPendingDischarges() returns (result: seq<PendingDischargeRow>)
      ensures var pending := PendingSummariesQuery(summaries);
        && |result| == |pending|
        && forall k :: 0 <= k < |pending| ==>
             && !pending[k].approved && pending[k] in summaries
             && result[k] == PendingDischargeRowOf(pending[k], patients)
    {
      var pending := PendingSummariesQuery(summaries);
      PendingSummariesSpec(summaries);
      result := PendingDischargeEntries(pending, patients);
    }

    /** `update_patient`: overwrite the given fields of the patient with that id. */
    method UpdatePatient(patientId: int, update: PatientUpdate) returns (r: Option<Patient>)
      requires Valid()
      modifies this
      ensures Valid()
      ensures users == old(users) && doctors == old(doctors) && documents == old(documents)
      ensures summaries == old(summaries)
      ensures PatientIndex(old(patients), patientId).None? ==> r == None && patients == old(patients)
      ensures PatientIndex(old(patients), patientId).Some? ==>
        var i := PatientIndex(old(patients), patientId).value;
        && patients == old(patients)[i := ApplyUpdate(old(patients)[i], update)]
        && r == Some(patients[i])
    {
      var found := PatientIndex(patients, patientId);
      if found.None? {
        return None;
      }
      var i := found.value;
      var p := patients[i];
      if update.name.Some? { p := p.(name := update.name.value); }
      if update.age.Some? { p := p.(age := update.age.value); }
      if update.bloodGroup.Some? { p := p.(bloodGroup := update.bloodGroup.value); }
      if update.diagnosis.Some? { p := p.(diagnosis := update.diagnosis.value); }
      if update.treatment.Some? { p := p.(treatment := update.treatment.value); }
      assert p == ApplyUpdate(patients[i], update);
      SetPatientKeepsUnique(patients, i, p);
      patients := patients[i := p];
      r := Some(p);
    }

    /** `delete_patient`: remove the patient and every discharge summary of that patient. */
    method DeletePatient(patientId: int) returns (r: Option<bool>)
      requires Valid()
      modifies this
      ensures Valid()
      ensures users == old(users) && doctors == old(doctors) && documents == old(documents)
      ensures PatientIndex(old(patients), patientId).None? ==>
        r == None && patients == old(patients) && summaries == old(summaries)
      ensures PatientIndex(old(patients), patientId).Some? ==>
        var i := PatientIndex(old(patients), patientId).value;
        && r == Some(true)
        && patients == old(patients)[..i] + old(patients)[i + 1..]
        && summaries == Filter(old(summaries), NotOfPatient(patientId))
        && (forall k :: 0 <= k < |patients| ==> patients[k].id != patientId)
        && (forall k :: 0 <= k < |summaries| ==> summaries[k].patientId != patientId)
      ensures AtMostOnePending(old(summaries)) ==> AtMostOnePending(summaries)
    {
      var found := PatientIndex(patients, patientId);
      if found.None? {
        return None;
      }
      var i := found.value;
      ghost var before := summaries;
      summaries := Filter(summaries, NotOfPatient(patientId));
      FilterKeepsUnique(before, NotOfPatient(patientId));
      if AtMostOnePending(before) {
        FilterKeepsOnePending(before, NotOfPatient(patientId));
      }
      RemovePatientKeepsUnique(patients, i, patientId);
      patients := patients[..i] + patients[i + 1..];
      r := Some(true);
    }

    /**
     * `approve_doctor`: a detail row with that id becomes active, records the
     * approval time and approver, gets the commit time as `updated_at`, and
     * its linked user (when its id is set and non-zero) becomes approved; failing that, a doctor user with that id
     * becomes approved; otherwise 404.
     */
    method ApproveDoctor(doctorId: int, adminUserId: Option<int>, now: int) returns (r: Result<ApproveReply, HttpError>)
      requires Valid()
      modifies this
      ensures Valid()
      ensures patients == old(patients) && documents == old(documents) && summaries == old(summaries)
      ensures DoctorIndex(old(doctors), doctorId).Some? ==>
        var i := DoctorIndex(old(doctors), doctorId).value;
        var d := Flushed(old(doctors)[i], old(doctors)[i].(status := Active, approvedAt := Some(now), approvedBy := adminUserId), now);
        && doctors == old(doctors)[i := d]
        && r == Ok(DetailApproved("Doctor " + d.fullName + " approved successfully", d.id, d.employeeId, Active))
        && (if d.userId.Some? && d.userId.value != 0 && UserIndex(old(users), d.userId.value).Some?
            then var j := UserIndex(old(users), d.userId.value).value;
                 users == old(users)[j := old(users)[j].(isApproved := true)]
            else users == old(users))
      ensures DoctorIndex(old(doctors), doctorId).None? && DoctorUserIndex(old(users), doctorId).Some? ==>
        var j := DoctorUserIndex(old(users), doctorId).value;
        var u := old(users)[j];
        && doctors == old(doctors)
        && users == old(users)[j := u.(isApproved := true)]
        && r == Ok(UserApproved("Doctor " + Str(u.fullName) + " approved successfully", u.id, u.username))
      ensures DoctorIndex(old(doctors), doctorId).None? && DoctorUserIndex(old(users), doctorId).None? ==>
        r == Err(DoctorNotFound) && doctors == old(doctors) && users == old(users)
    {
      var found := DoctorIndex(doctors, doctorId);
      if found.Some? {
        var i := found.value;
        var d := doctors[i];
        d := d.(status := Active);
        d := d.(approvedAt := Some(now));
        d := d.(approvedBy := adminUserId);
        d := Flushed(doctors[i], d, now);
        if d.userId.Some? && d.userId.value != 0 {
          var linked := UserIndex(users, d.userId.value);
          if linked.Some? {
            var j := linked.value;
            users := users[j := users[j].(isApproved := true)];
            SetApprovedKeepsUnique(old(users), j);
          }
        }
        doctors := doctors[i := d];
        SetDoctorKeepsUnique(old(doctors), i, d);
        return Ok(DetailApproved("Doctor " + d.fullName + " approved successfully", d.id, d.employeeId, d.status));
      }
      var fallback := DoctorUserIndex(users, doctorId);
      if fallback.Some? {
        var j := fallback.value;
        var u := users[j];
        users := users[j := u.(isApproved := true)];
        SetApprovedKeepsUnique(old(users), j);
        return Ok(UserApproved("Doctor " + Str(u.fullName) + " approved successfully", u.id, u.username));
      }
      return Err(DoctorNotFound);
    }

    /** `reject_doctor`: the detail row with that id becomes rejected; otherwise 404. */
    method RejectDoctor(doctorId: int, now: int) returns (r: Result<RejectReply, HttpError>)
      requires Valid()
      modifies this
      ensures Valid()
      ensures users == old(users) && patients == old(patients)
      ensures documents == old(documents) && summaries == old(summaries)
      ensures DoctorIndex(old(doctors), doctorId).None? ==> r == Err(DoctorNotFound) && doctors == old(doctors)
      ensures DoctorIndex(old(doctors), doctorId).Some? ==>
        var i := DoctorIndex(old(doctors), doctorId).value;
        var d := old(doctors)[i].(status := Rejected, updatedAt := Some(now));
        && doctors == old(doctors)[i := d]
        && r == Ok(RejectReply("Doctor " + d.fullName + " rejected", d.id))
    {
      var found := DoctorIndex(doctors, doctorId);
      if found.None? {
        return Err(DoctorNotFound);
      }
      var i := found.value;
      var d := doctors[i].(status := Rejected);
      d := d.(updatedAt := Some(now));
      doctors := doctors[i := d];
      SetDoctorKeepsUnique(old(doctors), i, d);
      r := Ok(RejectReply("Doctor " + d.fullName + " rejected", d.id));
    }

    /**
     * `delete_doctor`: a soft delete; the detail row with that id becomes
     * inactive (and, when that changes it, gets the commit time as
     * `updated_at`); otherwise 404.
     */
    method DeleteDoctor(doctorId: int, now: int) returns (r: Result<string, HttpError>)
      requires Valid()
      modifies this
      ensures Valid()
      ensures users == old(users) && patients == old(patients)
      ensures documents == old(documents) && summaries == old(summaries)
      ensures DoctorIndex(old(doctors), doctorId).None? ==> r == Err(DoctorNotFound) && doctors == old(doctors)
      ensures DoctorIndex(old(doctors), doctorId).Some? ==>
        var i := DoctorIndex(old(doctors), doctorId).value;
        && doctors == old(doctors)[i := Flushed(old(doctors)[i], old(doctors)[i].(status := Inactive), now)]
        && r == Ok("Doctor " + old(doctors)[i].fullName + " removed successfully")
    {
      var found := DoctorIndex(doctors, doctorId);
      if found.None? {
        return Err(DoctorNotFound);
      }
      var i := found.value;
      var d := Flushed(doctors[i], doctors[i].(status := Inactive), now);
      doctors := doctors[i := d];
      SetDoctorKeepsUnique(old(doctors), i, d);
      r := Ok("Doctor " + d.fullName + " removed successfully");
    }

    /**
     * `login_user`: the credential and approval checks; on success the token
     * claims and the role, and the user's last login set to `now`.
     */
    method LoginUser(username: string, password: string, now: int) returns (r: Result<LoginReply, HttpError>)
      requires Valid()
      modifies this
      ensures Valid()
      ensures doctors == old(doctors) && patients == old(patients)
      ensures documents == old(documents) && summaries == old(summaries)
      ensures CheckCredentials(old(users), username, password).Err? ==>
        r == Err(CheckCredentials(old(users), username, password).error) && users == old(users)
      ensures CheckCredentials(old(users), username, password).Ok? ==>
        var i := CheckCredentials(old(users), username, password).value;
        var u := old(users)[i];
        && users == old(users)[i := u.(lastLogin := Some(now))]
        && r == Ok(LoginReply(TokenClaims(u.username, u.role, u.id), u.role))
    {
      var found := UserByName(users, username);
      if found.None? || users[found.value].password != password {
        return Err(InvalidCredentials);
      }
      var i := found.value;
      var u := users[i];
      if u.role == "doctor" && !u.isApproved {
        return Err(DoctorNotApproved);
      }
      var token := TokenClaims(u.username, u.role, u.id);
      users := users[i := u.(lastLogin := Some(now))];
      SetLastLoginKeepsUnique(old(users), i, now);
      r := Ok(LoginReply(token, u.role));
    }

    /**
     * `generate_discharge`: None for an unknown patient; the first unapproved
     * summary of the patient, unchanged, when one exists; otherwise the
     * pipeline's text stored as a new unapproved summary.  An exception from the
     * pipeline propagates and nothing is stored.
     */
    method GenerateDischarge(patientId: int, models: Rag.Models, now: int)
      returns (r: Option<Result<GenerateReply, Rag.PipelineError>>)
      requires Valid()
      modifies this
      ensures Valid()
      ensures users == old(users) && doctors == old(doctors)
      ensures patients == old(patients) && documents == old(documents)
      ensures PatientIndex(patients, patientId).None? ==> r == None && summaries == old(summaries)
      ensures PatientIndex(patients, patientId).Some? && PendingSummaryOf(old(summaries), patientId).Some? ==>
        var s := old(summaries)[PendingSummaryOf(old(summaries), patientId).value];
        && summaries == old(summaries)
        && r == Some(Ok(PendingExists("Pending discharge summary already exists", s.id, s.summary)))
      ensures PatientIndex(patients, patientId).Some? && PendingSummaryOf(old(summaries), patientId).None? ==>
        var p := patients[PatientIndex(patients, patientId).value];
        match Rag.PipelineResult(DischargeQuery(p), Templates(documents), models)
        case Raised(e) => r == Some(Err(e)) && summaries == old(summaries)
        case Answer(text) =>
          var record := DischargeSummary(FreshKey(old(summaries), SummaryKey), p.id, text, false,
                                         None, None, None, None, now, None);
          r == Some(Ok(Generated(record))) && summaries == old(summaries) + [record]
      ensures AtMostOnePending(old(summaries)) ==> AtMostOnePending(summaries)
    {
      var found := PatientIndex(patients, patientId);
      if found.None? {
        return None;
      }
      var patient := patients[found.value];
      var existing := PendingSummaryOf(summaries, patientId);
      if existing.Some? {
        var s := summaries[existing.value];
        return Some(Ok(PendingExists("Pending discharge summary already exists", s.id, s.summary)));
      }
      var query := DischargeQuery(patient);
      var out, calls := Rag.RagPipeline(query, Templates(documents), models);
      match out
      case Raised(e) =>
        r := Some(Err(e));
      case Answer(text) =>
        var record := DischargeSummary(FreshKey(summaries, SummaryKey), patient.id, text, false,
                                       None, None, None, None, now, None);
        AppendSummaryKeepsValid(summaries, record);
        summaries := summaries + [record];
        r := Some(Ok(Generated(record)));
    }

    /**
     * `add_document`: with an existing filename, that template's id and no
     * change; otherwise a new template row.
     */
    method AddDocument(filename: string, content: string, now: int) returns (r: AddDocumentReply)
      requires Valid()
      modifies this
      ensures Valid()
      ensures users == old(users) && doctors == old(doctors)
      ensures patients == old(patients) && summaries == old(summaries)
      ensures DocumentByName(old(documents), filename).Some? ==>
        && r == TemplateExists("Template already exists", old(documents)[DocumentByName(old(documents), filename).value].id)
        && documents == old(documents)
      ensures DocumentByName(old(documents), filename).None? ==>
        var doc := ClinicalDocument(FreshKey(old(documents), DocumentKey), filename, content, now, None);
        && r == DocumentAdded(doc)
        && documents == old(documents) + [doc]
    {
      var existing := DocumentByName(documents, filename);
      if existing.Some? {
        return TemplateExists("Template already exists", documents[existing.value].id);
      }
      var doc := ClinicalDocument(FreshKey(documents, DocumentKey), filename, content, now, None);
      AppendDocumentKeepsUnique(documents, doc);
      documents := documents + [doc];
      r := DocumentAdded(doc);
    }
  }

  // ---------------------------------------------------------------------------
  // Unique keys survive the updates above
  // ---------------------------------------------------------------------------

  lemma SetApprovedKeepsUnique(us: seq<User>, j: nat)
    requires j < |us| && UniqueKeys(us, UserKey) && UniqueKeys(us, UserName)
    ensures var us' := us[j := us[j].(isApproved := true)];
      UniqueKeys(us', UserKey) && UniqueKeys(us', UserName)
  {
  }

  lemma SetLastLoginKeepsUnique(us: seq<User>, j: nat, now: int)
    requires j < |us| && UniqueKeys(us, UserKey) && UniqueKeys(us, UserName)
    ensures var us' := us[j := us[j].(lastLogin := Some(now))];
      UniqueKeys(us', UserKey) && UniqueKeys(us', UserName)
  {
  }

  lemma SetDoctorKeepsUnique(ds: seq<DoctorDetails>, i: nat, d: DoctorDetails)
    requires i < |ds| && UniqueKeys(ds, DoctorKey) && d.id == ds[i].id
    ensures UniqueKeys(ds[i := d], DoctorKey)
  {
  }

  lemma SetPatientKeepsUnique(ps: seq<Patient>, i: nat, p: Patient)
    requires i < |ps| && UniqueKeys(ps, PatientKey) && p.id == ps[i].id
    ensures UniqueKeys(ps[i := p], PatientKey)
  {
  }

  lemma AppendSummaryKeepsValid(ss: seq<DischargeSummary>, record: DischargeSummary)
    requires UniqueKeys(ss, SummaryKey) && record.id == FreshKey(ss, SummaryKey)
    requires !record.approved && PendingSummaryOf(ss, record.patientId).None?
    ensures UniqueKeys(ss + [record], SummaryKey)
    ensures AtMostOnePending(ss) ==> AtMostOnePending(ss + [record])
  {
    var ss' := ss + [record];
    forall a, b | 0 <= a < b < |ss'| ensures SummaryKey(ss'[a]) != SummaryKey(ss'[b]) {
      assert ss'[a] == ss[a];
      if b < |ss| {
        assert ss'[b] == ss[b];
      }
    }
    if AtMostOnePending(ss) {
      AppendKeepsOnePending(ss, record);
    }
  }

  lemma AppendDocumentKeepsUnique(docs: seq<ClinicalDocument>, doc: ClinicalDocument)
    requires UniqueKeys(docs, DocumentKey) && UniqueKeys(docs, DocumentName)
    requires doc.id == FreshKey(docs, DocumentKey) && DocumentByName(docs, doc.filename).None?
    ensures UniqueKeys(docs + [doc], DocumentKey) && UniqueKeys(docs + [doc], DocumentName)
  {
    var docs' := docs + [doc];
    forall a, b | 0 <= a < b < |docs'|
      ensures DocumentKey(docs'[a]) != DocumentKey(docs'[b]) && DocumentName(docs'[a]) != DocumentName(docs'[b])
    {
      assert docs'[a] == docs[a];
      if b < |docs| {
        assert docs'[b] == docs[b];
      }
    }
  }

  lemma RemovePatientKeepsUnique(ps: seq<Patient>, i: nat, patientId: int)
    requires i < |ps| && ps[i].id == patientId && UniqueKeys(ps, PatientKey)
    ensures var ps' := ps[..i] + ps[i + 1..];
      && UniqueKeys(ps', PatientKey)
      && forall k :: 0 <= k < |ps'| ==> ps'[k].id != patientId
  {
    var ps' := ps[..i] + ps[i + 1..];
    forall a, b | 0 <= a < b < |ps'| ensures ps'[a].id != ps'[b].id {
      var a' := if a < i then a else a + 1;
      var b' := if b < i then b else b + 1;
      assert ps'[a] == ps[a'] && ps'[b] == ps[b'];
    }
    forall k | 0 <= k < |ps'| ensures ps'[k].id != patientId {
      var k' := if k < i then k else k + 1;
      assert ps'[k] == ps[k'];
    }
  }

  /** The rows of the table a filtered row can be: one of them, at a position. */
  lemma FilterMember(ss: seq<DischargeSummary>, p: DischargeSummary -> bool, k: nat)
    requires k < |Filter(ss, p)|
    ensures exists j :: 0 <= j < |ss| && ss[j] == Filter(ss, p)[k]
  {
    var x := Filter(ss, p)[k];
    assert x in ss;
  }

  lemma SummaryTail(ss: seq<DischargeSummary>)
    requires ss != []
    ensures UniqueKeys(ss, SummaryKey) ==> UniqueKeys(ss[1..], SummaryKey)
    ensures AtMostOnePending(ss) ==> AtMostOnePending(ss[1..])
  {
    var t := ss[1..];
    assert forall a :: 0 <= a < |t| ==> t[a] == ss[a + 1];
  }

  lemma SummaryCons(h: DischargeSummary, t: seq<DischargeSummary>)
    ensures UniqueKeys(t, SummaryKey) && (forall k :: 0 <= k < |t| ==> h.id != t[k].id)
      ==> UniqueKeys([h] + t, SummaryKey)
    ensures AtMostOnePending(t)
      && (forall k :: 0 <= k < |t| && t[k].patientId == h.patientId ==> h.approved || t[k].approved)
      ==> AtMostOnePending([h] + t)
  {
    var r := [h] + t;
    assert forall a :: 0 < a < |r| ==> r[a] == t[a - 1];
  }

  /** Removing summaries keeps their ids distinct and one pending summary per patient. */
  lemma {:induction false} FilterKeepsUnique(ss: seq<DischargeSummary>, p: DischargeSummary -> bool)
    requires UniqueKeys(ss, SummaryKey)
    ensures UniqueKeys(Filter(ss, p), SummaryKey)
    decreases |ss|
  {
    if ss != [] {
      var rest := Filter(ss[1..], p);
      SummaryTail(ss);
      FilterKeepsUnique(ss[1..], p);
      if p(ss[0]) {
        assert Filter(ss, p) == [ss[0]] + rest;
        forall k | 0 <= k < |rest| ensures ss[0].id != rest[k].id {
          FilterMember(ss[1..], p, k);
          var j :| 0 <= j < |ss[1..]| && ss[1..][j] == rest[k];
          assert ss[j + 1] == rest[k];
          assert SummaryKey(ss[0]) != SummaryKey(ss[j + 1]);
        }
        SummaryCons(ss[0], rest);
      } else {
        assert Filter(ss, p) == rest;
      }
    }
  }

  lemma {:induction false} FilterKeepsOnePending(ss: seq<DischargeSummary>, p: DischargeSummary -> bool)
    requires AtMostOnePending(ss)
    ensures AtMostOnePending(Filter(ss, p))
    decreases |ss|
  {
    if ss != [] {
      var rest := Filter(ss[1..], p);
      SummaryTail(ss);
      FilterKeepsOnePending(ss[1..], p);
      if p(ss[0]) {
        assert Filter(ss, p) == [ss[0]] + rest;
        forall k | 0 <= k < |rest| && rest[k].patientId == ss[0].patientId
          ensures ss[0].approved || rest[k].approved
        {
          FilterMember(ss[1..], p, k);
          var j :| 0 <= j < |ss[1..]| && ss[1..][j] == rest[k];
          assert ss[j + 1] == rest[k];
        }
        SummaryCons(ss[0], rest);
      } else {
        assert Filter(ss, p) == rest;
      }
    }
  }
}
