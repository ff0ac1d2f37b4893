/** The staff badge-scan path: check-in by registration ID, which, unlike the
    QR reconciler, demands an approved registration and refuses a second
    check-in; and the staff listing of an event's scanned attendees. */
module StaffController {
  import opened Base
  import opened Models
  import AS = AttendanceService
  import opened AttendanceController

  const RegistrationNotFound := "Registration not found"
  const NotApproved := "Registration is not approved"
  const AlreadyCheckedIn := "Attendee already checked in"
  const InternalError := "Internal server error"

  /** Any attendance row of the registration, for whatever event. */
  function FindByRegistration(rows: seq<Attendance>, registrationId: string): (r: Option<nat>)
    ensures r.Some? ==> r.value < |rows| && rows[r.value].registrationId == registrationId
    ensures r.None? <==> forall i :: 0 <= i < |rows| ==> rows[i].registrationId != registrationId
  {
    FirstIndex(rows, (a: Attendance) => a.registrationId == registrationId)
  }

  /** `scanBadge`. A registration whose event relation is null makes the
      source read a property of null, which its catch block answers with 500. */
  function StaffScan(rows: seq<Attendance>, regs: seq<Registration>, registrationId: string, now: int,
                     freshId: string): (h: Handled<Attendance>)
    ensures h.reply.Fail? ==> h.rows == rows
    ensures h.reply.Done? ==> h.reply.status == 200 && h.rows == rows + [h.reply.body]
  {
    match AS.FindRegistration(regs, registrationId)
    case None => Handled(Fail(404, RegistrationNotFound), rows)
    case Some(g) =>
      if g.status != Approved then Handled(Fail(400, NotApproved), rows)
      else if FindByRegistration(rows, registrationId).Some? then Handled(Fail(400, AlreadyCheckedIn), rows)
      else if g.eventId.None? then Handled(Fail(500, InternalError), rows)
      else
        var a := Attendance(freshId, g.fullName, now, None, None, registrationId, g.eventId.value,
                            Some(g.nationalId), Some(g.phoneNumber), g.email, g.organization);
        Handled(Done(200, a), rows + [a])
  }

  /** The guards in order, and the copied fields of the one row added. */
  lemma StaffScanOutcome(rows: seq<Attendance>, regs: seq<Registration>, registrationId: string, now: int, freshId: string)
    ensures var h := StaffScan(rows, regs, registrationId, now, freshId);
      var g := AS.FindRegistration(regs, registrationId);
      (g.None? ==> h.reply == Fail(404, RegistrationNotFound))
      && (g.Some? && g.value.status != Approved ==> h.reply == Fail(400, NotApproved))
      && (g.Some? && g.value.status == Approved ==>
            ((exists i :: 0 <= i < |rows| && rows[i].registrationId == registrationId) ==> h.reply == Fail(400, AlreadyCheckedIn)))
      && (g.Some? && g.value.status == Approved && (forall i :: 0 <= i < |rows| ==> rows[i].registrationId != registrationId) ==>
            (g.value.eventId.None? ==> h.reply == Fail(500, InternalError))
            && (g.value.eventId.Some? ==> h.reply.Done?))
      && (h.reply.Done? ==>
            var a := h.reply.body;
            g.Some? && g.value.status == Approved && g.value.eventId == Some(a.eventId)
            && a.registrationId == registrationId && a.attendanceId == freshId && a.checkInTime == now
            && a.fullName == g.value.fullName && a.nationalId == Some(g.value.nationalId)
            && a.phoneNumber == Some(g.value.phoneNumber) && a.email == g.value.email
            && a.organization == g.value.organization
            && a.bankAccountNumber.None? && a.bankName.None?)
  {
    var g := AS.FindRegistration(regs, registrationId);
    if g.Some? && g.value.status == Approved {
      var f := FindByRegistration(rows, registrationId);
      if exists i :: 0 <= i < |rows| && rows[i].registrationId == registrationId {
        assert f.Some?;
      }
    }
  }

  /** The status test is exact: "Approved" or "APPROVED" is refused here,
      although the badge handlers accept them. */
  lemma StaffScanIsCaseSensitive(rows: seq<Attendance>, g: Registration, now: int, freshId: string)
    requires g.status == "Approved"
    ensures StaffScan(rows, [g], g.registrationId, now, freshId).reply == Fail(400, NotApproved)
  {
    assert AS.FindRegistration([g], g.registrationId) == Some(g);
  }

  /** Unlike the QR reconciler, a second staff scan of the same registration
      is an error, not an idempotent success. */
  lemma {:induction false} StaffRescanRefused(rows: seq<Attendance>, regs: seq<Registration>, registrationId: string,
                                              now: int, freshId: string, now2: int, freshId2: string)
    requires StaffScan(rows, regs, registrationId, now, freshId).reply.Done?
    ensures var first := StaffScan(rows, regs, registrationId, now, freshId);
      StaffScan(first.rows, regs, registrationId, now2, freshId2) == Handled(Fail(400, AlreadyCheckedIn), first.rows)
  {
    var first := StaffScan(rows, regs, registrationId, now, freshId);
    assert first.rows[|rows|].registrationId == registrationId;
    assert FindByRegistration(first.rows, registrationId).Some?;
  }

  /** A staff check-in keeps the attendance table's unique keys. */
  lemma StaffScanKeepsKeys(rows: seq<Attendance>, regs: seq<Registration>, registrationId: string, now: int, freshId: string)
    requires AS.KeysUnique(rows) && AS.IdsUnique(rows) && AS.IdUnused(rows, freshId)
    ensures AS.KeysUnique(StaffScan(rows, regs, registrationId, now, freshId).rows)
    ensures AS.IdsUnique(StaffScan(rows, regs, registrationId, now, freshId).rows)
  {
  }

  /** `scanBadge` against the attendance table. */
  method ScanBadge(table: AS.AttendanceTable, regs: seq<Registration>, registrationId: string, now: int, freshId: string)
    returns (reply: Reply<Attendance>)
    requires table.Valid() && AS.IdUnused(table.rows, freshId)
    modifies table
    ensures table.Valid()
    ensures Handled(reply, table.rows) == StaffScan(old(table.rows), regs, registrationId, now, freshId)
  {
    StaffScanKeepsKeys(table.rows, regs, registrationId, now, freshId);
    var found := AS.FindRegistration(regs, registrationId);
    if found.None? {
      return Fail(404, RegistrationNotFound);
    }
    var g := found.value;
    if g.status != Approved {
      return Fail(400, NotApproved);
    }
    var existing := FindByRegistration(table.rows, registrationId);
    if existing.Some? {
      return Fail(400, AlreadyCheckedIn);
    }
    if g.eventId.None? {
      return Fail(500, InternalError);
    }
    var a := Attendance(freshId, g.fullName, now, None, None, registrationId, g.eventId.value,
                        Some(g.nationalId), Some(g.phoneNumber), g.email, g.organization);
    table.rows := table.rows + [a];
    reply := Done(200, a);
  }

  /** `getScannedAttendees`: the event's rows, newest first. */
  function ScannedAttendees(rows: seq<Attendance>, eventId: string): (r: Reply<seq<Attendance>>)
    ensures r.Done? && r.status == 200 && AS.NewestFirst(r.body)
    ensures forall a :: multiset(r.body)[a] == if a.eventId == eventId then multiset(rows)[a] else 0
  {
    Done(200, AS.EventAttendance(rows, eventId))
  }
}
