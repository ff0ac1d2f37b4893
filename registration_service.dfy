/** The registration lifecycle: submission for an event, the review that
    moves a pending registration to approved or rejected, and the unguarded
    status update. The registration table is a sequence of rows; its two
    uniqueness rules (the primary key, and one registration per national ID
    and event) are stated by `RegistrationTable.Valid` and proved to hold
    after every operation. */
module RegistrationService {
  import opened Base
  import opened Models

  const EventNotFound := "Event not found"
  const AlreadyRegistered := "Already registered for this event"
  const RegistrationNotFound := "Registration not found"
  const NotPending := "Registration is not in pending status"
  const AdminNotFound := "Admin not found"

  /** The fields a registrant submits. */
  datatype RegistrationData = RegistrationData(
    fullName: string, phoneNumber: string, nationalId: string,
    email: Option<string>, organization: Option<string>)

  /** What a successful review asks the badge and SMS services to do. */
  datatype Effect =
    | BadgeRequested(registrationId: string)
    | SmsRequested(registrationId: string, kind: string, badgeId: Option<string>)

  /** The outcome of an operation together with the table it leaves behind. */
  datatype RegStep<T> = RegStep(result: Result<T>, rows: seq<Registration>)

  predicate IdsUnique(rows: seq<Registration>)
  {
    forall i, j :: 0 <= i < j < |rows| ==> rows[i].registrationId != rows[j].registrationId
  }

  predicate IdUnused(rows: seq<Registration>, id: string)
  {
    forall i :: 0 <= i < |rows| ==> rows[i].registrationId != id
  }

  /** At most one registration per (event, national ID). */
  predicate OnePerNationalId(rows: seq<Registration>)
  {
    forall i, j :: 0 <= i < j < |rows| && rows[i].eventId.Some? ==>
      !(rows[j].eventId == rows[i].eventId && rows[j].nationalId == rows[i].nationalId)
  }

  function FindById(rows: seq<Registration>, registrationId: string): (r: Option<nat>)
    ensures r.Some? ==> r.value < |rows| && rows[r.value].registrationId == registrationId
    ensures r.Some? ==> forall i :: 0 <= i < r.value ==> rows[i].registrationId != registrationId
    ensures r.None? <==> IdUnused(rows, registrationId)
  {
    FirstIndex(rows, (g: Registration) => g.registrationId == registrationId)
  }

  /** The registration of `nationalId` for `eventId`, if any. */
  function FindDuplicate(rows: seq<Registration>, eventId: string, nationalId: string): (r: Option<nat>)
    ensures r.Some? ==> r.value < |rows| && rows[r.value].eventId == Some(eventId) && rows[r.value].nationalId == nationalId
    ensures r.None? <==> forall i :: 0 <= i < |rows| ==> !(rows[i].eventId == Some(eventId) && rows[i].nationalId == nationalId)
  {
    FirstIndex(rows, (g: Registration) => g.eventId == Some(eventId) && g.nationalId == nationalId)
  }

  /** `registerForEvent`; `freshId` and `now` are the generated key and the
      column default for the registration date. */
  function Register(rows: seq<Registration>, events: set<string>, eventId: string, data: RegistrationData,
                    now: int, freshId: string): (s: RegStep<Registration>)
    ensures s.result.Err? ==> s.rows == rows
    ensures s.result.Ok? ==> s.rows == rows + [s.result.value]
  {
    if eventId !in events then RegStep(Err(EventNotFound), rows)
    else if FindDuplicate(rows, eventId, data.nationalId).Some? then RegStep(Err(AlreadyRegistered), rows)
    else
      var g := Registration(freshId, Some(eventId), Pending, data.fullName, data.phoneNumber, data.nationalId,
                            data.email, data.organization, now, None, None, None);
      RegStep(Ok(g), rows + [g])
  }

  /** The existence of the event is checked first, then duplicates; a new
      registration is pending, for that event, with the submitted fields, and
      is the only row added. */
  lemma RegisterOutcome(rows: seq<Registration>, events: set<string>, eventId: string, data: RegistrationData,
                        now: int, freshId: string)
    ensures var s := Register(rows, events, eventId, data, now, freshId);
      (eventId !in events ==> s == RegStep(Err(EventNotFound), rows))
      && (eventId in events ==>
            (s.result == Err(AlreadyRegistered) <==>
               exists i :: 0 <= i < |rows| && rows[i].eventId == Some(eventId) && rows[i].nationalId == data.nationalId))
      && (s.result.Ok? ==>
            var g := s.result.value;
            g.status == Pending && g.eventId == Some(eventId) && g.registrationId == freshId
            && g.fullName == data.fullName && g.phoneNumber == data.phoneNumber && g.nationalId == data.nationalId
            && g.email == data.email && g.organization == data.organization
            && g.approvalDate.None? && g.approvedBy.None? && g.adminId.None?)
  {
    if eventId in events {
      var d := FindDuplicate(rows, eventId, data.nationalId);
      if d.Some? {
        assert rows[d.value].eventId == Some(eventId) && rows[d.value].nationalId == data.nationalId;
      }
    }
  }

  /** Sequential submissions never register one national ID twice for one event. */
  lemma RegisterKeepsUnique(rows: seq<Registration>, events: set<string>, eventId: string, data: RegistrationData,
                            now: int, freshId: string)
    requires IdsUnique(rows) && OnePerNationalId(rows) && IdUnused(rows, freshId)
    ensures IdsUnique(Register(rows, events, eventId, data, now, freshId).rows)
    ensures OnePerNationalId(Register(rows, events, eventId, data, now, freshId).rows)
  {
  }

  /** The guards of a review, in order: the registration exists, it is
      pending, the admin exists. On success, the index of the row. */
  function ReviewGuard(rows: seq<Registration>, registrationId: string, adminId: string, admins: set<string>): (r: Result<nat>)
    ensures r.Ok? ==> r.value < |rows| && FindById(rows, registrationId) == Some(r.value)
    ensures r == Err(RegistrationNotFound) <==> IdUnused(rows, registrationId)
    ensures r == Err(NotPending) <==> FindById(rows, registrationId).Some? && rows[FindById(rows, registrationId).value].status != Pending
    ensures r.Ok? <==> FindById(rows, registrationId).Some? && rows[FindById(rows, registrationId).value].status == Pending && adminId in admins
  {
    match FindById(rows, registrationId)
    case None => Err(RegistrationNotFound)
    case Some(k) =>
      if rows[k].status != Pending then Err(NotPending)
      else if adminId !in admins then Err(AdminNotFound)
      else Ok(k)
  }

  /** The fields a review assigns before saving. */
  function Reviewed(g: Registration, decision: string, adminId: string, now: int): Registration
  {
    g.(status := decision, approvalDate := Some(now), approvedBy := Some(adminId), adminId := Some(adminId))
  }

  /** The saved state after a review deciding `decision` ("approved" or
      "rejected"). The save happens before any badge or SMS work, so a later
      failure of that work does not undo it. */
  function Review(rows: seq<Registration>, registrationId: string, adminId: string, admins: set<string>,
                  decision: string, now: int): (s: RegStep<Registration>)
    ensures s.result.Err? ==> s.rows == rows
    ensures |s.rows| == |rows|
  {
    match ReviewGuard(rows, registrationId, adminId, admins)
    case Err(e) => RegStep(Err(e), rows)
    case Ok(k) =>
      var g := Reviewed(rows[k], decision, adminId, now);
      RegStep(Ok(g), rows[k := g])
  }

  /** A successful review changes exactly one row, the reviewed one: its
      status becomes the decision, and the approver and date are recorded. */
  lemma ReviewEffect(rows: seq<Registration>, registrationId: string, adminId: string, admins: set<string>,
                     decision: string, now: int)
    requires IdsUnique(rows)
    ensures var s := Review(rows, registrationId, adminId, admins, decision, now);
      s.result.Ok? ==>
        (forall i :: 0 <= i < |rows| && rows[i].registrationId != registrationId ==> s.rows[i] == rows[i])
        && (forall i :: 0 <= i < |rows| && rows[i].registrationId == registrationId ==>
              s.rows[i].status == decision && s.rows[i].approvedBy == Some(adminId)
              && s.rows[i].approvalDate == Some(now) && s.rows[i].adminId == Some(adminId)
              && s.rows[i].fullName == rows[i].fullName && s.rows[i].nationalId == rows[i].nationalId
              && s.rows[i].eventId == rows[i].eventId && rows[i].status == Pending)
  {
  }

  /** Approved and rejected are terminal: from either, both decisions fail
      with "not in pending status" and write nothing. */
  lemma {:induction false} ReviewedIsTerminal(rows: seq<Registration>, registrationId: string, adminId: string,
                                              admins: set<string>, now: int, adminId2: string, decision2: string, now2: int)
    ensures forall decision :: decision in {Approved, Rejected} ==>
      var first := Review(rows, registrationId, adminId, admins, decision, now);
      first.result.Ok? ==>
        Review(first.rows, registrationId, adminId2, admins, decision2, now2) == RegStep(Err(NotPending), first.rows)
  {
    forall decision | decision in {Approved, Rejected}
      ensures var first := Review(rows, registrationId, adminId, admins, decision, now);
        first.result.Ok? ==>
          Review(first.rows, registrationId, adminId2, admins, decision2, now2) == RegStep(Err(NotPending), first.rows)
    {
      var first := Review(rows, registrationId, adminId, admins, decision, now);
      if first.result.Ok? {
        var k := FindById(rows, registrationId).value;
        assert forall i :: 0 <= i < k ==> first.rows[i] == rows[i];
        assert first.rows[k].registrationId == registrationId;
        var j := FindById(first.rows, registrationId);
        assert j == Some(k) by {
          if j.None? || j.value < k || j.value > k {
            assert false;
          }
        }
        assert first.rows[k].status == decision;
      }
    }
  }

  /** `updateRegistrationStatus`: every row with that key gets the status,
      with no pending check. */
  function SetStatus(rows: seq<Registration>, registrationId: string, status: string): (r: seq<Registration>)
    ensures |r| == |rows|
    ensures forall i :: 0 <= i < |rows| ==>
      r[i] == if rows[i].registrationId == registrationId then rows[i].(status := status) else rows[i]
  {
    if rows == [] then []
    else [if rows[0].registrationId == registrationId then rows[0].(status := status) else rows[0]]
         + SetStatus(rows[1..], registrationId, status)
  }

  /** A status update changes no key: the unique ids and the one registration
      per national ID and event survive it, and the same ids exist. */
  lemma SetStatusKeepsKeys(rows: seq<Registration>, registrationId: string, status: string)
    ensures var r := SetStatus(rows, registrationId, status);
      (IdsUnique(rows) ==> IdsUnique(r))
      && (OnePerNationalId(rows) ==> OnePerNationalId(r))
      && (IdUnused(r, registrationId) <==> IdUnused(rows, registrationId))
  {
    var r := SetStatus(rows, registrationId, status);
    assert forall i :: 0 <= i < |rows| ==>
      r[i].registrationId == rows[i].registrationId && r[i].eventId == rows[i].eventId
      && r[i].nationalId == rows[i].nationalId;
  }

  /** The bypass re-opens a decided registration: after it writes "pending",
      a review passes the guards again (given an existing admin). */
  lemma BypassReopens(rows: seq<Registration>, registrationId: string, adminId: string, admins: set<string>,
                      decision: string, now: int)
    requires !IdUnused(rows, registrationId) && adminId in admins
    ensures Review(SetStatus(rows, registrationId, Pending), registrationId, adminId, admins, decision, now).result.Ok?
  {
    var s := SetStatus(rows, registrationId, Pending);
    var k := FindById(s, registrationId);
    assert k.Some?;
  }

  /** The registration table. */
  class RegistrationTable {
    var rows: seq<Registration>

    ghost predicate Valid()
      reads this
    {
      IdsUnique(rows) && OnePerNationalId(rows)
    }

    constructor ()
      ensures Valid() && rows == []
    {
      rows := [];
    }

    /** `registerForEvent`. */
    method RegisterForEvent(events: set<string>, eventId: string, data: RegistrationData, now: int, freshId: string)
      returns (r: Result<Registration>)
      requires Valid() && IdUnused(rows, freshId)
      modifies this
      ensures Valid()
      ensures RegStep(r, rows) == Register(old(rows), events, eventId, data, now, freshId)
    {
      RegisterKeepsUnique(rows, events, eventId, data, now, freshId);
      if eventId !in events {
        return Err(EventNotFound);
      }
      var existing := FindDuplicate(rows, eventId, data.nationalId);
      if existing.Some? {
        return Err(AlreadyRegistered);
      }
      var g := Registration(freshId, Some(eventId), Pending, data.fullName, data.phoneNumber, data.nationalId,
                            data.email, data.organization, now, None, None, None);
      rows := rows + [g];
      r := Ok(g);
    }

    /** The guarded part of `approveRegistration` and `rejectRegistration`:
        the checks and the in-place update of the fetched row, then the save. */
    method Decide(registrationId: string, adminId: string, admins: set<string>, decision: string, now: int)
      returns (r: Result<Registration>)
      requires Valid()
      modifies this
      ensures Valid()
      ensures RegStep(r, rows) == Review(old(rows), registrationId, adminId, admins, decision, now)
    {
      var found := FindById(rows, registrationId);
      if found.None? {
        return Err(RegistrationNotFound);
      }
      var g := rows[found.value];
      if g.status != Pending {
        return Err(NotPending);
      }
      if adminId !in admins {
        return Err(AdminNotFound);
      }
      g := g.(status := decision);
      g := g.(approvalDate := Some(now));
      g := g.(approvedBy := Some(adminId));
      g := g.(adminId := Some(adminId));
      rows := rows[found.value := g];
      r := Ok(g);
    }

    /** `approveRegistration`. `badge` is what `generateBadge` returns or
        throws; `smsError` is the error the SMS call throws, if any. */
    method ApproveRegistration(registrationId: string, adminId: string, admins: set<string>, now: int,
                               badge: Result<string>, smsError: Option<string>)
      returns (r: Result<Registration>, effects: seq<Effect>)
      requires Valid()
      modifies this
      ensures Valid()
      ensures rows == Review(old(rows), registrationId, adminId, admins, Approved, now).rows
      ensures var saved := Review(old(rows), registrationId, adminId, admins, Approved, now).result;
        (saved.Err? ==> r == saved && effects == [])
        && (saved.Ok? ==>
              effects == [BadgeRequested(registrationId)]
                         + (if badge.Ok? then [SmsRequested(registrationId, Approved, Some(badge.value))] else [])
              && r == (if badge.Err? then Err(badge.error)
                       else if smsError.Some? then Err(smsError.value)
                       else saved))
    {
      r := Decide(registrationId, adminId, admins, Approved, now);
      if r.Err? {
        return r, [];
      }
      effects := [BadgeRequested(registrationId)];
      if badge.Err? {
        return Err(badge.error), effects;
      }
      effects := effects + [SmsRequested(registrationId, Approved, Some(badge.value))];
      if smsError.Some? {
        return Err(smsError.value), effects;
      }
    }

    /** `rejectRegistration`: the same guards; an SMS and no badge. */
    method RejectRegistration(registrationId: string, adminId: string, admins: set<string>, now: int,
                              smsError: Option<string>)
      returns (r: Result<Registration>, effects: seq<Effect>)
      requires Valid()
      modifies this
      ensures Valid()
      ensures rows == Review(old(rows), registrationId, adminId, admins, Rejected, now).rows
      ensures var saved := Review(old(rows), registrationId, adminId, admins, Rejected, now).result;
        (saved.Err? ==> r == saved && effects == [])
        && (saved.Ok? ==>
              effects == [SmsRequested(registrationId, Rejected, None)]
              && r == (if smsError.Some? then Err(smsError.value) else saved))
    {
      r := Decide(registrationId, adminId, admins, Rejected, now);
      if r.Err? {
        return r, [];
      }
      effects := [SmsRequested(registrationId, Rejected, None)];
      if smsError.Some? {
        return Err(smsError.value), effects;
      }
    }

    /** `updateRegistrationStatus`: writes the status, then reads the row back
        (`None` when there is no such registration). */
    method UpdateRegistrationStatus(registrationId: string, status: string) returns (r: Option<Registration>)
      requires Valid()
      modifies this
      ensures Valid()
      ensures rows == SetStatus(old(rows), registrationId, status)
      ensures r.None? <==> IdUnused(old(rows), registrationId)
      ensures r.Some? ==> r.value.registrationId == registrationId && r.value.status == status
    {
      SetStatusKeepsKeys(rows, registrationId, status);
      rows := SetStatus(rows, registrationId, status);
      var found := FindById(rows, registrationId);
      r := if found.Some? then Some(rows[found.value]) else None;
    }
  }
}
