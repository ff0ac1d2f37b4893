/** The attendance service: the QR-scan reconciler, the bank-detail update
    and the newest-first, paginated attendance listings.

    The attendance table is a sequence of rows in table order. The unique
    index on (registrationId, eventId) is not built into the type; instead,
    `AttendanceTable.Valid` states it and every method is proved to keep it.
    Each method is specified by a pure function of the old rows (`Scan`,
    `UpdateBank`), and the lemmas below are stated about those functions. */
module AttendanceService {
  import opened Base
  import opened Models
  import QrCodec

  const InvalidFormat := "Invalid QR code format"
  const MissingRegistrationId := "Missing registration ID"
  const MissingEventId := "Missing event ID"
  const MissingAttendee := "Missing attendee name"
  const Expired := "QR code has expired"
  const AlreadyCheckedIn := "Attendee already checked in"
  const RecordedFromQr := "Attendance recorded successfully (using QR data)"
  const Recorded := "Attendance recorded successfully"
  const AttendanceIdRequired := "Attendance ID is required"
  const AccountRequired := "Bank account number is required"
  const BankNameRequired := "Bank name is required"
  const AttendeeNotFound := "Attendee not found"

  /** A QR code is honoured for 24 hours after its timestamp. */
  const DayMillis := 24 * 60 * 60 * 1000

  /** The four fields the reconciler reads from a decoded QR payload. */
  datatype Payload = Payload(registrationId: string, eventId: string, attendee: string, timestamp: Option<string>)

  /** What a scan reports about the attendance row it found or created. */
  datatype AttendanceView = AttendanceView(id: string, name: string, checkInTime: int, bankAccountNumber: string, bankName: string)

  /** A successful scan. `alreadyExists` is false where the source leaves the
      property undefined. */
  datatype ScanResult = ScanResult(message: string, attendance: AttendanceView, alreadyExists: bool)

  /** The outcome of an operation together with the table it leaves behind. */
  datatype Step<T> = Step(result: Result<T>, rows: seq<Attendance>)

  /** A property read off a decoded object: absent keys are `undefined`. */
  function Field(m: map<string, string>, key: string): (r: Option<string>)
    ensures r.Some? <==> key in m
    ensures r.Some? ==> r.value == m[key]
  {
    if key in m then Some(m[key]) else None
  }

  /** Decoding and validation of a scanned payload, in the source's order:
      JSON parse, then registration ID, event ID and attendee name, each
      required to be truthy. */
  function DecodePayload(qr: string): (r: Result<Payload>)
    ensures r == Err(InvalidFormat) <==> QrCodec.Parse(qr).None?
    ensures QrCodec.Parse(qr).Some? ==>
      var m := QrCodec.Parse(qr).value;
      (r == Err(MissingRegistrationId) <==> !Truthy(Field(m, "registrationId")))
      && (r == Err(MissingEventId) <==> Truthy(Field(m, "registrationId")) && !Truthy(Field(m, "eventId")))
      && (r == Err(MissingAttendee) <==>
            Truthy(Field(m, "registrationId")) && Truthy(Field(m, "eventId")) && !Truthy(Field(m, "attendee")))
    ensures r.Ok? ==>
      QrCodec.Parse(qr).Some?
      && Field(QrCodec.Parse(qr).value, "registrationId") == Some(r.value.registrationId)
      && Field(QrCodec.Parse(qr).value, "eventId") == Some(r.value.eventId)
      && Field(QrCodec.Parse(qr).value, "attendee") == Some(r.value.attendee)
      && Field(QrCodec.Parse(qr).value, "timestamp") == r.value.timestamp
      && r.value.registrationId != "" && r.value.eventId != "" && r.value.attendee != ""
  {
    match QrCodec.Parse(qr)
    case None => Err(InvalidFormat)
    case Some(m) => PayloadOf(m)
  }

  lemma DecodeObject(qr: string, m: map<string, string>)
    requires QrCodec.Parse(qr) == Some(m)
    ensures DecodePayload(qr) == PayloadOf(m)
  {
  }

  /** The destructuring and the three required-field checks on a decoded object. */
  function PayloadOf(m: map<string, string>): (r: Result<Payload>)
  {
    var registrationId := Field(m, "registrationId");
    var eventId := Field(m, "eventId");
    var attendee := Field(m, "attendee");
    if !Truthy(registrationId) then Err(MissingRegistrationId)
    else if !Truthy(eventId) then Err(MissingEventId)
    else if !Truthy(attendee) then Err(MissingAttendee)
    else Ok(Payload(registrationId.value, eventId.value, attendee.value, Field(m, "timestamp")))
  }

  /** The expiry test. `dateMillis` is `new Date(s).getTime()`, with `None`
      for NaN; every comparison with NaN is false, so an unreadable
      timestamp never expires. */
  predicate IsExpired(timestamp: Option<string>, now: int, dateMillis: string -> Option<int>)
  {
    Truthy(timestamp)
    && dateMillis(timestamp.value).Some?
    && now - dateMillis(timestamp.value).value > DayMillis
  }

  /** A code without a timestamp, with an unreadable one, or scanned at most
      24 hours after its timestamp (exactly 24 hours included) is not expired. */
  lemma NotExpired(timestamp: Option<string>, now: int, dateMillis: string -> Option<int>)
    requires !Truthy(timestamp)
      || dateMillis(timestamp.value).None?
      || now - dateMillis(timestamp.value).value <= DayMillis
    ensures !IsExpired(timestamp, now, dateMillis)
  {
  }

  function FindByKey(rows: seq<Attendance>, registrationId: string, eventId: string): (r: Option<nat>)
    ensures r.Some? ==> r.value < |rows| && rows[r.value].registrationId == registrationId && rows[r.value].eventId == eventId
    ensures r.None? <==> forall i :: 0 <= i < |rows| ==> !(rows[i].registrationId == registrationId && rows[i].eventId == eventId)
  {
    FirstIndex(rows, (a: Attendance) => a.registrationId == registrationId && a.eventId == eventId)
  }

  function FindById(rows: seq<Attendance>, attendanceId: string): (r: Option<nat>)
    ensures r.Some? ==> r.value < |rows| && rows[r.value].attendanceId == attendanceId
    ensures r.None? <==> forall i :: 0 <= i < |rows| ==> rows[i].attendanceId != attendanceId
  {
    FirstIndex(rows, (a: Attendance) => a.attendanceId == attendanceId)
  }

  /** The registration row the scan enriches the new record from. */
  function FindRegistration(regs: seq<Registration>, registrationId: string): (r: Option<Registration>)
    ensures r.Some? ==> r.value in regs && r.value.registrationId == registrationId
    ensures r.None? <==> forall i :: 0 <= i < |regs| ==> regs[i].registrationId != registrationId
  {
    match FirstIndex(regs, (g: Registration) => g.registrationId == registrationId)
    case None => None
    case Some(k) => Some(regs[k])
  }

  /** The view of a stored row; null bank columns read as ''. */
  function View(a: Attendance): AttendanceView
  {
    AttendanceView(a.attendanceId, a.fullName, a.checkInTime, OrEmpty(a.bankAccountNumber), OrEmpty(a.bankName))
  }

  /** The row a scan inserts: from the payload alone when no registration is
      found, otherwise enriched from the registration, whose name wins over
      the payload's unless it is empty. */
  function NewRecord(p: Payload, reg: Option<Registration>, now: int, freshId: string): Attendance
  {
    match reg
    case None =>
      Attendance(freshId, p.attendee, now, Some(""), Some(""), p.registrationId, p.eventId,
                 Some(""), Some(""), Some(""), Some(""))
    case Some(g) =>
      Attendance(freshId, OrElse(g.fullName, p.attendee), now, Some(""), Some(""), p.registrationId, p.eventId,
                 Some(g.nationalId), Some(g.phoneNumber), Some(OrEmpty(g.email)), Some(OrEmpty(g.organization)))
  }

  /** One scan of `qr` at time `now` against the attendance rows and the
      registrations; `freshId` is the id the database generates for an
      inserted row. */
  function Scan(rows: seq<Attendance>, regs: seq<Registration>, qr: string, now: int,
                dateMillis: string -> Option<int>, freshId: string): (s: Step<ScanResult>)
    ensures s.result.Err? ==> s.rows == rows
    ensures |rows| <= |s.rows| <= |rows| + 1 && s.rows[..|rows|] == rows
  {
    match DecodePayload(qr)
    case Err(e) => Step(Err(e), rows)
    case Ok(p) =>
      if IsExpired(p.timestamp, now, dateMillis) then Step(Err(Expired), rows)
      else
        match FindByKey(rows, p.registrationId, p.eventId)
        case Some(k) => Step(Ok(ScanResult(AlreadyCheckedIn, View(rows[k]), true)), rows)
        case None =>
          var reg := FindRegistration(regs, p.registrationId);
          var rec := NewRecord(p, reg, now, freshId);
          Step(Ok(ScanResult(if reg.None? then RecordedFromQr else Recorded, View(rec), false)), rows + [rec])
  }

  /** Every rejection of the payload (parse, the three required fields, expiry)
      happens before the table is read and writes nothing. */
  lemma ScanRejects(rows: seq<Attendance>, regs: seq<Registration>, qr: string, now: int,
                    dateMillis: string -> Option<int>, freshId: string)
    ensures var s := Scan(rows, regs, qr, now, dateMillis, freshId);
      (DecodePayload(qr).Err? ==> s == Step(Err(DecodePayload(qr).error), rows))
      && (DecodePayload(qr).Ok? && IsExpired(DecodePayload(qr).value.timestamp, now, dateMillis) ==>
            s == Step(Err(Expired), rows))
      && (s.result.Err? ==> s.result.error in {InvalidFormat, MissingRegistrationId, MissingEventId, MissingAttendee, Expired})
  {
  }

  /** A scan whose key is already present returns that row, marked as
      already existing, and leaves the table as it was. */
  lemma ScanExisting(rows: seq<Attendance>, regs: seq<Registration>, qr: string, now: int,
                     dateMillis: string -> Option<int>, freshId: string, p: Payload, k: nat)
    requires DecodePayload(qr) == Ok(p) && !IsExpired(p.timestamp, now, dateMillis)
    requires KeysUnique(rows)
    requires k < |rows| && rows[k].registrationId == p.registrationId && rows[k].eventId == p.eventId
    ensures Scan(rows, regs, qr, now, dateMillis, freshId) == Step(Ok(ScanResult(AlreadyCheckedIn, View(rows[k]), true)), rows)
  {
    var f := FindByKey(rows, p.registrationId, p.eventId);
    assert f == Some(k) by {
      if f.Some? && f.value != k {
        assert false;
      }
    }
  }

  /** A valid payload whose key is absent adds exactly one row, carrying the
      payload's key, the scan time and the fresh id, and reports it. */
  lemma ScanInserts(rows: seq<Attendance>, regs: seq<Registration>, qr: string, now: int,
                    dateMillis: string -> Option<int>, freshId: string, p: Payload)
    requires DecodePayload(qr) == Ok(p) && !IsExpired(p.timestamp, now, dateMillis)
    requires forall i :: 0 <= i < |rows| ==> !(rows[i].registrationId == p.registrationId && rows[i].eventId == p.eventId)
    ensures var s := Scan(rows, regs, qr, now, dateMillis, freshId);
      |s.rows| == |rows| + 1 && s.rows[..|rows|] == rows
      && s.rows[|rows|].registrationId == p.registrationId && s.rows[|rows|].eventId == p.eventId
      && s.rows[|rows|].attendanceId == freshId && s.rows[|rows|].checkInTime == now
      && s.result.Ok? && !s.result.value.alreadyExists
      && s.result.value.attendance == AttendanceView(freshId, s.rows[|rows|].fullName, now, "", "")
  {
  }

  /** Where the new row's personal fields come from: the payload's attendee
      name and empty strings when no registration exists; the registration's
      columns, and its name in preference to the payload's, when one does. */
  lemma ScanFieldSources(rows: seq<Attendance>, regs: seq<Registration>, qr: string, now: int,
                         dateMillis: string -> Option<int>, freshId: string, p: Payload)
    requires DecodePayload(qr) == Ok(p) && !IsExpired(p.timestamp, now, dateMillis)
    requires FindByKey(rows, p.registrationId, p.eventId).None?
    ensures var s := Scan(rows, regs, qr, now, dateMillis, freshId);
      var a := s.rows[|rows|];
      (FindRegistration(regs, p.registrationId).None? ==>
         a.fullName == p.attendee && a.nationalId == Some("") && a.phoneNumber == Some("")
         && a.email == Some("") && a.organization == Some("")
         && s.result.value.message == RecordedFromQr)
      && (FindRegistration(regs, p.registrationId).Some? ==>
         var g := FindRegistration(regs, p.registrationId).value;
         (g.fullName != "" ==> a.fullName == g.fullName)
         && (g.fullName == "" ==> a.fullName == p.attendee)
         && a.nationalId == Some(g.nationalId) && a.phoneNumber == Some(g.phoneNumber)
         && a.email == Some(OrEmpty(g.email)) && a.organization == Some(OrEmpty(g.organization))
         && s.result.value.message == Recorded)
      && a.bankAccountNumber == Some("") && a.bankName == Some("")
  {
  }

  /** No two rows share a (registrationId, eventId) key: the unique index. */
  predicate KeysUnique(rows: seq<Attendance>)
  {
    forall i, j :: 0 <= i < j < |rows| ==>
      !(rows[i].registrationId == rows[j].registrationId && rows[i].eventId == rows[j].eventId)
  }

  /** No two rows share an attendance id: the primary key. */
  predicate IdsUnique(rows: seq<Attendance>)
  {
    forall i, j :: 0 <= i < j < |rows| ==> rows[i].attendanceId != rows[j].attendanceId
  }

  predicate IdUnused(rows: seq<Attendance>, id: string)
  {
    forall i :: 0 <= i < |rows| ==> rows[i].attendanceId != id
  }

  /** Sequential scans never put two rows under one key, nor two rows under
      one id when the generated id is new. */
  lemma ScanKeepsKeys(rows: seq<Attendance>, regs: seq<Registration>, qr: string, now: int,
                      dateMillis: string -> Option<int>, freshId: string)
    requires KeysUnique(rows) && IdsUnique(rows) && IdUnused(rows, freshId)
    ensures KeysUnique(Scan(rows, regs, qr, now, dateMillis, freshId).rows)
    ensures IdsUnique(Scan(rows, regs, qr, now, dateMillis, freshId).rows)
  {
  }

  /** Scanning again a code that was accepted returns the very attendance the
      first scan reported (same id, name and check-in time), marks it as
      already existing, and writes nothing. The second code needs only the
      same key and must not have expired. */
  lemma {:induction false} RescanIsIdempotent(rows: seq<Attendance>, regs: seq<Registration>, qr: string, now: int,
                                              regs2: seq<Registration>, qr2: string, now2: int,
                                              dateMillis: string -> Option<int>, freshId: string, freshId2: string)
    requires Scan(rows, regs, qr, now, dateMillis, freshId).result.Ok?
    requires DecodePayload(qr2).Ok? && DecodePayload(qr).Ok?
    requires DecodePayload(qr2).value.registrationId == DecodePayload(qr).value.registrationId
    requires DecodePayload(qr2).value.eventId == DecodePayload(qr).value.eventId
    requires !IsExpired(DecodePayload(qr2).value.timestamp, now2, dateMillis)
    ensures var first := Scan(rows, regs, qr, now, dateMillis, freshId);
      var second := Scan(first.rows, regs2, qr2, now2, dateMillis, freshId2);
      second.rows == first.rows
      && second.result == Ok(ScanResult(AlreadyCheckedIn, first.result.value.attendance, true))
  {
    var first := Scan(rows, regs, qr, now, dateMillis, freshId);
    var p := DecodePayload(qr).value;
    var p2 := DecodePayload(qr2).value;
    match FindByKey(rows, p.registrationId, p.eventId)
    case Some(k) =>
      assert first == Step(Ok(ScanResult(AlreadyCheckedIn, View(rows[k]), true)), rows);
      ScanHit(rows, regs2, qr2, now2, dateMillis, freshId2, p2, k);
    case None =>
      var rec := NewRecord(p, FindRegistration(regs, p.registrationId), now, freshId);
      assert first.rows == rows + [rec] && first.result.value.attendance == View(rec);
      FindAppended(rows, rec, p.registrationId, p.eventId);
      ScanHit(first.rows, regs2, qr2, now2, dateMillis, freshId2, p2, |rows|);
  }

  /** A scan that finds its key at `k` reports that row and writes nothing. */
  lemma ScanHit(rows: seq<Attendance>, regs: seq<Registration>, qr: string, now: int,
                dateMillis: string -> Option<int>, freshId: string, p: Payload, k: nat)
    requires DecodePayload(qr) == Ok(p) && !IsExpired(p.timestamp, now, dateMillis)
    requires FindByKey(rows, p.registrationId, p.eventId) == Some(k)
    ensures Scan(rows, regs, qr, now, dateMillis, freshId) == Step(Ok(ScanResult(AlreadyCheckedIn, View(rows[k]), true)), rows)
  {
  }

  /** A key absent from `rows` is found at the row appended under it. */
  lemma FindAppended(rows: seq<Attendance>, rec: Attendance, registrationId: string, eventId: string)
    requires FindByKey(rows, registrationId, eventId).None?
    requires rec.registrationId == registrationId && rec.eventId == eventId
    ensures FindByKey(rows + [rec], registrationId, eventId) == Some(|rows|)
  {
    var s := rows + [rec];
    var f := FindByKey(s, registrationId, eventId);
    assert s[|rows|] == rec;
    assert forall i :: 0 <= i < |rows| ==> s[i] == rows[i];
    assert f.Some?;
    if f.value < |rows| {
      assert false;
    }
  }

  /** The bank-detail update: the three inputs are required in order; the
      row with that id gets the new account number and bank name. */
  function UpdateBank(rows: seq<Attendance>, attendanceId: string, account: string, bankName: string): (s: Step<AttendanceView>)
    ensures s.result.Err? ==> s.rows == rows
  {
    if attendanceId == "" then Step(Err(AttendanceIdRequired), rows)
    else if account == "" then Step(Err(AccountRequired), rows)
    else if bankName == "" then Step(Err(BankNameRequired), rows)
    else
      match FindById(rows, attendanceId)
      case None => Step(Err(AttendeeNotFound), rows)
      case Some(k) =>
        var a := rows[k].(bankAccountNumber := Some(account), bankName := Some(bankName));
        Step(Ok(AttendanceView(a.attendanceId, a.fullName, a.checkInTime, account, bankName)), rows[k := a])
  }

  /** The update's error cases, in order, and on success: only the bank
      columns of the one row with that id change. */
  lemma UpdateBankEffect(rows: seq<Attendance>, attendanceId: string, account: string, bankName: string)
    requires IdsUnique(rows)
    ensures var s := UpdateBank(rows, attendanceId, account, bankName);
      (s.result == Err(AttendanceIdRequired) <==> attendanceId == "")
      && (s.result == Err(AccountRequired) <==> attendanceId != "" && account == "")
      && (s.result == Err(BankNameRequired) <==> attendanceId != "" && account != "" && bankName == "")
      && (s.result == Err(AttendeeNotFound) <==>
            attendanceId != "" && account != "" && bankName != "" && IdUnused(rows, attendanceId))
      && (attendanceId != "" && account != "" && bankName != "" && !IdUnused(rows, attendanceId) ==> s.result.Ok?)
      && (s.result.Ok? ==>
            |s.rows| == |rows|
            && (forall i :: 0 <= i < |rows| && rows[i].attendanceId != attendanceId ==> s.rows[i] == rows[i])
            && (forall i :: 0 <= i < |rows| && rows[i].attendanceId == attendanceId ==>
                  s.rows[i] == rows[i].(bankAccountNumber := Some(account), bankName := Some(bankName)))
            && s.result.value.id == attendanceId
            && s.result.value.bankAccountNumber == account && s.result.value.bankName == bankName)
  {
  }

  /** The attendance table. */
  class AttendanceTable {
    var rows: seq<Attendance>

    ghost predicate Valid()
      reads this
    {
      KeysUnique(rows) && IdsUnique(rows)
    }

    constructor ()
      ensures Valid() && rows == []
    {
      rows := [];
    }

    /** `scanQRCode`. */
    method ScanQrCode(regs: seq<Registration>, qr: string, now: int,
                      dateMillis: string -> Option<int>, freshId: string) returns (r: Result<ScanResult>)
      requires Valid() && IdUnused(rows, freshId)
      modifies this
      ensures Valid()
      ensures Step(r, rows) == Scan(old(rows), regs, qr, now, dateMillis, freshId)
    {
      ScanKeepsKeys(rows, regs, qr, now, dateMillis, freshId);
      var decoded := DecodePayload(qr);
      if decoded.Err? {
        return Err(decoded.error);
      }
      var p := decoded.value;
      if IsExpired(p.timestamp, now, dateMillis) {
        return Err(Expired);
      }
      var existing := FindByKey(rows, p.registrationId, p.eventId);
      if existing.Some? {
        return Ok(ScanResult(AlreadyCheckedIn, View(rows[existing.value]), true));
      }
      var reg := FindRegistration(regs, p.registrationId);
      var rec := NewRecord(p, reg, now, freshId);
      rows := rows + [rec];
      r := Ok(ScanResult(if reg.None? then RecordedFromQr else Recorded, View(rec), false));
    }

    /** `updateAttendeeBank`. */
    method UpdateAttendeeBank(attendanceId: string, account: string, bankName: string) returns (r: Result<AttendanceView>)
      requires Valid()
      modifies this
      ensures Valid()
      ensures Step(r, rows) == UpdateBank(old(rows), attendanceId, account, bankName)
    {
      if attendanceId == "" {
        return Err(AttendanceIdRequired);
      }
      if account == "" {
        return Err(AccountRequired);
      }
      if bankName == "" {
        return Err(BankNameRequired);
      }
      var found := FindById(rows, attendanceId);
      if found.None? {
        return Err(AttendeeNotFound);
      }
      var a := rows[found.value].(bankAccountNumber := Some(account), bankName := Some(bankName));
      rows := rows[found.value := a];
      r := Ok(AttendanceView(a.attendanceId, a.fullName, a.checkInTime, account, bankName));
    }
  }

  // ---------------------------------------------------------------------
  // Listings

  /** Ordered by check-in time, newest first. */
  predicate NewestFirst(s: seq<Attendance>)
  {
    forall i, j :: 0 <= i < j < |s| ==> s[i].checkInTime >= s[j].checkInTime
  }

  function InsertNewestFirst(a: Attendance, s: seq<Attendance>): (r: seq<Attendance>)
    requires NewestFirst(s)
    ensures NewestFirst(r)
    ensures multiset(r) == multiset(s) + multiset{a}
    ensures r[0] == a || (s != [] && r[0] == s[0])
  {
    if s == [] then [a]
    else if a.checkInTime >= s[0].checkInTime then
      ConsNewestFirst(a, s);
      [a] + s
    else
      var rest := InsertNewestFirst(a, s[1..]);
      assert s == [s[0]] + s[1..];
      ConsNewestFirst(s[0], rest);
      [s[0]] + rest
  }

  /** A row no older than the head of a newest-first listing can go in front. */
  lemma ConsNewestFirst(a: Attendance, s: seq<Attendance>)
    requires NewestFirst(s) && (s == [] || a.checkInTime >= s[0].checkInTime)
    ensures NewestFirst([a] + s)
  {
    var r := [a] + s;
    forall i, j | 0 <= i < j < |r|
      ensures r[i].checkInTime >= r[j].checkInTime
    {
      if i == 0 {
        assert r[j] == s[j - 1];
        if j > 1 {
          assert s[0].checkInTime >= s[j - 1].checkInTime;
        }
      } else {
        assert r[i] == s[i - 1] && r[j] == s[j - 1];
      }
    }
  }

  /** `ORDER BY "checkInTime" DESC`: a newest-first permutation. */
  function OrderNewestFirst(s: seq<Attendance>): (r: seq<Attendance>)
    ensures NewestFirst(r)
    ensures multiset(r) == multiset(s)
  {
    if s == [] then []
    else
      assert s == [s[0]] + s[1..];
      InsertNewestFirst(s[0], OrderNewestFirst(s[1..]))
  }

  /** `WHERE "eventId" = $1`: the rows of one event, each as often as in the table. */
  function OfEvent(rows: seq<Attendance>, eventId: string): (r: seq<Attendance>)
    ensures |r| <= |rows|
    ensures forall i :: 0 <= i < |r| ==> r[i].eventId == eventId
    ensures forall a :: multiset(r)[a] == if a.eventId == eventId then multiset(rows)[a] else 0
  {
    if rows == [] then []
    else
      assert rows == [rows[0]] + rows[1..];
      (if rows[0].eventId == eventId then [rows[0]] else []) + OfEvent(rows[1..], eventId)
  }

  /** `getEventAttendance`: exactly the event's rows, newest first. */
  function EventAttendance(rows: seq<Attendance>, eventId: string): (r: seq<Attendance>)
    ensures NewestFirst(r)
    ensures forall a :: multiset(r)[a] == if a.eventId == eventId then multiset(rows)[a] else 0
  {
    OrderNewestFirst(OfEvent(rows, eventId))
  }

  datatype Pagination = Pagination(total: nat, page: int, limit: int, totalPages: nat)
  datatype AttendancePage = AttendancePage(attendees: seq<Attendance>, pagination: Pagination)

  /** `Math.ceil(total / limit)`. */
  function TotalPages(total: nat, limit: nat): (n: nat)
    requires limit >= 1
    ensures total == 0 ==> n == 0
    ensures total > 0 ==> (n - 1) * limit < total <= n * limit
  {
    var n := (total + limit - 1) / limit;
    assert n * limit <= total + limit - 1 < n * limit + limit;
    n
  }

  /** `LIMIT limit OFFSET (page - 1) * limit` on an ordered listing. */
  function PageSlice(s: seq<Attendance>, page: int, limit: int): (r: seq<Attendance>)
    requires page >= 1 && limit >= 1
    ensures |r| <= limit
    ensures forall j :: 0 <= j < |r| ==> (page - 1) * limit + j < |s| && r[j] == s[(page - 1) * limit + j]
    ensures (page - 1) * limit >= |s| ==> r == []
    ensures (page - 1) * limit < |s| ==>
      |r| == if (page - 1) * limit + limit >= |s| then |s| - (page - 1) * limit else limit
  {
    var offset := (page - 1) * limit;
    if offset >= |s| then [] else if offset + limit >= |s| then s[offset..] else s[offset..offset + limit]
  }

  /** Every row of a listing appears on page `i / limit + 1`, at position
      `i % limit`, and that page is within `totalPages`. */
  lemma RowOnItsPage(s: seq<Attendance>, limit: int, i: nat)
    requires limit >= 1 && i < |s|
    ensures 1 <= i / limit + 1 <= TotalPages(|s|, limit)
    ensures i % limit < |PageSlice(s, i / limit + 1, limit)|
    ensures PageSlice(s, i / limit + 1, limit)[i % limit] == s[i]
  {
    var p, q := i / limit, i % limit;
    IndexOnPage(|s|, limit, i);
    var offset := (i / limit + 1 - 1) * limit;
    assert offset == p * limit;
    var r := PageSlice(s, i / limit + 1, limit);
    assert offset + q == i && q < limit && offset < |s|;
    assert |r| == if offset + limit >= |s| then |s| - offset else limit;
    assert q < |r|;
  }

  /** The arithmetic behind `RowOnItsPage`: index `i` lies `i % limit` rows
      into page `i / limit + 1`, which is one of the `TotalPages`. */
  lemma IndexOnPage(total: nat, limit: int, i: nat)
    requires limit >= 1 && i < total
    ensures (i / limit) * limit + i % limit == i && 0 <= i % limit < limit
    ensures 1 <= i / limit + 1 <= TotalPages(total, limit)
  {
    var p, n := i / limit, TotalPages(total, limit);
    assert p * limit <= i;
    assert i < n * limit;
    assert p < n;
  }

  /** A page of a newest-first listing is itself newest first. */
  lemma PageNewestFirst(s: seq<Attendance>, page: int, limit: int)
    requires page >= 1 && limit >= 1 && NewestFirst(s)
    ensures NewestFirst(PageSlice(s, page, limit))
  {
    var r := PageSlice(s, page, limit);
    var offset := (page - 1) * limit;
    forall i, j | 0 <= i < j < |r|
      ensures r[i].checkInTime >= r[j].checkInTime
    {
      assert r[i] == s[offset + i] && r[j] == s[offset + j];
    }
  }

  lemma SliceWithin(s: seq<Attendance>, lo: nat, hi: nat)
    requires lo <= hi <= |s|
    ensures multiset(s[lo..hi]) <= multiset(s)
  {
    assert s == s[..lo] + s[lo..hi] + s[hi..];
  }

  /** A page holds at most `limit` rows, all taken from the listing. */
  lemma PageWithin(s: seq<Attendance>, page: int, limit: int)
    requires page >= 1 && limit >= 1
    ensures multiset(PageSlice(s, page, limit)) <= multiset(s)
  {
    var offset := (page - 1) * limit;
    if offset < |s| {
      var hi := if offset + limit >= |s| then |s| else offset + limit;
      assert PageSlice(s, page, limit) == s[offset..hi];
      SliceWithin(s, offset, hi);
    } else {
      assert PageSlice(s, page, limit) == [];
    }
  }

  /** `getScannedAttendees`: page `page` of all rows ordered newest first,
      `LIMIT limit OFFSET (page - 1) * limit`. */
  function ScannedAttendees(rows: seq<Attendance>, page: int, limit: int): (r: AttendancePage)
    requires page >= 1 && limit >= 1
    ensures r.attendees == PageSlice(OrderNewestFirst(rows), page, limit)
    ensures NewestFirst(r.attendees)
    ensures r.pagination.total == |rows| && r.pagination.page == page && r.pagination.limit == limit
    ensures r.pagination.totalPages == TotalPages(|rows|, limit)
    ensures |r.attendees| <= limit
    ensures multiset(r.attendees) <= multiset(rows)
  {
    var all := OrderNewestFirst(rows);
    PageWithin(all, page, limit);
    PageNewestFirst(all, page, limit);
    AttendancePage(PageSlice(all, page, limit), Pagination(|rows|, page, limit, TotalPages(|rows|, limit)))
  }

  /** `getScannedAttendeesByEvent`: page `page` of the event's rows ordered
      newest first. */
  function ScannedAttendeesByEvent(rows: seq<Attendance>, eventId: string, page: int, limit: int): (r: AttendancePage)
    requires page >= 1 && limit >= 1
    ensures r.attendees == PageSlice(EventAttendance(rows, eventId), page, limit)
    ensures NewestFirst(r.attendees)
    ensures forall i :: 0 <= i < |r.attendees| ==> r.attendees[i].eventId == eventId
    ensures r.pagination.page == page && r.pagination.limit == limit
    ensures r.pagination.total == |OfEvent(rows, eventId)|
    ensures r.pagination.totalPages == TotalPages(|OfEvent(rows, eventId)|, limit)
    ensures |r.attendees| <= limit
    ensures multiset(r.attendees) <= multiset(OfEvent(rows, eventId))
  {
    var all := EventAttendance(rows, eventId);
    PageWithin(all, page, limit);
    PageNewestFirst(all, page, limit);
    assert forall i :: 0 <= i < |PageSlice(all, page, limit)| ==> PageSlice(all, page, limit)[i].eventId == eventId by {
      var r := PageSlice(all, page, limit);
      forall i | 0 <= i < |r|
        ensures r[i].eventId == eventId
      {
        assert r[i] in multiset(all);
      }
    }
    var total := |OfEvent(rows, eventId)|;
    assert |all| == total by {
      assert |multiset(all)| == |multiset(OfEvent(rows, eventId))|;
    }
    AttendancePage(PageSlice(all, page, limit), Pagination(total, page, limit, TotalPages(total, limit)))
  }

  /** No row is lost by paging: every row of the table is on one of the
      `totalPages` pages. */
  lemma PagesCoverRows(rows: seq<Attendance>, limit: int, a: Attendance)
    requires limit >= 1 && a in rows
    ensures exists page :: 1 <= page <= TotalPages(|rows|, limit) && a in ScannedAttendees(rows, page, limit).attendees
  {
    var all := OrderNewestFirst(rows);
    assert a in multiset(all);
    var i :| 0 <= i < |all| && all[i] == a;
    assert |all| == |rows| by {
      assert |multiset(all)| == |multiset(rows)|;
    }
    RowOnItsPage(all, limit, i);
    var page := i / limit + 1;
    assert ScannedAttendees(rows, page, limit).attendees[i % limit] == a;
  }

  /** The same for the pages of one event's rows. */
  lemma EventPagesCoverRows(rows: seq<Attendance>, eventId: string, limit: int, a: Attendance)
    requires limit >= 1 && a in rows && a.eventId == eventId
    ensures exists page :: (1 <= page <= TotalPages(|OfEvent(rows, eventId)|, limit)
                            && a in ScannedAttendeesByEvent(rows, eventId, page, limit).attendees)
  {
    var all := EventAttendance(rows, eventId);
    assert multiset(all)[a] == multiset(rows)[a];
    assert a in multiset(all);
    var i :| 0 <= i < |all| && all[i] == a;
    assert |all| == |OfEvent(rows, eventId)| by {
      assert |multiset(all)| == |multiset(OfEvent(rows, eventId))|;
    }
    RowOnItsPage(all, limit, i);
    var page := i / limit + 1;
    assert ScannedAttendeesByEvent(rows, eventId, page, limit).attendees[i % limit] == a;
  }
}
