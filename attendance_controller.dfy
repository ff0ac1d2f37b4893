/** The attendance HTTP handlers: request validation, query-parameter
    parsing, and the mapping from service errors to status codes. A handler
    is a function from the table and the request to the reply and the table
    the service call leaves behind. */
module AttendanceController {
  import opened Base
  import opened Models
  import JsText
  import AS = AttendanceService

  const QrRequired := "QR code data is required"
  const TimedOut := "Request timed out"
  const TooLong := "Processing took too long. Please try again."
  const InvalidQrReply := "Invalid QR code format. Please scan a valid QR code."
  const ExpiredReply := "This QR code has expired. Please use a current QR code."
  const ScanFailed := "Failed to process QR code. Please try again."
  const EventIdRequired := "Event ID is required"
  const BadPagination := "Invalid pagination parameters. Page must be >= 1 and limit must be between 1 and 500."
  const BankUpdateFailed := "Failed to update bank account information"
  const MaxLimit := 500

  /** An HTTP reply: an error status with a message, or a success status with
      the body the service produced. */
  datatype Reply<+T> = Fail(status: int, message: string) | Done(status: int, body: T)

  /** A reply together with the attendance table after the request. */
  datatype Handled<+T> = Handled(reply: Reply<T>, rows: seq<Attendance>)

  /** The catch block of `scanAttendeeQR`: which status and text each thrown
      message is answered with. */
  function ScanErrorReply(message: string): (r: Reply<AS.ScanResult>)
    ensures r.Fail?
    ensures r.status == 408 <==> message == TimedOut
    ensures r.status == 400 <==>
      message in {AS.InvalidFormat, AS.MissingRegistrationId, AS.MissingEventId, AS.MissingAttendee, AS.Expired}
    ensures r.status != 408 && r.status != 400 ==> r == Fail(500, ScanFailed)
    ensures message in {AS.MissingRegistrationId, AS.MissingEventId, AS.MissingAttendee} ==> r.message == message
  {
    if message == TimedOut then Fail(408, TooLong)
    else if message == AS.InvalidFormat then Fail(400, InvalidQrReply)
    else if message == AS.MissingRegistrationId || message == AS.MissingEventId || message == AS.MissingAttendee then
      Fail(400, message)
    else if message == AS.Expired then Fail(400, ExpiredReply)
    else Fail(500, ScanFailed)
  }

  /** `scanAttendeeQR`. The ten-second timeout race is not modelled. */
  function ScanAttendeeQr(rows: seq<Attendance>, regs: seq<Registration>, qrCode: Option<string>, now: int,
                          dateMillis: string -> Option<int>, freshId: string): (h: Handled<AS.ScanResult>)
    ensures !Truthy(qrCode) ==> h == Handled(Fail(400, QrRequired), rows)
  {
    if !Truthy(qrCode) then Handled(Fail(400, QrRequired), rows)
    else
      var step := AS.Scan(rows, regs, qrCode.value, now, dateMillis, freshId);
      match step.result
      case Ok(result) => Handled(Done(200, result), step.rows)
      case Err(message) => Handled(ScanErrorReply(message), step.rows)
  }

  /** A successful scan, new or repeated, is returned with 200 exactly as the
      service produced it; every error the service can raise is a client error
      (400) and leaves the table as it was. */
  lemma ScanReplies(rows: seq<Attendance>, regs: seq<Registration>, qr: string, now: int,
                    dateMillis: string -> Option<int>, freshId: string)
    ensures var h := ScanAttendeeQr(rows, regs, Some(qr), now, dateMillis, freshId);
      var step := AS.Scan(rows, regs, qr, now, dateMillis, freshId);
      qr != "" ==>
        h.rows == step.rows
        && (step.result.Ok? ==> h.reply == Done(200, step.result.value))
        && (step.result.Err? ==> h.reply.Fail? && h.reply.status == 400 && h.rows == rows)
  {
    var step := AS.Scan(rows, regs, qr, now, dateMillis, freshId);
    AS.ScanRejects(rows, regs, qr, now, dateMillis, freshId);
    if step.result.Err? {
      var r := ScanErrorReply(step.result.error);
      assert r.status == 400;
    }
  }

  /** `parseInt(raw) || fallback`: NaN and zero both fall back. */
  function QueryInt(raw: Option<string>, fallback: int): (n: int)
    ensures JsText.ParseInt(raw).None? ==> n == fallback
    ensures JsText.ParseInt(raw) == Some(0) ==> n == fallback
    ensures fallback != 0 ==> n != 0
    ensures JsText.ParseInt(raw).Some? && JsText.ParseInt(raw).value != 0 ==> n == JsText.ParseInt(raw).value
  {
    match JsText.ParseInt(raw)
    case None => fallback
    case Some(v) => if v == 0 then fallback else v
  }

  predicate ValidPagination(page: int, limit: int)
  {
    !(page < 1 || limit < 1 || limit > MaxLimit)
  }

  /** With the defaults 1 and 10, only a negative page, a negative limit or a
      limit above 500 is refused: zero and non-numbers fall back to the defaults. */
  lemma PaginationRefused(rawPage: Option<string>, rawLimit: Option<string>)
    ensures !ValidPagination(QueryInt(rawPage, 1), QueryInt(rawLimit, 10)) <==>
      (JsText.ParseInt(rawPage).Some? && JsText.ParseInt(rawPage).value < 0)
      || (JsText.ParseInt(rawLimit).Some? && (JsText.ParseInt(rawLimit).value < 0 || JsText.ParseInt(rawLimit).value > MaxLimit))
  {
  }

  /** `getAttendanceList`: the event's rows, newest first (the count sent
      beside them is the length of the list). */
  function AttendanceList(rows: seq<Attendance>, eventId: Option<string>): (r: Reply<seq<Attendance>>)
    ensures !Truthy(eventId) <==> r == Fail(400, EventIdRequired)
    ensures Truthy(eventId) ==>
      (r.Done? && r.status == 200
       && AS.NewestFirst(r.body) && (forall i :: 0 <= i < |r.body| ==> r.body[i].eventId == eventId.value)
       && forall a :: multiset(r.body)[a] == if a.eventId == eventId.value then multiset(rows)[a] else 0)
  {
    if !Truthy(eventId) then Fail(400, EventIdRequired)
    else
      var list := AS.EventAttendance(rows, eventId.value);
      assert forall i :: 0 <= i < |list| ==> multiset(list)[list[i]] > 0;
      Done(200, list)
  }

  /** `getScannedAttendeesList`. */
  function ScannedAttendeesList(rows: seq<Attendance>, rawPage: Option<string>, rawLimit: Option<string>): (r: Reply<AS.AttendancePage>)
    ensures r.Fail? <==> !ValidPagination(QueryInt(rawPage, 1), QueryInt(rawLimit, 10))
    ensures r.Fail? ==> r == Fail(400, BadPagination)
    ensures r.Done? ==>
      (r.status == 200 && |r.body.attendees| <= MaxLimit && r.body.pagination.total == |rows|
       && r.body == AS.ScannedAttendees(rows, QueryInt(rawPage, 1), QueryInt(rawLimit, 10))
       && AS.NewestFirst(r.body.attendees))
  {
    var page := QueryInt(rawPage, 1);
    var limit := QueryInt(rawLimit, 10);
    if !ValidPagination(page, limit) then Fail(400, BadPagination)
    else Done(200, AS.ScannedAttendees(rows, page, limit))
  }

  /** `getScannedAttendeesByEventList`: the event id is checked before the
      pagination parameters. */
  function ScannedAttendeesByEventList(rows: seq<Attendance>, eventId: Option<string>,
                                       rawPage: Option<string>, rawLimit: Option<string>): (r: Reply<AS.AttendancePage>)
    ensures !Truthy(eventId) ==> r == Fail(400, EventIdRequired)
    ensures Truthy(eventId) ==>
      (r.Fail? <==> !ValidPagination(QueryInt(rawPage, 1), QueryInt(rawLimit, 10)))
      && (r.Fail? ==> r == Fail(400, BadPagination))
    ensures r.Done? ==>
      (r.status == 200 && |r.body.attendees| <= MaxLimit
       && r.body == AS.ScannedAttendeesByEvent(rows, eventId.value, QueryInt(rawPage, 1), QueryInt(rawLimit, 10))
       && AS.NewestFirst(r.body.attendees)
       && forall a :: a in multiset(r.body.attendees) ==> a.eventId == eventId.value)
  {
    if !Truthy(eventId) then Fail(400, EventIdRequired)
    else
      var page := QueryInt(rawPage, 1);
      var limit := QueryInt(rawLimit, 10);
      if !ValidPagination(page, limit) then Fail(400, BadPagination)
      else
        var result := AS.ScannedAttendeesByEvent(rows, eventId.value, page, limit);
        assert forall a :: a in multiset(result.attendees) ==> multiset(AS.OfEvent(rows, eventId.value))[a] > 0;
        Done(200, result)
  }

  /** The catch block of `updateAttendeeBankAccount`. */
  function BankErrorReply(message: string): (r: Reply<AS.AttendanceView>)
    ensures r.Fail?
    ensures r.status == 404 <==> message == AS.AttendeeNotFound
    ensures r.status == 400 <==> message in {AS.AccountRequired, AS.BankNameRequired}
    ensures r.status != 404 && r.status != 400 ==> r == Fail(500, BankUpdateFailed)
  {
    if message == AS.AttendeeNotFound then Fail(404, AS.AttendeeNotFound)
    else if message == AS.AccountRequired || message == AS.BankNameRequired then Fail(400, message)
    else Fail(500, BankUpdateFailed)
  }

  /** `updateAttendeeBankAccount`. */
  function UpdateAttendeeBankAccount(rows: seq<Attendance>, attendanceId: Option<string>,
                                     account: Option<string>, bankName: Option<string>): (h: Handled<AS.AttendanceView>)
    ensures h.reply.Fail? ==> h.rows == rows && h.reply.status in {400, 404, 500}
    ensures h.reply.Done? ==>
      h.reply.status == 200 && Truthy(attendanceId) && Truthy(account) && Truthy(bankName)
      && h.reply.body.id == attendanceId.value
      && h.reply.body.bankAccountNumber == account.value && h.reply.body.bankName == bankName.value
  {
    if !Truthy(attendanceId) then Handled(Fail(400, AS.AttendanceIdRequired), rows)
    else if !Truthy(account) then Handled(Fail(400, AS.AccountRequired), rows)
    else if !Truthy(bankName) then Handled(Fail(400, AS.BankNameRequired), rows)
    else
      var step := AS.UpdateBank(rows, attendanceId.value, account.value, bankName.value);
      match step.result
      case Ok(view) => Handled(Done(200, view), step.rows)
      case Err(message) => Handled(BankErrorReply(message), step.rows)
  }

  /** The three inputs are required in order, each with a 400; an unknown id
      is a 404; a success changes the bank columns of that row only. */
  lemma BankReplies(rows: seq<Attendance>, attendanceId: Option<string>, account: Option<string>, bankName: Option<string>)
    requires AS.IdsUnique(rows)
    ensures var h := UpdateAttendeeBankAccount(rows, attendanceId, account, bankName);
      (!Truthy(attendanceId) ==> h == Handled(Fail(400, AS.AttendanceIdRequired), rows))
      && (Truthy(attendanceId) && !Truthy(account) ==> h == Handled(Fail(400, AS.AccountRequired), rows))
      && (Truthy(attendanceId) && Truthy(account) && !Truthy(bankName) ==> h == Handled(Fail(400, AS.BankNameRequired), rows))
      && (Truthy(attendanceId) && Truthy(account) && Truthy(bankName) ==>
            (h.reply == Fail(404, AS.AttendeeNotFound) <==> AS.IdUnused(rows, attendanceId.value))
            && (!AS.IdUnused(rows, attendanceId.value) ==> h.reply.Done?)
            && (h.reply.Fail? ==> h.rows == rows)
            && (h.reply.Done? ==>
                  (h.reply.status == 200 && |h.rows| == |rows|
                   && forall i :: 0 <= i < |rows| ==>
                        h.rows[i] == if rows[i].attendanceId == attendanceId.value
                                     then rows[i].(bankAccountNumber := account, bankName := bankName)
                                     else rows[i])))
  {
    if Truthy(attendanceId) && Truthy(account) && Truthy(bankName) {
      AS.UpdateBankEffect(rows, attendanceId.value, account.value, bankName.value);
    }
  }
}
