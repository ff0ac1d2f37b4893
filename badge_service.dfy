/** Badge issue: the badge file name, the QR payload printed on the badge,
    and the badge record saved for it. The payload is the JSON text the
    attendance reconciler decodes; the round-trip lemmas below connect the
    two. PDF drawing and QR image rendering are not modelled. */
module BadgeService {
  import opened Base
  import opened Models
  import QrCodec
  import AS = AttendanceService

  /** The error `generateBadge` raises when the registration's event relation
      is null and its date is read. */
  const NullEvent := "Cannot read properties of null (reading 'dateTime')"

  /** `badge_<registrationId>.pdf`. */
  function BadgeFileName(registrationId: string): (name: string)
    ensures |name| == |registrationId| + 10
    ensures StartsWith(name, "badge_") && name[|name| - 4..] == ".pdf"
    ensures name[6..|name| - 4] == registrationId
  {
    "badge_" + registrationId + ".pdf"
  }

  /** Distinct registrations get distinct badge files. */
  lemma BadgeFileNameInjective(a: string, b: string)
    requires BadgeFileName(a) == BadgeFileName(b)
    ensures a == b
  {
    assert a == BadgeFileName(a)[6..|BadgeFileName(a)| - 4];
  }

  /** The members of the payload object, in the order they are written. */
  function PayloadFields(registrationId: string, eventId: string, attendee: string, timestamp: string): seq<(string, string)>
  {
    [("registrationId", registrationId), ("eventId", eventId), ("attendee", attendee), ("timestamp", timestamp)]
  }

  /** The QR payload: `JSON.stringify` of the registration ID, the event ID,
      the attendee's name and the issue time as an ISO string. */
  function QrPayload(registrationId: string, eventId: string, attendee: string, timestamp: string): string
  {
    QrCodec.Stringify(PayloadFields(registrationId, eventId, attendee, timestamp))
  }

  /** Parsing the payload gives an object with exactly the four keys. */
  lemma PayloadParses(registrationId: string, eventId: string, attendee: string, timestamp: string)
    ensures QrCodec.Parse(QrPayload(registrationId, eventId, attendee, timestamp)) ==
      Some(PayloadObject(registrationId, eventId, attendee, timestamp))
  {
    var fs := PayloadFields(registrationId, eventId, attendee, timestamp);
    QrCodec.ParseStringify(fs);
    var m0: map<string, string> := map[];
    var m1 := m0["registrationId" := registrationId];
    var m2 := m1["eventId" := eventId];
    var m3 := m2["attendee" := attendee];
    var m4 := m3["timestamp" := timestamp];
    assert QrCodec.Assign(m0, fs) == QrCodec.Assign(m1, fs[1..]);
    assert QrCodec.Assign(m1, fs[1..]) == QrCodec.Assign(m2, fs[2..]);
    assert QrCodec.Assign(m2, fs[2..]) == QrCodec.Assign(m3, fs[3..]);
    assert QrCodec.Assign(m3, fs[3..]) == QrCodec.Assign(m4, fs[4..]);
    assert fs[4..] == [];
  }

  /** The object the payload parses to. */
  function PayloadObject(registrationId: string, eventId: string, attendee: string, timestamp: string): map<string, string>
  {
    map["registrationId" := registrationId, "eventId" := eventId, "attendee" := attendee, "timestamp" := timestamp]
  }

  lemma PayloadObjectFields(registrationId: string, eventId: string, attendee: string, timestamp: string)
    ensures var m := PayloadObject(registrationId, eventId, attendee, timestamp);
      AS.Field(m, "registrationId") == Some(registrationId) && AS.Field(m, "eventId") == Some(eventId)
      && AS.Field(m, "attendee") == Some(attendee) && AS.Field(m, "timestamp") == Some(timestamp)
  {
  }

  /** Round trip: the reconciler decodes an issued payload to the same
      registration ID, event ID and attendee, with the issue time as its
      timestamp, whenever those three are non-empty. */
  lemma PayloadRoundTrip(registrationId: string, eventId: string, attendee: string, timestamp: string)
    requires registrationId != "" && eventId != "" && attendee != ""
    ensures AS.DecodePayload(QrPayload(registrationId, eventId, attendee, timestamp))
      == Ok(AS.Payload(registrationId, eventId, attendee, Some(timestamp)))
  {
    var qr := QrPayload(registrationId, eventId, attendee, timestamp);
    var m := PayloadObject(registrationId, eventId, attendee, timestamp);
    PayloadParses(registrationId, eventId, attendee, timestamp);
    AS.DecodeObject(qr, m);
    PayloadObjectFields(registrationId, eventId, attendee, timestamp);
  }

  /** An empty registration name is caught by the reconciler's third check. */
  lemma PayloadWithoutName(registrationId: string, eventId: string, timestamp: string)
    requires registrationId != "" && eventId != ""
    ensures AS.DecodePayload(QrPayload(registrationId, eventId, "", timestamp)) == Err(AS.MissingAttendee)
  {
    var qr := QrPayload(registrationId, eventId, "", timestamp);
    var m := PayloadObject(registrationId, eventId, "", timestamp);
    PayloadParses(registrationId, eventId, "", timestamp);
    AS.DecodeObject(qr, m);
    PayloadObjectFields(registrationId, eventId, "", timestamp);
  }

  /** A badge scanned within 24 hours of issue is never refused as expired:
      when its timestamp reads back as the issue time, the first scan is
      recorded and later ones report the existing check-in. */
  lemma FreshBadgeScans(rows: seq<Attendance>, regs: seq<Registration>, registrationId: string, eventId: string,
                        attendee: string, timestamp: string, issued: int, now: int,
                        dateMillis: string -> Option<int>, freshId: string)
    requires registrationId != "" && eventId != "" && attendee != ""
    requires dateMillis(timestamp) == Some(issued) && now - issued <= AS.DayMillis
    ensures AS.Scan(rows, regs, QrPayload(registrationId, eventId, attendee, timestamp), now, dateMillis, freshId).result.Ok?
  {
    var qr := QrPayload(registrationId, eventId, attendee, timestamp);
    PayloadRoundTrip(registrationId, eventId, attendee, timestamp);
    AS.NotExpired(Some(timestamp), now, dateMillis);
    var s := AS.Scan(rows, regs, qr, now, dateMillis, freshId);
    assert s.result.Ok? by {
      assert AS.DecodePayload(qr).Ok?;
      assert !AS.IsExpired(AS.DecodePayload(qr).value.timestamp, now, dateMillis);
    }
  }

  /** The badge row `generateBadge` saves: the registration and the payload
      text; the table generates `badgeId`. */
  function IssuedBadge(registration: Registration, eventId: string, timestamp: string, freshId: string): Badge
  {
    Badge(freshId, registration.registrationId,
          QrPayload(registration.registrationId, eventId, registration.fullName, timestamp))
  }

  /** `generateBadge`: the file name on success; the badge table gets one new
      row. `failure` is an error thrown by an awaited step, the QR-code
      rendering or the save of the badge row, which leaves the table as it
      was. */
  function GenerateBadge(badges: seq<Badge>, registration: Registration, eventId: Option<string>,
                         timestamp: string, freshId: string, failure: Option<string>): (s: (Result<string>, seq<Badge>))
    ensures s.0.Ok? <==> eventId.Some? && failure.None?
    ensures failure.Some? && eventId.Some? ==> s.0 == Err(failure.value)
    ensures s.0.Err? ==> s.1 == badges
    ensures s.0.Ok? ==>
      eventId.Some? && s.0.value == BadgeFileName(registration.registrationId)
      && s.1 == badges + [IssuedBadge(registration, eventId.value, timestamp, freshId)]
  {
    if eventId.None? then (Err(NullEvent), badges)
    else if failure.Some? then (Err(failure.value), badges)
    else (Ok(BadgeFileName(registration.registrationId)), badges + [IssuedBadge(registration, eventId.value, timestamp, freshId)])
  }

  function HasRegistration(registrationId: string): Badge -> bool
  {
    (b: Badge) => b.registrationId == registrationId
  }

  /** Generation does not look for an earlier badge: each success adds one
      more row for the registration. */
  lemma GenerateAlwaysInserts(badges: seq<Badge>, registration: Registration, eventId: string,
                              timestamp: string, freshId: string)
    ensures var s := GenerateBadge(badges, registration, Some(eventId), timestamp, freshId, None);
      Count(s.1, HasRegistration(registration.registrationId))
        == Count(badges, HasRegistration(registration.registrationId)) + 1
  {
    CountAppend(badges, IssuedBadge(registration, eventId, timestamp, freshId), HasRegistration(registration.registrationId));
  }

  /** The stored QR code of an issued badge is the payload, which decodes to
      the badge's own registration. */
  lemma IssuedBadgeDecodes(registration: Registration, eventId: string, timestamp: string, freshId: string)
    requires registration.registrationId != "" && eventId != "" && registration.fullName != ""
    ensures var b := IssuedBadge(registration, eventId, timestamp, freshId);
      AS.DecodePayload(b.qrCode).Ok? && AS.DecodePayload(b.qrCode).value.registrationId == b.registrationId
  {
    PayloadRoundTrip(registration.registrationId, eventId, registration.fullName, timestamp);
  }

  predicate BadgeIdsUnique(rows: seq<Badge>)
  {
    forall i, j :: 0 <= i < j < |rows| ==> rows[i].badgeId != rows[j].badgeId
  }

  predicate BadgeIdUnused(rows: seq<Badge>, id: string)
  {
    forall i :: 0 <= i < |rows| ==> rows[i].badgeId != id
  }

  /** The badge table. */
  class BadgeTable {
    var rows: seq<Badge>

    ghost predicate Valid()
      reads this
    {
      BadgeIdsUnique(rows)
    }

    constructor ()
      ensures Valid() && rows == []
    {
      rows := [];
    }

    /** `generateBadge` against the badge table. */
    method Generate(registration: Registration, eventId: Option<string>, timestamp: string, freshId: string,
                    failure: Option<string>) returns (r: Result<string>)
      requires Valid() && BadgeIdUnused(rows, freshId)
      modifies this
      ensures Valid()
      ensures (r, rows) == GenerateBadge(old(rows), registration, eventId, timestamp, freshId, failure)
    {
      if eventId.None? {
        return Err(NullEvent);
      }
      var badgeId := BadgeFileName(registration.registrationId);
      var qrData := QrPayload(registration.registrationId, eventId.value, registration.fullName, timestamp);
      if failure.Some? {
        return Err(failure.value);
      }
      var badge := Badge(freshId, registration.registrationId, qrData);
      rows := rows + [badge];
      r := Ok(badgeId);
    }
  }
}
