/** The second badge generator: same file name, a badge URL under `/badges/`,
    a QR code holding only the bare registration ID, and an upsert of the
    badge record keyed by registration ID. PDF drawing is not modelled. */
module SimpleBadgeService {
  import opened Base
  import opened Models
  import QrCodec
  import AS = AttendanceService
  import BS = BadgeService

  /** The error raised when the registration's event relation is null and
      its name is read for the PDF metadata. */
  const NullEvent := "Cannot read properties of null (reading 'name')"

  /** `/badges/badge_<registrationId>.pdf`. */
  function BadgeUrl(registrationId: string): (url: string)
    ensures StartsWith(url, "/badges/")
    ensures url[8..] == BS.BadgeFileName(registrationId)
  {
    "/badges/" + BS.BadgeFileName(registrationId)
  }

  function FindByRegistration(rows: seq<Badge>, registrationId: string): (r: Option<nat>)
    ensures r.Some? ==> r.value < |rows| && rows[r.value].registrationId == registrationId
    ensures r.None? <==> forall i :: 0 <= i < |rows| ==> rows[i].registrationId != registrationId
  {
    FirstIndex(rows, BS.HasRegistration(registrationId))
  }

  /** The saved badge table: the first badge of the registration gets the
      bare ID as QR code; with none, a new row is added. The badge URL the
      source assigns to the entity object is not an entity column and is not
      saved. */
  function Upsert(rows: seq<Badge>, registrationId: string, freshId: string): (r: seq<Badge>)
    ensures |rows| <= |r| <= |rows| + 1
  {
    match FindByRegistration(rows, registrationId)
    case Some(k) => rows[k := rows[k].(qrCode := registrationId)]
    case None => rows + [Badge(freshId, registrationId, registrationId)]
  }

  /** No two badges of one registration. */
  predicate OnePerRegistration(rows: seq<Badge>)
  {
    forall i, j :: 0 <= i < j < |rows| ==> rows[i].registrationId != rows[j].registrationId
  }

  /** An existing badge keeps its identity and registration; only its QR
      code is overwritten, and no other row changes. A missing badge is added
      with the registration and the bare ID. */
  lemma UpsertEffect(rows: seq<Badge>, registrationId: string, freshId: string)
    ensures var r := Upsert(rows, registrationId, freshId);
      ((exists i :: 0 <= i < |rows| && rows[i].registrationId == registrationId) ==>
         |r| == |rows|
         && exists k :: 0 <= k < |rows| && rows[k].registrationId == registrationId
              && r[k] == Badge(rows[k].badgeId, registrationId, registrationId)
              && forall i :: 0 <= i < |rows| && i != k ==> r[i] == rows[i])
      && ((forall i :: 0 <= i < |rows| ==> rows[i].registrationId != registrationId) ==>
         r == rows + [Badge(freshId, registrationId, registrationId)])
  {
    var f := FindByRegistration(rows, registrationId);
    if f.Some? {
      var k := f.value;
      var r := Upsert(rows, registrationId, freshId);
      assert r[k] == Badge(rows[k].badgeId, registrationId, registrationId);
    }
  }

  /** Repeated generation keeps at most one badge per registration. */
  lemma UpsertKeepsOne(rows: seq<Badge>, registrationId: string, freshId: string)
    requires OnePerRegistration(rows)
    ensures OnePerRegistration(Upsert(rows, registrationId, freshId))
  {
  }

  /** Generating twice leaves the table as generating once did. */
  lemma UpsertIdempotent(rows: seq<Badge>, registrationId: string, freshId: string, freshId2: string)
    ensures Upsert(Upsert(rows, registrationId, freshId), registrationId, freshId2) == Upsert(rows, registrationId, freshId)
  {
    var once := Upsert(rows, registrationId, freshId);
    var f := FindByRegistration(rows, registrationId);
    var g := FindByRegistration(once, registrationId);
    if f.Some? {
      var k := f.value;
      assert once[k].registrationId == registrationId;
      assert forall i :: 0 <= i < |rows| && i != k ==> once[i] == rows[i];
      assert g == f by {
        if g.None? || g.value != k {
          assert false;
        }
      }
    } else {
      assert forall i :: 0 <= i < |rows| ==> once[i] == rows[i];
      assert once[|rows|].registrationId == registrationId;
      assert g == Some(|rows|) by {
        if g.None? || g.value != |rows| {
          assert false;
        }
      }
    }
  }

  /** A registration ID in the usual 8-4-4-4-12 hex form. */
  predicate IsUuid(s: string)
  {
    |s| == 36
    && (forall i :: 0 <= i < 36 && i != 8 && i != 13 && i != 18 && i != 23 ==> ('0' <= s[i] <= '9' || 'a' <= s[i] <= 'f'))
    && s[8] == '-' && s[13] == '-' && s[18] == '-' && s[23] == '-'
  }

  /** The two badge formats disagree: a bare UUID registration ID, the QR code
      this generator stores, is refused by the attendance reconciler as
      invalid QR data. */
  lemma BareIdIsNotAPayload(registrationId: string)
    requires IsUuid(registrationId)
    ensures AS.DecodePayload(registrationId) == Err(AS.InvalidFormat)
  {
    QrCodec.NotAnObject(registrationId);
  }

  /** `generateBadge` of this service against the badge table: resolves with
      the badge URL (which the save does not store). `failure` is an error of the PDF stream or of
      the save, which leaves the table as it was. */
  method GenerateBadge(table: BS.BadgeTable, registration: Registration, eventId: Option<string>,
                       freshId: string, failure: Option<string>) returns (r: Result<string>)
    requires table.Valid() && BS.BadgeIdUnused(table.rows, freshId)
    modifies table
    ensures table.Valid()
    ensures r.Err? ==> table.rows == old(table.rows)
    ensures r.Ok? ==>
      (r.value == BadgeUrl(registration.registrationId)
       && table.rows == Upsert(old(table.rows), registration.registrationId, freshId))
    ensures r.Ok? <==> eventId.Some? && failure.None?
  {
    if eventId.None? {
      return Err(NullEvent);
    }
    if failure.Some? {
      return Err(failure.value);
    }
    var registrationId := registration.registrationId;
    var badgeUrl := BadgeUrl(registrationId);
    var found := FindByRegistration(table.rows, registrationId);
    var badge: Badge;
    if found.Some? {
      badge := table.rows[found.value];
      badge := badge.(qrCode := registrationId);
      table.rows := table.rows[found.value := badge];
    } else {
      badge := Badge(freshId, registrationId, registrationId);
      table.rows := table.rows + [badge];
    }
    r := Ok(badgeUrl);
  }
}
