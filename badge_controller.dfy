/** The two badge retrieval handlers: by registration ID, and by event and
    attendee name. Each is a chain of early-return guards; the badge is then
    reused when a badge row exists, or generated, and served as a file or as
    links. The badge directory is a set of file names, the badge table a
    sequence of rows; CORS headers and streaming are not modelled. */
module BadgeController {
  import opened Base
  import opened Models
  import JsText
  import Auth
  import AS = AttendanceService
  import BS = BadgeService
  import SBS = SimpleBadgeService

  const AuthRequired := "Authentication required"
  const RegistrationNotFound := "Registration not found"
  const NotApproved := "Registration is not approved"
  const EventNotFound := "Event not found for this registration"
  const FileMissing := "Badge file could not be generated"
  const Generated := "Badge generated successfully"
  const GenerateFailed := "Failed to generate badge"
  const ApprovedNotFound := "Approved registration not found"
  const LookupFailed := "Failed to find badge"

  /** What the handler sends. `Failed` is the reply of a catch block,
      `{ message, error: error.message }`. */
  datatype Response =
    | Empty(status: int)
    | Error(status: int, message: string)
    | Failed(status: int, message: string, error: string)
    | Unapproved(status: int, message: string, registrationStatus: string)
    | PdfFile(badgeId: string, disposition: string)
    | Links(status: int, message: string, badgeUrl: string, downloadUrl: string)

  /** The parts of the request the handlers read. */
  datatype Request = Request(verb: string, user: Option<Auth.User>, token: Option<string>, download: Option<string>)

  /** The response, and the badge table and badge directory afterwards. */
  datatype Served = Served(response: Response, badges: seq<Badge>, files: set<string>)

  predicate HasBadge(badges: seq<Badge>, registrationId: string)
  {
    exists i :: 0 <= i < |badges| && badges[i].registrationId == registrationId
  }

  /** The final step of both handlers: the file must exist, then it is
      streamed when `download=true`, otherwise its links are returned. */
  function Serve(badgeId: string, fileExists: bool, registrationId: string, download: Option<string>,
                 downloadUrl: string): (r: Response)
    ensures !fileExists <==> r == Error(500, FileMissing)
    ensures fileExists && download == Some("true") ==>
      r == PdfFile(badgeId, "attachment; filename=\"badge-" + registrationId + ".pdf\"")
    ensures fileExists && download != Some("true") ==>
      r == Links(200, Generated, "/badges/" + badgeId, downloadUrl)
  {
    if !fileExists then Error(500, FileMissing)
    else if download == Some("true") then
      PdfFile(badgeId, "attachment; filename=\"badge-" + registrationId + ".pdf\"")
    else Links(200, Generated, "/badges/" + badgeId, downloadUrl)
  }

  /** Lines shared by both handlers once the registration and its event are
      known: reuse the badge name when a badge row exists, otherwise generate
      the badge (which writes the file); `failure` is the generator's error,
      answered with `catchMessage` and the error's own message. */
  function Deliver(badges: seq<Badge>, files: set<string>, registration: Registration, eventId: string,
                   download: Option<string>, downloadUrl: string, timestamp: string, freshId: string,
                   failure: Option<string>, catchMessage: string): (s: Served)
    ensures var id := registration.registrationId;
      (HasBadge(badges, id) ==> s.badges == badges && s.files == files)
      && (!HasBadge(badges, id) && failure.Some? ==> s == Served(Failed(500, catchMessage, failure.value), badges, files))
      && (!HasBadge(badges, id) && failure.None? ==>
            s.badges == badges + [BS.IssuedBadge(registration, eventId, timestamp, freshId)]
            && s.files == files + {BS.BadgeFileName(id)})
      && (s.response.Failed? <==> !HasBadge(badges, id) && failure.Some?)
    ensures var id := registration.registrationId;
      (s.response.Links? ==> s.response == Links(200, Generated, SBS.BadgeUrl(id), downloadUrl))
      && (s.response.PdfFile? ==>
            s.response == PdfFile(BS.BadgeFileName(id), "attachment; filename=\"badge-" + id + ".pdf\""))
      && (s.response.Links? || s.response.PdfFile? ==> BS.BadgeFileName(id) in s.files && HasBadge(s.badges, id))
      && (s.response == Error(500, FileMissing) ==> HasBadge(badges, id) && BS.BadgeFileName(id) !in files)
    ensures s.response.Links? || s.response.PdfFile? || s.response == Error(500, FileMissing)
      || (s.response.Failed? && s.response.status == 500 && s.response.message == catchMessage)
  {
    var id := registration.registrationId;
    if HasBadge(badges, id) then
      var badgeId := BS.BadgeFileName(id);
      Served(Serve(badgeId, badgeId in files, id, download, downloadUrl), badges, files)
    else
      var generated := BS.GenerateBadge(badges, registration, Some(eventId), timestamp, freshId, failure);
      match generated.0
      case Err(e) =>
        assert failure == Some(e);
        Served(Failed(500, catchMessage, e), badges, files)
      case Ok(badgeId) =>
        assert generated.1[|badges|].registrationId == id;
        Served(Serve(badgeId, true, id, download, downloadUrl), generated.1, files + {badgeId})
  }

  /** A badge once served is served again the same way: the second request
      reuses the stored badge and changes neither the table nor the files. */
  lemma DeliverAgain(badges: seq<Badge>, files: set<string>, registration: Registration, eventId: string,
                     download: Option<string>, downloadUrl: string, timestamp: string, freshId: string,
                     failure: Option<string>, catchMessage: string,
                     timestamp2: string, freshId2: string, failure2: Option<string>)
    requires var s := Deliver(badges, files, registration, eventId, download, downloadUrl, timestamp, freshId,
                              failure, catchMessage);
      s.response.Links? || s.response.PdfFile?
    ensures var s := Deliver(badges, files, registration, eventId, download, downloadUrl, timestamp, freshId,
                             failure, catchMessage);
      Deliver(s.badges, s.files, registration, eventId, download, downloadUrl, timestamp2, freshId2, failure2,
              catchMessage) == s
  {
  }

  /** `generateAttendeeBadge`. */
  function GenerateAttendeeBadge(req: Request, verify: string -> Option<Auth.User>, regs: seq<Registration>,
                                 badges: seq<Badge>, files: set<string>, registrationId: string,
                                 timestamp: string, freshId: string, failure: Option<string>): (s: Served)
    ensures s.response.Empty? <==> req.verb == "OPTIONS"
    ensures s.response.Empty? ==> s.response.status == 200
    ensures s.response.Links? ==>
      s.response.badgeUrl == SBS.BadgeUrl(registrationId)
      && s.response.downloadUrl == "/api/badges/registrations/" + registrationId + "?download=true"
    ensures s.response.PdfFile? ==>
      s.response.badgeId == BS.BadgeFileName(registrationId)
      && s.response.disposition == "attachment; filename=\"badge-" + registrationId + ".pdf\""
  {
    if req.verb == "OPTIONS" then Served(Empty(200), badges, files)
    else if Auth.AuthUser(req.user, req.token, verify).None? then Served(Error(401, AuthRequired), badges, files)
    else
      match AS.FindRegistration(regs, registrationId)
      case None => Served(Error(404, RegistrationNotFound), badges, files)
      case Some(registration) =>
        if JsText.LowerAscii(registration.status) != "approved" then
          Served(Unapproved(400, NotApproved, registration.status), badges, files)
        else if registration.eventId.None? then Served(Error(404, EventNotFound), badges, files)
        else
          Deliver(badges, files, registration, registration.eventId.value, req.download,
                  "/api/badges/registrations/" + registrationId + "?download=true",
                  timestamp, freshId, failure, GenerateFailed)
  }

  /** The guards run in order, and a badge is served only for an approved
      registration (in any letter case) with an event; once all four pass,
      the shared delivery serves it, generating it first when it has no row. */
  lemma GenerateGuards(req: Request, verify: string -> Option<Auth.User>, regs: seq<Registration>,
                       badges: seq<Badge>, files: set<string>, registrationId: string,
                       timestamp: string, freshId: string, failure: Option<string>)
    requires req.verb != "OPTIONS"
    ensures var s := GenerateAttendeeBadge(req, verify, regs, badges, files, registrationId, timestamp, freshId, failure);
      var g := AS.FindRegistration(regs, registrationId);
      var user := Auth.AuthUser(req.user, req.token, verify);
      (user.None? ==> s.response == Error(401, AuthRequired))
      && (user.Some? && g.None? ==> s.response == Error(404, RegistrationNotFound))
      && (user.Some? && g.Some? && JsText.LowerAscii(g.value.status) != "approved" ==>
            s.response == Unapproved(400, NotApproved, g.value.status))
      && (user.Some? && g.Some? && JsText.LowerAscii(g.value.status) == "approved" && g.value.eventId.None? ==>
            s.response == Error(404, EventNotFound))
      && (s.response.Links? || s.response.PdfFile? ==>
            user.Some? && g.Some? && JsText.LowerAscii(g.value.status) == "approved" && g.value.eventId.Some?)
      && (user.Some? && g.Some? && JsText.LowerAscii(g.value.status) == "approved" && g.value.eventId.Some? ==>
            s == Deliver(badges, files, g.value, g.value.eventId.value, req.download,
                         "/api/badges/registrations/" + registrationId + "?download=true",
                         timestamp, freshId, failure, GenerateFailed)
            && (!HasBadge(badges, registrationId) && failure.None? ==> s.response.Links? || s.response.PdfFile?)
            && (HasBadge(badges, registrationId) && BS.BadgeFileName(registrationId) in files ==>
                  s.response.Links? || s.response.PdfFile?))
      && (s.badges != badges ==> !HasBadge(badges, registrationId))
  {
    var s := GenerateAttendeeBadge(req, verify, regs, badges, files, registrationId, timestamp, freshId, failure);
    var g := AS.FindRegistration(regs, registrationId);
    if Auth.AuthUser(req.user, req.token, verify).Some? && g.Some?
       && JsText.LowerAscii(g.value.status) == "approved" && g.value.eventId.Some? {
      var r := g.value;
      assert r.registrationId == registrationId;
      var d := Deliver(badges, files, r, r.eventId.value, req.download,
                       "/api/badges/registrations/" + registrationId + "?download=true",
                       timestamp, freshId, failure, GenerateFailed);
      assert s == d;
    }
  }

  /** The first registration of the event with exactly this name and the
      exact status "approved". */
  function FindApproved(regs: seq<Registration>, eventId: string, fullName: string): (r: Option<Registration>)
    ensures r.Some? ==>
      r.value in regs && r.value.eventId == Some(eventId) && r.value.fullName == fullName && r.value.status == Approved
    ensures r.None? <==> forall i :: 0 <= i < |regs| ==>
      !(regs[i].eventId == Some(eventId) && regs[i].fullName == fullName && regs[i].status == Approved)
  {
    match FirstIndex(regs, (g: Registration) => g.eventId == Some(eventId) && g.fullName == fullName && g.status == Approved)
    case None => None
    case Some(k) => Some(regs[k])
  }

  /** The download link of the lookup by name. */
  function NameDownloadUrl(eventId: string, fullName: string): (url: string)
    ensures var enc := JsText.EncodeUriComponent(fullName);
      var prefix := "/api/badges/events/" + eventId + "/attendees/";
      StartsWith(url, prefix) && url[|prefix|..] == enc + "?download=true"
      && forall i :: 0 <= i < |enc| ==> enc[i] != '/' && enc[i] != '?' && enc[i] != '#' && enc[i] != ' '
  {
    JsText.EncodedIsSafe(fullName);
    "/api/badges/events/" + eventId + "/attendees/" + JsText.EncodeUriComponent(fullName) + "?download=true"
  }

  /** `getAttendeeBadgeByEventAndName`. */
  function GetAttendeeBadgeByEventAndName(req: Request, verify: string -> Option<Auth.User>, regs: seq<Registration>,
                                          badges: seq<Badge>, files: set<string>, eventId: string, fullName: string,
                                          timestamp: string, freshId: string, failure: Option<string>): (s: Served)
    ensures s.response.Empty? <==> req.verb == "OPTIONS"
    ensures req.verb != "OPTIONS" && Auth.AuthUser(req.user, req.token, verify).None? ==>
      s.response == Error(401, AuthRequired)
    ensures s.response.Links? ==> s.response.downloadUrl == NameDownloadUrl(eventId, fullName)
  {
    if req.verb == "OPTIONS" then Served(Empty(200), badges, files)
    else if Auth.AuthUser(req.user, req.token, verify).None? then Served(Error(401, AuthRequired), badges, files)
    else
      match FindApproved(regs, eventId, fullName)
      case None => Served(Error(404, ApprovedNotFound), badges, files)
      case Some(registration) =>
        if registration.eventId.None? then Served(Error(404, EventNotFound), badges, files)
        else
          Deliver(badges, files, registration, registration.eventId.value, req.download,
                  NameDownloadUrl(eventId, fullName), timestamp, freshId, failure, LookupFailed)
  }

  /** The lookup by name answers 404 exactly when no registration of the
      event has that name with status "approved"; its event check can never
      fire, and it serves only such a registration's badge, as links or as
      that registration's file under its download name. */
  lemma ByNameOutcome(req: Request, verify: string -> Option<Auth.User>, regs: seq<Registration>,
                      badges: seq<Badge>, files: set<string>, eventId: string, fullName: string,
                      timestamp: string, freshId: string, failure: Option<string>)
    requires req.verb != "OPTIONS" && Auth.AuthUser(req.user, req.token, verify).Some?
    ensures var s := GetAttendeeBadgeByEventAndName(req, verify, regs, badges, files, eventId, fullName,
                                                    timestamp, freshId, failure);
      var matches := exists i :: 0 <= i < |regs| && regs[i].eventId == Some(eventId)
                                && regs[i].fullName == fullName && regs[i].status == Approved;
      (s.response == Error(404, ApprovedNotFound) <==> !matches)
      && s.response != Error(404, EventNotFound)
      && (s.response.Links? ==> exists g :: g in regs && g.eventId == Some(eventId) && g.fullName == fullName
                                           && g.status == Approved && s.response.badgeUrl == SBS.BadgeUrl(g.registrationId))
      && (s.response.PdfFile? ==>
            exists g :: g in regs && g.eventId == Some(eventId) && g.fullName == fullName && g.status == Approved
                        && s.response.badgeId == BS.BadgeFileName(g.registrationId)
                        && s.response.disposition == "attachment; filename=\"badge-" + g.registrationId + ".pdf\"")
  {
    var g := FindApproved(regs, eventId, fullName);
    if g.Some? {
      var s := GetAttendeeBadgeByEventAndName(req, verify, regs, badges, files, eventId, fullName,
                                              timestamp, freshId, failure);
      assert g.value in regs;
      if s.response.Links? {
        assert s.response.badgeUrl == SBS.BadgeUrl(g.value.registrationId);
      } else if s.response.PdfFile? {
        assert s.response == PdfFile(BS.BadgeFileName(g.value.registrationId),
                                     "attachment; filename=\"badge-" + g.value.registrationId + ".pdf\"");
      }
    }
  }
}
