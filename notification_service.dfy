/** The SMS notification sent after a registration is approved or rejected:
    Rwandan phone-number normalisation, the validity test, and the message
    text. The credentials and the base URL come from the environment and are
    parameters; the HTTP call to the SMS gateway is not modelled. */
module NotificationService {
  import opened Base
  import JsText
  import BS = BadgeService
  import SBS = SimpleBadgeService

  const NotConfigured := "Intouch SMS credentials not configured"
  const InvalidPhone := "Invalid phone number format: "
  const DefaultBaseUrl := "http://localhost:3000"

  /** The gateway credentials read from the environment. */
  datatype Credentials = Credentials(username: Option<string>, password: Option<string>, senderId: Option<string>)

  /** What `sendSMSNotification` does: return early with a warning, or call
      the gateway with these query parameters. */
  datatype SmsRequest =
    | NotSent(warning: string)
    | Send(username: string, password: string, sender: string, recipient: string, message: string)

  /** The characters the normalisation deletes: whitespace (`\s`), `-`, `(` and `)`. */
  predicate IsSeparator(c: char)
  {
    JsText.IsJsWhitespace(c) || c == '-' || c == '(' || c == ')'
  }

  /** `replace(/[\s\-\(\)]/g, '')`: every separator is gone, and a string
      without separators is unchanged. */
  function StripSeparators(s: string): (r: string)
    ensures |r| <= |s|
    ensures forall i :: 0 <= i < |r| ==> !IsSeparator(r[i])
    ensures (forall i :: 0 <= i < |s| ==> !IsSeparator(s[i])) ==> r == s
  {
    if s == [] then []
    else if IsSeparator(s[0]) then StripSeparators(s[1..])
    else [s[0]] + StripSeparators(s[1..])
  }

  /** No other character is lost or duplicated. */
  lemma {:induction false} StripKeepsOthers(s: string, c: char)
    requires !IsSeparator(c)
    ensures multiset(StripSeparators(s))[c] == multiset(s)[c]
  {
    if s != [] {
      StripKeepsOthers(s[1..], c);
      assert s == [s[0]] + s[1..];
    }
  }

  /** The strip works character by character and keeps the order: a
      separator is dropped, any other character kept, and the result for a
      concatenation is the concatenation of the results. */
  lemma {:induction false} StripAppend(a: string, b: string)
    ensures StripSeparators(a + b) == StripSeparators(a) + StripSeparators(b)
    ensures |a| == 1 ==> StripSeparators(a) == if IsSeparator(a[0]) then [] else a
  {
    if a != [] {
      assert (a + b)[0] == a[0] && (a + b)[1..] == a[1..] + b;
      StripAppend(a[1..], b);
      if |a| == 1 {
        assert a[1..] == [];
      }
    } else {
      assert a + b == b;
    }
  }

  /** Exactly one leading country or trunk prefix is dropped: the first of
      `+250`, `250` and `0` that matches. */
  function WithoutPrefix(p: string): (r: string)
    ensures StartsWith(p, "+250") ==> r == p[4..]
    ensures !StartsWith(p, "+250") && StartsWith(p, "250") ==> r == p[3..]
    ensures !StartsWith(p, "+250") && !StartsWith(p, "250") && StartsWith(p, "0") ==> r == p[1..]
    ensures !StartsWith(p, "+250") && !StartsWith(p, "250") && !StartsWith(p, "0") ==> r == p
  {
    if StartsWith(p, "+250") then p[4..]
    else if StartsWith(p, "250") then p[3..]
    else if StartsWith(p, "0") then p[1..]
    else p
  }

  /** The phone number the gateway is given: separators removed, one prefix
      dropped, `250` prepended. */
  function Normalize(raw: string): (p: string)
    ensures StartsWith(p, "250") && p[3..] == WithoutPrefix(StripSeparators(raw))
  {
    "250" + WithoutPrefix(StripSeparators(raw))
  }

  /** The step-by-step rewriting of the local `phoneNumber`. */
  method NormalizePhone(raw: string) returns (phoneNumber: string)
    ensures phoneNumber == Normalize(raw)
  {
    phoneNumber := raw;
    phoneNumber := StripSeparators(phoneNumber);
    if StartsWith(phoneNumber, "+250") {
      phoneNumber := phoneNumber[4..];
    } else if StartsWith(phoneNumber, "250") {
      phoneNumber := phoneNumber[3..];
    } else if StartsWith(phoneNumber, "0") {
      phoneNumber := phoneNumber[1..];
    }
    phoneNumber := "250" + phoneNumber;
  }

  /** `/^250\d{9}$/`. */
  predicate IsRwandanNumber(p: string)
  {
    |p| == 12 && StartsWith(p, "250") && forall i :: 3 <= i < 12 ==> JsText.IsDecimalDigit(p[i])
  }

  /** A number already in the gateway's form is left as it is. */
  lemma NormalizeIdempotent(p: string)
    requires IsRwandanNumber(p)
    ensures Normalize(p) == p
  {
    assert p[..3] == "250";
    assert forall i :: 0 <= i < |p| ==> JsText.IsDecimalDigit(p[i]) by {
      forall i | 0 <= i < |p|
        ensures JsText.IsDecimalDigit(p[i])
      {
        if i < 3 {
          assert p[i] == "250"[i];
        }
      }
    }
    DigitsHaveNoSeparator(p);
    assert !StartsWith(p, "+250") by {
      assert p[0] == '2';
    }
    assert WithoutPrefix(p) == p[3..];
    assert p == "250" + p[3..];
  }

  /** Nine subscriber digits written with `+250`, with `250` or with a leading
      `0` all become the same valid number; written bare, they do too unless
      they themselves start with `0` or `250`. */
  lemma NormalizeForms(d: string)
    requires |d| == 9 && forall i :: 0 <= i < 9 ==> JsText.IsDecimalDigit(d[i])
    ensures Normalize("+250" + d) == "250" + d
    ensures Normalize("250" + d) == "250" + d
    ensures Normalize("0" + d) == "250" + d
    ensures d[0] != '0' && !StartsWith(d, "250") ==> Normalize(d) == "250" + d
    ensures IsRwandanNumber("250" + d)
  {
    var a, b, c := "+250" + d, "250" + d, "0" + d;
    assert a[..4] == "+250" && a[4..] == d;
    assert b[..3] == "250" && b[3..] == d;
    assert c[..1] == "0" && c[1..] == d;
    DigitsHaveNoSeparator(a);
    DigitsHaveNoSeparator(b);
    DigitsHaveNoSeparator(c);
    DigitsHaveNoSeparator(d);
    assert WithoutPrefix(a) == d;
    assert !StartsWith(b, "+250") by {
      assert b[0] == '2';
    }
    assert WithoutPrefix(b) == d;
    assert !StartsWith(c, "+250") && !StartsWith(c, "250") by {
      assert c[0] == '0';
    }
    assert WithoutPrefix(c) == d;
    if d[0] != '0' && !StartsWith(d, "250") {
      assert !StartsWith(d, "+250") && !StartsWith(d, "0") by {
        assert d[0] != '+';
      }
      assert WithoutPrefix(d) == d;
    }
  }

  /** The local form with the usual spaces, `078 812 3456`, reaches the same
      number as the unspaced forms. */
  lemma NormalizeSpaced(d: string)
    requires |d| == 9 && forall i :: 0 <= i < 9 ==> JsText.IsDecimalDigit(d[i])
    ensures Normalize("0" + d[..2] + " " + d[2..5] + " " + d[5..]) == "250" + d
  {
    var x, y, z := "0" + d[..2], d[2..5], d[5..];
    assert StripSeparators(x + " " + y + " " + z) == x + y + z by {
      DigitsHaveNoSeparator(x);
      DigitsHaveNoSeparator(y);
      DigitsHaveNoSeparator(z);
      SpacedParts(x, y, z);
    }
    assert x + y + z == "0" + d by {
      assert d == d[..2] + d[2..5] + d[5..];
    }
    NormalizeForms(d);
  }

  /** Single spaces between separator-free parts are removed and nothing else. */
  lemma SpacedParts(x: string, y: string, z: string)
    requires StripSeparators(x) == x && StripSeparators(y) == y && StripSeparators(z) == z
    ensures StripSeparators(x + " " + y + " " + z) == x + y + z
  {
    var sp := " ";
    assert StripSeparators(sp) == [] by {
      StripAppend(sp, []);
      assert IsSeparator(sp[0]);
    }
    var a1 := x + sp;
    var a2 := a1 + y;
    var a3 := a2 + sp;
    assert StripSeparators(a1) == x by {
      StripAppend(x, sp);
    }
    assert StripSeparators(a2) == x + y by {
      StripAppend(a1, y);
    }
    assert StripSeparators(a3) == x + y by {
      StripAppend(a2, sp);
    }
    StripAppend(a3, z);
  }

  /** A string of digits, possibly after a `+`, has no separator. */
  lemma DigitsHaveNoSeparator(s: string)
    requires forall i :: 0 <= i < |s| ==> JsText.IsDecimalDigit(s[i]) || s[i] == '+'
    ensures StripSeparators(s) == s
  {
    forall i | 0 <= i < |s|
      ensures !IsSeparator(s[i])
    {
      DigitIsNotSeparator(s[i]);
    }
  }

  lemma DigitIsNotSeparator(c: char)
    requires JsText.IsDecimalDigit(c) || c == '+'
    ensures !IsSeparator(c)
  {
  }

  /** `BASE_URL || 'http://localhost:3000'`. */
  function BaseUrl(env: Option<string>): (url: string)
    ensures url != ""
    ensures Truthy(env) ==> url == env.value
  {
    if Truthy(env) then env.value else DefaultBaseUrl
  }

  function ApprovedText(fullName: string): string
  {
    "Dear " + fullName + ", your registration for the event has been approved. "
  }

  function RejectedText(fullName: string): string
  {
    "Dear " + fullName + ", we regret to inform you that your registration for the event has been rejected."
  }

  function BadgeLink(baseUrl: string, badgeId: string): string
  {
    "Your event badge is available at: " + baseUrl + "/badges/" + badgeId
  }

  /** The message text. An approval carries the badge link exactly when a
      non-empty badge ID is given; a rejection never does, whatever badge ID
      or base URL is passed. */
  function Message(status: string, fullName: string, badgeId: Option<string>, baseUrl: string): (m: string)
    ensures status == "approved" ==>
      StartsWith(m, ApprovedText(fullName))
      && (|m| > |ApprovedText(fullName)| <==> Truthy(badgeId))
      && (Truthy(badgeId) ==> m[|ApprovedText(fullName)|..] == BadgeLink(baseUrl, badgeId.value))
    ensures status != "approved" ==> m == RejectedText(fullName)
  {
    if status == "approved" then
      ApprovedText(fullName) + (if Truthy(badgeId) then BadgeLink(baseUrl, badgeId.value) else "")
    else RejectedText(fullName)
  }

  /** The message built by assignment and `+=`. */
  method ComposeMessage(status: string, fullName: string, badgeId: Option<string>, baseUrl: string)
    returns (message: string)
    ensures message == Message(status, fullName, badgeId, baseUrl)
  {
    message := "";
    if status == "approved" {
      message := ApprovedText(fullName);
      if Truthy(badgeId) {
        message := message + BadgeLink(baseUrl, badgeId.value);
      }
    } else {
      message := RejectedText(fullName);
    }
  }

  /** `intouchSenderId.replace('+', '')`: only the first `+` is removed. */
  function RemoveFirstPlus(s: string): (r: string)
    ensures (forall i :: 0 <= i < |s| ==> s[i] != '+') ==> r == s
    ensures (exists i :: 0 <= i < |s| && s[i] == '+') ==>
      |r| == |s| - 1
      && (exists i :: 0 <= i < |s| && s[i] == '+' && r == s[..i] + s[i + 1..]
           && forall j :: 0 <= j < i ==> s[j] != '+')
  {
    match FirstIndex(s, (c: char) => c == '+')
    case None => s
    case Some(i) => s[..i] + s[i + 1..]
  }

  /** `sendSMSNotification` up to the gateway call. */
  function SendSmsNotification(credentials: Credentials, phoneNumber: string, fullName: string,
                               status: string, badgeId: Option<string>, baseUrl: string): (r: SmsRequest)
    ensures r.Send? <==>
      Truthy(credentials.password) && Truthy(credentials.senderId) && Truthy(credentials.username)
      && IsRwandanNumber(Normalize(phoneNumber))
    ensures r.Send? ==>
      r.recipient == Normalize(phoneNumber) && IsRwandanNumber(r.recipient)
      && r.message == Message(status, fullName, badgeId, baseUrl)
      && r.sender == RemoveFirstPlus(credentials.senderId.value)
      && r.username == credentials.username.value && r.password == credentials.password.value
    ensures !(Truthy(credentials.password) && Truthy(credentials.senderId) && Truthy(credentials.username)) ==>
      r == NotSent(NotConfigured)
  {
    if !Truthy(credentials.password) || !Truthy(credentials.senderId) || !Truthy(credentials.username) then
      NotSent(NotConfigured)
    else
      var recipient := Normalize(phoneNumber);
      if !IsRwandanNumber(recipient) then NotSent(InvalidPhone + recipient)
      else Send(credentials.username.value, credentials.password.value, RemoveFirstPlus(credentials.senderId.value),
                recipient, Message(status, fullName, badgeId, baseUrl))
  }

  /** Stray separators in the stored number do not change where the SMS goes. */
  lemma SeparatorsIgnored(raw: string)
    ensures Normalize(StripSeparators(raw)) == Normalize(raw)
  {
  }

  /** After an approval the SMS points at the badge the badge handlers serve:
      the file name `generateBadge` resolves with, under `/badges/`. */
  lemma ApprovalLinkIsBadgeUrl(fullName: string, registrationId: string, baseUrl: string)
    ensures var m := Message("approved", fullName, Some(BS.BadgeFileName(registrationId)), baseUrl);
      m == ApprovedText(fullName) + "Your event badge is available at: " + baseUrl + SBS.BadgeUrl(registrationId)
  {
  }
}
