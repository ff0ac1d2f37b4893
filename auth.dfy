/** The authentication middleware: bearer-token extraction and verification,
    and the two role guards. Token verification (a JWT signature and expiry
    check) is a parameter: a partial function from the token to the user it
    names, `None` where verification throws. */
module Auth {
  import opened Base

  const AuthRequired := "Authentication required"
  const InvalidToken := "Invalid token"
  const AdminRequired := "Admin access required"
  const ManagerRequired := "Event manager access required"

  /** The decoded token: the user's id and role. */
  datatype User = User(id: string, role: string)

  /** What a middleware does: call `next` (having set `req.user` to the given
      user, if any), or end the request with an error status. Never both. */
  datatype Outcome = Next(user: Option<User>) | Deny(status: int, message: string)

  /** Index of the first space. */
  function SpaceAt(s: string): (r: Option<nat>)
    ensures r.Some? ==> r.value < |s| && s[r.value] == ' ' && forall i :: 0 <= i < r.value ==> s[i] != ' '
    ensures r.None? <==> forall i :: 0 <= i < |s| ==> s[i] != ' '
  {
    FirstIndex(s, (c: char) => c == ' ')
  }

  /** `s.split(" ")`: the pieces between single spaces, empty ones included. */
  function SplitSpace(s: string): (parts: seq<string>)
    ensures |parts| >= 1
    ensures forall k, i :: 0 <= k < |parts| && 0 <= i < |parts[k]| ==> parts[k][i] != ' '
    decreases |s|
  {
    match SpaceAt(s)
    case None => [s]
    case Some(i) => [s[..i]] + SplitSpace(s[i + 1..])
  }

  /** `parts.join(" ")`. */
  function JoinSpace(parts: seq<string>): string
    requires |parts| >= 1
  {
    if |parts| == 1 then parts[0] else parts[0] + " " + JoinSpace(parts[1..])
  }

  /** Splitting on spaces loses nothing: joining the pieces gives the header back. */
  lemma {:induction false} SplitJoin(s: string)
    ensures JoinSpace(SplitSpace(s)) == s
    decreases |s|
  {
    match SpaceAt(s)
    case None =>
    case Some(i) =>
      SplitJoin(s[i + 1..]);
      assert SplitSpace(s)[1..] == SplitSpace(s[i + 1..]);
      assert s == s[..i] + " " + s[i + 1..];
  }

  /** `authHeader.split(" ")[1]`; `None` is `undefined`. */
  function BearerToken(header: string): (token: Option<string>)
  {
    var parts := SplitSpace(header);
    if |parts| >= 2 then Some(parts[1]) else None
  }

  /** The token of a well-formed header is the word after the scheme. */
  lemma BearerTokenOf(scheme: string, token: string)
    requires forall i :: 0 <= i < |scheme| ==> scheme[i] != ' '
    requires forall i :: 0 <= i < |token| ==> token[i] != ' '
    ensures BearerToken(scheme + " " + token) == Some(token)
  {
    var h := scheme + " " + token;
    assert h[|scheme|] == ' ';
    assert SpaceAt(h) == Some(|scheme|);
    assert h[..|scheme|] == scheme && h[|scheme| + 1..] == token;
    assert SpaceAt(token).None?;
    assert SplitSpace(token) == [token];
    assert SplitSpace(h) == [scheme, token];
  }

  /** `authenticateJWT`. */
  function AuthenticateJwt(authorization: Option<string>, verify: string -> Option<User>): (o: Outcome)
    ensures !Truthy(authorization) <==> o == Deny(401, AuthRequired)
    ensures Truthy(authorization) ==>
      var token := BearerToken(authorization.value);
      (o.Next? <==> token.Some? && verify(token.value).Some?)
      && (o.Next? ==> o.user == verify(token.value))
      && (o.Deny? ==> o == Deny(403, InvalidToken))
  {
    if !Truthy(authorization) then Deny(401, AuthRequired)
    else
      match BearerToken(authorization.value)
      case None => Deny(403, InvalidToken)
      case Some(token) =>
        match verify(token)
        case None => Deny(403, InvalidToken)
        case Some(user) => Next(Some(user))
  }

  /** `isAdmin`: admins and staff pass. */
  function IsAdmin(user: Option<User>): (o: Outcome)
    ensures o.Next? <==> user.Some? && (user.value.role == "admin" || user.value.role == "staff")
    ensures o.Next? ==> o.user == user
    ensures o.Deny? ==> o == Deny(403, AdminRequired)
  {
    if user.Some? && (user.value.role == "admin" || user.value.role == "staff") then Next(user)
    else Deny(403, AdminRequired)
  }

  /** `isEventManager`. */
  function IsEventManager(user: Option<User>): (o: Outcome)
    ensures o.Next? <==> user.Some? && user.value.role == "event_manager"
    ensures o.Next? ==> o.user == user
    ensures o.Deny? ==> o == Deny(403, ManagerRequired)
  {
    if user.Some? && user.value.role == "event_manager" then Next(user) else Deny(403, ManagerRequired)
  }

  /** `getAuthUser` of the badge handlers: the user the middleware set, else
      the verified `token` query parameter, else none; a failed verification
      gives none rather than an error. */
  function AuthUser(reqUser: Option<User>, queryToken: Option<string>, verify: string -> Option<User>): (u: Option<User>)
    ensures reqUser.Some? ==> u == reqUser
    ensures reqUser.None? && Truthy(queryToken) ==> u == verify(queryToken.value)
    ensures reqUser.None? && !Truthy(queryToken) ==> u.None?
  {
    if reqUser.Some? then reqUser
    else if Truthy(queryToken) then verify(queryToken.value)
    else None
  }
}
