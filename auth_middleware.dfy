/** The request gate of src/middleware/auth.js. `authenticate` reads a
    `Bearer` token from the Authorization header, has it verified and
    attaches the decoded claims to the request; `authorize(roles)` lets a
    request through only when its user holds one of the roles (any user
    when the list is empty). Token verification is the parameter `verify`:
    None stands for a token it rejects (it throws). Each middleware either
    answers the request or passes it on, with the request as it leaves it. */
module AuthMiddleware {
  import opened Wrappers
  import opened Text

  /** The decoded token payload. */
  datatype Claims = Claims(id: string, email: string, role: string)

  /** The parts of a request the gate reads and writes. */
  datatype Request = Request(authorization: Option<string>, user: Option<Claims>)

  /** Either the request is handed on to the next handler, or it is answered
      with a status code and a JSON message. */
  datatype GateOutcome = Next | Respond(status: int, message: string)

  datatype Handled = Handled(req: Request, outcome: GateOutcome)

  const BearerPrefix: string := "Bearer "
  const TokenRequired: string := "Authorization token required"
  const InvalidToken: string := "Invalid token"
  const Unauthorized: string := "Unauthorized"
  const Forbidden: string := "Forbidden"

  /** A present, non-empty header that starts with `Bearer `. */
  predicate HasBearer(header: Option<string>) {
    header.Some? && IsPrefix(BearerPrefix, header.value)
  }

  /** The second space-separated field of the header: the text after the
      bearer prefix up to the next space or the end. */
  function ExtractToken(header: string): (token: string)
    requires IsPrefix(BearerPrefix, header)
    ensures ' ' !in token
    ensures IsPrefix(BearerPrefix + token, header)
    ensures |header| == |BearerPrefix| + |token| || header[|BearerPrefix| + |token|] == ' '
  {
    var rest := header[|BearerPrefix|..];
    assert header == "Bearer" + [' '] + rest;
    SplitAfterSeparator("Bearer", ' ', rest);
    FirstPiece(rest, ' ');
    Split(header, ' ')[1]
  }

  function Authenticate(req: Request, verify: string -> Option<Claims>): (h: Handled)
    ensures !HasBearer(req.authorization) ==> h == Handled(req, Respond(401, TokenRequired))
    ensures HasBearer(req.authorization) && verify(ExtractToken(req.authorization.value)).None? ==>
      h == Handled(req, Respond(401, InvalidToken))
    ensures HasBearer(req.authorization) && verify(ExtractToken(req.authorization.value)).Some? ==>
      h == Handled(req.(user := verify(ExtractToken(req.authorization.value))), Next)
  {
    if !HasBearer(req.authorization) then
      Handled(req, Respond(401, TokenRequired))
    else
      var token := ExtractToken(req.authorization.value);
      match verify(token)
      case None => Handled(req, Respond(401, InvalidToken))
      case Some(decoded) => Handled(req.(user := Some(decoded)), Next)
  }

  /** `authorize(roles)`: only reads the request. */
  function Authorize(roles: seq<string>, req: Request): (h: Handled)
    ensures h.req == req
    ensures req.user.None? ==> h.outcome == Respond(401, Unauthorized)
    ensures req.user.Some? && |roles| > 0 && req.user.value.role !in roles ==> h.outcome == Respond(403, Forbidden)
    ensures req.user.Some? && (|roles| == 0 || req.user.value.role in roles) ==> h.outcome == Next
  {
    if req.user.None? then
      Handled(req, Respond(401, Unauthorized))
    else if |roles| > 0 && req.user.value.role !in roles then
      Handled(req, Respond(403, Forbidden))
    else
      Handled(req, Next)
  }

  /** Every rejection by `authenticate` is a 401 and leaves the request's
      user as it was; passing on sets the user to the verified claims. */
  lemma AuthenticateOutcomes(req: Request, verify: string -> Option<Claims>)
    ensures var h := Authenticate(req, verify);
      && (h.outcome.Respond? ==> h.outcome.status == 401 && h.req == req)
      && (h.outcome == Next <==>
            HasBearer(req.authorization) && verify(ExtractToken(req.authorization.value)).Some?)
      && (h.outcome == Next ==>
            h.req == req.(user := verify(ExtractToken(req.authorization.value))) && h.req.user.Some?)
  {
  }

  /** The token handed to verification is the second space-separated field
      of the header. */
  lemma TokenIsSecondField(header: string)
    requires IsPrefix(BearerPrefix, header)
    ensures var fields := Split(header, ' ');
      |fields| >= 2 && fields[0] == "Bearer" && fields[1] == ExtractToken(header)
  {
    var rest := header[|BearerPrefix|..];
    assert header == "Bearer" + [' '] + rest;
    SplitAfterSeparator("Bearer", ' ', rest);
  }

  /** Running `authenticate` and then `authorize(roles)`, as a route does. */
  function Guard(roles: seq<string>, req: Request, verify: string -> Option<Claims>): Handled {
    var first := Authenticate(req, verify);
    if first.outcome == Next then Authorize(roles, first.req) else first
  }

  /** The roles that may post curation feedback (src/routes/slack.js:8). */
  const FeedbackRoles: seq<string> := ["admin", "curator"]

  /** The gate in front of the feedback route: the header is checked first,
      then the token, then the role; a request gets through exactly when
      its token verifies to claims with an allowed role, and then carries
      those claims. The 401 `Unauthorized` answer can never happen after
      `authenticate` has passed the request on. */
  lemma FeedbackGate(req: Request, verify: string -> Option<Claims>)
    ensures var h := Guard(FeedbackRoles, req, verify);
      var claims := if HasBearer(req.authorization) then verify(ExtractToken(req.authorization.value)) else None;
      && (h.outcome == Respond(401, TokenRequired) <==> !HasBearer(req.authorization))
      && (h.outcome == Respond(401, InvalidToken) <==> HasBearer(req.authorization) && claims.None?)
      && (h.outcome == Respond(403, Forbidden) <==>
            claims.Some? && claims.value.role != "admin" && claims.value.role != "curator")
      && (h.outcome == Next <==>
            claims.Some? && (claims.value.role == "admin" || claims.value.role == "curator"))
      && (h.outcome == Next ==> h.req == req.(user := claims))
      && h.outcome != Respond(401, Unauthorized)
  {
    var first := Authenticate(req, verify);
    var claims := if HasBearer(req.authorization) then verify(ExtractToken(req.authorization.value)) else None;
    if first.outcome == Next {
      assert first.req.user == claims;
      assert claims.value.role in FeedbackRoles <==>
        claims.value.role == "admin" || claims.value.role == "curator";
    }
  }

  /** With no roles listed, any authenticated user gets through. */
  lemma EmptyRoleListAdmitsAnyUser(req: Request, verify: string -> Option<Claims>)
    ensures var h := Guard([], req, verify);
      h.outcome == Next <==> HasBearer(req.authorization) && verify(ExtractToken(req.authorization.value)).Some?
  {
  }
}
