/** The request gates (server/middleware/auth.js) and the routes that use them
    (server/routes/userRoutes.js, server/routes/authRoutes.js).  JWT signing and
    verification are uninterpreted functions; the administrator collection is
    passed in. */
module AuthMiddleware {
  import opened Common
  import opened Text
  import opened AdminModel

  /** The signed payload: the administrator's id and nothing else. */
  datatype TokenPayload = TokenPayload(adminId: Id)

  /** jwt.sign and jwt.verify with the server's secret: `verify` gives None for a
      token it refuses (bad signature, expired, malformed). */
  datatype Jwt = Jwt(sign: TokenPayload -> string, verify: string -> Option<TokenPayload>)

  /** The administrator with this id. */
  function FindAdmin(admins: seq<AdminRecord>, id: Id): (r: Option<AdminRecord>)
    ensures r.Some? ==> r.value in admins && r.value.id == id
    ensures r.None? ==> forall i :: 0 <= i < |admins| ==> admins[i].id != id
  {
    if |admins| == 0 then None
    else if admins[0].id == id then Some(admins[0])
    else FindAdmin(admins[1..], id)
  }

  /** `req.header('Authorization')?.replace('Bearer ', '')`. */
  function ExtractToken(header: Option<string>): Option<string> {
    match header
    case None => None
    case Some(h) => Some(ReplaceFirst(h, "Bearer ", ""))
  }

  /** A header "Bearer <t>" yields t; a header without the prefix anywhere is taken
      as the token itself. */
  lemma ExtractTokenFacts(t: string, h: string)
    ensures ExtractToken(Some("Bearer " + t)) == Some(t)
    ensures !Includes(h, "Bearer ") ==> ExtractToken(Some(h)) == Some(h)
  {
    var s := "Bearer " + t;
    assert s[..|"Bearer "|] == "Bearer ";
    assert s[|"Bearer "|..] == t;
    ReplaceFirstFacts(s, "Bearer ");
    ReplaceFirstFacts(h, "Bearer ");
  }

  /** The account exists and is active. */
  predicate ActiveAccount(admins: seq<AdminRecord>, id: Id) {
    FindAdmin(admins, id).Some? && FindAdmin(admins, id).value.isActive
  }

  /** The decision of authenticate: a missing or empty token, then a token the
      verifier refuses, then a missing or inactive account, each give 401; otherwise
      the decoded payload. */
  function AuthDecision(header: Option<string>, jwt: Jwt, admins: seq<AdminRecord>): (r: Result<TokenPayload>)
    ensures ExtractToken(header) == None || ExtractToken(header) == Some("") ==> r == Err(MissingToken)
    ensures r.Ok? <==>
      && ExtractToken(header).Some? && ExtractToken(header).value != ""
      && jwt.verify(ExtractToken(header).value).Some?
      && ActiveAccount(admins, jwt.verify(ExtractToken(header).value).value.adminId)
    ensures r.Ok? ==> Some(r.value) == jwt.verify(ExtractToken(header).value)
    ensures r.Err? ==> r.failure in {MissingToken, InvalidToken, InactiveAccount}
  {
    match ExtractToken(header)
    case None => Err(MissingToken)
    case Some(token) =>
      if token == "" then Err(MissingToken)
      else match jwt.verify(token)
        case None => Err(InvalidToken)
        case Some(decoded) =>
          if ActiveAccount(admins, decoded.adminId) then Ok(decoded) else Err(InactiveAccount)
  }

  /** A request as the middleware sees it. */
  class Request {
    const authorization: Option<string>
    /** `req.admin`. */
    var admin: Option<TokenPayload>

    constructor (authorization: Option<string>)
      ensures this.authorization == authorization && admin == None
    {
      this.authorization := authorization;
      admin := None;
    }

    /** authenticate: on success `req.admin` is the decoded payload and the request
        proceeds; otherwise it is answered with the failure and `req.admin` is
        left alone. */
    method Authenticate(jwt: Jwt, admins: seq<AdminRecord>) returns (r: Result<TokenPayload>)
      modifies this
      ensures r == AuthDecision(authorization, jwt, admins)
      ensures admin == if r.Ok? then Some(r.value) else old(admin)
    {
      var token := ExtractToken(authorization);
      if token.None? || token.value == "" {
        return Err(MissingToken);
      }
      var decoded := jwt.verify(token.value);
      if decoded.None? {
        return Err(InvalidToken);
      }
      var account := FindAdmin(admins, decoded.value.adminId);
      if account.None? || !account.value.isActive {
        return Err(InactiveAccount);
      }
      admin := decoded;
      r := Ok(decoded.value);
    }
  }

  /** requireSuperAdmin: the live stored role decides; a missing account makes
      `admin.role` throw, which is answered 500. */
  function RequireSuperAdmin(p: TokenPayload, admins: seq<AdminRecord>): (r: Result<()>)
    ensures FindAdmin(admins, p.adminId).None? <==> r == Err(PrivilegeCheckFailed)
    ensures r.Ok? <==> FindAdmin(admins, p.adminId).Some? && FindAdmin(admins, p.adminId).value.role == SuperAdmin
    ensures (r.Err? && r.failure == SuperAdminRequired) <==>
      FindAdmin(admins, p.adminId).Some? && FindAdmin(admins, p.adminId).value.role == Admin
  {
    var found := FindAdmin(admins, p.adminId);
    if found.None? then Err(PrivilegeCheckFailed)
    else if found.value.role != SuperAdmin then
      assert found.value.role == Admin;
      Err(SuperAdminRequired)
    else Ok(())
  }

  /** requireAdmin: the role must be Admin or SuperAdmin; a missing account is
      answered 500. */
  function RequireAdmin(p: TokenPayload, admins: seq<AdminRecord>): (r: Result<()>)
    ensures FindAdmin(admins, p.adminId).None? <==> r == Err(PrivilegeCheckFailed)
  {
    var found := FindAdmin(admins, p.adminId);
    if found.None? then Err(PrivilegeCheckFailed)
    else if found.value.role == Admin || found.value.role == SuperAdmin then Ok(())
    else Err(AdminRequired)
  }

  /** The role hierarchy: requireAdmin refuses only a missing account (its 403 can
      never be sent, every role qualifies), so whatever passes requireSuperAdmin
      passes requireAdmin. */
  lemma RoleHierarchy(p: TokenPayload, admins: seq<AdminRecord>)
    ensures RequireAdmin(p, admins).Ok? <==> FindAdmin(admins, p.adminId).Some?
    ensures RequireAdmin(p, admins) != Err(AdminRequired)
    ensures RequireSuperAdmin(p, admins).Ok? ==> RequireAdmin(p, admins).Ok?
  {
  }

  /** The token carries no role, so the gate sees a role change at once: the same
      payload is refused 403 after a SuperAdmin is demoted to Admin. */
  lemma GateReadsLiveRole(p: TokenPayload, admins: seq<AdminRecord>, k: nat)
    requires k < |admins| && admins[k].id == p.adminId
    requires forall i :: 0 <= i < k ==> admins[i].id != p.adminId
    ensures RequireSuperAdmin(p, admins[k := admins[k].(role := Admin)]) == Err(SuperAdminRequired)
  {
    DemotedFound(admins, p.adminId, k);
  }

  lemma {:induction false} DemotedFound(admins: seq<AdminRecord>, id: Id, k: nat)
    requires k < |admins| && admins[k].id == id
    requires forall i :: 0 <= i < k ==> admins[i].id != id
    ensures FindAdmin(admins[k := admins[k].(role := Admin)], id) == Some(admins[k].(role := Admin))
  {
    if k > 0 {
      assert admins[k := admins[k].(role := Admin)][1..] == admins[1..][k - 1 := admins[k].(role := Admin)];
      DemotedFound(admins[1..], id, k - 1);
    }
  }

  // ---------------------------------------------------------------------------
  // Routes

  /** The middleware chain in front of a handler. */
  datatype Gate = Public | Authenticated | AdminOnly | SuperAdminOnly

  datatype Handler =
    | GetAllUsers | GetUserById | CreateUser | UpdateUser | DeleteUser | GetUserStats
    | Login | Logout | GetProfile | CreateAdmin | GetAdmins

  datatype Route = Route(verb: string, path: string, gate: Gate, handler: Handler)

  /** The routes as they are declared, `/api` prefixes aside. */
  const Routes: seq<Route> := [
    Route("GET", "/users", AdminOnly, GetAllUsers),
    Route("GET", "/users/:id", AdminOnly, GetUserById),
    Route("POST", "/users", AdminOnly, CreateUser),
    Route("PUT", "/users/:id", AdminOnly, UpdateUser),
    Route("DELETE", "/users/:id", AdminOnly, DeleteUser),
    Route("GET", "/stats", AdminOnly, GetUserStats),
    Route("POST", "/login", Public, Login),
    Route("POST", "/logout", Public, Logout),
    Route("GET", "/profile", Authenticated, GetProfile),
    Route("POST", "/create-admin", SuperAdminOnly, CreateAdmin),
    Route("GET", "/admins", SuperAdminOnly, GetAdmins)
  ]

  predicate IsUserHandler(h: Handler) {
    h in {GetAllUsers, GetUserById, CreateUser, UpdateUser, DeleteUser, GetUserStats}
  }

  /** Running a gate: Ok with the payload `req.admin` carries (None on a public
      route), or the answer that stops the request. */
  function RunGate(g: Gate, header: Option<string>, jwt: Jwt, admins: seq<AdminRecord>): Result<Option<TokenPayload>> {
    if g == Public then Ok(None)
    else match AuthDecision(header, jwt, admins)
      case Err(f) => Err(f)
      case Ok(p) =>
        if g == Authenticated then Ok(Some(p))
        else
          var gate := if g == AdminOnly then RequireAdmin(p, admins) else RequireSuperAdmin(p, admins);
          match gate
          case Err(f) => Err(f)
          case Ok(_) => Ok(Some(p))
  }

  /** The subscriber routes: every subscriber endpoint is behind authenticate and
      requireAdmin, and no other endpoint is. */
  lemma UserRouteGates()
    ensures forall i :: 0 <= i < |Routes| ==> (IsUserHandler(Routes[i].handler) <==> Routes[i].gate == AdminOnly)
  {
  }

  /** The administrator routes: createAdmin and getAdmins are exactly the endpoints
      behind authenticate and requireSuperAdmin, the profile sits behind
      authenticate alone, and only login and logout are public. */
  lemma AuthRouteGates()
    ensures forall i :: 0 <= i < |Routes| ==>
      (Routes[i].handler in {CreateAdmin, GetAdmins} <==> Routes[i].gate == SuperAdminOnly)
    ensures forall i :: 0 <= i < |Routes| ==> (Routes[i].handler in {Login, Logout} <==> Routes[i].gate == Public)
    ensures forall i :: 0 <= i < |Routes| ==> (Routes[i].handler == GetProfile <==> Routes[i].gate == Authenticated)
  {
  }

  /** Through the admin gate a request passes exactly when it authenticates; the
      500 of requireAdmin cannot arise there because authenticate has already found
      the account. */
  lemma AdminGateOutcome(header: Option<string>, jwt: Jwt, admins: seq<AdminRecord>)
    ensures RunGate(AdminOnly, header, jwt, admins).Ok? <==> AuthDecision(header, jwt, admins).Ok?
    ensures RunGate(AdminOnly, header, jwt, admins).Err? ==>
      RunGate(AdminOnly, header, jwt, admins).failure == AuthDecision(header, jwt, admins).failure
  {
    if AuthDecision(header, jwt, admins).Ok? {
      RoleHierarchy(AuthDecision(header, jwt, admins).value, admins);
    }
  }

  /** Through the SuperAdmin gate a request passes exactly when it authenticates as
      an active SuperAdmin; an authenticated Admin gets 403; no 500 can arise. */
  lemma SuperAdminGateOutcome(header: Option<string>, jwt: Jwt, admins: seq<AdminRecord>)
    ensures var a := AuthDecision(header, jwt, admins);
      RunGate(SuperAdminOnly, header, jwt, admins).Ok? <==>
        a.Ok? && FindAdmin(admins, a.value.adminId).value.role == SuperAdmin
    ensures var a := AuthDecision(header, jwt, admins);
      a.Ok? && FindAdmin(admins, a.value.adminId).value.role == Admin ==>
        RunGate(SuperAdminOnly, header, jwt, admins) == Err(SuperAdminRequired)
    ensures RunGate(SuperAdminOnly, header, jwt, admins) != Err(PrivilegeCheckFailed)
  {
  }

  /** A token minted for an active account, sent as "Bearer <token>", authenticates
      as that account, provided the verifier accepts what the signer produced. */
  lemma SignedTokenAuthenticates(jwt: Jwt, admins: seq<AdminRecord>, p: TokenPayload)
    requires jwt.verify(jwt.sign(p)) == Some(p) && jwt.sign(p) != ""
    requires ActiveAccount(admins, p.adminId)
    ensures AuthDecision(Some("Bearer " + jwt.sign(p)), jwt, admins) == Ok(p)
  {
    ExtractTokenFacts(jwt.sign(p), "");
  }
}
