/** The administrator endpoints (server/controllers/authController.js): login and
    createAdmin change the administrator collection and are methods of the store;
    the token payload, getProfile and getAdmins are functions of the stored
    records. */
module AuthController {
  import opened Common
  import opened Calendar
  import opened Text
  import opened Collections
  import opened AdminModel
  import opened AuthMiddleware

  /** generateToken: the payload names the administrator and nothing else. */
  function GenerateToken(jwt: Jwt, id: Id): string {
    jwt.sign(TokenPayload(id))
  }

  // ---------------------------------------------------------------------------
  // Login

  datatype LoginBody = LoginBody(username: string, password: string)

  /** The `admin` object of the login reply. */
  datatype LoginView = LoginView(
    id: Id, username: string, email: string, name: string, role: Role, lastLogin: Option<Date>)

  datatype LoginReply = LoginReply(token: string, admin: LoginView)

  /** The `findOne` filter of login. */
  predicate LoginMatches(a: AdminRecord, ident: string) {
    a.isActive && (a.username == ident || a.email == ident)
  }

  /** The first administrator at or after `from` that the login filter matches. */
  function FindLoginFrom(admins: seq<AdminRecord>, ident: string, from: nat): (r: Option<nat>)
    ensures r.Some? ==> from <= r.value < |admins| && LoginMatches(admins[r.value], ident)
    ensures r.Some? ==> forall i :: from <= i < r.value ==> !LoginMatches(admins[i], ident)
    ensures r.None? ==> forall i :: from <= i < |admins| ==> !LoginMatches(admins[i], ident)
    decreases |admins| - from
  {
    if from >= |admins| then None
    else if LoginMatches(admins[from], ident) then Some(from)
    else FindLoginFrom(admins, ident, from + 1)
  }

  function FindLogin(admins: seq<AdminRecord>, ident: string): Option<nat> {
    FindLoginFrom(admins, ident, 0)
  }

  /** The administrator after a successful login has been saved: lastLogin and
      updatedAt are the time of the login; the hash is the one stored. */
  function LoggedIn(a: AdminRecord, now: Date): AdminRecord {
    a.(lastLogin := Some(now), updatedAt := now)
  }

  function ViewOf(a: AdminRecord): LoginView {
    LoginView(a.id, a.username, a.email, a.name, a.role, a.lastLogin)
  }

  /** Logging in keeps the hash and every field the login filter reads, so the
      same credentials are accepted again. */
  lemma LoggedInKeepsCredentials(crypto: Crypto, a: AdminRecord, now: Date, ident: string, candidate: string)
    ensures LoggedIn(a, now).password == a.password
    ensures LoginMatches(LoggedIn(a, now), ident) == LoginMatches(a, ident)
    ensures ComparePassword(crypto, LoggedIn(a, now), candidate) == ComparePassword(crypto, a, candidate)
    ensures ToPublic(LoggedIn(a, now)) == ToPublic(a).(lastLogin := Some(now), updatedAt := now)
  {
  }

  /** Replacing a record by one the login filter treats the same way does not
      change which record login finds. */
  lemma {:induction false} FindLoginReplace(admins: seq<AdminRecord>, ident: string, from: nat, k: nat, b: AdminRecord)
    requires k < |admins| && LoginMatches(b, ident) == LoginMatches(admins[k], ident)
    ensures FindLoginFrom(admins[k := b], ident, from) == FindLoginFrom(admins, ident, from)
    decreases |admins| - from
  {
    if from < |admins| {
      FindLoginReplace(admins, ident, from + 1, k, b);
    }
  }

  /** With distinct ids, looking up a record's id finds that record. */
  lemma {:induction false} FindAdminDistinct(admins: seq<AdminRecord>, k: nat)
    requires k < |admins|
    requires forall i, j :: 0 <= i < j < |admins| ==> admins[i].id != admins[j].id
    ensures FindAdmin(admins, admins[k].id) == Some(admins[k])
  {
    if k > 0 {
      assert admins[0].id != admins[k].id;
      FindAdminDistinct(admins[1..], k - 1);
    }
  }

  /** The token a successful login hands out, sent back as "Bearer <token>",
      authenticates as that account in the collection login leaves behind,
      provided the verifier accepts what the signer produced. */
  lemma LoginTokenAuthenticates(jwt: Jwt, admins: seq<AdminRecord>, nextId: Id,
                                emailOk: string -> bool, k: nat, now: Date)
    requires AdminStoreValid(admins, nextId, emailOk) && k < |admins| && admins[k].isActive
    requires var t := GenerateToken(jwt, admins[k].id);
      jwt.verify(t) == Some(TokenPayload(admins[k].id)) && t != ""
    ensures AuthDecision(Some("Bearer " + GenerateToken(jwt, admins[k].id)), jwt,
                         admins[k := LoggedIn(admins[k], now)])
            == Ok(TokenPayload(admins[k].id))
  {
    var s := admins[k := LoggedIn(admins[k], now)];
    forall i, j | 0 <= i < j < |s| ensures s[i].id != s[j].id {
      assert s[i].id == admins[i].id && s[j].id == admins[j].id;
    }
    FindAdminDistinct(s, k);
    SignedTokenAuthenticates(jwt, s, TokenPayload(admins[k].id));
  }

  /** A username with an upper-case letter is never matched by its username,
      since login lowercases the identifier: such an administrator can log in by
      email only. */
  lemma MixedCaseUsernameNeverMatches(a: AdminRecord, username: string, i: int)
    requires 0 <= i < |a.username| && IsUpper(a.username[i])
    ensures a.username != Lower(username)
  {
    LowerFacts(username);
    if |Lower(username)| == |a.username| {
      assert a.username[i] != Lower(username)[i];
    }
  }

  // ---------------------------------------------------------------------------
  // getProfile and getAdmins

  /** getProfile: the public form of the active account, or 404 when it is
      missing or inactive. */
  function GetProfile(admins: seq<AdminRecord>, p: TokenPayload): (r: Result<PublicAdmin>)
    ensures r.Ok? <==> ActiveAccount(admins, p.adminId)
    ensures r.Ok? ==> r.value == ToPublic(FindAdmin(admins, p.adminId).value)
    ensures r.Err? ==> r.failure == AdminNotFound
  {
    var found := FindAdmin(admins, p.adminId);
    if found.None? || !found.value.isActive then Err(AdminNotFound)
    else Ok(ToPublic(found.value))
  }

  /** The `{ isActive: true }` filter. */
  function ActiveAdmins(admins: seq<AdminRecord>): (r: seq<AdminRecord>)
    ensures forall a :: a in r <==> a in admins && a.isActive
    ensures forall a :: multiset(r)[a] == if a.isActive then multiset(admins)[a] else 0
  {
    if |admins| == 0 then []
    else
      assert admins == [admins[0]] + admins[1..];
      (if admins[0].isActive then [admins[0]] else []) + ActiveAdmins(admins[1..])
  }

  function MapPublic(s: seq<AdminRecord>): (r: seq<PublicAdmin>)
    ensures |r| == |s| && forall i :: 0 <= i < |s| ==> r[i] == ToPublic(s[i])
  {
    if |s| == 0 then [] else [ToPublic(s[0])] + MapPublic(s[1..])
  }

  function PublicCreatedKey(a: PublicAdmin): int {
    TimeValue(a.createdAt)
  }

  /** getAdmins: only a SuperAdmin may list (a missing requester makes
      `currentAdmin.role` throw, answered 500); the list is the active
      administrators, without passwords, newest first. */
  function GetAdmins(admins: seq<AdminRecord>, p: TokenPayload): (r: Result<seq<PublicAdmin>>)
    ensures FindAdmin(admins, p.adminId).None? ==> r == Err(AdminServerError)
    ensures FindAdmin(admins, p.adminId).Some? && FindAdmin(admins, p.adminId).value.role != SuperAdmin ==>
      r == Err(ListAdminsForbidden)
    ensures r.Ok? <==> FindAdmin(admins, p.adminId).Some? && FindAdmin(admins, p.adminId).value.role == SuperAdmin
    ensures r.Ok? ==> SortedDesc(r.value, PublicCreatedKey)
    ensures r.Ok? ==> multiset(r.value) == multiset(MapPublic(ActiveAdmins(admins)))
  {
    var found := FindAdmin(admins, p.adminId);
    if found.None? then Err(AdminServerError)
    else if found.value.role != SuperAdmin then Err(ListAdminsForbidden)
    else Ok(SortDesc(MapPublic(ActiveAdmins(admins)), PublicCreatedKey))
  }

  /** The public forms of s are exactly the images of its elements. */
  lemma MapPublicMembers(s: seq<AdminRecord>, x: PublicAdmin)
    ensures x in MapPublic(s) <==> exists a :: a in s && x == ToPublic(a)
  {
    var m := MapPublic(s);
    if x in m {
      var i :| 0 <= i < |m| && m[i] == x;
      assert s[i] in s;
    }
    if exists a :: a in s && x == ToPublic(a) {
      var a :| a in s && x == ToPublic(a);
      var i :| 0 <= i < |s| && s[i] == a;
      assert m[i] == x;
    }
  }

  /** The listing holds exactly the public forms of the active administrators. */
  lemma GetAdminsContents(admins: seq<AdminRecord>, p: TokenPayload, x: PublicAdmin)
    requires GetAdmins(admins, p).Ok?
    ensures x in GetAdmins(admins, p).value <==> exists a :: a in admins && a.isActive && x == ToPublic(a)
  {
    var m := MapPublic(ActiveAdmins(admins));
    var r := GetAdmins(admins, p).value;
    assert x in r <==> x in multiset(r);
    assert x in m <==> x in multiset(m);
    MapPublicMembers(ActiveAdmins(admins), x);
  }

  // ---------------------------------------------------------------------------
  // createAdmin

  datatype AdminBody = AdminBody(username: string, email: string, password: string, name: string)

  /** The `admin` object of the createAdmin reply. */
  datatype CreatedView = CreatedView(id: Id, username: string, email: string, name: string, role: Role)

  predicate AdminBodyPresent(b: AdminBody) {
    b.username != "" && b.email != "" && b.password != "" && b.name != ""
  }

  /** Some administrator, active or not, has this username or this email. */
  predicate AdminTaken(admins: seq<AdminRecord>, username: string, email: string) {
    exists i :: 0 <= i < |admins| && (admins[i].username == username || admins[i].email == email)
  }

  /** The validators of `newAdmin.save()` on the values the setters produce. */
  predicate NewAdminValidates(b: AdminBody, emailOk: string -> bool) {
    AdminFieldsValidate(Trim(b.username), Lower(Trim(b.email)), b.password, Trim(b.name), emailOk)
  }

  /** The record createAdmin stores: role Admin and createdBy the requester
      whatever the body holds, and the password hashed. */
  function NewAdmin(id: Id, b: AdminBody, requester: Id, crypto: Crypto, now: Date): AdminRecord {
    AdminRecord(id, Trim(b.username), Lower(Trim(b.email)), crypto.hash(b.password), Admin,
                Trim(b.name), true, None, Some(requester), now, now)
  }

  function CreatedViewOf(a: AdminRecord): CreatedView {
    CreatedView(a.id, a.username, a.email, a.name, a.role)
  }

  /** A created administrator is an active Admin created by the requester, holds
      the hash of the submitted password, and meets the schema. */
  lemma NewAdminFacts(id: Id, b: AdminBody, requester: Id, crypto: Crypto, now: Date, emailOk: string -> bool)
    requires NewAdminValidates(b, emailOk)
    ensures var a := NewAdmin(id, b, requester, crypto, now);
      && a.role == Admin && a.createdBy == Some(requester) && a.isActive
      && a.password == crypto.hash(b.password) && a.lastLogin == None
      && AdminConforms(a, emailOk)
  {
    TrimIdempotent(b.username);
    TrimIdempotent(b.name);
    TrimLowerNormalizes(b.email);
  }

  // ---------------------------------------------------------------------------
  // The store

  predicate AdminRecordOk(a: AdminRecord, nextId: Id, emailOk: string -> bool) {
    a.id < nextId && AdminConforms(a, emailOk)
  }

  /** Every record meets the schema; ids, usernames and emails are distinct (the
      unique indexes). */
  ghost predicate AdminStoreValid(admins: seq<AdminRecord>, nextId: Id, emailOk: string -> bool) {
    && (forall i :: 0 <= i < |admins| ==> AdminRecordOk(admins[i], nextId, emailOk))
    && (forall i, j :: 0 <= i < j < |admins| ==>
          && admins[i].id != admins[j].id
          && admins[i].username != admins[j].username
          && admins[i].email != admins[j].email)
  }

  lemma LoginKeepsValid(admins: seq<AdminRecord>, nextId: Id, emailOk: string -> bool, k: nat, now: Date)
    requires AdminStoreValid(admins, nextId, emailOk) && k < |admins|
    ensures AdminStoreValid(admins[k := LoggedIn(admins[k], now)], nextId, emailOk)
  {
    var s := admins[k := LoggedIn(admins[k], now)];
    assert AdminRecordOk(admins[k], nextId, emailOk);
    forall i | 0 <= i < |s| ensures AdminRecordOk(s[i], nextId, emailOk) {
      if i != k {
        assert s[i] == admins[i];
      }
    }
    forall i, j | 0 <= i < j < |s|
      ensures s[i].id != s[j].id && s[i].username != s[j].username && s[i].email != s[j].email
    {
      assert s[i].id == admins[i].id && s[i].username == admins[i].username && s[i].email == admins[i].email;
      assert s[j].id == admins[j].id && s[j].username == admins[j].username && s[j].email == admins[j].email;
    }
  }

  lemma CreateAdminKeepsValid(admins: seq<AdminRecord>, nextId: Id, emailOk: string -> bool,
                              b: AdminBody, requester: Id, crypto: Crypto, now: Date)
    requires AdminStoreValid(admins, nextId, emailOk)
    requires NewAdminValidates(b, emailOk)
    requires !AdminTaken(admins, Trim(b.username), Lower(Trim(b.email)))
    ensures AdminStoreValid(admins + [NewAdmin(nextId, b, requester, crypto, now)], nextId + 1, emailOk)
  {
    var a := NewAdmin(nextId, b, requester, crypto, now);
    var s := admins + [a];
    NewAdminFacts(nextId, b, requester, crypto, now, emailOk);
    forall i | 0 <= i < |s| ensures AdminRecordOk(s[i], nextId + 1, emailOk) {
      if i < |admins| {
        assert AdminRecordOk(admins[i], nextId, emailOk);
      }
    }
    forall i, j | 0 <= i < j < |s|
      ensures s[i].id != s[j].id && s[i].username != s[j].username && s[i].email != s[j].email
    {
      if j == |admins| {
        assert AdminRecordOk(admins[i], nextId, emailOk);
      }
    }
  }

  /** The administrator collection with the server's bcrypt, JWT and email
      pattern. */
  class AdminStore {
    var admins: seq<AdminRecord>
    var nextId: Id
    const emailOk: string -> bool
    const crypto: Crypto
    const jwt: Jwt

    ghost predicate Valid()
      reads this
    {
      AdminStoreValid(admins, nextId, emailOk)
    }

    constructor (emailOk: string -> bool, crypto: Crypto, jwt: Jwt)
      ensures Valid() && admins == []
      ensures this.emailOk == emailOk && this.crypto == crypto && this.jwt == jwt
    {
      admins := [];
      nextId := 0;
      this.emailOk := emailOk;
      this.crypto := crypto;
      this.jwt := jwt;
    }

    /** login.  400 without a username or a password; 401, with one message, both
        when no active administrator has the lowercased identifier as username or
        email and when the password does not match; otherwise lastLogin is set and
        saved (the hash untouched), and the reply carries a token for the account
        and its view. */
    method Login(b: LoginBody, now: Date) returns (r: Result<LoginReply>)
      requires Valid()
      modifies this
      ensures Valid()
      ensures b.username == "" || b.password == "" ==> r == Err(MissingCredentials)
      ensures b.username != "" && b.password != "" ==>
        var found := FindLogin(old(admins), Lower(b.username));
        if found.None? then r == Err(InvalidCredentials)
        else if !ComparePassword(crypto, old(admins)[found.value], b.password) then r == Err(InvalidCredentials)
        else
          && admins == old(admins)[found.value := LoggedIn(old(admins)[found.value], now)]
          && r == Ok(LoginReply(GenerateToken(jwt, old(admins)[found.value].id),
                                ViewOf(LoggedIn(old(admins)[found.value], now))))
      ensures r.Err? ==> admins == old(admins)
      ensures nextId == old(nextId)
    {
      if b.username == "" || b.password == "" {
        return Err(MissingCredentials);
      }
      var found := FindLogin(admins, Lower(b.username));
      if found.None? {
        return Err(InvalidCredentials);
      }
      var k := found.value;
      if !ComparePassword(crypto, admins[k], b.password) {
        return Err(InvalidCredentials);
      }
      var doc := new AdminDocument.Load(admins[k]);
      doc.SetLastLogin(now);
      doc.PreSave(crypto);
      doc.Touch(now);
      var saved := doc.Record();
      assert saved == LoggedIn(admins[k], now);
      LoginKeepsValid(admins, nextId, emailOk, k, now);
      admins := admins[k := saved];
      r := Ok(LoginReply(GenerateToken(jwt, saved.id), ViewOf(saved)));
    }

    /** createAdmin.  500 when the requester's account is gone; 403 for anyone
        but a SuperAdmin, before the body is looked at; 400 for a missing field;
        400 when any administrator has the username or the email; a failed
        validator or unique index ends in the catch-all 500; otherwise one active
        Admin, created by the requester and holding the hash, is appended. */
    method CreateAdmin(p: TokenPayload, b: AdminBody, now: Date) returns (r: Result<CreatedView>)
      requires Valid()
      modifies this
      ensures Valid()
      ensures var cur := FindAdmin(old(admins), p.adminId);
        if cur.None? then r == Err(AdminServerError)
        else if cur.value.role != SuperAdmin then r == Err(CreateAdminForbidden)
        else if !AdminBodyPresent(b) then r == Err(MissingFields)
        else if AdminTaken(old(admins), b.username, b.email) then r == Err(AdminExists)
        else if !NewAdminValidates(b, emailOk) then r == Err(AdminServerError)
        else if AdminTaken(old(admins), Trim(b.username), Lower(Trim(b.email))) then r == Err(AdminServerError)
        else
          && admins == old(admins) + [NewAdmin(old(nextId), b, p.adminId, crypto, now)]
          && r == Ok(CreatedViewOf(NewAdmin(old(nextId), b, p.adminId, crypto, now)))
      ensures r.Err? ==> admins == old(admins)
      ensures nextId == if r.Ok? then old(nextId) + 1 else old(nextId)
    {
      var cur := FindAdmin(admins, p.adminId);
      if cur.None? {
        return Err(AdminServerError);
      }
      if cur.value.role != SuperAdmin {
        return Err(CreateAdminForbidden);
      }
      if !AdminBodyPresent(b) {
        return Err(MissingFields);
      }
      if AdminTaken(admins, b.username, b.email) {
        return Err(AdminExists);
      }
      var doc := new AdminDocument(nextId, b.username, b.email, b.password, Admin, b.name,
                                   Some(p.adminId), now);
      assert doc.Validates(emailOk) == NewAdminValidates(b, emailOk);
      if !doc.Validates(emailOk) {
        return Err(AdminServerError);
      }
      doc.PreSave(crypto);
      if AdminTaken(admins, doc.username, doc.email) {
        return Err(AdminServerError);
      }
      var created := doc.Record();
      assert created == NewAdmin(nextId, b, p.adminId, crypto, now);
      CreateAdminKeepsValid(admins, nextId, emailOk, b, p.adminId, crypto, now);
      admins := admins + [created];
      nextId := nextId + 1;
      r := Ok(CreatedViewOf(created));
    }
  }
}
