/** The administrator model (server/models/Admin.js): the schema's constraints, the
    pre('save') hook that hashes the password only when it was modified,
    comparePassword, and the toJSON form without the password.  bcrypt is a pair
    of uninterpreted functions. */
module AdminModel {
  import opened Common
  import opened Calendar
  import opened Text

  datatype Role = SuperAdmin | Admin

  /** bcrypt: `hash` stands for hashing with the salt drawn for that save, and
      `compare(candidate, stored)` for bcrypt.compare. */
  datatype Crypto = Crypto(hash: string -> string, compare: (string, string) -> bool)

  /** A stored administrator; `password` holds the hash. */
  datatype AdminRecord = AdminRecord(
    id: Id,
    username: string,
    email: string,
    password: string,
    role: Role,
    name: string,
    isActive: bool,
    lastLogin: Option<Date>,
    createdBy: Option<Id>,
    createdAt: Date,
    updatedAt: Date)

  const MinUsernameLength: int := 3
  const MaxUsernameLength: int := 50
  const MinPasswordLength: int := 6

  /** The schema validators on the values the setters produced, lengths counted in
      UTF-16 code units: a username of 3 to 50, an email the pattern accepts, a
      password of at least 6 (checked before the hook hashes it) and a non-empty
      name.  The role is an enum by its type. */
  predicate AdminFieldsValidate(username: string, email: string, password: string, name: string,
                                emailOk: string -> bool) {
    && MinUsernameLength <= JsLength(username) <= MaxUsernameLength
    && emailOk(email)
    && JsLength(password) >= MinPasswordLength
    && name != ""
  }

  /** The constraints a stored administrator meets: the trimmed username within
      its limits (its case is kept), the trimmed and lowercased email accepted by
      the pattern, and a trimmed, non-empty name. */
  predicate AdminConforms(a: AdminRecord, emailOk: string -> bool) {
    && Trimmed(a.username) && MinUsernameLength <= JsLength(a.username) <= MaxUsernameLength
    && Trimmed(a.email) && LowerCase(a.email) && emailOk(a.email)
    && Trimmed(a.name) && a.name != ""
  }

  /** comparePassword: bcrypt.compare of the candidate with the stored hash. */
  function ComparePassword(crypto: Crypto, a: AdminRecord, candidate: string): bool {
    crypto.compare(candidate, a.password)
  }

  /** Nothing but the stored hash is consulted: two records with the same hash
      accept the same candidates. */
  lemma ComparePasswordReadsOnlyHash(crypto: Crypto, a: AdminRecord, b: AdminRecord, candidate: string)
    requires a.password == b.password
    ensures ComparePassword(crypto, a, candidate) == ComparePassword(crypto, b, candidate)
  {
  }

  // ---------------------------------------------------------------------------
  // The document and its pre-save hook

  /** An administrator document in memory. */
  class AdminDocument {
    const id: Id
    var username: string
    var email: string
    var password: string
    var role: Role
    var name: string
    var isActive: bool
    var lastLogin: Option<Date>
    var createdBy: Option<Id>
    var createdAt: Date
    var updatedAt: Date
    /** `isModified('password')`. */
    var passwordModified: bool

    /** `new Admin(data)`: the `trim` setters on username and name, `trim` and
        `lowercase` on email; the password is set, hence modified; isActive
        defaults to true. */
    constructor (id: Id, username: string, email: string, password: string, role: Role,
                 name: string, createdBy: Option<Id>, now: Date)
      ensures this.id == id && this.username == Trim(username)
      ensures this.email == Lower(Trim(email)) && this.name == Trim(name)
      ensures this.password == password && this.passwordModified
      ensures this.role == role && this.isActive && this.lastLogin == None
      ensures this.createdBy == createdBy && this.createdAt == now && this.updatedAt == now
    {
      this.id := id;
      this.username := Trim(username);
      this.email := Lower(Trim(email));
      this.password := password;
      this.role := role;
      this.name := Trim(name);
      this.isActive := true;
      this.lastLogin := None;
      this.createdBy := createdBy;
      this.createdAt := now;
      this.updatedAt := now;
      this.passwordModified := true;
    }

    /** A document read from the collection: nothing is modified yet. */
    constructor Load(a: AdminRecord)
      ensures Record() == a && !passwordModified
    {
      id := a.id;
      username := a.username;
      email := a.email;
      password := a.password;
      role := a.role;
      name := a.name;
      isActive := a.isActive;
      lastLogin := a.lastLogin;
      createdBy := a.createdBy;
      createdAt := a.createdAt;
      updatedAt := a.updatedAt;
      passwordModified := false;
    }

    predicate Validates(emailOk: string -> bool)
      reads this
    {
      AdminFieldsValidate(username, email, password, name, emailOk)
    }

    /** `admin.lastLogin = new Date()`. */
    method SetLastLogin(now: Date)
      modifies this
      ensures lastLogin == Some(now)
      ensures Record() == old(Record()).(lastLogin := Some(now))
      ensures passwordModified == old(passwordModified)
    {
      lastLogin := Some(now);
    }

    /** The pre('save') hook: the password is replaced by its hash when, and only
        when, it was modified; nothing else changes. */
    method PreSave(crypto: Crypto)
      modifies this
      ensures password == if old(passwordModified) then crypto.hash(old(password)) else old(password)
      ensures Record() == old(Record()).(password := password)
      ensures passwordModified == old(passwordModified)
    {
      if passwordModified {
        password := crypto.hash(password);
      }
    }

    /** The `timestamps` option on saving a modified document. */
    method Touch(now: Date)
      modifies this
      ensures Record() == old(Record()).(updatedAt := now)
      ensures passwordModified == old(passwordModified)
    {
      updatedAt := now;
    }

    function Record(): AdminRecord
      reads this
    {
      AdminRecord(id, username, email, password, role, name, isActive, lastLogin,
                  createdBy, createdAt, updatedAt)
    }
  }

  // ---------------------------------------------------------------------------
  // toJSON

  /** What toJSON returns: every stored field but the password (and `__v`). */
  datatype PublicAdmin = PublicAdmin(
    id: Id,
    username: string,
    email: string,
    role: Role,
    name: string,
    isActive: bool,
    lastLogin: Option<Date>,
    createdBy: Option<Id>,
    createdAt: Date,
    updatedAt: Date)

  function ToPublic(a: AdminRecord): PublicAdmin {
    PublicAdmin(a.id, a.username, a.email, a.role, a.name, a.isActive, a.lastLogin,
                a.createdBy, a.createdAt, a.updatedAt)
  }

  /** toJSON drops exactly the password: two records have the same JSON if and
      only if they differ in nothing but their password. */
  lemma ToPublicDropsOnlyPassword(a: AdminRecord, b: AdminRecord)
    ensures ToPublic(a) == ToPublic(b) <==> a.(password := b.password) == b
  {
  }
}
