/** The subscriber model (server/models/User.js): the schema's field constraints,
    the pre('save') hook that derives expirationDate and status on the document,
    the pre('findOneAndUpdate') hook that adds them to an update object, and the
    JSON form with its hexadecimal `id`. */
module UserModel {
  import opened Common
  import opened Calendar
  import opened Text

  datatype Service = Netflix | PrimeVideo
  datatype Status = Active | Expired

  function ServiceName(s: Service): string {
    match s
    case Netflix => "Netflix"
    case PrimeVideo => "PrimeVideo"
  }

  function StatusName(s: Status): string {
    match s
    case Active => "Active"
    case Expired => "Expired"
  }

  /** The enum validator of the `service` path: only the two names are accepted,
      each as the service it names. */
  function ParseService(s: string): (r: Option<Service>)
    ensures r.Some? <==> (s == "Netflix" || s == "PrimeVideo")
    ensures r.Some? ==> ServiceName(r.value) == s
  {
    if s == "Netflix" then Some(Netflix)
    else if s == "PrimeVideo" then Some(PrimeVideo)
    else None
  }

  lemma ParseServiceName(x: Service)
    ensures ParseService(ServiceName(x)) == Some(x)
  {
  }

  const MinNameLength: int := 2
  const MaxNameLength: int := 100
  const MinValidityMonths: int := 1
  const MaxValidityMonths: int := 24

  /** minlength/maxlength of `name`, applied to the trimmed value and measured in
      UTF-16 code units. */
  predicate NameOk(name: string) {
    MinNameLength <= JsLength(name) <= MaxNameLength
  }

  /** min/max of `validityMonths`. */
  predicate MonthsOk(m: int) {
    MinValidityMonths <= m <= MaxValidityMonths
  }

  /** The status of a subscription ending at `expiration`, as seen at `now`:
      `expirationDate > now ? 'Active' : 'Expired'`. */
  function StatusAt(expiration: Date, now: Date): Status {
    if Later(expiration, now) then Active else Expired
  }

  /** Active exactly while the expiration is strictly ahead; once Expired, a later
      clock can only see it Expired. */
  lemma StatusAtFacts(expiration: Date, now: Date, later: Date)
    ensures StatusAt(expiration, now) == Active <==> TimeValue(expiration) > TimeValue(now)
    ensures StatusAt(expiration, now) == Expired && NotLater(now, later) ==>
      StatusAt(expiration, later) == Expired
  {
  }

  /** A stored subscriber document. */
  datatype User = User(
    id: Id,
    name: string,
    email: string,
    service: Service,
    subscriptionDate: Date,
    validityMonths: int,
    expirationDate: Date,
    status: Status,
    createdAt: Date,
    updatedAt: Date)

  /** The schema constraints a stored document meets: trimmed name of 2 to 100
      characters, trimmed and lowercased email accepted by the email pattern, and
      validityMonths in [1, 24] (service and status are enums by their type). */
  predicate Conforms(u: User, emailOk: string -> bool) {
    && Trimmed(u.name) && NameOk(u.name)
    && Trimmed(u.email) && LowerCase(u.email) && emailOk(u.email)
    && MonthsOk(u.validityMonths)
  }

  /** The derived expiration agrees with the subscription inputs. */
  predicate Derived(u: User) {
    u.expirationDate == AddMonths(u.subscriptionDate, u.validityMonths)
  }

  /** The schema validators of a whole document, run by save() on the values the
      setters produced: the required paths, the length limits, the email pattern,
      the service enum and the validity range. */
  predicate FieldsValidate(name: string, email: string, service: string,
                           subscriptionDate: Option<Date>, validityMonths: int,
                           emailOk: string -> bool) {
    && NameOk(name)
    && emailOk(email)
    && ParseService(service).Some?
    && subscriptionDate.Some?
    && MonthsOk(validityMonths)
  }

  /** `this.subscriptionDate || new Date()`. */
  function BaseDate(subscriptionDate: Option<Date>, now: Date): Date {
    if subscriptionDate.Some? then subscriptionDate.value else now
  }

  // ---------------------------------------------------------------------------
  // The document and its pre-save hook

  /** A subscriber document in memory, before it is saved. */
  class UserDocument {
    const id: Id
    var name: string
    var email: string
    var service: string
    var subscriptionDate: Option<Date>
    var validityMonths: int
    var expirationDate: Option<Date>
    var status: Status
    var createdAt: Date
    var updatedAt: Date

    /** `new User(data)`: the `trim` setter on name, the `trim` and `lowercase`
        setters on email, the default status, and the timestamps. */
    constructor (id: Id, name: string, email: string, service: string,
                 validityMonths: int, subscriptionDate: Option<Date>, now: Date)
      ensures this.id == id && this.name == Trim(name) && this.email == Lower(Trim(email))
      ensures this.service == service && this.validityMonths == validityMonths
      ensures this.subscriptionDate == subscriptionDate
      ensures this.expirationDate == None && this.status == Active
      ensures this.createdAt == now && this.updatedAt == now
    {
      this.id := id;
      this.name := Trim(name);
      this.email := Lower(Trim(email));
      this.service := service;
      this.validityMonths := validityMonths;
      this.subscriptionDate := subscriptionDate;
      this.expirationDate := None;
      this.status := Active;
      this.createdAt := now;
      this.updatedAt := now;
    }

    /** Mongoose validation of the document, which runs before the pre-save hook. */
    predicate Validates(emailOk: string -> bool)
      reads this
    {
      FieldsValidate(name, email, service, subscriptionDate, validityMonths, emailOk)
    }

    /** The pre('save') hook: the expiration is the base date advanced by
        validityMonths calendar months, the status compares it with the clock, and
        no other field changes. */
    method PreSave(now: Date)
      modifies this
      ensures expirationDate == Some(AddMonths(BaseDate(old(subscriptionDate), now), validityMonths))
      ensures status == StatusAt(expirationDate.value, now)
      ensures name == old(name) && email == old(email) && service == old(service)
      ensures subscriptionDate == old(subscriptionDate) && validityMonths == old(validityMonths)
      ensures createdAt == old(createdAt) && updatedAt == old(updatedAt)
    {
      var base := if subscriptionDate.Some? then subscriptionDate.value else now;
      var expiration := AddMonths(base, validityMonths);
      expirationDate := Some(expiration);
      status := if Later(expiration, now) then Active else Expired;
    }

    /** The document as it is stored. */
    function Record(): User
      reads this
      requires ParseService(service).Some? && subscriptionDate.Some? && expirationDate.Some?
    {
      User(id, name, email, ParseService(service).value, subscriptionDate.value,
           validityMonths, expirationDate.value, status, createdAt, updatedAt)
    }
  }

  // ---------------------------------------------------------------------------
  // The update object and its pre-update hook

  /** The keys an update object may carry, at the top level or under `$set`. */
  datatype UpdateFields = UpdateFields(
    name: Option<string>,
    email: Option<string>,
    service: Option<string>,
    validityMonths: Option<int>,
    subscriptionDate: Option<Date>,
    expirationDate: Option<Date>,
    status: Option<Status>)

  /** JavaScript truthiness of a numeric key: present and not 0. */
  predicate Truthy(m: Option<int>) {
    m.Some? && m.value != 0
  }

  /** `u.subscriptionDate || u.validityMonths` (a Date object is always truthy). */
  predicate CarriesSubscriptionInput(f: UpdateFields) {
    f.subscriptionDate.Some? || Truthy(f.validityMonths)
  }

  /** The derivation of the pre-update hook: each subscription input the update
      does not carry is taken from the stored document, and the update is extended
      with the expiration and status computed from them. */
  function Rederive(f: UpdateFields, doc: User, now: Date): UpdateFields {
    var subscriptionDate := if f.subscriptionDate.Some? then f.subscriptionDate.value else doc.subscriptionDate;
    var validityMonths := if Truthy(f.validityMonths) then f.validityMonths.value else doc.validityMonths;
    var expiration := AddMonths(subscriptionDate, validityMonths);
    f.(expirationDate := Some(expiration), status := Some(StatusAt(expiration, now)))
  }

  /** Rederive leaves every supplied key as it was and only adds the two derived
      keys, computed from the effective inputs. */
  lemma RederiveExtends(f: UpdateFields, doc: User, now: Date)
    ensures var g := Rederive(f, doc, now);
      && g.name == f.name && g.email == f.email && g.service == f.service
      && g.validityMonths == f.validityMonths && g.subscriptionDate == f.subscriptionDate
      && g.expirationDate.Some? && g.status == Some(StatusAt(g.expirationDate.value, now))
      && (f.subscriptionDate.Some? ==>
            g.expirationDate.value == AddMonths(f.subscriptionDate.value,
              if Truthy(f.validityMonths) then f.validityMonths.value else doc.validityMonths))
      && (f.subscriptionDate.None? && Truthy(f.validityMonths) ==>
            g.expirationDate.value == AddMonths(doc.subscriptionDate, f.validityMonths.value))
  {
  }

  /** The update object of a findOneAndUpdate/updateOne query. */
  class UserUpdate {
    var setPart: Option<UpdateFields>
    var fields: UpdateFields

    constructor (setPart: Option<UpdateFields>, fields: UpdateFields)
      ensures this.setPart == setPart && this.fields == fields
    {
      this.setPart := setPart;
      this.fields := fields;
    }

    /** The pre-update hook.  The `$set` shape is tried first, then the plain
        shape; the derived keys are added only when that shape carries a
        subscription input and a document matches the query, and the update is
        otherwise left exactly as it was. */
    method PreUpdate(doc: Option<User>, now: Date)
      modifies this
      ensures old(setPart).Some? && CarriesSubscriptionInput(old(setPart).value) ==>
        && fields == old(fields)
        && setPart == if doc.Some? then Some(Rederive(old(setPart).value, doc.value, now)) else old(setPart)
      ensures !(old(setPart).Some? && CarriesSubscriptionInput(old(setPart).value))
              && CarriesSubscriptionInput(old(fields)) ==>
        && setPart == old(setPart)
        && fields == if doc.Some? then Rederive(old(fields), doc.value, now) else old(fields)
      ensures !(old(setPart).Some? && CarriesSubscriptionInput(old(setPart).value))
              && !CarriesSubscriptionInput(old(fields)) ==>
        setPart == old(setPart) && fields == old(fields)
    {
      if setPart.Some? && CarriesSubscriptionInput(setPart.value) {
        if doc.None? {
          return;
        }
        setPart := Some(Rederive(setPart.value, doc.value, now));
      } else if CarriesSubscriptionInput(fields) {
        if doc.None? {
          return;
        }
        fields := Rederive(fields, doc.value, now);
      }
    }
  }

  // ---------------------------------------------------------------------------
  // toJSON: the `id` virtual

  /** ObjectId.toHexString: 24 lower-case hexadecimal digits (more only for an id
      beyond 96 bits, which an ObjectId never is). */
  const ObjectIdHexDigits: nat := 24

  function HexDigit(d: nat): char
    requires d < 16
  {
    if d < 10 then ('0' as int + d) as char else ('a' as int + d - 10) as char
  }

  function HexValue(c: char): nat {
    if '0' <= c <= '9' then c as int - '0' as int
    else if 'a' <= c <= 'f' then c as int - 'a' as int + 10
    else 0
  }

  /** The digits of n in base 16, padded with zeros to at least `width` digits. */
  function ToHex(n: nat, width: nat): (r: string)
    ensures |r| >= width
    decreases n + width
  {
    if n == 0 && width == 0 then []
    else ToHex(n / 16, if width == 0 then 0 else width - 1) + [HexDigit(n % 16)]
  }

  function FromHex(s: string): nat {
    if s == [] then 0 else FromHex(s[..|s| - 1]) * 16 + HexValue(s[|s| - 1])
  }

  /** Reading the hexadecimal digits back gives the number. */
  lemma {:induction false} HexRoundTrip(n: nat, width: nat)
    ensures FromHex(ToHex(n, width)) == n
    decreases n + width
  {
    if !(n == 0 && width == 0) {
      var w := if width == 0 then 0 else width - 1;
      var s := ToHex(n / 16, w) + [HexDigit(n % 16)];
      assert s[..|s| - 1] == ToHex(n / 16, w);
      HexRoundTrip(n / 16, w);
    }
  }

  function HexId(id: Id): string {
    ToHex(id, ObjectIdHexDigits)
  }

  /** Distinct documents get distinct JSON ids. */
  lemma HexIdInjective(a: Id, b: Id)
    ensures |HexId(a)| >= ObjectIdHexDigits
    ensures HexId(a) == HexId(b) ==> a == b
  {
    HexRoundTrip(a, ObjectIdHexDigits);
    HexRoundTrip(b, ObjectIdHexDigits);
  }

  /** What `res.json(user)` sends: the `id` virtual in place of `_id`, no `__v`. */
  datatype UserJson = UserJson(
    id: string,
    name: string,
    email: string,
    service: Service,
    subscriptionDate: Date,
    validityMonths: int,
    expirationDate: Date,
    status: Status,
    createdAt: Date,
    updatedAt: Date)

  function ToJson(u: User): UserJson {
    UserJson(HexId(u.id), u.name, u.email, u.service, u.subscriptionDate,
             u.validityMonths, u.expirationDate, u.status, u.createdAt, u.updatedAt)
  }

  /** toJSON loses nothing: the stored document can be read back from its JSON. */
  lemma ToJsonInjective(a: User, b: User)
    ensures ToJson(a) == ToJson(b) ==> a == b
  {
    HexIdInjective(a.id, b.id);
  }
}
