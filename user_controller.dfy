/** The subscriber endpoints (server/controllers/userController.js) over an
    in-memory collection: the read-only listing, lookup and statistics as functions
    of the stored records, and the create, update and delete operations as methods
    of the store. */
module UserController {
  import opened Common
  import opened Calendar
  import opened Text
  import opened Collections
  import opened UserModel

  /** The request body of createUser and updateUser.  A missing or empty string is
      "", a missing number is 0 and a missing date is None: exactly the falsy
      values the controller tests for. */
  datatype UserBody = UserBody(
    name: string,
    email: string,
    service: string,
    validityMonths: int,
    subscriptionDate: Option<Date>)

  /** No field of the body is falsy. */
  predicate AllPresent(b: UserBody) {
    b.name != "" && b.email != "" && b.service != "" && b.validityMonths != 0
      && b.subscriptionDate.Some?
  }

  // ---------------------------------------------------------------------------
  // Reading

  function CreatedKey(u: User): int {
    TimeValue(u.createdAt)
  }

  /** getAllUsers: every stored record and nothing else, newest first. */
  function GetAllUsers(users: seq<User>): (r: seq<User>)
    ensures SortedDesc(r, CreatedKey)
    ensures multiset(r) == multiset(users)
  {
    SortDesc(users, CreatedKey)
  }

  /** The position of the first record at or after `from` with this id. */
  function FindFrom(users: seq<User>, id: Id, from: nat): (r: Option<nat>)
    ensures r.Some? ==> from <= r.value < |users| && users[r.value].id == id
    ensures r.Some? ==> forall i :: from <= i < r.value ==> users[i].id != id
    ensures r.None? ==> forall i :: from <= i < |users| ==> users[i].id != id
    decreases |users| - from
  {
    if from >= |users| then None
    else if users[from].id == id then Some(from)
    else FindFrom(users, id, from + 1)
  }

  function Find(users: seq<User>, id: Id): Option<nat> {
    FindFrom(users, id, 0)
  }

  /** getUserById: the record with that id, or 404 when there is none. */
  function GetUserById(users: seq<User>, id: Id): (r: Result<User>)
    ensures r.Ok? ==> r.value in users && r.value.id == id
    ensures r.Err? ==> r.failure == UserNotFound
    ensures r.Err? <==> forall i :: 0 <= i < |users| ==> users[i].id != id
  {
    match Find(users, id)
    case None => Err(UserNotFound)
    case Some(k) => Ok(users[k])
  }

  /** A stored record, other than the one with id `except`, has this email. */
  predicate EmailTaken(users: seq<User>, email: string, except: Option<Id>) {
    exists i :: 0 <= i < |users| && users[i].email == email && except != Some(users[i].id)
  }

  // ---------------------------------------------------------------------------
  // Statistics

  function CountStatus(users: seq<User>, s: Status): nat {
    if |users| == 0 then 0
    else (if users[0].status == s then 1 else 0) + CountStatus(users[1..], s)
  }

  function CountService(users: seq<User>, s: Service): nat {
    if |users| == 0 then 0
    else (if users[0].service == s then 1 else 0) + CountService(users[1..], s)
  }

  /** The `countDocuments` filter: stored status Active and expiration no later
      than the limit.  There is no lower bound. */
  predicate ExpiringBy(u: User, limit: Date) {
    u.status == Active && NotLater(u.expirationDate, limit)
  }

  function CountExpiring(users: seq<User>, limit: Date): nat {
    if |users| == 0 then 0
    else (if ExpiringBy(users[0], limit) then 1 else 0) + CountExpiring(users[1..], limit)
  }

  /** The statistics the dashboard shows. */
  datatype Stats = Stats(
    total: nat,
    active: nat,
    expired: nat,
    netflix: nat,
    primeVideo: nat,
    expiringThisWeek: nat)

  /** The counts partition the collection: every record has one stored status and
      one service, and a record in the expiring window is stored Active. */
  lemma {:induction false} CountsAddUp(users: seq<User>, limit: Date)
    ensures CountStatus(users, Active) + CountStatus(users, Expired) == |users|
    ensures CountService(users, Netflix) + CountService(users, PrimeVideo) == |users|
    ensures CountExpiring(users, limit) <= CountStatus(users, Active)
  {
    if |users| > 0 {
      CountsAddUp(users[1..], limit);
    }
  }

  /** The stored status, service and window membership of each record, position
      by position: the counts are read off these independently of the folds. */
  function Statuses(users: seq<User>): seq<Status> {
    seq(|users|, i requires 0 <= i < |users| => users[i].status)
  }

  function Services(users: seq<User>): seq<Service> {
    seq(|users|, i requires 0 <= i < |users| => users[i].service)
  }

  function InWindow(users: seq<User>, limit: Date): seq<bool> {
    seq(|users|, i requires 0 <= i < |users| => ExpiringBy(users[i], limit))
  }

  /** Each fold counts exactly the records with that stored status, that service,
      or in the window. */
  lemma {:induction false} CountStatusIsMultiplicity(users: seq<User>, s: Status)
    ensures CountStatus(users, s) == multiset(Statuses(users))[s]
  {
    if |users| > 0 {
      CountStatusIsMultiplicity(users[1..], s);
      assert Statuses(users) == [users[0].status] + Statuses(users[1..]);
    }
  }

  lemma {:induction false} CountServiceIsMultiplicity(users: seq<User>, s: Service)
    ensures CountService(users, s) == multiset(Services(users))[s]
  {
    if |users| > 0 {
      CountServiceIsMultiplicity(users[1..], s);
      assert Services(users) == [users[0].service] + Services(users[1..]);
    }
  }

  /** Every record in the window, and no other, adds one to the count. */
  lemma {:induction false} CountExpiringCounts(users: seq<User>, limit: Date)
    ensures CountExpiring(users, limit) == multiset(InWindow(users, limit))[true]
  {
    if |users| > 0 {
      CountExpiringCounts(users[1..], limit);
      assert InWindow(users, limit) == [ExpiringBy(users[0], limit)] + InWindow(users[1..], limit);
    }
  }

  /** getUserStats: the `$group` totals (zeros for an empty collection), each the
      number of records with that stored status or service, and the number of
      records stored Active that expire no later than seven calendar days from
      now. */
  function GetUserStats(users: seq<User>, now: Date): (r: Stats)
    ensures r.total == |users|
    ensures r.active == multiset(Statuses(users))[Active]
    ensures r.expired == multiset(Statuses(users))[Expired]
    ensures r.netflix == multiset(Services(users))[Netflix]
    ensures r.primeVideo == multiset(Services(users))[PrimeVideo]
    ensures r.expiringThisWeek == multiset(InWindow(users, AddDays(now, 7)))[true]
    ensures r.active + r.expired == r.total
    ensures r.netflix + r.primeVideo == r.total
    ensures r.expiringThisWeek <= r.active
    ensures |users| == 0 ==> r == Stats(0, 0, 0, 0, 0, 0)
  {
    var limit := AddDays(now, 7);
    CountsAddUp(users, limit);
    CountStatusIsMultiplicity(users, Active);
    CountStatusIsMultiplicity(users, Expired);
    CountServiceIsMultiplicity(users, Netflix);
    CountServiceIsMultiplicity(users, PrimeVideo);
    CountExpiringCounts(users, limit);
    var group :=
      if |users| == 0 then Stats(0, 0, 0, 0, 0, 0)
      else Stats(|users|, CountStatus(users, Active), CountStatus(users, Expired),
                 CountService(users, Netflix), CountService(users, PrimeVideo), 0);
    group.(expiringThisWeek := CountExpiring(users, limit))
  }

  /** The window ends exactly seven days of milliseconds after now and has no
      lower bound: a record stored Active whose expiration has already passed is
      counted too. */
  lemma ExpiringWindow(u: User, now: Date)
    ensures ExpiringBy(u, AddDays(now, 7)) <==>
      u.status == Active && TimeValue(u.expirationDate) <= TimeValue(now) + 7 * MsPerDay
    ensures u.status == Active && NotLater(u.expirationDate, now) ==> ExpiringBy(u, AddDays(now, 7))
  {
    AddDaysTimeValue(now, 7);
  }

  /** A pinned store: three Netflix and two PrimeVideo records, four stored
      Active and one Expired, one of the Active ones expiring within the week of
      ExampleNow. */
  const ExampleNow: Date := CivilTime(1970, 0, 10, 0)
  const ExampleStart: Date := CivilTime(1970, 0, 1, 0)
  const ExampleRecord: User :=
    User(0, "ab", "a@b.c", Netflix, ExampleStart, 2, CivilTime(1970, 2, 1, 0), Active,
         ExampleStart, ExampleStart)
  const ExampleUsers: seq<User> := [
    ExampleRecord,
    ExampleRecord.(id := 1),
    ExampleRecord.(id := 2, service := PrimeVideo, expirationDate := CivilTime(1970, 0, 12, 0)),
    ExampleRecord.(id := 3, service := PrimeVideo),
    ExampleRecord.(id := 4, status := Expired)
  ]

  lemma ExampleStatuses()
    ensures Statuses(ExampleUsers) == [Active, Active, Active, Active, Expired]
    ensures Services(ExampleUsers) == [Netflix, Netflix, PrimeVideo, PrimeVideo, Netflix]
  {
  }

  lemma ExampleWindow()
    ensures AddDays(ExampleNow, 7) == CivilTime(1970, 0, 17, 0)
    ensures InWindow(ExampleUsers, AddDays(ExampleNow, 7)) == [false, false, true, false, false]
  {
    assert AddDays(ExampleNow, 7) == CivilTime(1970, 0, 17, 0);
  }

  lemma StatsExample()
    ensures GetUserStats(ExampleUsers, ExampleNow) == Stats(5, 4, 1, 3, 2, 1)
  {
    ExampleStatuses();
    ExampleWindow();
    var st := [Active, Active, Active, Active, Expired];
    var sv := [Netflix, Netflix, PrimeVideo, PrimeVideo, Netflix];
    var w := [false, false, true, false, false];
    assert multiset(st)[Active] == 4 && multiset(st)[Expired] == 1;
    assert multiset(sv)[Netflix] == 3 && multiset(sv)[PrimeVideo] == 2;
    assert multiset(w)[true] == 1;
  }

  // ---------------------------------------------------------------------------
  // Creating

  /** The checks of `user.save()` on the values the setters produce. */
  predicate CreateValidates(b: UserBody, emailOk: string -> bool) {
    FieldsValidate(Trim(b.name), Lower(Trim(b.email)), b.service, b.subscriptionDate,
                   b.validityMonths, emailOk)
  }

  /** The record createUser stores. */
  function NewUser(id: Id, b: UserBody, now: Date): User
    requires ParseService(b.service).Some? && b.subscriptionDate.Some?
  {
    var expiration := AddMonths(b.subscriptionDate.value, b.validityMonths);
    User(id, Trim(b.name), Lower(Trim(b.email)), ParseService(b.service).value,
         b.subscriptionDate.value, b.validityMonths, expiration,
         StatusAt(expiration, now), now, now)
  }

  /** A created record meets the schema, its expiration is derived from its inputs,
      its status compares that expiration with the clock, and a subscription that
      starts no earlier than now is Active. */
  lemma NewUserConforms(id: Id, b: UserBody, now: Date, emailOk: string -> bool)
    requires CreateValidates(b, emailOk)
    ensures Conforms(NewUser(id, b, now), emailOk) && Derived(NewUser(id, b, now))
    ensures NewUser(id, b, now).status == Active <==>
      Later(NewUser(id, b, now).expirationDate, now)
    ensures NotLater(now, b.subscriptionDate.value) ==> NewUser(id, b, now).status == Active
  {
    TrimIdempotent(b.name);
    TrimLowerNormalizes(b.email);
    AddMonthsLater(b.subscriptionDate.value, b.validityMonths);
  }

  // ---------------------------------------------------------------------------
  // Updating

  /** updateData: the body's truthy fields only. */
  function UpdateData(b: UserBody): UpdateFields {
    UpdateFields(
      if b.name != "" then Some(b.name) else None,
      if b.email != "" then Some(b.email) else None,
      if b.service != "" then Some(b.service) else None,
      if b.validityMonths != 0 then Some(b.validityMonths) else None,
      b.subscriptionDate,
      None,
      None)
  }

  /** The update after the pre-update hook has seen it in its plain shape. */
  function HookedUpdate(f: UpdateFields, doc: User, now: Date): UpdateFields {
    if CarriesSubscriptionInput(f) then Rederive(f, doc, now) else f
  }

  /** Casting the update applies the schema setters to the paths it sets. */
  function CastUpdate(f: UpdateFields): UpdateFields {
    f.(name := if f.name.Some? then Some(Trim(f.name.value)) else None,
       email := if f.email.Some? then Some(Lower(Trim(f.email.value))) else None)
  }

  /** `runValidators: true`: the validators of the paths the update sets, and
      those only. */
  predicate UpdateValidates(f: UpdateFields, emailOk: string -> bool) {
    && (f.name.Some? ==> NameOk(f.name.value))
    && (f.email.Some? ==> emailOk(f.email.value))
    && (f.service.Some? ==> ParseService(f.service.value).Some?)
    && (f.validityMonths.Some? ==> MonthsOk(f.validityMonths.value))
  }

  /** The stored record with the update's paths overwritten and the `updatedAt`
      timestamp refreshed. */
  function Merge(u: User, f: UpdateFields, now: Date): User
    requires f.service.Some? ==> ParseService(f.service.value).Some?
  {
    User(u.id,
         if f.name.Some? then f.name.value else u.name,
         if f.email.Some? then f.email.value else u.email,
         if f.service.Some? then ParseService(f.service.value).value else u.service,
         if f.subscriptionDate.Some? then f.subscriptionDate.value else u.subscriptionDate,
         if f.validityMonths.Some? then f.validityMonths.value else u.validityMonths,
         if f.expirationDate.Some? then f.expirationDate.value else u.expirationDate,
         if f.status.Some? then f.status.value else u.status,
         u.createdAt,
         now)
  }

  /** What updateUser asks the database to apply to `cur`. */
  function PreparedUpdate(cur: User, b: UserBody, now: Date): UpdateFields {
    CastUpdate(HookedUpdate(UpdateData(b), cur, now))
  }

  /** Only the fields the body supplies with truthy values change, after the
      setters; the derived pair is recomputed exactly when the body carries a
      subscription input, from the merged inputs; id and createdAt are kept and
      updatedAt is the time of the update. */
  lemma UpdatedFields(cur: User, b: UserBody, now: Date, emailOk: string -> bool)
    requires UpdateValidates(PreparedUpdate(cur, b, now), emailOk)
    ensures var r := Merge(cur, PreparedUpdate(cur, b, now), now);
      && r.id == cur.id && r.createdAt == cur.createdAt && r.updatedAt == now
      && r.name == (if b.name != "" then Trim(b.name) else cur.name)
      && r.email == (if b.email != "" then Lower(Trim(b.email)) else cur.email)
      && (b.service == "" ==> r.service == cur.service)
      && (b.service != "" ==> ServiceName(r.service) == b.service)
      && r.validityMonths == (if b.validityMonths != 0 then b.validityMonths else cur.validityMonths)
      && r.subscriptionDate == (if b.subscriptionDate.Some? then b.subscriptionDate.value else cur.subscriptionDate)
      && ((b.subscriptionDate.Some? || b.validityMonths != 0) ==>
            r.expirationDate == AddMonths(r.subscriptionDate, r.validityMonths)
            && r.status == StatusAt(r.expirationDate, now))
      && (!(b.subscriptionDate.Some? || b.validityMonths != 0) ==>
            r.expirationDate == cur.expirationDate && r.status == cur.status)
    ensures b.name != "" ==> NameOk(Trim(b.name))
    ensures b.email != "" ==> emailOk(Lower(Trim(b.email)))
    ensures b.validityMonths != 0 ==> MonthsOk(b.validityMonths)
  {
  }

  /** A record whose fields are those of a valid record, overwritten by truthy,
      validated body fields after the setters, and whose derived pair is either
      recomputed from its own inputs or kept with them, is within the schema and
      derived. */
  lemma OverwriteKeepsRecordValid(cur: User, r: User, b: UserBody, emailOk: string -> bool)
    requires Conforms(cur, emailOk) && Derived(cur)
    requires r.name == (if b.name != "" then Trim(b.name) else cur.name)
    requires r.email == (if b.email != "" then Lower(Trim(b.email)) else cur.email)
    requires r.validityMonths == (if b.validityMonths != 0 then b.validityMonths else cur.validityMonths)
    requires r.subscriptionDate == (if b.subscriptionDate.Some? then b.subscriptionDate.value else cur.subscriptionDate)
    requires b.subscriptionDate.Some? || b.validityMonths != 0 ==>
      r.expirationDate == AddMonths(r.subscriptionDate, r.validityMonths)
    requires !(b.subscriptionDate.Some? || b.validityMonths != 0) ==> r.expirationDate == cur.expirationDate
    requires b.name != "" ==> NameOk(Trim(b.name))
    requires b.email != "" ==> emailOk(Lower(Trim(b.email)))
    requires b.validityMonths != 0 ==> MonthsOk(b.validityMonths)
    ensures Conforms(r, emailOk) && Derived(r)
  {
    TrimIdempotent(b.name);
    TrimLowerNormalizes(b.email);
  }

  /** The email collision refusal of updateUser: a truthy email, different from
      the record's current one, that another record already has. */
  predicate UpdateCollides(users: seq<User>, cur: User, b: UserBody) {
    b.email != "" && b.email != cur.email && EmailTaken(users, b.email, Some(cur.id))
  }

  function RemoveAt(s: seq<User>, k: nat): seq<User>
    requires k < |s|
  {
    s[..k] + s[k + 1..]
  }

  // ---------------------------------------------------------------------------
  // The store

  /** A stored record meets the schema, has its expiration derived from its
      inputs, and an id below the next one to be handed out. */
  predicate RecordOk(u: User, nextId: Id, emailOk: string -> bool) {
    u.id < nextId && Conforms(u, emailOk) && Derived(u)
  }

  /** The store invariant: every record is RecordOk; ids are distinct; emails are
      distinct (the unique index on `email`). */
  ghost predicate StoreValid(users: seq<User>, nextId: Id, emailOk: string -> bool) {
    && (forall i :: 0 <= i < |users| ==> RecordOk(users[i], nextId, emailOk))
    && (forall i, j :: 0 <= i < j < |users| ==>
          users[i].id != users[j].id && users[i].email != users[j].email)
  }

  /** Appending a record with the next id and an email no record has keeps the
      store valid. */
  lemma AppendKeepsValid(users: seq<User>, nextId: Id, emailOk: string -> bool, u: User)
    requires StoreValid(users, nextId, emailOk)
    requires u.id == nextId && Conforms(u, emailOk) && Derived(u)
    requires !EmailTaken(users, u.email, None)
    ensures StoreValid(users + [u], nextId + 1, emailOk)
  {
    var s := users + [u];
    forall i | 0 <= i < |s| ensures RecordOk(s[i], nextId + 1, emailOk) {
      if i < |users| {
        assert RecordOk(users[i], nextId, emailOk);
      }
    }
    forall i, j | 0 <= i < j < |s| ensures s[i].id != s[j].id && s[i].email != s[j].email {
      if j == |users| {
        assert RecordOk(users[i], nextId, emailOk);
      }
    }
  }

  /** Appending the record createUser builds keeps the store valid. */
  lemma CreateKeepsValid(users: seq<User>, nextId: Id, emailOk: string -> bool, b: UserBody, now: Date)
    requires StoreValid(users, nextId, emailOk)
    requires CreateValidates(b, emailOk) && !EmailTaken(users, Lower(Trim(b.email)), None)
    ensures StoreValid(users + [NewUser(nextId, b, now)], nextId + 1, emailOk)
  {
    NewUserConforms(nextId, b, now, emailOk);
    AppendKeepsValid(users, nextId, emailOk, NewUser(nextId, b, now));
  }

  /** Replacing record k by one with the same id, within the schema, derived, and
      with its old email or one no other record has, keeps the store valid. */
  lemma ReplaceKeepsValid(users: seq<User>, nextId: Id, emailOk: string -> bool, k: nat, u: User)
    requires StoreValid(users, nextId, emailOk) && k < |users|
    requires u.id == users[k].id && Conforms(u, emailOk) && Derived(u)
    requires u.email == users[k].email || !EmailTaken(users, u.email, Some(u.id))
    ensures StoreValid(users[k := u], nextId, emailOk)
  {
    var s := users[k := u];
    assert RecordOk(users[k], nextId, emailOk);
    forall i, j | 0 <= i < j < |s| ensures s[i].id != s[j].id && s[i].email != s[j].email {
      if i == k {
        assert users[j].id != users[k].id;
      } else if j == k {
        assert users[i].id != users[k].id;
      }
    }
  }

  /** An update of record k that passes its validators and the unique index keeps
      the store valid. */
  lemma UpdateKeepsValid(users: seq<User>, nextId: Id, emailOk: string -> bool, k: nat,
                         b: UserBody, now: Date)
    requires StoreValid(users, nextId, emailOk) && k < |users|
    requires UpdateValidates(PreparedUpdate(users[k], b, now), emailOk)
    requires var f := PreparedUpdate(users[k], b, now);
      f.email.Some? ==> !EmailTaken(users, f.email.value, Some(users[k].id))
    ensures StoreValid(users[k := Merge(users[k], PreparedUpdate(users[k], b, now), now)], nextId, emailOk)
  {
    var cur := users[k];
    var u := Merge(cur, PreparedUpdate(cur, b, now), now);
    assert RecordOk(cur, nextId, emailOk);
    UpdatedFields(cur, b, now, emailOk);
    OverwriteKeepsRecordValid(cur, u, b, emailOk);
    ReplaceKeepsValid(users, nextId, emailOk, k, u);
  }

  /** Removing record k keeps the store valid, and no remaining record has its
      id. */
  lemma RemoveKeepsValid(users: seq<User>, nextId: Id, emailOk: string -> bool, k: nat)
    requires StoreValid(users, nextId, emailOk) && k < |users|
    ensures StoreValid(RemoveAt(users, k), nextId, emailOk)
    ensures forall i :: 0 <= i < |RemoveAt(users, k)| ==> RemoveAt(users, k)[i].id != users[k].id
  {
    var s := RemoveAt(users, k);
    assert forall i :: 0 <= i < |s| ==> s[i] == users[if i < k then i else i + 1];
  }

  /** The subscriber collection. */
  class UserStore {
    var users: seq<User>
    var nextId: Id
    const emailOk: string -> bool

    ghost predicate Valid()
      reads this
    {
      StoreValid(users, nextId, emailOk)
    }

    constructor (emailOk: string -> bool)
      ensures Valid() && users == [] && this.emailOk == emailOk
    {
      users := [];
      nextId := 0;
      this.emailOk := emailOk;
    }

    /** createUser.  The presence check, then the duplicate check on the raw
        email, then the schema validators, then the unique index on the stored
        email; on success exactly one record, the derived one, is appended. */
    method CreateUser(b: UserBody, now: Date) returns (r: Result<User>)
      requires Valid()
      modifies this
      ensures Valid()
      ensures !AllPresent(b) ==> r == Err(MissingFields)
      ensures AllPresent(b) && EmailTaken(old(users), b.email, None) ==> r == Err(DuplicateEmail)
      ensures AllPresent(b) && !EmailTaken(old(users), b.email, None) && !CreateValidates(b, emailOk) ==>
        r == Err(InvalidData)
      ensures AllPresent(b) && !EmailTaken(old(users), b.email, None) && CreateValidates(b, emailOk) ==>
        if EmailTaken(old(users), Lower(Trim(b.email)), None) then r == Err(UserServerError)
        else r == Ok(NewUser(old(nextId), b, now))
      ensures r.Ok? ==> users == old(users) + [r.value]
      ensures r.Err? ==> users == old(users)
      ensures nextId == if r.Ok? then old(nextId) + 1 else old(nextId)
    {
      if !AllPresent(b) {
        return Err(MissingFields);
      }
      if EmailTaken(users, b.email, None) {
        return Err(DuplicateEmail);
      }
      var doc := new UserDocument(nextId, b.name, b.email, b.service, b.validityMonths,
                                  b.subscriptionDate, now);
      assert doc.Validates(emailOk) == CreateValidates(b, emailOk);
      if !doc.Validates(emailOk) {
        return Err(InvalidData);
      }
      doc.PreSave(now);
      assert doc.email == Lower(Trim(b.email));
      if EmailTaken(users, doc.email, None) {
        return Err(UserServerError);
      }
      var user := doc.Record();
      assert user == NewUser(nextId, b, now);
      CreateKeepsValid(users, nextId, emailOk, b, now);
      users := users + [user];
      nextId := nextId + 1;
      r := Ok(user);
    }

    /** updateUser.  404 for an unknown id; 400 when a new, different email is
        used by another record; otherwise the truthy fields pass through the
        pre-update hook, the setters and their validators (400 on failure) and the
        unique index (500), and that record alone is replaced by the merge. */
    method UpdateUser(id: Id, b: UserBody, now: Date) returns (r: Result<User>)
      requires Valid()
      modifies this
      ensures Valid()
      ensures Find(old(users), id).None? ==> r == Err(UserNotFound)
      ensures Find(old(users), id).Some? ==>
        var k := Find(old(users), id).value;
        var cur := old(users)[k];
        var f := PreparedUpdate(cur, b, now);
        if UpdateCollides(old(users), cur, b) then r == Err(DuplicateEmail)
        else if !UpdateValidates(f, emailOk) then r == Err(InvalidData)
        else if f.email.Some? && EmailTaken(old(users), f.email.value, Some(id)) then r == Err(UserServerError)
        else r == Ok(Merge(cur, f, now)) && users == old(users)[k := r.value]
      ensures r.Err? ==> users == old(users)
      ensures nextId == old(nextId)
    {
      var found := Find(users, id);
      if found.None? {
        return Err(UserNotFound);
      }
      var k := found.value;
      var cur := users[k];
      if b.email != "" && b.email != cur.email && EmailTaken(users, b.email, Some(cur.id)) {
        assert UpdateCollides(users, cur, b);
        return Err(DuplicateEmail);
      }
      assert !UpdateCollides(users, cur, b);
      var q := new UserUpdate(None, UpdateData(b));
      q.PreUpdate(Some(cur), now);
      assert q.fields == HookedUpdate(UpdateData(b), cur, now);
      var f := CastUpdate(q.fields);
      assert f == PreparedUpdate(cur, b, now);
      if !UpdateValidates(f, emailOk) {
        return Err(InvalidData);
      }
      if f.email.Some? && EmailTaken(users, f.email.value, Some(id)) {
        return Err(UserServerError);
      }
      var updated := Merge(cur, f, now);
      UpdateKeepsValid(users, nextId, emailOk, k, b, now);
      users := users[k := updated];
      r := Ok(updated);
    }

    /** deleteUser: 404 for an unknown id; otherwise that record, and no other, is
        removed, and the answer is Ok with the record removed. */
    method DeleteUser(id: Id) returns (r: Result<User>)
      requires Valid()
      modifies this
      ensures Valid()
      ensures Find(old(users), id).None? <==> r == Err(UserNotFound)
      ensures Find(old(users), id).Some? ==> r == Ok(old(users)[Find(old(users), id).value])
      ensures r.Err? ==> users == old(users)
      ensures r.Ok? ==>
        && r.value.id == id && Find(old(users), id).Some?
        && users == RemoveAt(old(users), Find(old(users), id).value)
      ensures r.Ok? ==> forall i :: 0 <= i < |users| ==> users[i].id != id
      ensures nextId == old(nextId)
    {
      var found := Find(users, id);
      if found.None? {
        return Err(UserNotFound);
      }
      var k := found.value;
      r := Ok(users[k]);
      RemoveKeepsValid(users, nextId, emailOk, k);
      users := RemoveAt(users, k);
    }
  }
}
