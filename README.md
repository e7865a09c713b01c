# Streaming-subscription administration: a Dafny model of the server core

The system tracks Netflix and Prime Video subscribers for a small team of
administrators. This project models six parts of it:

- the subscriber schema, with its pre-save and pre-update hooks and its JSON form (`server/models/User.js`);
- the subscriber endpoints (`server/controllers/userController.js`);
- the administrator schema (`server/models/Admin.js`);
- the authentication and role gates (`server/middleware/auth.js`), with the route table that places them;
- the administrator endpoints (`server/controllers/authController.js`);
- the dashboard's client-side list filter (`src/hooks/useFilters.ts`).

The Dafny modules follow the program's structure:

| file | module | models |
|---|---|---|
| `common.dfy` | `Common` | `Option`, `Result`, the failure answers with their HTTP status codes |
| `calendar.dfy` | `Calendar` | ECMAScript `Date` arithmetic in one fixed time zone: DayFromYear, MakeDay, the `setMonth`/`setDate` rollover (ECMA-262, sections 21.4.1 and 21.4.4) |
| `text.dfy` | `Text` | `toLowerCase` on ASCII letters, `trim` (the white space and line terminators of ECMA-262, sections 12.2 and 12.3), the UTF-16 `length`, `indexOf`/`includes`, `replace` with a string pattern |
| `collections.dfy` | `Collections` | `.sort({ createdAt: -1 })` as a newest-first sort that keeps every document |
| `user_model.dfy` | `UserModel` | `User.js`: the stored record, the document class and its `PreSave` hook, the update object class and its `PreUpdate` hook, `toJSON` |
| `user_controller.dfy` | `UserController` | `userController.js`: listing, lookup and statistics as functions; create, update and delete as methods of the `UserStore` class, which keeps a store invariant |
| `admin_model.dfy` | `AdminModel` | `Admin.js`: the stored record, the document class with its password-hashing hook, `comparePassword`, `toJSON` |
| `auth_middleware.dfy` | `AuthMiddleware` | `auth.js` and the two route files |
| `auth_controller.dfy` | `AuthController` | `authController.js`: login and createAdmin as methods of the `AdminStore` class; the token payload, getProfile and getAdmins as functions |
| `filters.dfy` | `Filters` | `useFilters.ts` |

Things the model makes explicit:

- The database is an in-memory sequence of records, with a counter for fresh ids.
- The clock (`now`) is a parameter.
- bcrypt and JWT are function-valued parameters, and so is the email regular expression (`emailOk`).
- The order of Mongoose's steps is written out:
  - Construction (`new User(req.body)`, `new Admin({...})`) runs the setters; `save()` then runs the validators, the user's pre-save hook and the unique index.
  - `findByIdAndUpdate` runs the user's pre-update hook, then casting with the setters, then the validators of the set paths only, then the unique index.
- Every answer is an `Ok` or one `Failure` of `Common`, and `StatusCode` maps each failure to its HTTP status.

Behaviour of the code worth noting:

- **Query filters.** The duplicate checks (createUser, updateUser, createAdmin) and the login lookup are modelled as exact matches on the submitted string. Under that assumption, an email that differs from a stored one only in case or surrounding blanks passes the duplicate check and is refused by the unique index after the setters have normalised it. createUser and updateUser then answer 500, and createAdmin answers its catch-all 500. See "## Left out".
- **Login by username.** Login lowercases the identifier, but usernames are stored with their case. An administrator whose username has an upper-case letter can log in by email only (`AuthController.MixedCaseUsernameNeverMatches`).
- **Rederiving on update.** Expiration and status are rederived whenever the update body carries a truthy `subscriptionDate` or `validityMonths`, even when the value is unchanged.
- **createAdmin validation.** A validation failure in createAdmin is answered by the catch-all 500, not 400.
- **requireAdmin's 403.** The 403 of requireAdmin can never be sent, because every stored role qualifies (`AuthMiddleware.RoleHierarchy`).
- **String lengths.** Limits such as `minlength` are measured like JavaScript's `length`, in UTF-16 code units, so a character above U+FFFF counts twice (`Text.JsLength`).

## Model

| member | source | states |
|---|---|---|
| Calendar.SetMonthIsMakeDay | server/models/User.js:56 | `setMonth` lands on the day ECMA-262's MakeDay computes for the new month, and keeps the time of day. |
| Calendar.AddMonthsFields | server/models/User.js:55-57 | Advancing by k months moves the month index by k, carries whole years into the year and keeps the time of day. A day of month the target month lacks spills into the following month. |
| Calendar.AddMonthsDayGap | server/models/User.js:55-57 | Each month of validity adds at least 28 days to the expiration. |
| Calendar.AddMonthsLater | server/models/User.js:55-57 | A validity of at least one month ends strictly after its start date. |
| Calendar.LeapYearJanuaryThirtyFirst | server/models/User.js:56 | 2024-01-31 plus one month is 2024-03-02 (the rollover rule, pinned). |
| Calendar.CommonYearJanuaryThirtyFirst | server/models/User.js:56 | 2023-01-31 plus one month is 2023-03-03. |
| Calendar.MidMonthPlusOneMonth | server/models/User.js:56 | 2024-01-15 plus one month is 2024-02-15. |
| Calendar.YearStartIsDayFromYear | server/models/User.js:63 | Counting year lengths one by one from 1970 gives ECMA-262's closed-form DayFromYear, the basis of the time values that `>` compares. |
| Calendar.TimeValueInjective | server/models/User.js:63 | Distinct valid dates have distinct time values, so comparing Dates compares the instants they denote. |
| Calendar.SetDateIsMakeDay | server/controllers/userController.js:155 | `setDate` lands on MakeDay's day for the new day of month, and keeps the time of day. |
| Calendar.AddDaysTimeValue | server/controllers/userController.js:154-155 | `setDate(getDate() + 7)` is exactly seven days of milliseconds later. |
| Collections.SortDesc | server/controllers/userController.js:6 | The result is ordered newest first and is a permutation of the input. |
| Collections.SortDescSameElements | server/controllers/userController.js:6 | Sorting keeps the length and exactly the elements it was given. |
| Text.LowerFacts | server/controllers/authController.js:27-28 | `toLowerCase` keeps the length, leaves no upper-case letter and is idempotent. |
| Text.JsLength | server/models/User.js:8-9 | The JavaScript length lies between the number of characters and twice that, and equals it when no character lies above U+FFFF. |
| Text.AstralCharacterCountsTwice | server/models/User.js:8-9 | One character above U+FFFF has JavaScript length 2. |
| Text.TrimStartSpec | server/models/User.js:7 | Trimming the start leaves a suffix. What was dropped is all white space, and what is left starts with a non-white character. |
| Text.TrimEndSpec | server/models/User.js:7 | Trimming the end leaves a prefix. What was dropped is all white space, and what is left ends with a non-white character. |
| Text.TrimIdempotent | server/models/User.js:7 | A trimmed value has white space at neither end, and trimming it again changes nothing. |
| Text.LowerTrimCommute | server/models/User.js:15-16 | The `trim` and `lowercase` setters commute. |
| Text.NormalFormsIff | server/models/User.js:15-16 | A string is trimmed iff `trim` leaves it unchanged, and lower-case iff `toLowerCase` leaves it unchanged. |
| Text.TrimLowerNormalizes | server/models/User.js:15-16 | The email setters produce a trimmed, lower-case value that they map to itself. |
| Text.IndexOfFrom | src/hooks/useFilters.ts:11-12 | `indexOf` gives the first occurrence at or after the start position, and None exactly when there is none. |
| Text.IncludesIff | src/hooks/useFilters.ts:11-12 | `includes` holds iff the pattern occurs at some index. The empty pattern occurs in every string. |
| Text.ReplaceFirstFacts | server/middleware/auth.js:9 | Replacing a leading pattern with "" strips it, and a string without the pattern is unchanged. |
| UserModel.ParseService | server/models/User.js:19-26 | The service enum accepts exactly "Netflix" and "PrimeVideo", each as the service it names. |
| UserModel.ParseServiceName | server/models/User.js:22-25 | Every service's name parses back to that service. |
| UserModel.StatusAtFacts | server/models/User.js:62-63 | The status is Active iff the expiration's time value is strictly greater than now's. Once Expired, a later clock also sees it Expired. |
| UserModel.UserDocument.constructor | server/models/User.js:3-47 | A new document holds the trimmed name and the trimmed, lowercased email, with the default status Active and both timestamps set to now. |
| UserModel.UserDocument.PreSave | server/models/User.js:50-68 | The expiration is `subscriptionDate` (or now when absent) advanced by `validityMonths` months. The status is Active iff that expiration is after now. Nothing else changes. |
| UserModel.RederiveExtends | server/models/User.js:79-93 | The derivation takes each missing input from the stored document, keeps every supplied key, and adds the matching expiration and status. |
| UserModel.UserUpdate.PreUpdate | server/models/User.js:71-116 | The `$set` shape is tried first, then the plain shape. The derived keys are added only when that shape carries a truthy subscription input and a document matches. Otherwise the update object is unchanged. |
| UserModel.ToHex | server/models/User.js:126 | The hexadecimal rendering has at least the requested number of digits. |
| UserModel.HexRoundTrip | server/models/User.js:125-127 | Reading the hex digits back gives the id. |
| UserModel.HexIdInjective | server/models/User.js:125-127 | The `id` virtual has at least 24 digits, and distinct ids give distinct strings. |
| UserModel.ToJsonInjective | server/models/User.js:130-137 | Dropping `_id` for `id` loses nothing: distinct records have distinct JSON. |
| UserController.GetAllUsers | server/controllers/userController.js:4-12 | The listing is every stored record and nothing else, newest first. |
| UserController.FindFrom | server/controllers/userController.js:17 | The lookup finds the first record with the id, and None exactly when no record has it. |
| UserController.GetUserById | server/controllers/userController.js:15-26 | The answer is a stored record with that id, or 404 exactly when no record has it. |
| UserController.CountsAddUp | server/controllers/userController.js:124-151 | Active plus Expired counts, and Netflix plus PrimeVideo counts, each equal the total. The expiring count is at most the Active count. |
| UserController.CountStatusIsMultiplicity | server/controllers/userController.js:129-138 | The status fold counts exactly the records with that stored status. |
| UserController.CountServiceIsMultiplicity | server/controllers/userController.js:139-148 | The service fold counts exactly the records with that service. |
| UserController.GetUserStats | server/controllers/userController.js:122-177 | `total` is the number of records. `active` and `expired` count the records with that stored status, and `netflix` and `primeVideo` those with that service, each as a multiplicity over the records. `expiringThisWeek` counts the records in the seven-day window. The totals partition the collection, and an empty collection gives all zeros. |
| UserController.ExpiringWindow | server/controllers/userController.js:154-160 | A record counts as expiring iff it is stored Active and expires no later than now plus seven days. There is no lower bound, so an already-passed expiration still counts. |
| UserController.CountExpiringCounts | server/controllers/userController.js:157-160 | The expiring fold counts exactly the records in the window, each once. |
| UserController.StatsExample | server/controllers/userController.js:122-177 | Three Netflix and two PrimeVideo records, four stored Active and one Expired, one of them expiring within the week, give (5, 4, 1, 3, 2, 1). |
| UserController.NewUserConforms | server/controllers/userController.js:44-55 | A created record meets the schema, its expiration is derived from its inputs, and it is Active iff that expiration is after now. A subscription starting no earlier than now is Active. |
| UserController.UpdatedFields | server/controllers/userController.js:85-95 | Only the truthy body fields change, after the setters. The expiration and status are recomputed from the merged inputs exactly when a subscription input is supplied, and are otherwise kept. id and createdAt are kept, and updatedAt is now. |
| UserController.OverwriteKeepsRecordValid | server/controllers/userController.js:92-95 | Overwriting a valid record with validated, set-up fields keeps it within the schema and derived. |
| UserController.AppendKeepsValid | server/controllers/userController.js:52-53 | Appending a valid record with the next id and an unused email keeps the store invariant (distinct ids and emails, every record valid). |
| UserController.CreateKeepsValid | server/controllers/userController.js:44-53 | Appending the record createUser builds keeps the store invariant. |
| UserController.ReplaceKeepsValid | server/controllers/userController.js:92-95 | Replacing a record by a valid one with the same id, and an email no other record has, keeps the invariant. |
| UserController.UpdateKeepsValid | server/controllers/userController.js:85-95 | An update that passes its validators and the unique index keeps the invariant. |
| UserController.RemoveKeepsValid | server/controllers/userController.js:110 | Removing a record keeps the invariant, and no remaining record has its id. |
| UserController.UserStore.CreateUser | server/controllers/userController.js:29-63 | Checks in order: 400 for a falsy field, 400 for an exactly-equal stored email, 400 for a failing validator, 500 for the unique index. Otherwise exactly the derived record is appended, with the next id. The invariant is kept. |
| UserController.UserStore.UpdateUser | server/controllers/userController.js:66-105 | Checks in order: 404, then 400 for another record's email, then 400 for a failing validator, then 500 for the unique index. Otherwise only that record is replaced by the merge. The invariant is kept. |
| UserController.UserStore.DeleteUser | server/controllers/userController.js:108-119 | 404 iff no record has the id. Otherwise the answer is Ok with the stored record, exactly that record is removed, and none with the id remains. |
| AdminModel.ComparePasswordReadsOnlyHash | server/models/Admin.js:68-70 | `comparePassword` consults only the stored hash. |
| AdminModel.AdminDocument.constructor | server/models/Admin.js:4-52 | A new document holds the trimmed username and name and the trimmed, lowercased email. It is active, and its password counts as modified. |
| AdminModel.AdminDocument.SetLastLogin | server/controllers/authController.js:48 | Only `lastLogin` changes. |
| AdminModel.AdminDocument.PreSave | server/models/Admin.js:55-65 | The password becomes its hash exactly when it was modified. Nothing else changes. |
| AdminModel.AdminDocument.Touch | server/models/Admin.js:51 | Saving refreshes `updatedAt` and nothing else. |
| AdminModel.ToPublicDropsOnlyPassword | server/models/Admin.js:73-78 | Two records have the same JSON iff they differ in nothing but the password. |
| AuthMiddleware.FindAdmin | server/middleware/auth.js:21 | The lookup gives a stored record with the id, and None exactly when there is none. |
| AuthMiddleware.ExtractTokenFacts | server/middleware/auth.js:9 | "Bearer t" yields t. A header without "Bearer " is taken as the token. |
| AuthMiddleware.AuthDecision | server/middleware/auth.js:7-36 | A missing or empty token gives 401. The request passes iff the token verifies and names an existing, active account, and it then carries the decoded payload. Every refusal is one of the three 401s. |
| AuthMiddleware.Request.Authenticate | server/middleware/auth.js:7-36 | The answer is the decision above. `req.admin` is the payload on success and left alone otherwise. |
| AuthMiddleware.RequireSuperAdmin | server/middleware/auth.js:39-56 | 500 iff the account is gone, Ok iff its live role is SuperAdmin, and 403 iff it is Admin. |
| AuthMiddleware.RequireAdmin | server/middleware/auth.js:59-76 | 500 iff the account is gone. |
| AuthMiddleware.RoleHierarchy | server/middleware/auth.js:63 | requireAdmin passes iff the account exists, and its 403 never occurs. Whatever passes requireSuperAdmin passes requireAdmin. |
| AuthMiddleware.GateReadsLiveRole | server/middleware/auth.js:41-43 | The role is read live: after a SuperAdmin is demoted, the same token is refused 403. |
| AuthMiddleware.UserRouteGates | server/routes/userRoutes.js:15-22 | The subscriber handlers are exactly the routes behind authenticate and requireAdmin. |
| AuthMiddleware.AuthRouteGates | server/routes/authRoutes.js:13-20 | Login and logout are public, getProfile sits behind authenticate alone, and createAdmin and getAdmins sit behind authenticate and requireSuperAdmin. |
| AuthMiddleware.AdminGateOutcome | server/routes/userRoutes.js:15-22 | Through authenticate and requireAdmin, a request passes iff it authenticates, and otherwise gets authenticate's 401. |
| AuthMiddleware.SuperAdminGateOutcome | server/routes/authRoutes.js:19-20 | Through authenticate and requireSuperAdmin, a request passes iff it authenticates as a SuperAdmin. An Admin gets 403, and the 500 cannot arise. |
| AuthMiddleware.SignedTokenAuthenticates | server/middleware/auth.js:9-29 | A signed token for an active account, sent as a Bearer header, authenticates as that account. |
| AuthController.FindLoginFrom | server/controllers/authController.js:25-31 | The login lookup finds the first active record whose username or email equals the identifier, and None when none does. |
| AuthController.MixedCaseUsernameNeverMatches | server/controllers/authController.js:25-31 | A username containing an upper-case letter never equals a lowercased identifier. |
| AuthController.LoggedInKeepsCredentials | server/controllers/authController.js:48-49 | Logging in changes only lastLogin and updatedAt. It keeps the hash and what the login filter reads, so the same credentials work again. |
| AuthController.FindLoginReplace | server/controllers/authController.js:48-49 | Saving the logged-in record does not change which record login finds. |
| AuthController.LoginTokenAuthenticates | server/controllers/authController.js:8-10 | The token login hands out (payload: the id only) authenticates as that account in the collection login leaves behind. |
| AuthController.GetProfile | server/controllers/authController.js:90-107 | The answer is the public form of the account iff it exists and is active, and otherwise 404. |
| AuthController.ActiveAdmins | server/controllers/authController.js:181 | The filter keeps exactly the active records, each as often as it is stored. |
| AuthController.MapPublic | server/controllers/authController.js:182 | Each listed record is its public form, position by position. |
| AuthController.MapPublicMembers | server/controllers/authController.js:182 | The public forms are exactly the images of the records. |
| AuthController.GetAdmins | server/controllers/authController.js:172-193 | 500 for a missing requester, 403 for a non-SuperAdmin, Ok iff SuperAdmin. The list is sorted newest first and is a permutation of the public forms of the active records. |
| AuthController.GetAdminsContents | server/controllers/authController.js:181-184 | The listing holds exactly the public forms of the active administrators. |
| AuthController.NewAdminFacts | server/controllers/authController.js:141-150 | A created administrator is an active Admin created by the requester, holds the hash of the password, and meets the schema. |
| AuthController.LoginKeepsValid | server/controllers/authController.js:48-49 | Saving a login keeps the store invariant (distinct ids, usernames and emails, every record valid). |
| AuthController.CreateAdminKeepsValid | server/controllers/authController.js:141-150 | Appending the created administrator keeps the store invariant. |
| AuthController.AdminStore.Login | server/controllers/authController.js:13-73 | 400 without both credentials. 401 when no active record matches the lowercased identifier, or when the password does not match. Otherwise only that record's lastLogin and updatedAt change, and the reply carries its token and view. |
| AuthController.AdminStore.CreateAdmin | server/controllers/authController.js:110-169 | Checks in order: 500, 403, 400 missing, 400 taken by the raw username or email, 500 validation, 500 unique index. Otherwise exactly the new Admin is appended, with the next id. The invariant is kept. |
| Filters.FilterUsers | src/hooks/useFilters.ts:10 | The filtered list is never longer than the input. |
| Filters.FilterMembers | src/hooks/useFilters.ts:10-17 | A user is shown iff it is in the list and matches the search, the service selection and the status selection. |
| Filters.FilterMultiplicity | src/hooks/useFilters.ts:10-17 | Every copy of a kept user is kept, and no copy of any other. |
| Filters.FilterSubsequence | src/hooks/useFilters.ts:10 | The result is a subsequence of the input, in its order. |
| Filters.FilterKeepsAllIff | src/hooks/useFilters.ts:10-17 | The whole list is returned iff every user matches. |
| Filters.FilterIdempotent | src/hooks/useFilters.ts:10-17 | Filtering the filtered list again changes nothing. |
| Filters.NoCriteriaKeepsAll | src/hooks/useFilters.ts:11-14 | With an empty search and no selections, every user is shown. |
| Filters.SelectionsAreExact | src/hooks/useFilters.ts:13-14 | With a service or status selected, every shown user has exactly that one. |
| Filters.SearchIgnoresCase | src/hooks/useFilters.ts:11-12 | Terms equal up to case select the same users, and a name or email containing the term verbatim matches. |

## Left out

- HTTP wiring (Express, `res.status().json()`, the `/api` prefixes), logging and server start-up: answers are `Result` values with a status-code map.
- MongoDB internals (query planning, indexes beyond uniqueness, atomicity): the collection is a sequence, and the check-then-write races between concurrent requests are not modelled.
- The catch-all 500 answers for database and driver errors, other than the unique-index and missing-account cases.
- bcrypt and JWT internals (salt rounds, the secret, the 7-day expiry): opaque functions; `verify` returning None stands for every refusal.
- Time zones, daylight saving and the TimeClip range of ECMA-262: dates are civil values in one fixed zone.
- `new Date(string)` parsing and Invalid Date: the body carries an already-parsed date or none.
- Query filters are matched exactly as submitted. Mongoose's casting of query filters through the schema's `trim` and `lowercase` setters is not modelled. So a duplicate email differing only in case or blanks is answered 500 here, where casting would give 400. Likewise a login identifier with surrounding blanks matches nothing here.
- JavaScript type coercion of body fields (a numeric string for `validityMonths`, a non-string name): fields are typed.
- The email regular expression: an opaque predicate `emailOk`.
- `toLowerCase` beyond ASCII letters: no Unicode case mapping.
- `$` replacement patterns of `String.prototype.replace`: the code's pattern and replacement contain none.
- `__v` and `populate('createdBy', ...)`: createdBy stays an id.
- UserModel.HexIdInjective: ids are natural numbers; the fixed width of 24 digits is a lower bound, and ids beyond 96 bits are not excluded.
- The validators of the save in login: the loaded record already meets them, so that save cannot fail on them.
- logout: it sends a fixed reply and changes nothing; only its route is modelled.
- How the first SuperAdmin is provisioned lies outside the model: `AdminStore` starts empty, so a SuperAdmin must be placed in `admins` directly.
- The React state and memoisation of `useFilters`: the criteria are parameters.
- AuthMiddleware.RequireAdmin: the function's own contract states only the 500 case; the rest of its behaviour is in RoleHierarchy.
