# Telehealth portal: authentication and doctor management, modelled in Dafny

This project models the server side of a patient/clinician telehealth portal: the
authentication routes (`server/routes/auth.js`) and the admin doctor-management routes
(`server/routes/admin.js`). The user collection is a map from user id to a record holding the
e-mail, phone, stored credential, role (patient, doctor or admin), the failed-login counter and
lock time, the one-time passcode and its expiry, the biometric template, the biometric flag, the
device fingerprint and the active flag. Patient profiles and doctor rows are the other two
collections. All three live in one `Store.Database` object; each route handler is a method of
`AuthRoutes.AuthRouter` or `AdminRoutes.AdminRouter` that returns the HTTP status code and
changes the database as the handler does. Time is a parameter in milliseconds.

Files:

- `common.dfy` (module `Common`): `Option`, `Role`, id and time types, status codes.
- `session.dfy` (module `Session`): token claims `{userId, role, iat, exp}`, liveness, admin claims.
- `store.dfy` (module `Store`): the user record, the lockout operations of the user model, the
  `findOne` filters and first-match search, doctor-row removal, and the `Database` class.
- `authrules.dfy` (module `AuthRules`): the decisions of `auth.js` as functions: the
  registration and login schemas, the duplicate-identity test, the login decision, passcode
  issue/clear/acceptance and the six-digit code, the device check and biometric enrolment.
- `authroutes.dfy` (module `AuthRoutes`): the eight handlers of `auth.js`, plus two client
  methods that chain handlers (a sent code verifies; a used code does not verify again).
- `adminroutes.dfy` (module `AdminRoutes`): list, create and delete doctor.

Decisions worth knowing:

- `findOne` is taken to return the first matching record in insertion order. Ids are handed
  out by a counter, so this is the record with the smallest matching id (`Store.FindFirst`).
  This is an assumption; see "## Left out".
- The lockout methods of the user model (`isLocked`, `incLoginAttempts`, `resetLoginAttempts`)
  are not part of this model's sources. They are modelled as a counter plus a lock time. The
  threshold and the duration are parameters (`Store.LockPolicy`). A failure on an unlocked
  account counts one more attempt. If an earlier lock has run out, the count restarts at one.
  Reaching the threshold sets the lock to now plus the duration.
- The password comparison and the validator's e-mail rule are abstract functions, given to the
  `AuthRouter` when it is built.
- A token is its claims. Issued-at and expiry are whole seconds, as the token library writes
  them; the expiry is seven days after issue. A token is accepted while the current second is
  before the expiry.
- The passcode is `Math.floor(100000 + Math.random() * 900000)`. It is modelled as a
  nondeterministic choice of an integer in [100000, 999999], stored as its decimal string.
  The handler passes the code to the notification sender; `OtpSend` returns that message.
- A missing passcode expiry compares as 0, because JavaScript's `null < date` compares 0 with
  the date's milliseconds.
- Request fields are strings. The empty string stands for "absent", because the validator and
  the `!x` tests treat absent and empty alike. The exception is the optional device fingerprint
  of biometric-verify: there the validator accepts an absent fingerprint and rejects an empty
  one, so that parameter is an `Option`.

What the code does, as modelled, in places a reader might expect otherwise:

- Only biometric-verify filters on `isActive` (server/routes/auth.js:229-233). Login and both
  passcode routes find the user without it, so a deactivated user can still log in with a
  password or a passcode.
- The passcode routes neither consult nor reset the lockout fields. A locked account can still
  sign in with a passcode or a biometric template.
- The duplicate check at registration looks at all users, active or not.
- Passcode-verify answers 400 for a missing, wrong or expired code alike. It does not tell the
  cases apart. A code is still accepted at its expiry instant (`otpExpiry < now` rejects).
- The passcode comes from `Math.random`, which is not a cryptographically strong source.
- Creating a doctor does not check the phone for duplicates. It also sets the role of an
  existing user with that e-mail to doctor, whatever the user's role was before, admin included.

## Model

| member | source | states |
|---|---|---|
| `Session.TokenWindow` | server/routes/auth.js:138-142 | a token issued at t names the given id and role and is accepted at t' ≥ t exactly while t' is before the seven-day boundary counted from the second of issue; never at or after t + 7 days |
| `Session.IssueToken` | server/routes/auth.js:138-142 | the claims carry the given id and role; issued-at is the second containing now; expiry is issued-at plus seven days |
| `Session.TokenLive` | server/routes/auth.js:138-142 | a token is accepted exactly while now (ms) is before its expiry second |
| `Store.NewUser` | server/routes/auth.js:116-121 | the new record holds the given e-mail, phone, credential and role, with no failures, no lock, no passcode, biometrics off and active |
| `Store.IsLocked` | server/routes/auth.js:176 | no lock time means unlocked; with a lock time, locked exactly while now is before it |
| `Store.Matches` | server/routes/auth.js:106 | the e-mail-or-phone filter matches a record holding either; a biometric match is an enabled, active record with that template, and never an empty template on a consistent record |
| `Store.IncLoginAttempts` | server/routes/auth.js:186 | on an unlocked account: the count goes up by one (restarting at one after an expired lock); the lock is set exactly when the count reaches the threshold, and then to now + lock duration; only the lockout fields change |
| `Store.ResetLoginAttempts` | server/routes/auth.js:191 | the count is zero, there is no lock at any time, and only the lockout fields change |
| `Store.FindFirst` | server/routes/auth.js:105-107 | the result, if any, is a matching record with no matching record before it; no result means no record in range matches |
| `Store.FindFirstFrame` | server/routes/auth.js:347-348 | replacing a record by one that answers a filter the same way leaves the first match for that filter unchanged |
| `Store.RemoveRow` | server/routes/admin.js:55 | the remaining rows are exactly the rows whose id differs from the given one; nothing changes when no row has the id |
| `Store.RemoveRowAt` | server/routes/admin.js:55 | when row k is the only row with the id (as with distinct ids), deleting it leaves exactly the rows before and after it, in their order |
| `Store.RemoveRowCount` | server/routes/admin.js:54-56 | with distinct ids, deleting removes exactly one row when the id is present and none otherwise |
| `Store.RemoveRowKeepsDistinct` | server/routes/admin.js:55 | after a deletion the doctor ids are still distinct |
| `Store.Database.FindOne` | server/routes/auth.js:170 | some record is returned exactly when a matching record exists, and it is the first one |
| `Store.Database.InsertUser` | server/routes/auth.js:116-123 | the new record is stored under a fresh id; nothing else changes |
| `Store.Database.SaveUser` | server/routes/auth.js:318-320 | only the given record is replaced |
| `Store.Database.InsertPatient` | server/routes/auth.js:126-135 | the profile is stored for an existing user; users and doctors are unchanged |
| `Store.Database.InsertDoctor` | server/routes/admin.js:33-42 | the row gets a fresh id distinct from every existing row and is appended |
| `Store.Database.DeleteDoctor` | server/routes/admin.js:55 | the rows become the given removal of the old rows; the invariant is kept |
| `AuthRules.PhoneRun` | server/routes/auth.js:16 | true exactly for a non-empty string of digits, white space and hyphens |
| `AuthRules.PhonePatternOk` | server/routes/auth.js:15-17 | true exactly for an optional `+` followed by one or more digits, white space or hyphens |
| `AuthRules.Utf16Length` | server/routes/auth.js:18 | the length the validator measures lies between the number of characters and twice it, and equals the number of characters when none lies above U+FFFF |
| `AuthRules.RegistrationValid` | server/routes/auth.js:13-72 | a phone that does not match the pattern, a password under three characters, or a password under six characters none of which lies above U+FFFF, fails the schema |
| `AuthRules.LoginRequestValid` | server/routes/auth.js:74-77 | an empty password fails the login schema |
| `AuthRules.BiometricRequestValid` | server/routes/auth.js:79-82 | the biometric schema fails exactly for an empty template or an empty given fingerprint |
| `AuthRules.IdentityTaken` | server/routes/auth.js:105-107 | false exactly when no user holds the e-mail or the phone; true exactly when some user matches the e-mail-or-phone filter |
| `AuthRules.LoginStep` | server/routes/auth.js:175-191 | 423 exactly when locked, and then the record is untouched whatever the password; 200 exactly when unlocked with the right password, leaving count zero and no lock; 401 exactly when unlocked with a wrong password, with the count one higher (one after an expired lock) and a lock until now + duration exactly when the count reaches the threshold; only the lockout fields ever change |
| `AuthRules.FailStreakCounts` | server/routes/auth.js:184-187 | from a clean record, wrong passwords at any k ≤ threshold times give a count of k; no lock below the threshold; at the threshold the lock runs until the last failure's time plus the duration |
| `AuthRules.LockoutAfterThreshold` | server/routes/auth.js:175-181 | after threshold-many wrong passwords at any times, every attempt from the last failure until the lock runs out answers 423, even with the right password, and leaves the record and counter as they are |
| `AuthRules.LockExpires` | server/routes/auth.js:176-191 | once the lock time has passed, the right password answers 200 and clears count and lock |
| `AuthRules.IssueOtp` | server/routes/auth.js:318-319 | the stored code and its expiry (now + 180000 ms) replace any earlier ones; nothing else changes |
| `AuthRules.ClearOtp` | server/routes/auth.js:359-360 | code and expiry are cleared; nothing else changes |
| `AuthRules.OtpAccepts` | server/routes/auth.js:354 | accepted exactly when the stored code equals the non-empty presented one and now is at most the expiry (a missing expiry counts as 0) |
| `AuthRules.OtpWindow` | server/routes/auth.js:354 | a code issued at t0 is accepted exactly when the presented code equals it and now ≤ t0 + 180000 ms; every other code fails |
| `AuthRules.OtpSingleUse` | server/routes/auth.js:359-361 | a cleared record accepts no code at any time |
| `AuthRules.DecimalString` | server/routes/auth.js:315 | the printed number is a non-empty string of decimal digits |
| `AuthRules.DecimalRoundTrip` | server/routes/auth.js:315 | the decimal string of a number is all digits and reads back as that number |
| `AuthRules.DecimalLength` | server/routes/auth.js:315 | a k-digit number prints as k characters with a non-zero first digit |
| `AuthRules.OtpCodeFromDraw` | server/routes/auth.js:315 | every drawn number in [100000, 999999] prints as six digits, the first not zero, and reads back as the number |
| `AuthRules.WithBiometric` | server/routes/auth.js:284-288 | template stored, biometrics on, fingerprint stored or absent when empty; the result keeps the enabled-implies-template invariant; nothing else changes |
| `AuthRules.DeviceRejected` | server/routes/auth.js:240-244 | a device is accepted exactly when no fingerprint is presented, none is stored, either is empty, or both are equal |
| `AuthRules.EnrolledDevice` | server/routes/auth.js:240-244 | after enrolment an active user matches the biometric filter, and a presented device is refused exactly when both fingerprints are present and differ |
| `AuthRoutes.AuthRouter.Register` | server/routes/auth.js:85-151 | 400 exactly when the schema fails or the e-mail or phone is already held, and then nothing changes and no token; otherwise 201, exactly one new patient user and profile under a fresh id, and a token for that id, role patient, expiring seven days out |
| `AuthRoutes.AuthRouter.Login` | server/routes/auth.js:159-210 | 400 on a schema failure and 401 on an unknown e-mail, both changing nothing; for the found user the status and the new record are the login decision's, with a token only on 200; a 200 token belongs to a user with that e-mail, the right password and no lock |
| `AuthRoutes.AuthRouter.BiometricVerify` | server/routes/auth.js:218-265 | 400 exactly on a schema failure; 200 only for a user with an equal template, biometrics on, active, and no device mismatch, with a token for that user's id and role; 401 when no user matches or the first match's device differs; reads only |
| `AuthRoutes.AuthRouter.EnableBiometric` | server/routes/auth.js:273-290 | 400 and no change for a missing template; otherwise 200 and the caller's record, if it exists, is enrolled, every other record and collection unchanged |
| `AuthRoutes.AuthRouter.OtpSend` | server/routes/auth.js:300-331 | 400 for a missing phone and 404 for an unknown one, changing nothing; otherwise 200, a six-digit code drawn from [100000, 999999] is sent to that phone and stored with expiry now + 180000 ms, overwriting any earlier code |
| `AuthRoutes.AuthRouter.OtpVerify` | server/routes/auth.js:339-380 | 400 for a missing field or a code that is absent, different or expired, 404 for an unknown phone, all changing nothing; on an accepted code 200, the code is cleared and a token is issued for that user's id and role |
| `AuthRoutes.AuthRouter.Verify` | server/routes/auth.js:388-401 | 200 with the record exactly when the caller's user exists, else 401 |
| `AuthRoutes.AuthRouter.Logout` | server/routes/auth.js:409-412 | always 200 and nothing changes |
| `AuthRoutes.AuthRouter.OtpSendThenVerify` | server/routes/auth.js:315-361 | a code sent to a known phone verifies at any time up to three minutes later |
| `AuthRoutes.AuthRouter.OtpReplay` | server/routes/auth.js:354-361 | after a successful passcode check, the same request immediately answers 400 |
| `AdminRoutes.AdminRouter.ListDoctors` | server/routes/admin.js:8-11 | every doctor row in stored order, with 200; nothing is written |
| `AdminRoutes.AdminRouter.CreateDoctor` | server/routes/admin.js:19-44 | an unknown e-mail adds one user with role doctor and the default password; a known e-mail adds no user and changes only that user's role to doctor; the appended row has a fresh id, the upserted user's id and a null image URL when none is given; 201 |
| `AdminRoutes.AdminRouter.DeleteDoctor` | server/routes/admin.js:52-56 | for a well-formed id: removes exactly the row with that id, if any, and answers 200 either way; users untouched |

## Left out

- Password hashing and token signing are foreign libraries. The password check is an abstract function of the stored credential and the presented password. A token is its claims; signature checks and malformed tokens are not modelled.
- The validator's e-mail rule is an abstract function. Date of birth, emergency contact and medical history are validated by library rules; a single boolean stands for that verdict. The validator's rejection of unknown keys is not modelled either.
- Request fields are taken to be strings. A JSON number sent as the passcode (which never equals the stored string) and other non-string values are not modelled.
- The `auth` and `authorizeAdmin` middleware are not part of this model. They appear only as preconditions: live claims, and live admin claims on the admin routes. Their 401/403 answers are not modelled.
- The user model's own source is not part of this model. Its lockout methods are modelled abstractly (see above), and its default field values are assumed: no failures, no lock, no passcode, biometrics off, active.
- Patient-profile lookups that only enrich responses, `toPublicJSON`, the `_fullName` field and response messages are not modelled. Verify returns the whole record.
- Passcode delivery (`sendOTP`), logging, and the development-only echo of the code in the response are not modelled. The code handed to the sender is returned as `OtpSend`'s message.
- AdminRoutes.AdminRouter.DeleteDoctor: doctor ids are well-formed keys. A `:id` that does not convert to the database's id type makes the delete query fail, and the route answers 500; that path is not modelled.
- Storage and schema failures during `save` (including unique-index errors) and the 500 answers they cause are not modelled.
- How the database driver treats a missing e-mail in the create-doctor filter is driver behaviour and is not modelled; the e-mail is a string.
- The order in which `findOne` returns records is an assumption. Without a sort the database returns natural order, or index order when a query uses an index. The model takes the record with the smallest id, which is insertion order. The order matters when two users share a biometric template or a phone (creating a doctor does not check the phone); which of them answers biometric-verify or the passcode routes may differ in the deployed system.
- Persistence, concurrency and races are not modelled. Requests are handled one at a time.
