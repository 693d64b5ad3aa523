/** The authentication routes: one method per HTTP handler, over the shared database. The
    `auth` middleware in front of enable-biometric, verify and logout is a precondition: the
    caller presents claims of a token that is still live. */
module AuthRoutes {
  import opened Common
  import opened Session
  import opened Store
  import opened AuthRules

  /** A passcode handed to the notification sender for delivery by text message. */
  datatype Sms = Sms(phone: string, code: string)

  class AuthRouter {
    const db: Database
    /** The lockout threshold and duration of the user model. */
    const policy: LockPolicy
    /** The validator's e-mail rule. */
    const emailOk: string -> bool
    /** The password comparison of the user model: stored credential, presented password. */
    const comparePassword: (string, string) -> bool

    constructor (db: Database, policy: LockPolicy, emailOk: string -> bool,
                 comparePassword: (string, string) -> bool)
      ensures this.db == db && this.policy == policy
      ensures this.emailOk == emailOk && this.comparePassword == comparePassword
    {
      this.db := db;
      this.policy := policy;
      this.emailOk := emailOk;
      this.comparePassword := comparePassword;
    }

    /** POST /register: validate, refuse a taken e-mail or phone, else create a patient user
        and its profile and sign a token for it. */
    method Register(req: Registration, now: Millis) returns (status: int, token: Option<Claims>)
      requires db.Valid()
      modifies db
      ensures db.Valid()
      ensures status == BAD_REQUEST || status == CREATED
      ensures status == BAD_REQUEST <==>
        !RegistrationValid(req, emailOk) || IdentityTaken(old(db.users), req.email, req.phone)
      ensures status == BAD_REQUEST ==> token == None && unchanged(db)
      ensures status == CREATED ==>
        var id := old(db.nextUserId);
        && id !in old(db.users)
        && db.users == old(db.users)[id := NewUser(req.email, req.phone, req.password, Patient)]
        && db.patients == old(db.patients)[id := PatientProfile(req.fullName, req.gender)]
        && db.nextUserId == id + 1
        && db.doctors == old(db.doctors) && db.nextDoctorId == old(db.nextDoctorId)
        && token == Some(IssueToken(id, Patient, now))
    {
      if !RegistrationValid(req, emailOk) {
        return BAD_REQUEST, None;
      }
      var existing := db.FindOne(ByEmailOrPhone(req.email, req.phone));
      if existing.Some? {
        return BAD_REQUEST, None;
      }
      var user := NewUser(req.email, req.phone, req.password, Patient);
      var id := db.InsertUser(user);
      db.InsertPatient(id, PatientProfile(req.fullName, req.gender));
      status, token := CREATED, Some(IssueToken(id, user.role, now));
    }

    /** POST /login: find the user by e-mail, then the lock gate, then the password check and
        the counter update, then a token. */
    method Login(email: string, password: string, now: Millis) returns (status: int, token: Option<Claims>)
      requires db.Valid()
      modifies db
      ensures db.Valid()
      ensures db.nextUserId == old(db.nextUserId) && db.patients == old(db.patients)
      ensures db.doctors == old(db.doctors) && db.nextDoctorId == old(db.nextDoctorId)
      ensures !LoginRequestValid(email, password, emailOk) ==>
        status == BAD_REQUEST && token == None && db.users == old(db.users)
      ensures LoginRequestValid(email, password, emailOk) && old(db.FindOne(ByEmail(email))).None? ==>
        status == UNAUTHORIZED && token == None && db.users == old(db.users)
      ensures LoginRequestValid(email, password, emailOk) && old(db.FindOne(ByEmail(email))).Some? ==>
        var id := old(db.FindOne(ByEmail(email))).value;
        var u := old(db.users)[id];
        var step := LoginStep(u, comparePassword(u.password, password), policy, now);
        && status == step.status
        && db.users == old(db.users)[id := step.user]
        && token == (if status == OK then Some(IssueToken(id, u.role, now)) else None)
      ensures status == OK ==>
        && token.Some? && token.value.userId in old(db.users)
        && var u := old(db.users)[token.value.userId];
        && u.email == email && comparePassword(u.password, password) && !IsLocked(u, now)
        && token.value == IssueToken(token.value.userId, u.role, now)
    {
      if !LoginRequestValid(email, password, emailOk) {
        return BAD_REQUEST, None;
      }
      var found := db.FindOne(ByEmail(email));
      if found.None? {
        return UNAUTHORIZED, None;
      }
      var id := found.value;
      var user := db.users[id];
      if IsLocked(user, now) {
        return LOCKED, None;
      }
      var passwordOk := comparePassword(user.password, password);
      if !passwordOk {
        db.SaveUser(id, IncLoginAttempts(user, policy, now));
        return UNAUTHORIZED, None;
      }
      db.SaveUser(id, ResetLoginAttempts(user));
      status, token := OK, Some(IssueToken(id, user.role, now));
    }

    /** POST /biometric-verify: the first active, biometric-enabled user with this template,
        subject to the optional device binding. Reads only. */
    method BiometricVerify(template: string, fingerprint: Option<string>, now: Millis)
      returns (status: int, token: Option<Claims>)
      requires db.Valid()
      ensures status == BAD_REQUEST <==> !BiometricRequestValid(template, fingerprint)
      ensures status == OK ==>
        && token.Some? && token.value.userId in db.users
        && var u := db.users[token.value.userId];
        && u.biometricTemplate == Some(template) && u.biometricEnabled && u.isActive
        && !DeviceRejected(fingerprint, u.deviceFingerprint)
        && token.value == IssueToken(token.value.userId, u.role, now)
      ensures status != OK ==> token == None
      ensures BiometricRequestValid(template, fingerprint) ==>
        var found := db.FindOne(ByBiometric(template));
        && (found.None? ==> status == UNAUTHORIZED)
        && (found.Some? ==>
              status == if DeviceRejected(fingerprint, db.users[found.value].deviceFingerprint)
                        then UNAUTHORIZED else OK)
      ensures (forall id :: id in db.users ==> !Matches(ByBiometric(template), db.users[id])) ==>
        status != OK
    {
      if !BiometricRequestValid(template, fingerprint) {
        return BAD_REQUEST, None;
      }
      var found := db.FindOne(ByBiometric(template));
      if found.None? {
        return UNAUTHORIZED, None;
      }
      var user := db.users[found.value];
      if DeviceRejected(fingerprint, user.deviceFingerprint) {
        return UNAUTHORIZED, None;
      }
      status, token := OK, Some(IssueToken(found.value, user.role, now));
    }

    /** POST /enable-biometric (behind `auth`): a missing template is refused; otherwise the
        caller's record, if it still exists, gets the template, biometrics on and the device
        fingerprint (or none). */
    method EnableBiometric(caller: Claims, template: string, fingerprint: string, now: Millis)
      returns (status: int)
      requires db.Valid() && TokenLive(caller, now)
      modifies db
      ensures db.Valid()
      ensures template == "" ==> status == BAD_REQUEST && unchanged(db)
      ensures template != "" ==> status == OK
      ensures template != "" ==>
        db.users == if caller.userId in old(db.users)
                    then old(db.users)[caller.userId := WithBiometric(old(db.users)[caller.userId], template, fingerprint)]
                    else old(db.users)
      ensures db.nextUserId == old(db.nextUserId) && db.patients == old(db.patients)
      ensures db.doctors == old(db.doctors) && db.nextDoctorId == old(db.nextDoctorId)
    {
      if template == "" {
        return BAD_REQUEST;
      }
      if caller.userId in db.users {
        db.SaveUser(caller.userId, WithBiometric(db.users[caller.userId], template, fingerprint));
      }
      status := OK;
    }

    /** POST /otp-send: find the user by phone, draw a six-digit code, store it with a
        three-minute expiry (replacing any earlier one) and hand it to the sender. */
    method OtpSend(phone: string, now: Millis) returns (status: int, sms: Option<Sms>)
      requires db.Valid()
      modifies db
      ensures db.Valid()
      ensures db.nextUserId == old(db.nextUserId) && db.patients == old(db.patients)
      ensures db.doctors == old(db.doctors) && db.nextDoctorId == old(db.nextDoctorId)
      ensures phone == "" ==> status == BAD_REQUEST && sms == None && db.users == old(db.users)
      ensures phone != "" && old(db.FindOne(ByPhone(phone))).None? ==>
        status == NOT_FOUND && sms == None && db.users == old(db.users)
      ensures phone != "" && old(db.FindOne(ByPhone(phone))).Some? ==>
        var id := old(db.FindOne(ByPhone(phone))).value;
        && status == OK && sms.Some? && sms.value.phone == phone
        && IsOtpCode(sms.value.code)
        && (exists n :: 100000 <= n <= 999999 && sms.value.code == DecimalString(n))
        && db.users == old(db.users)[id := IssueOtp(old(db.users)[id], sms.value.code, now)]
    {
      if phone == "" {
        return BAD_REQUEST, None;
      }
      var found := db.FindOne(ByPhone(phone));
      if found.None? {
        return NOT_FOUND, None;
      }
      var id := found.value;
      var user := db.users[id];
      var n: nat :| 100000 <= n <= 999999;
      var code := DecimalString(n);
      OtpCodeFromDraw(n);
      db.SaveUser(id, IssueOtp(user, code, now));
      status, sms := OK, Some(Sms(phone, code));
    }

    /** POST /otp-verify: find the user by phone; the stored code must be present, equal and
        not expired; on success it is cleared and a token is signed. */
    method OtpVerify(phone: string, code: string, now: Millis) returns (status: int, token: Option<Claims>)
      requires db.Valid()
      modifies db
      ensures db.Valid()
      ensures db.nextUserId == old(db.nextUserId) && db.patients == old(db.patients)
      ensures db.doctors == old(db.doctors) && db.nextDoctorId == old(db.nextDoctorId)
      ensures status != OK ==> token == None && db.users == old(db.users)
      ensures phone == "" || code == "" ==> status == BAD_REQUEST
      ensures phone != "" && code != "" && old(db.FindOne(ByPhone(phone))).None? ==> status == NOT_FOUND
      ensures phone != "" && code != "" && old(db.FindOne(ByPhone(phone))).Some? ==>
        var id := old(db.FindOne(ByPhone(phone))).value;
        var u := old(db.users)[id];
        && (!OtpAccepts(u, code, now) ==> status == BAD_REQUEST)
        && (OtpAccepts(u, code, now) ==>
              && status == OK
              && db.users == old(db.users)[id := ClearOtp(u)]
              && token == Some(IssueToken(id, u.role, now)))
    {
      if phone == "" || code == "" {
        return BAD_REQUEST, None;
      }
      var found := db.FindOne(ByPhone(phone));
      if found.None? {
        return NOT_FOUND, None;
      }
      var id := found.value;
      var user := db.users[id];
      if !OtpAccepts(user, code, now) {
        return BAD_REQUEST, None;
      }
      db.SaveUser(id, ClearOtp(user));
      status, token := OK, Some(IssueToken(id, user.role, now));
    }

    /** GET /verify (behind `auth`): the caller's record, or 401 when it no longer exists. */
    method Verify(caller: Claims, now: Millis) returns (status: int, user: Option<User>)
      requires TokenLive(caller, now)
      ensures status == OK <==> caller.userId in db.users
      ensures status == OK ==> user == Some(db.users[caller.userId])
      ensures status != OK ==> status == UNAUTHORIZED && user == None
    {
      if caller.userId !in db.users {
        return UNAUTHORIZED, None;
      }
      status, user := OK, Some(db.users[caller.userId]);
    }

    /** POST /logout (behind `auth`): tokens are stateless, so there is nothing to revoke. */
    method Logout(caller: Claims, now: Millis) returns (status: int)
      requires TokenLive(caller, now)
      ensures status == OK
    {
      status := OK;
    }

    /** A code sent to a phone checks out at any time up to three minutes later. */
    method OtpSendThenVerify(phone: string, now: Millis, later: Millis)
      returns (sent: int, verified: int, token: Option<Claims>)
      requires db.Valid() && phone != ""
      requires now <= later <= now + OtpLifetime
      modifies db
      ensures sent == OK || sent == NOT_FOUND
      ensures sent == OK ==> verified == OK && token.Some?
    {
      var before := db.FindOne(ByPhone(phone));
      ghost var users0 := db.users;
      var sms;
      sent, sms := OtpSend(phone, now);
      if sent != OK {
        return sent, NOT_FOUND, None;
      }
      FindFirstFrame(users0, ByPhone(phone), 0, db.nextUserId, before.value, db.users[before.value]);
      verified, token := OtpVerify(phone, sms.value.code, later);
    }

    /** A passcode is single-use: right after a successful check the same request fails. */
    method OtpReplay(phone: string, code: string, now: Millis)
      returns (first: int, second: int)
      requires db.Valid()
      modifies db
      ensures first == OK ==> second == BAD_REQUEST
    {
      var before := db.FindOne(ByPhone(phone));
      ghost var users0 := db.users;
      var token;
      first, token := OtpVerify(phone, code, now);
      if first == OK {
        FindFirstFrame(users0, ByPhone(phone), 0, db.nextUserId, before.value, db.users[before.value]);
      }
      second, token := OtpVerify(phone, code, now);
    }
  }
}
