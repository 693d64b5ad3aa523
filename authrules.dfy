/** The decisions the authentication routes make, as functions on values: request validation,
    the login decision (lock gate, password check, counter update), one-time-passcode issue and
    acceptance, and the biometric device binding. AuthRoutes applies them to the database. */
module AuthRules {
  import opened Common
  import opened Store

  // ---------------------------------------------------------------- registration rules

  /** A character of the regular-expression class `\s` (JavaScript's white space and line
      terminators). */
  predicate IsJsSpace(c: char)
  {
    var k := c as int;
    k == 0x09 || k == 0x0A || k == 0x0B || k == 0x0C || k == 0x0D || k == 0x20 ||
    k == 0xA0 || k == 0x1680 || (0x2000 <= k <= 0x200A) || k == 0x2028 || k == 0x2029 ||
    k == 0x202F || k == 0x205F || k == 0x3000 || k == 0xFEFF
  }

  /** A character of the class `[\d\s-]`. */
  predicate IsPhoneChar(c: char)
  {
    ('0' <= c <= '9') || c == '-' || IsJsSpace(c)
  }

  /** `[\d\s-]+`: one or more phone characters and nothing else. */
  function PhoneRun(s: string): (r: bool)
    ensures r <==> |s| > 0 && forall i :: 0 <= i < |s| ==> IsPhoneChar(s[i])
  {
    if |s| == 0 then false
    else if |s| == 1 then IsPhoneChar(s[0])
    else IsPhoneChar(s[0]) && PhoneRun(s[1..])
  }

  /** The registration phone pattern `^\+?[\d\s-]+$`: an optional plus sign, then one or more
      digits, white-space characters or hyphens. */
  function PhonePatternOk(s: string): (r: bool)
    ensures r <==>
      (|s| > 0 && forall i :: 0 <= i < |s| ==> IsPhoneChar(s[i])) ||
      (|s| > 1 && s[0] == '+' && forall i :: 1 <= i < |s| ==> IsPhoneChar(s[i]))
  {
    if |s| > 0 && s[0] == '+' then
      assert !IsPhoneChar(s[0]);
      assert forall i :: 0 <= i < |s[1..]| ==> s[1..][i] == s[i + 1];
      PhoneRun(s[1..])
    else PhoneRun(s)
  }

  /** The length the validator measures: UTF-16 code units, so a character outside the Basic
      Multilingual Plane counts twice. */
  function Utf16Length(s: string): (n: nat)
    ensures |s| <= n <= 2 * |s|
    ensures (forall i :: 0 <= i < |s| ==> s[i] as int <= 0xFFFF) ==> n == |s|
  {
    if s == [] then 0
    else (if s[0] as int > 0xFFFF then 2 else 1) + Utf16Length(s[1..])
  }

  /** The body of a registration request. `detailsValid` stands for the validator's verdict on
      the fields whose rules are the library's own (date of birth not in the future, emergency
      contact, medical history). */
  datatype Registration = Registration(
    email: string,
    phone: string,
    password: string,
    fullName: string,
    gender: string,
    detailsValid: bool)

  /** The registration schema: a well-formed e-mail (`emailOk` is the validator's e-mail rule),
      the phone pattern, a password of at least six and a full name of at least two
      characters, and one of the four genders. */
  function RegistrationValid(req: Registration, emailOk: string -> bool): (r: bool)
    ensures !PhonePatternOk(req.phone) ==> !r
    ensures |req.password| < 3 ==> !r
    ensures ((forall i :: 0 <= i < |req.password| ==> req.password[i] as int <= 0xFFFF) &&
             |req.password| < 6) ==> !r
  {
    && emailOk(req.email)
    && PhonePatternOk(req.phone)
    && Utf16Length(req.password) >= 6
    && Utf16Length(req.fullName) >= 2
    && req.gender in {"male", "female", "other", "prefer_not_to_say"}
    && req.detailsValid
  }

  /** The login schema: a well-formed e-mail and a non-empty password. */
  function LoginRequestValid(email: string, password: string, emailOk: string -> bool): (r: bool)
    ensures password == "" ==> !r
  {
    emailOk(email) && password != ""
  }

  /** The duplicate-identity test: some user already holds the e-mail or the phone. */
  function IdentityTaken(users: map<UserId, User>, email: string, phone: string): (r: bool)
    ensures !r <==> forall id :: id in users ==> users[id].email != email && users[id].phone != phone
    ensures r <==> exists id :: id in users && Matches(ByEmailOrPhone(email, phone), users[id])
  {
    exists id :: id in users && (users[id].email == email || users[id].phone == phone)
  }

  // ---------------------------------------------------------------- login decision

  /** What one login attempt on a found user answers, and the user record it leaves. */
  datatype Step = Step(status: int, user: User)

  /** The login decision on a found user: the lock gate comes first and answers 423 without
      looking at the password or touching the record; a wrong password counts a failure; a
      right one clears the failures. */
  function LoginStep(u: User, passwordOk: bool, p: LockPolicy, now: Millis): (r: Step)
    ensures r.status == LOCKED <==> IsLocked(u, now)
    ensures r.status == LOCKED ==> r.user == u
    ensures r.status == OK <==> !IsLocked(u, now) && passwordOk
    ensures r.status == OK ==> r.user.loginAttempts == 0 && r.user.lockUntil == None
    ensures r.status == UNAUTHORIZED <==> !IsLocked(u, now) && !passwordOk
    ensures r.status == UNAUTHORIZED ==>
      r.user.loginAttempts == (if u.lockUntil.Some? then 1 else u.loginAttempts + 1)
    ensures r.status == UNAUTHORIZED ==>
      r.user.lockUntil == if r.user.loginAttempts >= p.maxAttempts then Some(now + p.lockTime) else None
    ensures r.user == u.(loginAttempts := r.user.loginAttempts, lockUntil := r.user.lockUntil)
  {
    if IsLocked(u, now) then Step(LOCKED, u)
    else if !passwordOk then Step(UNAUTHORIZED, IncLoginAttempts(u, p, now))
    else Step(OK, ResetLoginAttempts(u))
  }

  /** The record after a wrong password at each of the times `ts`, in that order. */
  function FailStreak(u: User, ts: seq<Millis>, p: LockPolicy): User
    decreases |ts|
  {
    if ts == [] then u
    else LoginStep(FailStreak(u, ts[..|ts| - 1], p), false, p, ts[|ts| - 1]).user
  }

  /** Starting from a record with no failures and no lock, each of the first `maxAttempts`
      wrong passwords counts one failure, whenever it arrives; no lock is set below the
      threshold, and the failure that reaches it locks the account until its own time plus
      `lockTime`. */
  lemma {:induction false} FailStreakCounts(u: User, ts: seq<Millis>, p: LockPolicy)
    requires u.loginAttempts == 0 && u.lockUntil == None
    requires 0 < p.maxAttempts && |ts| <= p.maxAttempts
    ensures FailStreak(u, ts, p).loginAttempts == |ts|
    ensures |ts| < p.maxAttempts ==> FailStreak(u, ts, p).lockUntil == None
    ensures |ts| == p.maxAttempts ==>
      FailStreak(u, ts, p).lockUntil == Some(ts[|ts| - 1] + p.lockTime)
  {
    if ts != [] {
      FailStreakCounts(u, ts[..|ts| - 1], p);
    }
  }

  /** After `maxAttempts` wrong passwords, every attempt from the last failure until the lock
      runs out is answered 423, even with the right password, and leaves the record (and its
      counter) as it is. */
  lemma LockoutAfterThreshold(u: User, ts: seq<Millis>, p: LockPolicy, later: Millis, passwordOk: bool)
    requires u.loginAttempts == 0 && u.lockUntil == None
    requires 0 < p.maxAttempts && |ts| == p.maxAttempts
    requires ts[|ts| - 1] <= later < ts[|ts| - 1] + p.lockTime
    ensures var locked := FailStreak(u, ts, p);
            LoginStep(locked, passwordOk, p, later) == Step(LOCKED, locked)
  {
    FailStreakCounts(u, ts, p);
  }

  /** Once the lock has run out, the right password is accepted again and clears the count. */
  lemma LockExpires(u: User, p: LockPolicy, t: Millis)
    requires u.lockUntil.Some? && u.lockUntil.value <= t
    ensures LoginStep(u, true, p, t) == Step(OK, u.(loginAttempts := 0, lockUntil := None))
  {
  }

  // ---------------------------------------------------------------- one-time passcodes

  /** A passcode stays valid for three minutes. */
  const OtpLifetime: Millis := 3 * 60 * 1000

  /** The expiry as a number of milliseconds; a missing expiry compares as 0, as null does in
      a JavaScript `<` comparison with a date. */
  function ExpiryMillis(e: Option<Millis>): Millis
  {
    if e.Some? then e.value else 0
  }

  /** The passcode check: a stored, non-empty code equal to the one presented, whose expiry is
      not before now (so it still holds at the expiry instant itself). */
  function OtpAccepts(u: User, code: string, now: Millis): (r: bool)
    ensures r <==> u.otp == Some(code) && code != "" &&
                   (if u.otpExpiry.Some? then now <= u.otpExpiry.value else now == 0)
  {
    u.otp.Some? && u.otp.value != "" && u.otp.value == code && !(ExpiryMillis(u.otpExpiry) < now)
  }

  /** Storing a new passcode, overwriting any earlier one. */
  function IssueOtp(u: User, code: string, now: Millis): (r: User)
    ensures r == u.(otp := r.otp, otpExpiry := r.otpExpiry)
    ensures r.otp == Some(code) && r.otpExpiry == Some(now + OtpLifetime)
  {
    u.(otp := Some(code), otpExpiry := Some(now + OtpLifetime))
  }

  /** Clearing the passcode after a successful check. */
  function ClearOtp(u: User): (r: User)
    ensures r == u.(otp := None, otpExpiry := None)
  {
    u.(otp := None, otpExpiry := None)
  }

  /** A code issued at `t0` is accepted exactly when it is the code presented and at most
      three minutes have passed; issuing again makes every other code fail. */
  lemma OtpWindow(u: User, code: string, t0: Millis, presented: string, t: Millis)
    requires code != ""
    ensures OtpAccepts(IssueOtp(u, code, t0), presented, t) <==> presented == code && t <= t0 + OtpLifetime
  {
  }

  /** A cleared passcode never checks out again, whatever is presented and whenever. */
  lemma OtpSingleUse(u: User, code: string, t: Millis)
    ensures !OtpAccepts(ClearOtp(u), code, t)
  {
  }

  /** A decimal digit character. */
  predicate IsDigit(c: char)
  {
    '0' <= c <= '9'
  }

  predicate AllDigits(s: string)
  {
    forall i :: 0 <= i < |s| ==> IsDigit(s[i])
  }

  /** A passcode as issued: six decimal digits, the first not zero. */
  predicate IsOtpCode(s: string)
  {
    |s| == 6 && AllDigits(s) && s[0] != '0'
  }

  function DigitChar(d: nat): (c: char)
    requires d < 10
    ensures IsDigit(c)
  {
    ('0' as int + d) as char
  }

  /** `n.toString()` for a natural number: its decimal digits, without leading zeros. */
  function DecimalString(n: nat): (s: string)
    ensures 1 <= |s| && AllDigits(s)
  {
    if n < 10 then [DigitChar(n)] else DecimalString(n / 10) + [DigitChar(n % 10)]
  }

  /** The number a string of decimal digits denotes. */
  function ParseDecimal(s: string): nat
    requires AllDigits(s)
  {
    if s == [] then 0
    else ParseDecimal(s[..|s| - 1]) * 10 + (s[|s| - 1] as int - '0' as int)
  }

  function Pow10(k: nat): nat
  {
    if k == 0 then 1 else 10 * Pow10(k - 1)
  }

  /** Printing a number and reading it back gives the number. */
  lemma {:induction false} DecimalRoundTrip(n: nat)
    ensures AllDigits(DecimalString(n))
    ensures ParseDecimal(DecimalString(n)) == n
  {
    if n >= 10 {
      DecimalRoundTrip(n / 10);
      var s := DecimalString(n);
      assert s[..|s| - 1] == DecimalString(n / 10);
    }
  }

  /** A number with `k` digits prints as `k` characters, the first not zero. */
  lemma {:induction false} DecimalLength(n: nat, k: nat)
    requires 1 <= k && Pow10(k - 1) <= n < Pow10(k)
    ensures |DecimalString(n)| == k
    ensures n > 0 ==> DecimalString(n)[0] != '0'
  {
    if k == 1 {
      assert n < 10;
    } else {
      assert Pow10(k - 1) == 10 * Pow10(k - 2);
      DecimalLength(n / 10, k - 1);
      assert DecimalString(n)[0] == DecimalString(n / 10)[0];
    }
  }

  /** Every number the generator can draw prints as a six-digit passcode that reads back as
      that number. */
  lemma OtpCodeFromDraw(n: nat)
    requires 100000 <= n <= 999999
    ensures IsOtpCode(DecimalString(n))
    ensures ParseDecimal(DecimalString(n)) == n
  {
    assert Pow10(5) == 100000 && Pow10(6) == 1000000;
    DecimalLength(n, 6);
    DecimalRoundTrip(n);
  }

  // ---------------------------------------------------------------- biometrics

  /** The biometric-verify schema: a non-empty template, and a fingerprint that, when given,
      is not empty. */
  function BiometricRequestValid(template: string, fingerprint: Option<string>): (r: bool)
    ensures !r <==> template == "" || fingerprint == Some("")
  {
    template != "" && (fingerprint.Some? ==> fingerprint.value != "")
  }

  /** The device check: rejected only when both the presented and the stored fingerprint are
      present (non-empty) and they differ. */
  function DeviceRejected(presented: Option<string>, stored: Option<string>): (r: bool)
    ensures !r <==> presented.None? || presented.value == "" || stored.None? || stored.value == "" ||
                    presented == stored
  {
    presented.Some? && presented.value != "" &&
    stored.Some? && stored.value != "" &&
    presented.value != stored.value
  }

  /** Enrolling a template: biometrics on, and the device fingerprint bound when one is given
      (an empty one is stored as absent). */
  function WithBiometric(u: User, template: string, fingerprint: string): (r: User)
    requires template != ""
    ensures BiometricConsistent(r)
    ensures r == u.(biometricTemplate := Some(template), biometricEnabled := true,
                    deviceFingerprint := r.deviceFingerprint)
    ensures r.deviceFingerprint == if fingerprint == "" then None else Some(fingerprint)
  {
    u.(biometricTemplate := Some(template), biometricEnabled := true,
       deviceFingerprint := if fingerprint == "" then None else Some(fingerprint))
  }

  /** After enrolment an active user matches the biometric query for that template, and a
      presented device is accepted exactly when the enrolment bound none or bound that one. */
  lemma EnrolledDevice(u: User, template: string, fingerprint: string, presented: Option<string>)
    requires template != "" && u.isActive
    ensures Matches(ByBiometric(template), WithBiometric(u, template, fingerprint))
    ensures !DeviceRejected(presented, WithBiometric(u, template, fingerprint).deviceFingerprint) <==>
            presented.None? || presented.value == "" || fingerprint == "" || presented.value == fingerprint
  {
  }
}
