/** The persisted collections the route handlers read and write: user records (with their
    lockout, one-time-passcode and biometric fields), patient profiles and doctor rows. */
module Store {
  import opened Common

  /** A user document. `password` is the stored credential; how it is hashed and compared is
      abstract (see AuthRoutes.AuthRouter.comparePassword). */
  datatype User = User(
    email: string,
    phone: string,
    password: string,
    role: Role,
    loginAttempts: nat,
    lockUntil: Option<Millis>,
    otp: Option<string>,
    otpExpiry: Option<Millis>,
    biometricTemplate: Option<string>,
    biometricEnabled: bool,
    deviceFingerprint: Option<string>,
    isActive: bool)

  /** A freshly created user document: no failed attempts, no lock, no passcode, biometrics off,
      active. */
  function NewUser(email: string, phone: string, password: string, role: Role): (u: User)
    ensures u.email == email && u.phone == phone && u.password == password && u.role == role
    ensures u.loginAttempts == 0 && u.lockUntil == None && u.otp == None && u.otpExpiry == None
    ensures !u.biometricEnabled && u.isActive && BiometricConsistent(u)
  {
    User(email, phone, password, role, 0, None, None, None, None, false, None, true)
  }

  /** An enabled biometric login always has a non-empty enrolled template. */
  predicate BiometricConsistent(u: User)
  {
    u.biometricEnabled ==> u.biometricTemplate.Some? && u.biometricTemplate.value != ""
  }

  // ---------------------------------------------------------------- lockout

  /** The lockout threshold (failed attempts) and lock duration (milliseconds). */
  datatype LockPolicy = LockPolicy(maxAttempts: nat, lockTime: Millis)

  /** `isLocked()`: a lock time that is still in the future. */
  function IsLocked(u: User, now: Millis): (r: bool)
    ensures u.lockUntil.None? ==> !r
    ensures u.lockUntil.Some? ==> (r <==> now < u.lockUntil.value)
  {
    u.lockUntil.Some? && u.lockUntil.value > now
  }

  /** `incLoginAttempts()`: count one more failure. A lock that has already run out restarts the
      count at one; reaching the threshold while not locked sets a lock for `lockTime`. */
  function IncLoginAttempts(u: User, p: LockPolicy, now: Millis): (r: User)
    ensures r == u.(loginAttempts := r.loginAttempts, lockUntil := r.lockUntil)
    ensures !IsLocked(u, now) ==>
      r.loginAttempts == (if u.lockUntil.Some? then 1 else u.loginAttempts + 1)
    ensures !IsLocked(u, now) ==>
      (r.lockUntil.Some? <==> r.loginAttempts >= p.maxAttempts) &&
      (IsLocked(r, now) <==> r.loginAttempts >= p.maxAttempts && p.lockTime > 0)
    ensures !IsLocked(u, now) && r.loginAttempts >= p.maxAttempts ==> r.lockUntil == Some(now + p.lockTime)
    ensures IsLocked(u, now) ==> r.lockUntil == u.lockUntil
  {
    var expired := u.lockUntil.Some? && u.lockUntil.value <= now;
    var attempts := (if expired then 0 else u.loginAttempts) + 1;
    var lockUntil :=
      if attempts >= p.maxAttempts && !IsLocked(u, now) then Some(now + p.lockTime)
      else if expired then None
      else u.lockUntil;
    u.(loginAttempts := attempts, lockUntil := lockUntil)
  }

  /** `resetLoginAttempts()`: no failures and no lock. */
  function ResetLoginAttempts(u: User): (r: User)
    ensures r.loginAttempts == 0 && r.lockUntil == None
    ensures forall now: Millis :: !IsLocked(r, now)
    ensures r == u.(loginAttempts := 0, lockUntil := None)
  {
    u.(loginAttempts := 0, lockUntil := None)
  }

  // ---------------------------------------------------------------- queries

  /** The filters the handlers pass to `User.findOne`. */
  datatype Query =
    | ByEmail(email: string)
    | ByPhone(phone: string)
    | ByEmailOrPhone(email': string, phone': string)
    | ByBiometric(template: string)

  /** Whether a document satisfies a filter (field equality, as the database compares). */
  function Matches(q: Query, u: User): (r: bool)
    ensures q.ByEmailOrPhone? ==> (r <==> u.email == q.email' || u.phone == q.phone')
    ensures q.ByBiometric? && r ==> u.biometricEnabled && u.isActive && u.biometricTemplate == Some(q.template)
    ensures q.ByBiometric? && r && BiometricConsistent(u) ==> q.template != ""
  {
    match q
    case ByEmail(e) => u.email == e
    case ByPhone(ph) => u.phone == ph
    case ByEmailOrPhone(e, ph) => u.email == e || u.phone == ph
    case ByBiometric(t) => u.biometricTemplate == Some(t) && u.biometricEnabled && u.isActive
  }

  /** `findOne`: the first document, in insertion (id) order from `from` up to `bound`, that
      satisfies the filter. */
  function FindFirst(users: map<UserId, User>, q: Query, from: nat, bound: nat): (r: Option<UserId>)
    decreases bound - from
    ensures r.Some? ==> from <= r.value < bound && r.value in users && Matches(q, users[r.value])
    ensures r.Some? ==> forall j :: from <= j < r.value && j in users ==> !Matches(q, users[j])
    ensures r.None? ==> forall j :: from <= j < bound && j in users ==> !Matches(q, users[j])
  {
    if from >= bound then None
    else if from in users && Matches(q, users[from]) then Some(from)
    else FindFirst(users, q, from + 1, bound)
  }

  /** Replacing one document by one that answers the filter the same way does not change which
      document `findOne` returns. */
  lemma {:induction false} FindFirstFrame(users: map<UserId, User>, q: Query, from: nat, bound: nat, id: UserId, u: User)
    requires id in users && Matches(q, users[id]) == Matches(q, u)
    ensures FindFirst(users[id := u], q, from, bound) == FindFirst(users, q, from, bound)
    decreases bound - from
  {
    if from < bound {
      FindFirstFrame(users, q, from + 1, bound, id, u);
    }
  }

  // ---------------------------------------------------------------- other collections

  /** The patient profile created at registration (display fields only). */
  datatype PatientProfile = PatientProfile(fullName: string, gender: string)

  /** A doctor row as the admin panel creates it. */
  datatype DoctorRow = DoctorRow(
    id: DoctorId,
    userId: UserId,
    fullName: string,
    phone: string,
    email: string,
    specialty: string,
    clinic: string,
    imageUrl: Option<string>)

  /** `Doctor.findByIdAndDelete(id)` on the rows: every row except the one with that id, in
      their order; the rows are unchanged when no row has that id. */
  function RemoveRow(rows: seq<DoctorRow>, id: DoctorId): (r: seq<DoctorRow>)
    ensures forall d :: d in r <==> d in rows && d.id != id
    ensures |r| <= |rows|
    ensures (forall i :: 0 <= i < |rows| ==> rows[i].id != id) ==> r == rows
  {
    if rows == [] then []
    else if rows[0].id == id then RemoveRow(rows[1..], id)
    else [rows[0]] + RemoveRow(rows[1..], id)
  }

  /** Removing the id of the first row, when no later row has it, leaves the later rows. */
  lemma RemoveRowFirst(rows: seq<DoctorRow>, id: DoctorId)
    requires rows != [] && rows[0].id == id
    requires forall i :: 0 < i < |rows| ==> rows[i].id != id
    ensures RemoveRow(rows, id) == rows[1..]
  {
    var tail := rows[1..];
    forall i | 0 <= i < |tail| ensures tail[i].id != id {
      assert tail[i] == rows[i + 1];
    }
  }

  /** A first row with another id is kept in front of the removal from the rest. */
  lemma RemoveRowKeepFirst(rows: seq<DoctorRow>, id: DoctorId)
    requires rows != [] && rows[0].id != id
    ensures RemoveRow(rows, id) == [rows[0]] + RemoveRow(rows[1..], id)
  {
  }

  /** Dropping element `k` commutes with putting the first element back in front. */
  lemma DropAtCons<T>(xs: seq<T>, k: nat)
    requires 0 < k < |xs|
    ensures [xs[0]] + (xs[1..][..k - 1] + xs[1..][k..]) == xs[..k] + xs[k + 1..]
  {
    assert xs[..k] == [xs[0]] + xs[1..][..k - 1];
    assert xs[k + 1..] == xs[1..][k..];
  }

  /** If row `k` alone has the id, row `k - 1` alone has it among the later rows. */
  lemma OnlyAtInTail(rows: seq<DoctorRow>, id: DoctorId, k: nat)
    requires 0 < k < |rows| && rows[k].id == id
    requires forall i :: 0 <= i < |rows| && i != k ==> rows[i].id != id
    ensures rows[1..][k - 1].id == id
    ensures forall i :: 0 <= i < |rows[1..]| && i != k - 1 ==> rows[1..][i].id != id
  {
    var tail := rows[1..];
    forall i | 0 <= i < |tail| && i != k - 1 ensures tail[i].id != id {
      assert tail[i] == rows[i + 1];
    }
  }

  /** When row `k` is the only row with that id (as with distinct ids), removing the id
      leaves the rows before and after it, in their order. */
  lemma {:induction false} RemoveRowAt(rows: seq<DoctorRow>, id: DoctorId, k: nat)
    requires k < |rows| && rows[k].id == id
    requires forall i :: 0 <= i < |rows| && i != k ==> rows[i].id != id
    ensures RemoveRow(rows, id) == rows[..k] + rows[k + 1..]
  {
    if k == 0 {
      RemoveRowFirst(rows, id);
      assert rows[..k] + rows[k + 1..] == rows[1..];
    } else {
      OnlyAtInTail(rows, id, k);
      RemoveRowKeepFirst(rows, id);
      RemoveRowAt(rows[1..], id, k - 1);
      DropAtCons(rows, k);
    }
  }

  /** With distinct ids, removing a present id drops exactly one row. */
  lemma {:induction false} RemoveRowCount(rows: seq<DoctorRow>, id: DoctorId)
    requires forall i, j :: 0 <= i < j < |rows| ==> rows[i].id != rows[j].id
    ensures |RemoveRow(rows, id)| == |rows| - (if exists i :: 0 <= i < |rows| && rows[i].id == id then 1 else 0)
  {
    if rows != [] {
      RemoveRowCount(rows[1..], id);
      if rows[0].id == id {
        assert forall i :: 0 <= i < |rows[1..]| ==> rows[1..][i].id != id by {
          forall i | 0 <= i < |rows[1..]| ensures rows[1..][i].id != id {
            assert rows[1..][i] == rows[i + 1];
          }
        }
      } else {
        assert (exists i :: 0 <= i < |rows| && rows[i].id == id) <==>
               (exists i :: 0 <= i < |rows[1..]| && rows[1..][i].id == id) by {
          if i :| 0 <= i < |rows| && rows[i].id == id {
            assert rows[1..][i - 1] == rows[i];
          }
          if i :| 0 <= i < |rows[1..]| && rows[1..][i].id == id {
            assert rows[i + 1] == rows[1..][i];
          }
        }
      }
    }
  }

  /** Removing rows keeps the ids distinct and the remaining rows' fields intact. */
  lemma {:induction false} RemoveRowKeepsDistinct(rows: seq<DoctorRow>, id: DoctorId)
    requires forall i, j :: 0 <= i < j < |rows| ==> rows[i].id != rows[j].id
    ensures forall i, j :: 0 <= i < j < |RemoveRow(rows, id)| ==>
      RemoveRow(rows, id)[i].id != RemoveRow(rows, id)[j].id
  {
    if rows != [] {
      var tail := rows[1..];
      assert forall i, j :: 0 <= i < j < |tail| ==> tail[i].id != tail[j].id by {
        forall i, j | 0 <= i < j < |tail| ensures tail[i].id != tail[j].id {
          assert tail[i] == rows[i + 1] && tail[j] == rows[j + 1];
        }
      }
      RemoveRowKeepsDistinct(tail, id);
      if rows[0].id != id {
        var r := RemoveRow(tail, id);
        forall d | d in r ensures d.id != rows[0].id {
          assert d in tail;
          var k :| 0 <= k < |tail| && tail[k] == d;
          assert tail[k] == rows[k + 1];
        }
      }
    }
  }

  /** The database: the User, Patient and Doctor collections. */
  class Database {
    var users: map<UserId, User>
    var nextUserId: UserId
    var patients: map<UserId, PatientProfile>
    var doctors: seq<DoctorRow>
    var nextDoctorId: DoctorId

    /** Ids are below the next id to hand out; profiles and doctor rows point at existing users;
        doctor ids are distinct; every user's biometric fields are consistent. */
    ghost predicate Valid()
      reads this
    {
      && (forall id :: id in users ==> id < nextUserId)
      && (forall id :: id in users ==> BiometricConsistent(users[id]))
      && (forall id :: id in patients ==> id in users)
      && (forall i :: 0 <= i < |doctors| ==> doctors[i].id < nextDoctorId && doctors[i].userId in users)
      && (forall i, j :: 0 <= i < j < |doctors| ==> doctors[i].id != doctors[j].id)
    }

    constructor ()
      ensures Valid()
      ensures users == map[] && patients == map[] && doctors == []
    {
      users := map[];
      nextUserId := 0;
      patients := map[];
      doctors := [];
      nextDoctorId := 0;
    }

    /** `findOne(q)`: some matching document exactly when one exists, and then the first. */
    function FindOne(q: Query): (r: Option<UserId>)
      reads this
      requires Valid()
      ensures r.Some? ==> r.value in users && Matches(q, users[r.value])
      ensures r.Some? ==> forall j :: j in users && j < r.value ==> !Matches(q, users[j])
      ensures r.None? <==> forall j :: j in users ==> !Matches(q, users[j])
    {
      FindFirst(users, q, 0, nextUserId)
    }

    /** `new User(...).save()`: store `u` under a fresh id. */
    method InsertUser(u: User) returns (id: UserId)
      requires Valid() && BiometricConsistent(u)
      modifies this
      ensures Valid()
      ensures id == old(nextUserId) && id !in old(users)
      ensures users == old(users)[id := u] && nextUserId == id + 1
      ensures patients == old(patients) && doctors == old(doctors) && nextDoctorId == old(nextDoctorId)
    {
      id := nextUserId;
      users := users[id := u];
      nextUserId := nextUserId + 1;
    }

    /** `user.save()` of an existing document. */
    method SaveUser(id: UserId, u: User)
      requires Valid() && id in users && BiometricConsistent(u)
      modifies this
      ensures Valid()
      ensures users == old(users)[id := u]
      ensures nextUserId == old(nextUserId) && patients == old(patients)
      ensures doctors == old(doctors) && nextDoctorId == old(nextDoctorId)
    {
      users := users[id := u];
    }

    /** `new Patient({userId, ...}).save()`. */
    method InsertPatient(id: UserId, profile: PatientProfile)
      requires Valid() && id in users
      modifies this
      ensures Valid()
      ensures patients == old(patients)[id := profile]
      ensures users == old(users) && nextUserId == old(nextUserId)
      ensures doctors == old(doctors) && nextDoctorId == old(nextDoctorId)
    {
      patients := patients[id := profile];
    }

    /** `new Doctor({...}).save()`: append a row under a fresh doctor id. */
    method InsertDoctor(userId: UserId, fullName: string, phone: string, email: string,
                        specialty: string, clinic: string, imageUrl: Option<string>)
      returns (row: DoctorRow)
      requires Valid() && userId in users
      modifies this
      ensures Valid()
      ensures row == DoctorRow(old(nextDoctorId), userId, fullName, phone, email, specialty, clinic, imageUrl)
      ensures forall i :: 0 <= i < |old(doctors)| ==> old(doctors)[i].id != row.id
      ensures doctors == old(doctors) + [row] && nextDoctorId == old(nextDoctorId) + 1
      ensures users == old(users) && nextUserId == old(nextUserId) && patients == old(patients)
    {
      row := DoctorRow(nextDoctorId, userId, fullName, phone, email, specialty, clinic, imageUrl);
      doctors := doctors + [row];
      nextDoctorId := nextDoctorId + 1;
    }

    /** `Doctor.findByIdAndDelete(id)`. */
    method DeleteDoctor(id: DoctorId)
      requires Valid()
      modifies this
      ensures Valid()
      ensures doctors == RemoveRow(old(doctors), id)
      ensures users == old(users) && nextUserId == old(nextUserId)
      ensures patients == old(patients) && nextDoctorId == old(nextDoctorId)
    {
      doctors := RemoveRow(doctors, id);
      RemoveRowKeepsDistinct(old(doctors), id);
    }
  }
}
