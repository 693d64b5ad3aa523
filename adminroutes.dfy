/** The admin doctor-management routes. Each runs behind `auth` and `authorizeAdmin`, which
    appear here as the precondition that the caller holds live admin claims. */
module AdminRoutes {
  import opened Common
  import opened Session
  import opened Store

  /** The initial password given to a user created for a new doctor. */
  const DefaultDoctorPassword: string := "ChangeMe123!"

  /** The body of a create-doctor request; an absent image URL is the empty string. */
  datatype DoctorRequest = DoctorRequest(
    email: string,
    fullName: string,
    phone: string,
    specialty: string,
    clinic: string,
    imageUrl: string)

  class AdminRouter {
    const db: Database

    constructor (db: Database)
      ensures this.db == db
    {
      this.db := db;
    }

    /** GET /doctors: every doctor row, in stored order; nothing is written. */
    method ListDoctors(caller: Claims, now: Millis) returns (status: int, rows: seq<DoctorRow>)
      requires HoldsAdminClaims(caller, now)
      ensures status == OK
      ensures rows == db.doctors
    {
      status, rows := OK, db.doctors;
    }

    /** POST /doctors: find the user with this e-mail or create one (role doctor, default
        password); an existing user is promoted to doctor; then insert the doctor row. */
    method CreateDoctor(caller: Claims, req: DoctorRequest, now: Millis)
      returns (status: int, row: DoctorRow)
      requires db.Valid() && HoldsAdminClaims(caller, now)
      modifies db
      ensures db.Valid()
      ensures status == CREATED
      ensures old(db.FindOne(ByEmail(req.email))).None? ==>
        && row.userId == old(db.nextUserId) && row.userId !in old(db.users)
        && db.users == old(db.users)[row.userId := NewUser(req.email, req.phone, DefaultDoctorPassword, Doctor)]
        && db.nextUserId == old(db.nextUserId) + 1
      ensures old(db.FindOne(ByEmail(req.email))).Some? ==>
        && row.userId == old(db.FindOne(ByEmail(req.email))).value
        && db.users == old(db.users)[row.userId := old(db.users)[row.userId].(role := Doctor)]
        && db.nextUserId == old(db.nextUserId)
      ensures row.userId in db.users && db.users[row.userId].email == req.email
      ensures db.users[row.userId].role == Doctor
      ensures row == DoctorRow(old(db.nextDoctorId), row.userId, req.fullName, req.phone, req.email,
                               req.specialty, req.clinic,
                               if req.imageUrl == "" then None else Some(req.imageUrl))
      ensures forall i :: 0 <= i < |old(db.doctors)| ==> old(db.doctors)[i].id != row.id
      ensures db.doctors == old(db.doctors) + [row]
      ensures db.patients == old(db.patients)
    {
      var found := db.FindOne(ByEmail(req.email));
      var userId;
      if found.None? {
        userId := db.InsertUser(NewUser(req.email, req.phone, DefaultDoctorPassword, Doctor));
      } else {
        userId := found.value;
        var user := db.users[userId];
        db.SaveUser(userId, user.(role := Doctor));
      }
      var imageUrl := if req.imageUrl == "" then None else Some(req.imageUrl);
      row := db.InsertDoctor(userId, req.fullName, req.phone, req.email, req.specialty, req.clinic, imageUrl);
      status := CREATED;
    }

    /** DELETE /doctors/:id: remove the row with that id, if any; the answer is success either
        way. */
    method DeleteDoctor(caller: Claims, id: DoctorId, now: Millis) returns (status: int)
      requires db.Valid() && HoldsAdminClaims(caller, now)
      modifies db
      ensures db.Valid()
      ensures status == OK
      ensures db.doctors == RemoveRow(old(db.doctors), id)
      ensures forall d :: d in db.doctors <==> d in old(db.doctors) && d.id != id
      ensures db.users == old(db.users) && db.nextUserId == old(db.nextUserId)
      ensures db.patients == old(db.patients) && db.nextDoctorId == old(db.nextDoctorId)
    {
      db.DeleteDoctor(id);
      status := OK;
    }
  }
}
