/** UserService (src/modules/user/user.service.ts): users with unique
    emails, partial updates by id, lookups that answer `null` rather than
    fail, and the admin test. */
module UserService {
  import opened Common
  import opened Tables

  /** The fields of a new user (`Prisma.UserCreateManyInput` without an id). */
  datatype UserData = UserData(email: string, password: string, role: string, companyId: Option<int>)

  /** `Prisma.UserUncheckedUpdateManyInput`: a field left `None` is not
      written. */
  datatype UserPatch = UserPatch(
    email: Option<string>, password: Option<string>, role: Option<string>, companyId: Option<Option<int>>)

  /** The user after the patch: given fields replaced, the rest kept. */
  function Patched(u: User, patch: UserPatch): (r: User)
    ensures r.id == u.id
    ensures r.email == patch.email.GetOr(u.email) && r.password == patch.password.GetOr(u.password)
    ensures r.role == patch.role.GetOr(u.role) && r.companyId == patch.companyId.GetOr(u.companyId)
  {
    User(u.id, patch.email.GetOr(u.email), patch.password.GetOr(u.password),
         patch.role.GetOr(u.role), patch.companyId.GetOr(u.companyId))
  }

  /** Patching with no fields leaves the user as it was. */
  lemma EmptyPatchKeeps(u: User)
    ensures Patched(u, UserPatch(None, None, None, None)) == u
  {
  }

  class UserService {
    const db: Database

    constructor(db: Database)
      ensures this.db == db
    {
      this.db := db;
    }

    /** create: an email already held by any user is rejected; otherwise
        exactly the given record is inserted under the next id. */
    method Create(data: UserData) returns (r: Result<User>)
      requires db.users.Valid()
      modifies db.users
      ensures db.users.Valid()
      ensures (exists u :: u in old(db.users.rows) && u.email == data.email) <==> r == Fail(UserEmailTaken)
      ensures r.Fail? ==> r.error == UserEmailTaken
      ensures r.Fail? ==> unchanged(db.users)
      ensures r.Ok? ==>
                && r.value == User(old(db.users.nextId), data.email, data.password, data.role, data.companyId)
                && db.users.rows == old(db.users.rows) + [r.value]
                && db.users.nextId == old(db.users.nextId) + 1
    {
      var existing := db.users.FindByEmail(data.email);
      if existing.Some? {
        assert db.users.rows[existing.value] in db.users.rows;
        return Fail(UserEmailTaken);
      }
      var u := User(db.users.nextId, data.email, data.password, data.role, data.companyId);
      db.users.rows := db.users.rows + [u];
      db.users.nextId := db.users.nextId + 1;
      return Ok(u);
    }

    /** update: the user with that id gets the given fields (P2025 when there
        is none; P2002 when the new email is another user's); no other user
        changes. */
    method Update(id: int, patch: UserPatch) returns (r: Result<User>)
      requires db.users.Valid()
      modifies db.users
      ensures db.users.Valid() && db.users.nextId == old(db.users.nextId)
      ensures r.Fail? ==> unchanged(db.users)
      ensures old(db.users.Find(id)).None? <==> r == Fail(RecordNotFound)
      ensures old(db.users.Find(id)).Some? ==>
                var i := old(db.users.Find(id)).value;
                var before := old(db.users.rows);
                var clash := patch.email.Some? &&
                             exists k :: 0 <= k < |before| && k != i && before[k].email == patch.email.value;
                && (clash <==> r == Fail(UniqueViolation))
                && (!clash ==> r == Ok(Patched(before[i], patch)) && db.users.rows == before[i := r.value])
    {
      var found := db.users.Find(id);
      if found.None? {
        return Fail(RecordNotFound);
      }
      var i := found.value;
      if patch.email.Some? {
        var other := First(db.users.rows, (u: User) => u.email == patch.email.value && u.id != id);
        if other.Some? {
          return Fail(UniqueViolation);
        }
        ghost var before := db.users.rows;
        assert forall k :: 0 <= k < |before| && k != i ==> before[k].id != id;
      }
      var u := Patched(db.users.rows[i], patch);
      db.users.rows := db.users.rows[i := u];
      return Ok(u);
    }

    /** findByEmail: the user with that email, or `null`. */
    method FindByEmail(email: string) returns (r: Option<User>)
      ensures r.Some? ==> r.value in db.users.rows && r.value.email == email
      ensures r.None? <==> forall u :: u in db.users.rows ==> u.email != email
    {
      var i := db.users.FindByEmail(email);
      if i.None? {
        return None;
      }
      return Some(db.users.rows[i.value]);
    }

    /** findById: the user with that id, or `null`. */
    method FindById(id: int) returns (r: Option<User>)
      ensures r.Some? ==> r.value in db.users.rows && r.value.id == id
      ensures r.None? <==> forall u :: u in db.users.rows ==> u.id != id
    {
      var i := db.users.Find(id);
      if i.None? {
        return None;
      }
      return Some(db.users.rows[i.value]);
    }

    /** isUserAdmin: the user exists and its role is exactly `ADMIN`. */
    method IsUserAdmin(userId: int) returns (r: bool)
      requires db.users.Valid()
      ensures r <==> exists u :: u in db.users.rows && u.id == userId && u.role == "ADMIN"
    {
      var admin := FindById(userId);
      r := admin.Some? && admin.value.role == "ADMIN";
      if !r && admin.Some? {
        forall u | u in db.users.rows && u.id == userId ensures u.role != "ADMIN" {
          var k :| 0 <= k < |db.users.rows| && db.users.rows[k] == u;
          var j :| 0 <= j < |db.users.rows| && db.users.rows[j] == admin.value;
          assert k == j;
        }
      }
    }
  }
}
