/** `CustomUserManager.create_user` and `create_superuser` (api/models.py)
    including the save: validation and defaults come from `Models`, and the
    unique username and email columns reject a clashing row. */
module UserManager {
  import opened Common
  import opened Models
  import opened Store

  /** What the database raises when a save would repeat a username or email. */
  const DUPLICATE_LOGIN: Failure := Exception("IntegrityError", "UNIQUE constraint failed")

  /** Saves a built user row, or refuses it when its login clashes. */
  method SaveNewUser(db: Database, built: Result<User>) returns (r: Result<UserId>)
    requires db.Valid()
    modifies db
    ensures db.Valid()
    ensures built.Err? ==> r == Err(built.failure) && db.Snapshot() == old(db.Snapshot())
    ensures built.Ok? && !LoginFree(old(db.users), built.value.username, built.value.email, 0) ==>
              r == Err(DUPLICATE_LOGIN) && db.Snapshot() == old(db.Snapshot())
    ensures built.Ok? && LoginFree(old(db.users), built.value.username, built.value.email, 0) ==>
              && r == Ok(old(db.next.user))
              && db.Snapshot() == old(db.Snapshot()).(users := old(db.users)[r.value := built.value],
                                                      next := old(db.next).(user := r.value + 1))
  {
    if built.Err? {
      return Err(built.failure);
    }
    if !LoginFree(db.users, built.value.username, built.value.email, 0) {
      return Err(DUPLICATE_LOGIN);
    }
    var id := db.CreateUser(built.value);
    r := Ok(id);
  }

  /** `User.objects.create_user(...)`: an empty email fails before anything
      is saved; otherwise exactly one user row is added. */
  method CreateUser(
    db: Database, username: string, email: Option<string>, password: Option<string>, extra: ExtraFields,
    normalize: string -> string, hash: Option<string> -> string) returns (r: Result<UserId>)
    requires db.Valid()
    modifies db
    ensures db.Valid()
    ensures (email.None? || email.value == "") ==>
              r == Err(Exception("ValueError", "The Email field must be set")) && db.Snapshot() == old(db.Snapshot())
    ensures var built := BuildUser(username, email, password, extra, normalize, hash);
      r.Ok? ==> && built.Ok? && r.value == old(db.next.user)
                && db.Snapshot() == old(db.Snapshot()).(users := old(db.users)[r.value := built.value],
                                                        next := old(db.next).(user := r.value + 1))
    ensures var built := BuildUser(username, email, password, extra, normalize, hash);
      built.Err? ==> r == Err(built.failure)
    ensures var built := BuildUser(username, email, password, extra, normalize, hash);
      built.Ok? ==> (r.Ok? <==> LoginFree(old(db.users), built.value.username, built.value.email, 0))
    ensures var built := BuildUser(username, email, password, extra, normalize, hash);
      built.Ok? && !LoginFree(old(db.users), built.value.username, built.value.email, 0) ==> r == Err(DUPLICATE_LOGIN)
    ensures r.Err? ==> db.Snapshot() == old(db.Snapshot())
  {
    var built := BuildUser(username, email, password, extra, normalize, hash);
    r := SaveNewUser(db, built);
  }

  /** `User.objects.create_superuser(...)`: the flag checks come first, then
      `create_user` with is_staff, is_superuser and is_admin defaulted. */
  method CreateSuperuser(
    db: Database, username: string, email: Option<string>, password: Option<string>, extra: ExtraFields,
    normalize: string -> string, hash: Option<string> -> string) returns (r: Result<UserId>)
    requires db.Valid()
    modifies db
    ensures db.Valid()
    ensures extra.isStaff == Some(false) ==>
              r == Err(Exception("ValueError", "Superuser must have is_staff=True.")) && db.Snapshot() == old(db.Snapshot())
    ensures var built := BuildSuperuser(username, email, password, extra, normalize, hash);
      r.Ok? ==> && built.Ok? && built.value.isStaff && built.value.isSuperuser && r.value == old(db.next.user)
                && db.Snapshot() == old(db.Snapshot()).(users := old(db.users)[r.value := built.value],
                                                        next := old(db.next).(user := r.value + 1))
    ensures var built := BuildSuperuser(username, email, password, extra, normalize, hash);
      built.Err? ==> r == Err(built.failure)
    ensures var built := BuildSuperuser(username, email, password, extra, normalize, hash);
      built.Ok? ==> (r.Ok? <==> LoginFree(old(db.users), built.value.username, built.value.email, 0))
    ensures var built := BuildSuperuser(username, email, password, extra, normalize, hash);
      built.Ok? && !LoginFree(old(db.users), built.value.username, built.value.email, 0) ==> r == Err(DUPLICATE_LOGIN)
    ensures r.Err? ==> db.Snapshot() == old(db.Snapshot())
  {
    var built := BuildSuperuser(username, email, password, extra, normalize, hash);
    r := SaveNewUser(db, built);
  }
}
