/** api/routers/user.py: listing users with a search term, reading one,
    the partial and the full update, and deleting one. The admin guards'
    denials are discarded by every handler; only an anonymous request, whose
    missing profile makes `is_admin` raise, stops one. */
module UserRouter {
  import opened Common
  import opened Models
  import opened Store
  import opened Ordering
  import opened Utils
  import UserManager

  /** `UserSchema`: the user's own columns. */
  datatype UserView = UserView(id: UserId, username: string, email: string, isAdmin: bool, isParticipant: bool)

  function ViewOf(id: UserId, u: User): UserView {
    UserView(id, u.username, u.email, u.isAdmin, u.isParticipant)
  }

  /** The 404 of `get_user_details` and `delete_user`, raised with an
      `ErrorSchema` instance as its message. */
  const USER_NOT_FOUND_SCHEMA := HttpErrorWith(404, SchemaMessage("User not found"))

  /** The 404 of `partial_update_user` and `update_user`, raised with a dict
      as its message. */
  const USER_NOT_FOUND_DICT := HttpErrorWith(404, DictMessage("User not found"))

  // ---------------------------------------------------------------------------
  // Reading

  /** `Q(username__icontains=search) | Q(email__icontains=search)`. */
  predicate Matches(u: User, search: string) {
    ContainsIgnoreCase(u.username, search) || ContainsIgnoreCase(u.email, search)
  }

  /** `if search:` — no term and the empty term list everyone. */
  predicate Listed(u: User, search: Option<string>) {
    search.None? || search.value == "" || Matches(u, search.value)
  }

  function ListedIds(t: Tables, search: Option<string>): set<UserId> {
    set k | k in t.users && Listed(t.users[k], search)
  }

  /** `User.objects.all()`, filtered when a search term is given. */
  function ListedRows(t: Tables, search: Option<string>): seq<Entry<User>> {
    Filter(Rows(t.users, t.next.user), (e: Entry<User>) => Listed(e.row, search))
  }

  lemma ListedRowsSpec(t: Tables, search: Option<string>)
    requires KeysBelow(t.users, t.next.user)
    ensures forall e :: e in ListedRows(t, search) ==> e.id in t.users && e.row == t.users[e.id] && Listed(e.row, search)
    ensures forall k :: k in t.users && Listed(t.users[k], search) ==> Entry(k, t.users[k]) in ListedRows(t, search)
    ensures |ListedRows(t, search)| == |ListedIds(t, search)|
  {
    var p := (e: Entry<User>) => Listed(e.row, search);
    FilterRows(t.users, t.next.user, p);
    assert (set k | k in t.users && p(Entry(k, t.users[k]))) == ListedIds(t, search);
  }

  /** The list comprehension building one schema record per row. */
  function Project(rows: seq<Entry<User>>): (out: seq<UserView>)
    ensures |out| == |rows|
    ensures forall i :: 0 <= i < |rows| ==> out[i] == ViewOf(rows[i].id, rows[i].row)
  {
    if rows == [] then [] else [ViewOf(rows[0].id, rows[0].row)] + Project(rows[1..])
  }

  /** `list_users`: every user the search term matches, case-insensitively in
      the username or the email, once each, ordered on `key`. */
  function ListUsers(t: Tables, who: RequestUser, search: Option<string>, key: Entry<User> -> real)
    : (r: Result<seq<UserView>>)
    requires KeysBelow(t.users, t.next.user)
    ensures r.Err? <==> who.Anonymous?
    ensures r.Ok? ==> |r.value| == |ListedIds(t, search)|
    ensures r.Ok? ==> forall v :: v in r.value ==>
      v.id in t.users && v == ViewOf(v.id, t.users[v.id]) && Listed(t.users[v.id], search)
    ensures r.Ok? ==> forall k :: k in t.users && Listed(t.users[k], search) ==> ViewOf(k, t.users[k]) in r.value
    ensures r.Ok? ==> forall i, j :: 0 <= i < j < |r.value| ==>
      r.value[i].id in t.users && r.value[j].id in t.users &&
      key(Entry(r.value[i].id, t.users[r.value[i].id])) <= key(Entry(r.value[j].id, t.users[r.value[j].id]))
  {
    if Guards(who).Some? then Err(Guards(who).value)
    else
      var rows := ListedRows(t, search);
      var sorted := SortBy(rows, key);
      ListedRowsSpec(t, search);
      SortByMembers(rows, key);
      var out := Project(sorted);
      ListUsersRows(t, search, key, sorted, out);
      Ok(out)
  }

  /** The projection of the filtered, sorted rows has the properties
      `ListUsers` promises. */
  lemma ListUsersRows(t: Tables, search: Option<string>, key: Entry<User> -> real, sorted: seq<Entry<User>>, out: seq<UserView>)
    requires forall e :: e in sorted ==> e.id in t.users && e.row == t.users[e.id] && Listed(e.row, search)
    requires forall k :: k in t.users && Listed(t.users[k], search) ==> Entry(k, t.users[k]) in sorted
    requires SortedOn(sorted, key)
    requires |out| == |sorted|
    requires forall i :: 0 <= i < |sorted| ==> out[i] == ViewOf(sorted[i].id, sorted[i].row)
    ensures forall v :: v in out ==> v.id in t.users && v == ViewOf(v.id, t.users[v.id]) && Listed(t.users[v.id], search)
    ensures forall k :: k in t.users && Listed(t.users[k], search) ==> ViewOf(k, t.users[k]) in out
    ensures forall i, j :: 0 <= i < j < |out| ==>
      out[i].id in t.users && out[j].id in t.users &&
      key(Entry(out[i].id, t.users[out[i].id])) <= key(Entry(out[j].id, t.users[out[j].id]))
  {
    forall v | v in out ensures v.id in t.users && v == ViewOf(v.id, t.users[v.id]) && Listed(t.users[v.id], search) {
      var i :| 0 <= i < |out| && out[i] == v;
      assert sorted[i] in sorted;
    }
    forall k | k in t.users && Listed(t.users[k], search) ensures ViewOf(k, t.users[k]) in out {
      var i :| 0 <= i < |sorted| && sorted[i] == Entry(k, t.users[k]);
      assert out[i] == ViewOf(k, t.users[k]);
    }
    forall i, j | 0 <= i < j < |out|
      ensures out[i].id in t.users && out[j].id in t.users &&
              key(Entry(out[i].id, t.users[out[i].id])) <= key(Entry(out[j].id, t.users[out[j].id]))
    {
      assert sorted[i] in sorted && sorted[j] in sorted;
      assert sorted[i] == Entry(out[i].id, t.users[out[i].id]);
      assert sorted[j] == Entry(out[j].id, t.users[out[j].id]);
    }
  }

  /** `get_user_details`. */
  function GetUser(t: Tables, who: RequestUser, id: UserId): (r: Result<UserView>)
    ensures who.Anonymous? ==> r.Err? && r.failure == IsAdmin(who).failure
    ensures who.Authenticated? && id !in t.users ==> r == Err(USER_NOT_FOUND_SCHEMA)
    ensures r.Ok? <==> who.Authenticated? && id in t.users
    ensures r.Ok? ==> r.value.id == id && r.value.username == t.users[id].username && r.value.email == t.users[id].email
    ensures r.Ok? ==> r.value.isAdmin == t.users[id].isAdmin && r.value.isParticipant == t.users[id].isParticipant
  {
    if Guards(who).Some? then Err(Guards(who).value)
    else if id !in t.users then Err(USER_NOT_FOUND_SCHEMA)
    else Ok(ViewOf(id, t.users[id]))
  }

  // ---------------------------------------------------------------------------
  // Updates

  /** The payload of `PATCH` and `PUT`: the fields the client sent. */
  datatype UserPatch = UserPatch(
    username: Field<string>,
    email: Field<string>,
    password: Field<string>,
    isAdmin: Field<bool>,
    isParticipant: Field<bool>)

  /** One `(attr, value)` item of `data.model_dump(exclude_unset=True)`. */
  datatype Item = SetUsername(s: string) | SetEmail(s: string) | SetPassword(s: string) | SetIsAdmin(b: bool) | SetIsParticipant(b: bool)

  /** The sent fields in declaration order. */
  function Items(p: UserPatch): seq<Item> {
    UsernameItem(p) + EmailItem(p) + PasswordItem(p) + IsAdminItem(p) + IsParticipantItem(p)
  }

  function UsernameItem(p: UserPatch): seq<Item> {
    if p.username.Set? then [SetUsername(p.username.value)] else []
  }

  function EmailItem(p: UserPatch): seq<Item> {
    if p.email.Set? then [SetEmail(p.email.value)] else []
  }

  function PasswordItem(p: UserPatch): seq<Item> {
    if p.password.Set? then [SetPassword(p.password.value)] else []
  }

  function IsAdminItem(p: UserPatch): seq<Item> {
    if p.isAdmin.Set? then [SetIsAdmin(p.isAdmin.value)] else []
  }

  function IsParticipantItem(p: UserPatch): seq<Item> {
    if p.isParticipant.Set? then [SetIsParticipant(p.isParticipant.value)] else []
  }

  /** One pass of the loop body: `set_password` for the password, `setattr`
      for every other field. */
  function SetAttr(u: User, item: Item, hash: string -> string): User {
    match item
    case SetUsername(s) => u.(username := s)
    case SetEmail(s) => u.(email := s)
    case SetPassword(s) => u.(password := hash(s))
    case SetIsAdmin(b) => u.(isAdmin := b)
    case SetIsParticipant(b) => u.(isParticipant := b)
  }

  /** The loop over the first items. */
  function SetAttrs(u: User, items: seq<Item>, hash: string -> string): User {
    if items == [] then u else SetAttr(SetAttrs(u, items[..|items| - 1], hash), items[|items| - 1], hash)
  }

  lemma {:induction false} SetAttrsAppend(u: User, a: seq<Item>, b: seq<Item>, hash: string -> string)
    ensures SetAttrs(u, a + b, hash) == SetAttrs(SetAttrs(u, a, hash), b, hash)
  {
    if b != [] {
      assert (a + b)[..|a + b| - 1] == a + b[..|b| - 1];
      SetAttrsAppend(u, a, b[..|b| - 1], hash);
    } else {
      assert a + b == a;
    }
  }

  /** How the sent fields leave a user: a sent field takes the sent value
      (the password through the hasher, never as sent), a field not sent
      keeps its value, and each profile flag changes only when its field was
      sent. */
  function Patched(u: User, p: UserPatch, hash: string -> string): (r: User)
    ensures r.username == p.username.Or(u.username) && r.email == p.email.Or(u.email)
    ensures p.password.Set? ==> r.password == hash(p.password.value)
    ensures p.password.Unset? ==> r.password == u.password
    ensures r.isAdmin == p.isAdmin.Or(u.isAdmin) && r.isParticipant == p.isParticipant.Or(u.isParticipant)
    ensures r.profile == Profile(p.isAdmin.Or(u.profile.isAdmin), p.isParticipant.Or(u.profile.isParticipant))
    ensures r.isActive == u.isActive && r.isStaff == u.isStaff && r.isSuperuser == u.isSuperuser
  {
    User(p.username.Or(u.username), p.email.Or(u.email),
         if p.password.Set? then hash(p.password.value) else u.password,
         u.isActive, u.isStaff, u.isSuperuser,
         p.isAdmin.Or(u.isAdmin), p.isParticipant.Or(u.isParticipant),
         Profile(p.isAdmin.Or(u.profile.isAdmin), p.isParticipant.Or(u.profile.isParticipant)))
  }

  /** The loop over the sent items sets the user's columns as `Patched` says,
      and leaves the profile alone. */
  lemma {:induction false} LoopPatches(u: User, p: UserPatch, hash: string -> string)
    ensures SetAttrs(u, Items(p), hash) == Patched(u, p, hash).(profile := u.profile)
  {
    var a, b, c, d, e := UsernameItem(p), EmailItem(p), PasswordItem(p), IsAdminItem(p), IsParticipantItem(p);
    SetAttrsAppend(u, a, b, hash);
    SetAttrsAppend(u, a + b, c, hash);
    SetAttrsAppend(u, a + b + c, d, hash);
    SetAttrsAppend(u, a + b + c + d, e, hash);
    var u1 := SetAttrs(u, a, hash);
    var u2 := SetAttrs(u1, b, hash);
    var u3 := SetAttrs(u2, c, hash);
    var u4 := SetAttrs(u3, d, hash);
    ItemSteps(u, u1, u2, u3, u4, p, hash);
  }

  /** Each of the five items, applied on its own. */
  lemma ItemSteps(u: User, u1: User, u2: User, u3: User, u4: User, p: UserPatch, hash: string -> string)
    requires u1 == SetAttrs(u, UsernameItem(p), hash) && u2 == SetAttrs(u1, EmailItem(p), hash)
    requires u3 == SetAttrs(u2, PasswordItem(p), hash) && u4 == SetAttrs(u3, IsAdminItem(p), hash)
    ensures SetAttrs(u4, IsParticipantItem(p), hash) == Patched(u, p, hash).(profile := u.profile)
  {
    UsernameStep(u, p, hash);
    EmailStep(u1, p, hash);
    PasswordStep(u2, p, hash);
    IsAdminStep(u3, p, hash);
    IsParticipantStep(u4, p, hash);
  }

  lemma UsernameStep(u: User, p: UserPatch, hash: string -> string)
    ensures SetAttrs(u, UsernameItem(p), hash) == u.(username := p.username.Or(u.username))
  {
    OneItem(u, UsernameItem(p), hash);
  }

  lemma EmailStep(u: User, p: UserPatch, hash: string -> string)
    ensures SetAttrs(u, EmailItem(p), hash) == u.(email := p.email.Or(u.email))
  {
    OneItem(u, EmailItem(p), hash);
  }

  lemma PasswordStep(u: User, p: UserPatch, hash: string -> string)
    ensures SetAttrs(u, PasswordItem(p), hash) == u.(password := if p.password.Set? then hash(p.password.value) else u.password)
  {
    OneItem(u, PasswordItem(p), hash);
  }

  lemma IsAdminStep(u: User, p: UserPatch, hash: string -> string)
    ensures SetAttrs(u, IsAdminItem(p), hash) == u.(isAdmin := p.isAdmin.Or(u.isAdmin))
  {
    OneItem(u, IsAdminItem(p), hash);
  }

  lemma IsParticipantStep(u: User, p: UserPatch, hash: string -> string)
    ensures SetAttrs(u, IsParticipantItem(p), hash) == u.(isParticipant := p.isParticipant.Or(u.isParticipant))
  {
    OneItem(u, IsParticipantItem(p), hash);
  }

  /** The loop over at most one item. */
  lemma OneItem(u: User, s: seq<Item>, hash: string -> string)
    requires |s| <= 1
    ensures s == [] ==> SetAttrs(u, s, hash) == u
    ensures |s| == 1 ==> SetAttrs(u, s, hash) == SetAttr(u, s[0], hash)
  {
    if |s| == 1 {
      assert s[..0] == [];
    }
  }

  /** The `for attr, value in ...: setattr(user, attr, value)` loop. */
  method SetAttrLoop(u: User, items: seq<Item>, hash: string -> string) returns (user: User)
    ensures user == SetAttrs(u, items, hash)
  {
    user := u;
    var i := 0;
    while i < |items|
      invariant 0 <= i <= |items|
      invariant user == SetAttrs(u, items[..i], hash)
    {
      assert items[..i + 1][..i] == items[..i];
      user := SetAttr(user, items[i], hash);
      i := i + 1;
    }
    assert items[..i] == items;
  }

  /** `partial_update_user` and `update_user` up to the save: the `setattr`
      loop, then the profile flags. `full` selects `update_user`'s
      `profile_data.get(key, current)` over `partial_update_user`'s
      `if key in profile_data`; both give `Patched`. */
  method ApplyPatch(u: User, p: UserPatch, hash: string -> string, full: bool) returns (user: User)
    ensures user == Patched(u, p, hash)
  {
    user := SetAttrLoop(u, Items(p), hash);
    LoopPatches(u, p, hash);
    var profile := user.profile;
    if full {
      profile := profile.(isAdmin := p.isAdmin.Or(profile.isAdmin));
      profile := profile.(isParticipant := p.isParticipant.Or(profile.isParticipant));
    } else {
      if p.isAdmin.Set? {
        profile := profile.(isAdmin := p.isAdmin.value);
      }
      if p.isParticipant.Set? {
        profile := profile.(isParticipant := p.isParticipant.value);
      }
    }
    user := user.(profile := profile);
  }

  /** `partial_update_user` (`full` false) and `update_user` (`full` true):
      404 for an unknown user; a username or email another user holds makes
      `user.save()` fail and nothing is stored; otherwise the user becomes
      `Patched`. */
  method UpdateUser(db: Database, who: RequestUser, id: UserId, p: UserPatch, hash: string -> string, full: bool)
    returns (r: Result<UserView>)
    requires db.Valid()
    modifies db
    ensures db.Valid()
    ensures r.Err? ==> db.Snapshot() == old(db.Snapshot())
    ensures who.Anonymous? ==> r == Err(IsAdmin(who).failure)
    ensures who.Authenticated? && id !in old(db.users) ==> r == Err(USER_NOT_FOUND_DICT)
    ensures who.Authenticated? && id in old(db.users) ==>
      var u := Patched(old(db.users)[id], p, hash);
      && (!LoginFree(old(db.users), u.username, u.email, id) ==> r == Err(UserManager.DUPLICATE_LOGIN))
      && (LoginFree(old(db.users), u.username, u.email, id) ==>
            r == Ok(ViewOf(id, u)) && db.Snapshot() == old(db.Snapshot()).(users := old(db.users)[id := u]))
  {
    var denied := Guards(who);
    if denied.Some? {
      return Err(denied.value);
    }
    if id !in db.users {
      return Err(USER_NOT_FOUND_DICT);
    }
    var user := ApplyPatch(db.users[id], p, hash, full);
    if !LoginFree(db.users, user.username, user.email, id) {
      return Err(UserManager.DUPLICATE_LOGIN);
    }
    db.SaveUser(id, user);
    r := Ok(ViewOf(id, user));
  }

  /** Sending the same fields twice leaves the user as sending them once. */
  lemma PatchIdempotent(u: User, p: UserPatch, hash: string -> string)
    ensures Patched(Patched(u, p, hash), p, hash) == Patched(u, p, hash)
  {
  }

  /** An empty payload changes nothing. */
  lemma EmptyPatchKeepsUser(u: User, hash: string -> string)
    ensures Patched(u, UserPatch(Unset, Unset, Unset, Unset, Unset), hash) == u
  {
  }

  /** `delete_user`: 404 for an unknown user, otherwise the user and the
      rows that cascade from it go. */
  method DeleteUser(db: Database, who: RequestUser, id: UserId) returns (r: Result<()>)
    requires db.Valid()
    modifies db
    ensures db.Valid()
    ensures who.Anonymous? ==> r == Err(IsAdmin(who).failure) && db.Snapshot() == old(db.Snapshot())
    ensures who.Authenticated? && id !in old(db.users) ==> r == Err(USER_NOT_FOUND_SCHEMA) && db.Snapshot() == old(db.Snapshot())
    ensures who.Authenticated? && id in old(db.users) ==> r == Ok(()) && db.Snapshot() == DropUser(old(db.Snapshot()), id)
  {
    var denied := Guards(who);
    if denied.Some? {
      return Err(denied.value);
    }
    if id !in db.users {
      return Err(USER_NOT_FOUND_SCHEMA);
    }
    db.DeleteUser(id);
    r := Ok(());
  }

  /** Deleting a user removes exactly that user from the users table. */
  lemma DeleteRemovesOnlyThatUser(t: Tables, id: UserId)
    requires ValidTables(t)
    ensures DropUser(t, id).users == t.users - {id}
    ensures forall v :: v in t.users && v != id ==> v in DropUser(t, id).users && DropUser(t, id).users[v] == t.users[v]
  {
  }
}
