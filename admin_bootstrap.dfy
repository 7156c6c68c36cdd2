/**
 * `createAdminUser`, run once at start-up: unless a user with the
 * configured username and role `admin` already exists, save a fixed admin
 * record under that username with the hashed configured password. Errors
 * are caught and logged; nothing is ever thrown to the caller.
 */
module AdminBootstrap {
  import opened Common
  import opened UserModel

  const DefaultUsername: string := "admin"
  const DefaultPassword: string := "admin123"
  const AdminFullName: string := "Administrator"
  const AdminEmail: string := "admin@artstore.com"
  const AdminPhone: string := "0000000000"
  const AdminAddress: string := "Admin Office"

  /** `process.env.X || fallback`: an unset and an empty variable both give the fallback. */
  function EnvOr(v: Option<string>, fallback: string): (r: string)
    ensures r == fallback || (v.Some? && r == v.value)
    ensures r == fallback <== v.None? || v.value == ""
    ensures fallback != "" ==> r != ""
  {
    if v.Some? && v.value != "" then v.value else fallback
  }

  /** The document the bootstrap saves. */
  function AdminRecord(username: string, password: string): (u: User)
    ensures u.role == Admin && u.username == username && u.password == Hash(password)
    ensures u.fullName == AdminFullName && u.email == AdminEmail && u.phoneNumber == AdminPhone
  {
    User(0, AdminFullName, username, AdminEmail, Hash(password), AdminPhone, AdminAddress, None, Admin)
  }

  /** Some stored user has this username and role `admin`. */
  predicate HasAdmin(users: seq<User>, username: string) {
    exists i :: 0 <= i < |users| && users[i].username == username && users[i].role == Admin
  }

  /** `User.findOne({ username, role: 'admin' })`. */
  function FindAdmin(users: seq<User>, username: string): (r: Option<User>)
    ensures r.Some? <==> HasAdmin(users, username)
    ensures r.Some? ==> r.value in users && r.value.username == username && r.value.role == Admin
  {
    if |users| == 0 then None
    else if users[0].username == username && users[0].role == Admin then Some(users[0])
    else
      var r := FindAdmin(users[1..], username);
      assert HasAdmin(users[1..], username) ==> HasAdmin(users, username) by {
        if HasAdmin(users[1..], username) {
          var i :| 0 <= i < |users| - 1 && users[1..][i].username == username && users[1..][i].role == Admin;
          assert users[i + 1] == users[1..][i];
        }
      }
      assert HasAdmin(users, username) ==> HasAdmin(users[1..], username) by {
        if HasAdmin(users, username) {
          var i :| 0 <= i < |users| && users[i].username == username && users[i].role == Admin;
          assert i > 0 && users[1..][i - 1] == users[i];
        }
      }
      r
  }

  /** What the bootstrap logs. */
  datatype Log = AlreadyExists | Created(username: string, password: string) | CreateFailed

  datatype BootstrapOutcome = BootstrapOutcome(log: Log, users: seq<User>)

  function Bootstrap(users: seq<User>, usernameEnv: Option<string>, passwordEnv: Option<string>): (r: BootstrapOutcome)
    ensures !r.log.Created? ==> r.users == users
    ensures r.log != AlreadyExists ==> !HasAdmin(users, EnvOr(usernameEnv, DefaultUsername))
    ensures r.log.Created? ==>
      |r.users| == |users| + 1 && r.users[..|users|] == users
      && r.users[|users|].role == Admin && r.users[|users|].username == r.log.username
  {
    var username := EnvOr(usernameEnv, DefaultUsername);
    var password := EnvOr(passwordEnv, DefaultPassword);
    if FindAdmin(users, username).Some? then BootstrapOutcome(AlreadyExists, users)
    else
      match Saved(users, AdminRecord(username, password))
      case None => BootstrapOutcome(CreateFailed, users)
      case Some(t) => BootstrapOutcome(Created(username, password), t)
  }

  /** `createAdminUser()` against the user collection. */
  method CreateAdminUser(store: UserCollection, usernameEnv: Option<string>, passwordEnv: Option<string>) returns (log: Log)
    requires store.Valid()
    modifies store
    ensures store.Valid()
    ensures log == Bootstrap(old(store.users), usernameEnv, passwordEnv).log
    ensures store.users == Bootstrap(old(store.users), usernameEnv, passwordEnv).users
  {
    var username := EnvOr(usernameEnv, DefaultUsername);
    var password := EnvOr(passwordEnv, DefaultPassword);
    var existing := FindAdmin(store.users, username);
    if existing.Some? {
      return AlreadyExists;
    }
    var saved := store.Save(AdminRecord(username, password));
    log := if saved.Some? then Created(username, password) else CreateFailed;
  }

  /**
   * What a run does: nothing when the admin exists; otherwise either one
   * admin record appended under the next id, or (on a unique-key clash, e.g.
   * a non-admin owning the username or someone owning the admin e-mail)
   * nothing, with the error only logged.
   */
  lemma BootstrapEffect(users: seq<User>, usernameEnv: Option<string>, passwordEnv: Option<string>)
    ensures var username := EnvOr(usernameEnv, DefaultUsername);
      HasAdmin(users, username) <==> Bootstrap(users, usernameEnv, passwordEnv).log == AlreadyExists
    ensures Bootstrap(users, usernameEnv, passwordEnv).log != AlreadyExists
            && Bootstrap(users, usernameEnv, passwordEnv).log != CreateFailed
        ==> var username := EnvOr(usernameEnv, DefaultUsername);
            var password := EnvOr(passwordEnv, DefaultPassword);
            Bootstrap(users, usernameEnv, passwordEnv).users
              == users + [AdminRecord(username, password).(id := |users|)]
    ensures Bootstrap(users, usernameEnv, passwordEnv).log.Created?
        || Bootstrap(users, usernameEnv, passwordEnv).users == users
    ensures var username := EnvOr(usernameEnv, DefaultUsername);
      (!HasAdmin(users, username) && exists i :: 0 <= i < |users| && (users[i].username == username || users[i].email == AdminEmail))
      ==> Bootstrap(users, usernameEnv, passwordEnv) == BootstrapOutcome(CreateFailed, users)
  {
  }

  /** A second run changes nothing and never creates another admin. */
  lemma BootstrapIdempotent(users: seq<User>, usernameEnv: Option<string>, passwordEnv: Option<string>)
    ensures var once := Bootstrap(users, usernameEnv, passwordEnv).users;
      Bootstrap(once, usernameEnv, passwordEnv).users == once
      && !Bootstrap(once, usernameEnv, passwordEnv).log.Created?
  {
    var username := EnvOr(usernameEnv, DefaultUsername);
    var password := EnvOr(passwordEnv, DefaultPassword);
    var first := Bootstrap(users, usernameEnv, passwordEnv);
    if first.log.Created? {
      var once := first.users;
      assert once[|users|].username == username && once[|users|].role == Admin;
      assert HasAdmin(once, username);
    }
  }

  /** A run keeps the table's ids and unique keys. */
  lemma BootstrapKeepsValid(users: seq<User>, usernameEnv: Option<string>, passwordEnv: Option<string>)
    requires ValidTable(users)
    ensures ValidTable(Bootstrap(users, usernameEnv, passwordEnv).users)
  {
    var username := EnvOr(usernameEnv, DefaultUsername);
    var password := EnvOr(passwordEnv, DefaultPassword);
    if Bootstrap(users, usernameEnv, passwordEnv).log.Created? {
      SavedValid(users, AdminRecord(username, password));
    }
  }

  /** After a run that did not fail, an admin with the configured username is stored. */
  lemma BootstrapLeavesAdmin(users: seq<User>, usernameEnv: Option<string>, passwordEnv: Option<string>)
    ensures Bootstrap(users, usernameEnv, passwordEnv).log != CreateFailed
        ==> HasAdmin(Bootstrap(users, usernameEnv, passwordEnv).users, EnvOr(usernameEnv, DefaultUsername))
  {
    var username := EnvOr(usernameEnv, DefaultUsername);
    var out := Bootstrap(users, usernameEnv, passwordEnv);
    if out.log.Created? {
      var t := out.users;
      assert t[|users|].username == username && t[|users|].role == Admin;
    }
  }

  /**
   * On a valid table, however many runs there have been, at most one user
   * has the admin username, and after a run that did not fail that user is
   * an admin.
   */
  lemma BootstrapSingleAdmin(users: seq<User>, usernameEnv: Option<string>, passwordEnv: Option<string>)
    requires ValidTable(users)
    ensures ValidTable(Bootstrap(users, usernameEnv, passwordEnv).users)
    ensures var t := Bootstrap(users, usernameEnv, passwordEnv).users;
      var username := EnvOr(usernameEnv, DefaultUsername);
      forall i, j :: 0 <= i < |t| && 0 <= j < |t| && t[i].username == username && t[j].username == username ==> i == j
    ensures Bootstrap(users, usernameEnv, passwordEnv).log != CreateFailed
        ==> HasAdmin(Bootstrap(users, usernameEnv, passwordEnv).users, EnvOr(usernameEnv, DefaultUsername))
  {
    var username := EnvOr(usernameEnv, DefaultUsername);
    var out := Bootstrap(users, usernameEnv, passwordEnv);
    BootstrapKeepsValid(users, usernameEnv, passwordEnv);
    BootstrapLeavesAdmin(users, usernameEnv, passwordEnv);
    var t := out.users;
    forall i, j | 0 <= i < |t| && 0 <= j < |t| && t[i].username == username && t[j].username == username
      ensures i == j
    {
      UsernameNamesOne(t, i, j);
    }
  }
}
