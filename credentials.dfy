/** The credential store: single-use admin invitation codes and user accounts
    with a unique username, kept in two tables (admin_codes, users). */
module Credentials {
  import opened Common

  const ROLE_ADMIN := "admin"
  const ROLE_USER := "user"
  const HEX_DIGITS := "0123456789abcdef"

  /** A row of admin_codes (the code itself is the key of the table). */
  datatype AdminCode = AdminCode(createdAt: Timestamp, used: bool)

  /** A row of users; password holds the digest of the password, never the password. */
  datatype User = User(
    id: nat,
    username: string,
    password: string,
    role: string,
    email: string,
    fullName: string,
    department: string,
    verified: bool)

  /** The registration form's fields; the department is optional. */
  datatype Profile = Profile(
    username: string,
    password: string,
    email: string,
    fullName: string,
    department: Option<string>)

  /** What secrets.token_hex(6) produces: twelve lower-case hexadecimal digits. */
  predicate IsToken(s: string) {
    |s| == 12 && forall i :: 0 <= i < |s| ==> s[i] in HEX_DIGITS
  }

  predicate Matches(u: User, username: string, digest: string) {
    u.username == username && u.password == digest
  }

  /** SELECT * FROM users WHERE username = ? AND password = ?, fetchone(). */
  function FindLogin(users: seq<User>, username: string, digest: string): (r: Option<User>)
    ensures r.Some? <==> exists i :: 0 <= i < |users| && Matches(users[i], username, digest)
    ensures r.Some? ==> exists i :: 0 <= i < |users| && users[i] == r.value && Matches(users[i], username, digest)
  {
    if users == [] then None
    else if Matches(users[0], username, digest) then Some(users[0])
    else FindLogin(users[1..], username, digest)
  }

  /** The store. One object stands for the auth database for the whole session. */
  class Auth {
    /** The one-way digest applied to passwords (SHA-256, hex-encoded). */
    const digest: string -> string
    /** admin_codes: code -> (created_at, used). */
    var adminCodes: map<string, AdminCode>
    /** users, in insertion (and so id) order. */
    var users: seq<User>
    /** The largest id the AUTOINCREMENT key has handed out. */
    var lastUserId: nat

    /** The schema's constraints: username is UNIQUE, id is an increasing key. */
    ghost predicate Valid()
      reads this
    {
      && (forall i, j :: 0 <= i < j < |users| ==>
            users[i].id < users[j].id && users[i].username != users[j].username)
      && (forall i :: 0 <= i < |users| ==> 0 < users[i].id <= lastUserId)
    }

    /** Both tables start empty. */
    constructor(digest: string -> string)
      ensures Valid()
      ensures this.digest == digest
      ensures adminCodes == map[] && users == [] && lastUserId == 0
    {
      this.digest := digest;
      adminCodes := map[];
      users := [];
      lastUserId := 0;
    }

    /** Store a freshly drawn token as a new, unused code. A token already in
        the table violates the primary key; the source does not catch that
        error, and here it is the None outcome with the table unchanged. */
    method GenerateAdminCode(token: string, now: Timestamp) returns (r: Option<string>)
      requires Valid() && IsToken(token)
      modifies this`adminCodes
      ensures Valid()
      ensures r.Some? <==> token !in old(adminCodes)
      ensures r.Some? ==> r.value == token && adminCodes == old(adminCodes)[token := AdminCode(now, false)]
      ensures r.None? ==> adminCodes == old(adminCodes)
    {
      if token in adminCodes {
        r := None;
      } else {
        adminCodes := adminCodes[token := AdminCode(now, false)];
        r := Some(token);
      }
    }

    /** Redeem a code: succeeds only on an existing, unused code, which it
        marks used; an unknown or used code leaves the table as it was. */
    method VerifyAdminCode(code: string) returns (ok: bool)
      requires Valid()
      modifies this`adminCodes
      ensures Valid()
      ensures ok <==> code in old(adminCodes) && !old(adminCodes)[code].used
      ensures ok ==> adminCodes == old(adminCodes)[code := old(adminCodes)[code].(used := true)]
      ensures !ok ==> adminCodes == old(adminCodes)
      ensures code in adminCodes ==> adminCodes[code].used
    {
      if code in adminCodes && !adminCodes[code].used {
        adminCodes := adminCodes[code := adminCodes[code].(used := true)];
        ok := true;
      } else {
        ok := false;
      }
    }

    /** Insert one account, storing the digest of the password. A taken
        username violates UNIQUE: the result is false and nothing changes. */
    method RegisterUser(data: Profile, isAdmin: bool) returns (ok: bool)
      requires Valid()
      modifies this`users, this`lastUserId
      ensures Valid()
      ensures ok <==> forall i :: 0 <= i < |old(users)| ==> old(users)[i].username != data.username
      ensures !ok ==> users == old(users) && lastUserId == old(lastUserId)
      ensures ok ==> lastUserId == old(lastUserId) + 1
      ensures ok ==> users == old(users) + [User(
        lastUserId,
        data.username,
        digest(data.password),
        if isAdmin then ROLE_ADMIN else ROLE_USER,
        data.email,
        data.fullName,
        data.department.GetOr(""),
        isAdmin)]
      ensures ok ==> forall i :: 0 <= i < |old(users)| ==> old(users)[i].id < users[|users| - 1].id
    {
      var hashed := digest(data.password);
      var role := if isAdmin then ROLE_ADMIN else ROLE_USER;
      var verified := isAdmin;
      ok := forall i | 0 <= i < |users| :: users[i].username != data.username;
      if ok {
        lastUserId := lastUserId + 1;
        users := users + [User(lastUserId, data.username, hashed, role, data.email,
                               data.fullName, data.department.GetOr(""), verified)];
      }
    }

    /** Log in: the row whose username and stored digest match, if any. With
        usernames unique, it is the only row with that username. */
    method VerifyLogin(username: string, password: string) returns (r: Option<User>)
      requires Valid()
      ensures r.Some? <==> exists i :: 0 <= i < |users| && users[i].username == username && users[i].password == digest(password)
      ensures r.Some? ==> r.value in users && r.value.username == username && r.value.password == digest(password)
      ensures r.Some? ==> forall i :: 0 <= i < |users| && users[i].username == username ==> users[i] == r.value
    {
      r := FindLogin(users, username, digest(password));
    }
  }

  /** Redeeming a code twice: the second attempt always fails. */
  method RedeemTwice(auth: Auth, code: string) returns (first: bool, second: bool)
    requires auth.Valid()
    modifies auth`adminCodes
    ensures first <==> code in old(auth.adminCodes) && !old(auth.adminCodes)[code].used
    ensures !second
    ensures auth.adminCodes == if first then old(auth.adminCodes)[code := old(auth.adminCodes)[code].(used := true)]
                               else old(auth.adminCodes)
  {
    first := auth.VerifyAdminCode(code);
    second := auth.VerifyAdminCode(code);
  }

  /** Outcomes of the admin registration form. */
  datatype AdminRegistration = MissingFields | InvalidCode | UsernameTaken | Registered

  predicate AllPresent(code: string, data: Profile) {
    && |code| > 0 && |data.fullName| > 0 && |data.email| > 0
    && |data.username| > 0 && |data.password| > 0
    && data.department.Some? && |data.department.value| > 0
  }

  /** The admin registration form (commented out in the source): check the
      fields, redeem the code, then register with is_admin. The two steps are
      separate, so a taken username still consumes the code. */
  method RegisterAdmin(auth: Auth, code: string, data: Profile) returns (outcome: AdminRegistration)
    requires auth.Valid()
    modifies auth
    ensures auth.Valid()
    ensures outcome == MissingFields ==> !AllPresent(code, data)
    ensures !AllPresent(code, data) ==> outcome == MissingFields
    ensures outcome != MissingFields ==>
      (outcome == InvalidCode <==> !(code in old(auth.adminCodes) && !old(auth.adminCodes)[code].used))
    ensures outcome == MissingFields || outcome == InvalidCode ==>
      auth.adminCodes == old(auth.adminCodes) && auth.users == old(auth.users)
    ensures outcome == UsernameTaken || outcome == Registered ==>
      && code in old(auth.adminCodes) && !old(auth.adminCodes)[code].used
      && auth.adminCodes == old(auth.adminCodes)[code := old(auth.adminCodes)[code].(used := true)]
    ensures outcome == UsernameTaken || outcome == Registered ==>
      (outcome == Registered <==>
         forall i :: 0 <= i < |old(auth.users)| ==> old(auth.users)[i].username != data.username)
    ensures outcome != Registered ==> auth.users == old(auth.users) && auth.lastUserId == old(auth.lastUserId)
    ensures outcome == Registered ==>
      && auth.lastUserId == old(auth.lastUserId) + 1
      && auth.users == old(auth.users) + [User(
           auth.lastUserId,
           data.username,
           auth.digest(data.password),
           ROLE_ADMIN,
           data.email,
           data.fullName,
           data.department.GetOr(""),
           true)]
  {
    if !AllPresent(code, data) {
      return MissingFields;
    }
    var redeemed := auth.VerifyAdminCode(code);
    if !redeemed {
      return InvalidCode;
    }
    var ok := auth.RegisterUser(data, true);
    outcome := if ok then Registered else UsernameTaken;
  }
}
