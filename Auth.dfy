/**
 * The gateway's user-table rules (gateway/src/modules/auth/auth.service.ts):
 * login lookup precedence, refresh-token store and clear, the partial-update
 * merge, registration, the self-access rule of `getById`, and the search
 * projection that strips secrets.
 *
 * The `users` table (gateway/src/database/schema.ts) is a map from id to
 * row; `username` and `email` are unique columns. bcrypt and JWT are
 * foreign: `passwordMatches` is `bcrypt.compare`, `sign` is
 * `jwtService.sign` and `verify` is the outcome of `jwtService.verify`.
 * The clock reading and the values bcrypt and `crypto.randomUUID` produce
 * are parameters. The optional DTO strings are `""` when absent: every
 * test the service makes of them is a JavaScript truthiness test, for
 * which an absent string and the empty string are alike.
 */
module Auth {
  import opened Wrappers
  import opened Guards

  /** A row of `users`. */
  datatype UserRow = UserRow(
    id: string,
    username: string,
    name: string,
    email: string,
    isVerified: bool,
    password: string,
    role: string,
    refreshToken: Option<string>,
    createdAt: string,
    updatedAt: string)

  type Table = map<string, UserRow>

  /** What `search` returns for a row: everything but the secrets and the bookkeeping. */
  datatype SafeUser = SafeUser(id: string, username: string, name: string, email: string, role: string)

  /** A row of the `user_views` view. */
  datatype ViewRow = ViewRow(id: string, username: string, name: string, role: string)

  /** An `HttpException`: status and message. */
  datatype HttpError = HttpError(status: nat, message: string)

  const USER_NOT_FOUND := HttpError(404, "User not found")
  const INVALID_PASSWORD := HttpError(401, "Invalid password")
  const TOKEN_REQUIRED := HttpError(401, "Refresh token is required")
  const TOKEN_EXPIRED := HttpError(401, "Refresh token expired")
  const INVALID_TOKEN := HttpError(403, "Invalid refresh token")
  const REFRESH_FAILED := HttpError(500, "Failed to refresh user's access token")
  const UPDATE_FAILED := HttpError(500, "Failed to update user")
  const REGISTER_FAILED := HttpError(500, "Failed to register user")
  const NOT_AUTHORIZED := HttpError(403, "You are not authorized to access this resource")

  /** The JWT claims the service signs; the refresh path leaves the email out. */
  datatype Claims = Claims(sub: string, username: string, email: Option<string>, role: string)

  /** Access tokens are signed with the access secret for 15 minutes, refresh tokens with the refresh secret for 7 days. */
  datatype TokenKind = AccessToken | RefreshToken

  datatype Tokens = Tokens(accessToken: string, refreshToken: string)

  /** How `jwtService.verify` ends, by the `name` of what it throws. */
  datatype TokenCheck = Verified | Expired | Malformed | NotYetValid

  /** The table's integrity: rows are keyed by their id, usernames and emails are unique. */
  ghost predicate WellFormed(t: Table) {
    && (forall id :: id in t ==> t[id].id == id)
    && (forall a, b :: a in t && b in t && t[a].username == t[b].username ==> a == b)
    && (forall a, b :: a in t && b in t && t[a].email == t[b].email ==> a == b)
  }

  // ---------------------------------------------------------------------
  // login
  // ---------------------------------------------------------------------

  /** The row `login` selects: by username when one is given, otherwise by email. */
  function LoginMatches(u: UserRow, username: string, email: string): (b: bool)
    ensures b ==> username != "" || email != ""
    ensures b && username != "" ==> u.username == username
    ensures b && username == "" ==> u.email == email
    ensures username != "" && u.username == username ==> b
    ensures username == "" && email != "" && u.email == email ==> b
  {
    if username != "" then u.username == username
    else email != "" && u.email == email
  }

  /** In a well-formed table at most one row matches a login. */
  lemma LoginMatchUnique(t: Table, username: string, email: string, a: string, b: string)
    requires WellFormed(t)
    requires a in t && b in t && LoginMatches(t[a], username, email) && LoginMatches(t[b], username, email)
    ensures a == b
  {
  }

  /** A username, when given, decides the lookup: the email is then ignored. */
  lemma UsernameTakesPrecedence(u: UserRow, username: string, email: string, otherEmail: string)
    requires username != ""
    ensures LoginMatches(u, username, email) == LoginMatches(u, username, otherEmail)
  {
  }

  /** With neither a username nor an email nothing matches, so `login` answers 404. */
  lemma NoCredentialMatchesNothing(u: UserRow)
    ensures !LoginMatches(u, "", "")
  {
  }

  function LoginClaims(u: UserRow): Claims {
    Claims(u.id, u.username, Some(u.email), u.role)
  }

  // ---------------------------------------------------------------------
  // refresh: the outcome before a token is signed
  // ---------------------------------------------------------------------

  /** Some row holds this refresh token. */
  predicate Held(t: Table, token: string) {
    exists id :: id in t && t[id].refreshToken == Some(token)
  }

  /**
   * The error `refresh` answers, as written: None when it goes on to sign an
   * access token. The 403 it throws for a token no row holds is inside the
   * `try`, and the `catch` maps every exception whose `name` is neither
   * `TokenExpiredError` nor `JsonWebTokenError` to 500.
   */
  function RefreshErrorAsWritten(token: string, check: TokenCheck, held: bool): (e: Option<HttpError>)
    ensures e.None? <==> token != "" && check == Verified && held
  {
    if token == "" then Some(TOKEN_REQUIRED)
    else match check
      case Expired => Some(TOKEN_EXPIRED)
      case Malformed => Some(INVALID_TOKEN)
      case NotYetValid => Some(REFRESH_FAILED)
      case Verified => if held then None else Some(REFRESH_FAILED)
  }

  /** `refresh` as intended: a verified token that no row holds is answered 403. */
  function RefreshError(token: string, check: TokenCheck, held: bool): (e: Option<HttpError>)
    ensures e.None? <==> token != "" && check == Verified && held
    ensures token != "" && check == Verified && !held ==> e == Some(INVALID_TOKEN)
  {
    if token == "" then Some(TOKEN_REQUIRED)
    else match check
      case Expired => Some(TOKEN_EXPIRED)
      case Malformed => Some(INVALID_TOKEN)
      case NotYetValid => Some(REFRESH_FAILED)
      case Verified => if held then None else Some(INVALID_TOKEN)
  }

  /** As written, a verified token that was logged out comes back as 500, not as the 403 thrown for it. */
  lemma RefreshUnheldIsInternalError()
    ensures RefreshErrorAsWritten("t", Verified, false) == Some(REFRESH_FAILED)
    ensures RefreshError("t", Verified, false) == Some(INVALID_TOKEN)
  {
  }

  /** The correction changes that one case only. */
  lemma RefreshCorrectionIsLocal(token: string, check: TokenCheck, held: bool)
    ensures RefreshError(token, check, held) != RefreshErrorAsWritten(token, check, held)
      <==> token != "" && check == Verified && !held
  {
  }

  // ---------------------------------------------------------------------
  // update
  // ---------------------------------------------------------------------

  /** The `updateData` spread: only the truthy fields are written, and `updatedAt` always is. */
  function Merge(u: UserRow, role: string, name: string, email: string, now: string): (m: UserRow)
    ensures m.id == u.id && m.username == u.username && m.password == u.password
    ensures m.isVerified == u.isVerified && m.refreshToken == u.refreshToken && m.createdAt == u.createdAt
    ensures m.updatedAt == now
    ensures name != "" ==> m.name == name
    ensures name == "" ==> m.name == u.name
    ensures email != "" ==> m.email == email
    ensures email == "" ==> m.email == u.email
    ensures role != "" ==> m.role == role
    ensures role == "" ==> m.role == u.role
  {
    u.(name := if name != "" then name else u.name,
       email := if email != "" then email else u.email,
       role := if role != "" then role else u.role,
       updatedAt := now)
  }

  /** Applying the same update twice is applying it once. */
  lemma MergeIdempotent(u: UserRow, role: string, name: string, email: string, now: string)
    ensures Merge(Merge(u, role, name, email, now), role, name, email, now) == Merge(u, role, name, email, now)
  {
  }

  /**
   * An update with no field given only touches `updatedAt`; a given field is
   * taken as is, and a field left empty keeps its value whatever else is given.
   */
  lemma MergeFields(u: UserRow, role: string, name: string, email: string, now: string)
    ensures Merge(u, "", "", "", now) == u.(updatedAt := now)
    ensures Merge(u, role, name, email, now) == u.(
      name := if name != "" then name else u.name,
      email := if email != "" then email else u.email,
      role := if role != "" then role else u.role,
      updatedAt := now)
    ensures name != "" ==> Merge(u, role, name, email, now).name == name
    ensures email != "" ==> Merge(u, role, name, email, now).email == email
    ensures role != "" ==> Merge(u, role, name, email, now).role == role
  {
  }

  /** Another row already has this email: the unique constraint refuses the update. */
  predicate EmailTakenByOther(t: Table, id: string, email: string) {
    exists other :: other in t && other != id && t[other].email == email
  }

  // ---------------------------------------------------------------------
  // search
  // ---------------------------------------------------------------------

  function Safe(u: UserRow): SafeUser {
    SafeUser(u.id, u.username, u.name, u.email, u.role)
  }

  /**
   * `search` as written: drizzle's `where` replaces the condition a previous
   * `where` set, so when an email is given the name filter is dropped.
   */
  function SearchAsWritten(t: Table, name: string, email: string): (r: set<SafeUser>)
    ensures email != "" ==> forall v :: v in r ==> v.email == email
    ensures email == "" && name != "" ==> forall v :: v in r ==> v.name == name
    ensures forall id ::
      (id in t && (email != "" ==> t[id].email == email) && (email == "" && name != "" ==> t[id].name == name))
      ==> Safe(t[id]) in r
    ensures forall v :: v in r ==> exists id :: id in t && Safe(t[id]) == v
  {
    if email != "" then set id | id in t && t[id].email == email :: Safe(t[id])
    else if name != "" then set id | id in t && t[id].name == name :: Safe(t[id])
    else set id | id in t :: Safe(t[id])
  }

  /** Both filters apply. */
  predicate SearchFilter(u: UserRow, name: string, email: string) {
    (name == "" || u.name == name) && (email == "" || u.email == email)
  }

  /** `search` as intended: the rows that pass every filter given, projected to their safe part. */
  function Search(t: Table, name: string, email: string): (r: set<SafeUser>)
    ensures forall v :: v in r ==> (name == "" || v.name == name) && (email == "" || v.email == email)
    ensures forall id :: id in t && SearchFilter(t[id], name, email) ==> Safe(t[id]) in r
    ensures forall v :: v in r ==> exists id :: id in t && Safe(t[id]) == v
  {
    set id | id in t && SearchFilter(t[id], name, email) :: Safe(t[id])
  }

  /** A row is in the intended search's result exactly when it passes both filters. */
  lemma SearchFinds(t: Table, name: string, email: string, id: string)
    requires WellFormed(t) && id in t
    ensures Safe(t[id]) in Search(t, name, email) <==> SearchFilter(t[id], name, email)
  {
    if Safe(t[id]) in Search(t, name, email) {
      var other :| other in t && SearchFilter(t[other], name, email) && Safe(t[other]) == Safe(t[id]);
      assert t[other].id == t[id].id;
    }
  }

  /** As written, whenever an email is given the name is ignored altogether. */
  lemma SearchAsWrittenIgnoresName(t: Table, name: string, email: string)
    requires email != ""
    ensures SearchAsWritten(t, name, email) == Search(t, "", email)
  {
  }

  /** A concrete case: searching for a name and an email returns a row whose name differs. */
  lemma SearchAsWrittenMismatch()
    ensures var ann := UserRow("1", "ann", "Ann", "ann@x.io", false, "h", "USER", None, "c", "u");
      var t := map["1" := ann];
      && Safe(ann) in SearchAsWritten(t, "Bob", "ann@x.io")
      && Safe(ann) !in Search(t, "Bob", "ann@x.io")
  {
    var ann := UserRow("1", "ann", "Ann", "ann@x.io", false, "h", "USER", None, "c", "u");
    var t := map["1" := ann];
    assert "1" in t && t["1"].email == "ann@x.io";
  }

  /** Two rows that differ only in secrets and bookkeeping. */
  predicate SameSafePart(u: UserRow, v: UserRow) {
    Safe(u) == Safe(v)
  }

  /**
   * Search results never carry the password, refresh token, verification
   * flag or timestamps: tables that differ only in those give equal results.
   */
  lemma SearchIgnoresSecrets(t1: Table, t2: Table, name: string, email: string)
    requires t1.Keys == t2.Keys
    requires forall id :: id in t1 ==> SameSafePart(t1[id], t2[id])
    ensures Search(t1, name, email) == Search(t2, name, email)
    ensures SearchAsWritten(t1, name, email) == SearchAsWritten(t2, name, email)
  {
    assert forall id :: id in t1 ==> t1[id].name == t2[id].name && t1[id].email == t2[id].email;
  }

  // ---------------------------------------------------------------------
  // getById
  // ---------------------------------------------------------------------

  function View(u: UserRow): ViewRow {
    ViewRow(u.id, u.username, u.name, u.role)
  }

  /**
   * `getById`: a caller with role "USER" may read only their own record,
   * and that is decided before the lookup; a missing id is 404.
   */
  function GetById(t: Table, caller: Principal, id: string): (r: Result<ViewRow, HttpError>)
    ensures r == Err(NOT_AUTHORIZED) <==> caller.role == "USER" && caller.sub != id
    ensures r.Ok? ==> id in t && r.value == View(t[id])
    ensures r == Err(USER_NOT_FOUND) <==> !(caller.role == "USER" && caller.sub != id) && id !in t
  {
    if caller.role == "USER" && caller.sub != id then Err(NOT_AUTHORIZED)
    else if id !in t then Err(USER_NOT_FOUND)
    else Ok(View(t[id]))
  }

  /** A refused caller learns nothing about the table: the 403 is the same whatever the table holds. */
  lemma GetByIdRefusalIndependentOfTable(t1: Table, t2: Table, caller: Principal, id: string)
    requires GetById(t1, caller, id).Err? && GetById(t1, caller, id).error.status == 403
    ensures GetById(t2, caller, id) == GetById(t1, caller, id)
  {
  }

  /** Every caller may read their own record, and any non-"USER" role may read every record. */
  lemma GetByIdAllowed(t: Table, caller: Principal, id: string)
    requires id in t && (caller.sub == id || caller.role != "USER")
    ensures GetById(t, caller, id) == Ok(View(t[id]))
  {
  }

  // ---------------------------------------------------------------------
  // The service over the table
  // ---------------------------------------------------------------------

  class AuthService {
    /** The `users` table. */
    var users: Table
    /** `bcrypt.compare(password, hash)`. */
    const passwordMatches: (string, string) -> bool
    /** `jwtService.sign(claims, { secret, expiresIn })` at a given instant. */
    const sign: (Claims, TokenKind, int) -> string
    /** How `jwtService.verify(token, { secret: JWT_REFRESH_SECRET })` ends at a given instant. */
    const verify: (string, int) -> TokenCheck

    ghost predicate Valid()
      reads this
    {
      WellFormed(users)
    }

    constructor (rows: Table, passwordMatches: (string, string) -> bool,
                 sign: (Claims, TokenKind, int) -> string, verify: (string, int) -> TokenCheck)
      requires WellFormed(rows)
      ensures Valid() && users == rows
      ensures this.passwordMatches == passwordMatches && this.sign == sign && this.verify == verify
    {
      users := rows;
      this.passwordMatches := passwordMatches;
      this.sign := sign;
      this.verify := verify;
    }

    /**
     * `register` (its DTO demands a username and an email, and the password
     * hash is bcrypt's): inserts a row with the hash of the password, role
     * "USER", not verified, no refresh token. `name` falls back to the
     * column default when it is absent. A clash on the id, the username or
     * the email is a unique-constraint violation; its Postgres error code is
     * not 'SQLITE_CONSTRAINT', so it is answered 500.
     */
    method Register(username: string, email: string, password: string, name: Option<string>,
                    passwordHash: string, newId: string, defaultName: string, now: string)
      returns (r: Result<string, HttpError>)
      requires Valid()
      requires username != "" && email != ""
      requires passwordMatches(password, passwordHash)
      modifies this
      ensures Valid()
      ensures var clash := newId in old(users) || exists id :: id in old(users) && (old(users)[id].username == username || old(users)[id].email == email);
        if clash then r == Err(REGISTER_FAILED) && users == old(users)
        else (r == Ok("User registered successfully")
          && users == old(users)[newId := UserRow(newId, username, name.GetOr(defaultName), email, false, passwordHash, "USER", None, now, now)])
      ensures r.Ok? ==> LoginMatches(users[newId], username, email) && passwordMatches(password, users[newId].password)
    {
      if newId in users || exists id :: id in users && (users[id].username == username || users[id].email == email) {
        r := Err(REGISTER_FAILED);
        return;
      }
      var row := UserRow(newId, username, name.GetOr(defaultName), email, false, passwordHash, "USER", None, now, now);
      users := users[newId := row];
      r := Ok("User registered successfully");
    }

    /**
     * `login`: finds the row by username, else by email (404 when there is
     * none), checks the password (401), and stores the new refresh token on
     * that row only.
     */
    method Login(username: string, email: string, password: string, now: int) returns (r: Result<Tokens, HttpError>)
      requires Valid()
      modifies this
      ensures Valid()
      ensures (forall id :: id in old(users) ==> !LoginMatches(old(users)[id], username, email)) ==>
        r == Err(USER_NOT_FOUND) && users == old(users)
      ensures forall id :: id in old(users) && LoginMatches(old(users)[id], username, email) ==>
        var u := old(users)[id];
        if !passwordMatches(password, u.password) then r == Err(INVALID_PASSWORD) && users == old(users)
        else
          var tokens := Tokens(sign(LoginClaims(u), AccessToken, now), sign(LoginClaims(u), RefreshToken, now));
          r == Ok(tokens) && users == old(users)[id := u.(refreshToken := Some(tokens.refreshToken))]
    {
      if !exists id :: id in users && LoginMatches(users[id], username, email) {
        r := Err(USER_NOT_FOUND);
        return;
      }
      var id :| id in users && LoginMatches(users[id], username, email);
      var u := users[id];
      forall other | other in users && LoginMatches(users[other], username, email)
        ensures other == id
      {
        LoginMatchUnique(users, username, email, id, other);
      }
      if !passwordMatches(password, u.password) {
        r := Err(INVALID_PASSWORD);
        return;
      }
      var claims := LoginClaims(u);
      var tokens := Tokens(sign(claims, AccessToken, now), sign(claims, RefreshToken, now));
      users := users[id := u.(refreshToken := Some(tokens.refreshToken))];
      r := Ok(tokens);
    }

    /** `logout`: clears the refresh token on every row that holds it; an empty token changes nothing. */
    method Logout(refreshToken: string)
      requires Valid()
      modifies this
      ensures Valid()
      ensures refreshToken == "" ==> users == old(users)
      ensures users.Keys == old(users).Keys
      ensures refreshToken != "" ==> forall id :: id in users ==>
        users[id] == if old(users)[id].refreshToken == Some(refreshToken)
                     then old(users)[id].(refreshToken := None) else old(users)[id]
      ensures refreshToken != "" ==> !Held(users, refreshToken)
    {
      if refreshToken != "" {
        users := map id | id in users ::
          if users[id].refreshToken == Some(refreshToken) then users[id].(refreshToken := None) else users[id];
      }
    }

    /**
     * `refresh`, with the not-held case answered 403 as the code that throws
     * it intends: a verified token held by a row gets an access token for
     * that row's claims, without the email.
     */
    method Refresh(refreshToken: string, now: int) returns (r: Result<string, HttpError>)
      requires Valid()
      ensures var e := RefreshError(refreshToken, verify(refreshToken, now), Held(users, refreshToken));
        e.Some? ==> r == Err(e.value)
      ensures RefreshError(refreshToken, verify(refreshToken, now), Held(users, refreshToken)).None? ==> r.Ok?
      ensures r.Ok? ==> exists id :: (id in users && users[id].refreshToken == Some(refreshToken)
        && r.value == sign(Claims(id, users[id].username, None, users[id].role), AccessToken, now))
      ensures refreshToken != "" && verify(refreshToken, now) == Verified && !Held(users, refreshToken) ==>
        r == Err(INVALID_TOKEN)
    {
      var e := RefreshError(refreshToken, verify(refreshToken, now), Held(users, refreshToken));
      if e.Some? {
        r := Err(e.value);
        return;
      }
      var id :| id in users && users[id].refreshToken == Some(refreshToken);
      var u := users[id];
      r := Ok(sign(Claims(u.id, u.username, None, u.role), AccessToken, now));
    }

    /**
     * `update`: 404 for an unknown id; a given email another row already
     * has is refused by the unique constraint, and that Postgres error is
     * answered 500; otherwise the truthy fields and `updatedAt` are written
     * to that row alone.
     */
    method Update(id: string, role: string, name: string, email: string, now: string) returns (r: Result<string, HttpError>)
      requires Valid()
      modifies this
      ensures Valid()
      ensures id !in old(users) ==> r == Err(USER_NOT_FOUND) && users == old(users)
      ensures id in old(users) && email != "" && EmailTakenByOther(old(users), id, email) ==>
        r == Err(UPDATE_FAILED) && users == old(users)
      ensures id in old(users) && !(email != "" && EmailTakenByOther(old(users), id, email)) ==>
        r == Ok("User updated successfully") && users == old(users)[id := Merge(old(users)[id], role, name, email, now)]
    {
      if id !in users {
        r := Err(USER_NOT_FOUND);
        return;
      }
      if email != "" && exists other :: other in users && other != id && users[other].email == email {
        r := Err(UPDATE_FAILED);
        return;
      }
      users := users[id := Merge(users[id], role, name, email, now)];
      r := Ok("User updated successfully");
    }
  }
}
