/** Login, signup, automatic login from stored credentials, and logout. */
module AuthService {
  import opened Wrappers
  import Storage
  import Auth

  /** The dict `login_user` returns. */
  datatype LoginResult =
    | LoginFailed(message: string)
    | LoggedIn(username: string, token: string)

  /** The dict `signup_user` returns. */
  datatype SignupResult = SignupResult(success: bool, message: string)

  /** The dict `auto_authenticate` returns. */
  datatype AutoAuthResult = AutoAuthResult(success: bool, username: Option<string>, message: string)

  /** The dict `logout_user` returns. */
  datatype LogoutResult = LogoutResult(success: bool, message: string)

  /** `login_user`: unknown user, then wrong password, are refused in that
      order; otherwise `token` (what `create_jwt` mints for the user now) is
      written to the user's row and returned. */
  method LoginUser(db: Storage.Database, username: string, password: string, hash: string -> string, token: string)
    returns (result: LoginResult)
    requires db.Valid()
    modifies db
    ensures db.Valid()
    ensures Storage.FindUser(old(db.users), username).None? ==>
      result == LoginFailed("User not found.") && db.users == old(db.users)
    ensures (Storage.FindUser(old(db.users), username).Some?
             && !Auth.VerifyPassword(password, Storage.FindUser(old(db.users), username).value.password, hash))
      ==> result == LoginFailed("Invalid password.") && db.users == old(db.users)
    ensures result.LoggedIn? <==>
      Storage.FindUser(old(db.users), username).Some?
      && Auth.VerifyPassword(password, Storage.FindUser(old(db.users), username).value.password, hash)
    ensures result.LoggedIn? ==>
      result == LoggedIn(username, token) && db.users == Storage.WithToken(old(db.users), username, token)
    ensures db.details == old(db.details) && db.inputMappings == old(db.inputMappings)
    ensures db.categoryMappings == old(db.categoryMappings)
  {
    var user := Storage.FindUser(db.users, username);
    if user.None? {
      return LoginFailed("User not found.");
    }
    if !Auth.VerifyPassword(password, user.value.password, hash) {
      return LoginFailed("Invalid password.");
    }
    db.UpdateUserToken(username, token);
    return LoggedIn(username, token);
  }

  /** After a successful login the user's row holds the returned token, and no
      other row changes. */
  lemma LoginWritesToken(users: seq<Storage.User>, username: string, token: string)
    requires Storage.UniqueUsernames(users)
    requires Storage.FindUser(users, username).Some?
    ensures Storage.FindUser(Storage.WithToken(users, username, token), username)
         == Some(Storage.FindUser(users, username).value.(apiToken := token))
    ensures forall i :: 0 <= i < |users| && users[i].username != username ==>
      Storage.WithToken(users, username, token)[i] == users[i]
  {
    var after := Storage.WithToken(users, username, token);
    var u := Storage.FindUser(users, username).value;
    var i :| 0 <= i < |users| && users[i] == u;
    assert forall j :: 0 <= j < |users| && j != i ==> users[j].username != username;
    var found := Storage.FindUser(after, username);
    assert found.Some? by {
      assert after[i].username == username;
    }
    var j :| 0 <= j < |after| && after[j] == found.value;
    assert j == i;
  }

  /** Setting the token a row already has changes nothing. */
  lemma WithSameToken(users: seq<Storage.User>, user: Storage.User)
    requires Storage.FindUser(users, user.username).None?
    ensures Storage.WithToken(users + [user], user.username, user.apiToken) == users + [user]
  {
    var all := users + [user];
    var after := Storage.WithToken(all, user.username, user.apiToken);
    assert forall i :: 0 <= i < |users| ==> all[i] == users[i];
    assert forall i :: 0 <= i < |all| ==> after[i] == all[i];
  }

  /** `signup_user`: the admin password is checked first, then that the name is
      free; only then is the user created, with the hashed password and `token`. */
  method SignupUser(db: Storage.Database, adminPassword: string, configuredAdminPassword: string,
                    username: string, password: string, email: string, hash: string -> string, token: string)
    returns (result: SignupResult)
    requires db.Valid()
    modifies db
    ensures db.Valid()
    ensures adminPassword != configuredAdminPassword ==>
      result == SignupResult(false, "Invalid admin password.") && db.users == old(db.users)
    ensures adminPassword == configuredAdminPassword && Storage.FindUser(old(db.users), username).Some? ==>
      result == SignupResult(false, "Username already exists.") && db.users == old(db.users)
    ensures result.success <==>
      adminPassword == configuredAdminPassword && Storage.FindUser(old(db.users), username).None?
    ensures result.success ==>
      && result.message == "User created successfully."
      && db.users == old(db.users) + [Storage.User(username, Auth.HashPassword(password, hash), email, token)]
    ensures db.details == old(db.details) && db.inputMappings == old(db.inputMappings)
    ensures db.categoryMappings == old(db.categoryMappings)
  {
    if adminPassword != configuredAdminPassword {
      return SignupResult(false, "Invalid admin password.");
    }
    if Storage.FindUser(db.users, username).Some? {
      return SignupResult(false, "Username already exists.");
    }
    var hashed := Auth.HashPassword(password, hash);
    var created := db.CreateUser(username, hashed, email, token);
    assert created;
    WithSameToken(old(db.users), Storage.User(username, hashed, email, token));
    db.UpdateUserToken(username, token);
    return SignupResult(true, "User created successfully.");
  }

  /** A user who signs up can then log in with the same password. */
  lemma SignupThenLogin(users: seq<Storage.User>, username: string, password: string, email: string,
                        hash: string -> string, token: string)
    requires Storage.FindUser(users, username).None?
    ensures var after := users + [Storage.User(username, Auth.HashPassword(password, hash), email, token)];
      Storage.FindUser(after, username).Some?
      && Auth.VerifyPassword(password, Storage.FindUser(after, username).value.password, hash)
  {
    var after := users + [Storage.User(username, Auth.HashPassword(password, hash), email, token)];
    assert after[|users|].username == username;
    var u := Storage.FindUser(after, username).value;
    var i :| 0 <= i < |after| && after[i] == u;
    assert i == |users|;
  }

  /** `is_authenticated`. */
  predicate IsAuthenticated(entries: map<string, Auth.SessionValue>)
  {
    "username" in entries
  }

  /** Storing credentials signs the session in; clearing them signs it out. */
  lemma StoreAndClearAuthentication(entries: map<string, Auth.SessionValue>, username: string, token: string,
                                    savedAt: string)
    ensures IsAuthenticated(Auth.Stored(entries, username, token, savedAt))
    ensures !IsAuthenticated(Auth.Cleared(entries))
  {
    assert Auth.Get(Auth.Stored(entries, username, token, savedAt), "username") == Auth.Str(username);
    assert Auth.IsCredentialKey("username");
  }

  /** `auto_authenticate`: the verdict of `validate_stored_auth`, as a message. */
  method AutoAuthenticate(session: Auth.Session, decode: string -> Option<Auth.Claims>, now: real)
    returns (result: AutoAuthResult)
    modifies session
    ensures var (check, after) := Auth.ValidateStored(old(session.entries), decode, now);
      && session.entries == after
      && result == if check.valid then AutoAuthResult(true, check.username, "Auto-authenticated successfully")
                   else AutoAuthResult(false, None, "No valid stored credentials")
  {
    var check := session.ValidateStoredAuth(decode, now);
    if check.valid {
      return AutoAuthResult(true, check.username, "Auto-authenticated successfully");
    }
    return AutoAuthResult(false, None, "No valid stored credentials");
  }

  /** `store_credentials`. */
  method StoreCredentials(session: Auth.Session, username: string, token: string, savedAt: string)
    modifies session
    ensures session.entries == Auth.Stored(old(session.entries), username, token, savedAt)
    ensures IsAuthenticated(session.entries)
  {
    session.StoreAuthCredentials(username, token, savedAt);
    StoreAndClearAuthentication(old(session.entries), username, token, savedAt);
  }

  /** `logout_user`: clear every credential and report success. */
  method LogoutUser(session: Auth.Session) returns (result: LogoutResult)
    modifies session
    ensures session.entries == Auth.Cleared(old(session.entries))
    ensures !IsAuthenticated(session.entries)
    ensures result == LogoutResult(true, "Logged out successfully")
  {
    session.ClearAuthCredentials();
    StoreAndClearAuthentication(old(session.entries), "", "", "");
    return LogoutResult(true, "Logged out successfully");
  }
}
