/** Passwords, token checks and the credential entries kept in the per-browser
    session map. Hashing, token decoding and the clock are parameters. */
module Auth {
  import opened Wrappers

  /** The claims of a decoded token that the checks read. */
  datatype Claims = Claims(sub: Option<string>, exp: Option<real>)

  // ---------------------------------------------------------------------------
  // Passwords and tokens
  // ---------------------------------------------------------------------------

  /** `hash_password`: the configured digest of the password. */
  function HashPassword(password: string, hash: string -> string): string
  {
    hash(password)
  }

  /** `verify_password`: the password hashes to the stored digest. */
  function VerifyPassword(password: string, hashed: string, hash: string -> string): bool
  {
    HashPassword(password, hash) == hashed
  }

  /** A password always verifies against its own hash. */
  lemma VerifyHashedPassword(password: string, hash: string -> string)
    ensures VerifyPassword(password, HashPassword(password, hash), hash)
  {
  }

  /** `is_token_valid`: a non-empty token that decodes, carries a non-zero `exp`
      (section 4.1.4 of RFC 7519) and has not reached it at time `now`.
      `decode` is `decode_jwt`: `None` whenever the library raises. */
  function IsTokenValid(token: string, decode: string -> Option<Claims>, now: real): (valid: bool)
    ensures valid ==> token != "" && decode(token).Some?
    ensures valid <==> (token != "" && decode(token).Some? && decode(token).value.exp.Some?
                        && decode(token).value.exp.value != 0.0 && now < decode(token).value.exp.value)
  {
    if token == "" then false
    else
      match decode(token)
      case None => false
      case Some(claims) =>
        match claims.exp
        case None => false
        case Some(exp) => exp != 0.0 && now < exp
  }

  /** A token valid at some time was valid at every earlier time. */
  lemma ValidEarlier(token: string, decode: string -> Option<Claims>, earlier: real, now: real)
    requires earlier <= now
    requires IsTokenValid(token, decode, now)
    ensures IsTokenValid(token, decode, earlier)
  {
    var exp := decode(token).value.exp.value;
    assert now < exp;
  }

  /** `get_username_from_token`: the `sub` claim, if the token decodes. */
  function UsernameFromToken(token: string, decode: string -> Option<Claims>): (username: Option<string>)
    ensures username.Some? ==> decode(token).Some? && decode(token).value.sub == username
    ensures decode(token).Some? ==> username == decode(token).value.sub
    ensures decode(token).None? ==> username.None?
  {
    match decode(token)
    case None => None
    case Some(claims) => claims.sub
  }

  // ---------------------------------------------------------------------------
  // Session entries
  // ---------------------------------------------------------------------------

  /** A value held in the session map. */
  datatype SessionValue = NoneValue | Str(text: string) | Dict(fields: map<string, string>)

  /** Python truthiness of a session value. */
  predicate Truthy(v: SessionValue)
  {
    match v
    case NoneValue => false
    case Str(s) => s != ""
    case Dict(f) => f != map[]
  }

  /** `session_state.get(key)`. */
  function Get(entries: map<string, SessionValue>, key: string): SessionValue
  {
    if key in entries then entries[key] else NoneValue
  }

  /** `get_persistent_auth_key`. */
  const PersistentKey: string := "peng_finance_auth_data"

  /** The four entries `clear_auth_credentials` removes before the persistent one. */
  const CredentialKeys: seq<string> := ["username", "token", "stored_username", "stored_token"]

  /** Every key the credential operations write or delete. */
  predicate IsCredentialKey(key: string)
  {
    key in CredentialKeys || key == PersistentKey
  }

  /** The persistent entry is a dict that holds both a username and a token. */
  predicate HasPersistentCredentials(entries: map<string, SessionValue>)
  {
    PersistentKey in entries && entries[PersistentKey].Dict?
      && "username" in entries[PersistentKey].fields && "token" in entries[PersistentKey].fields
  }

  /** `load_persistent_credentials`: copy the persistent username and token into
      the stored entries, or change nothing. */
  function Loaded(entries: map<string, SessionValue>): (after: map<string, SessionValue>)
    ensures !HasPersistentCredentials(entries) ==> after == entries
    ensures HasPersistentCredentials(entries) ==>
      && Get(after, "stored_username") == Str(entries[PersistentKey].fields["username"])
      && Get(after, "stored_token") == Str(entries[PersistentKey].fields["token"])
    ensures forall k :: k != "stored_username" && k != "stored_token" ==>
      (k in after <==> k in entries) && Get(after, k) == Get(entries, k)
  {
    if HasPersistentCredentials(entries) then
      var fields := entries[PersistentKey].fields;
      entries["stored_username" := Str(fields["username"])]["stored_token" := Str(fields["token"])]
    else entries
  }

  /** `store_auth_credentials` (with `save_persistent_credentials`): both the
      current and the stored username and token, plus the persistent record
      stamped `savedAt`. */
  function Stored(entries: map<string, SessionValue>, username: string, token: string, savedAt: string)
    : (after: map<string, SessionValue>)
    ensures Get(after, "username") == Get(after, "stored_username") == Str(username)
    ensures Get(after, "token") == Get(after, "stored_token") == Str(token)
    ensures Get(after, PersistentKey) == Dict(map["username" := username, "token" := token, "saved_at" := savedAt])
    ensures forall k :: !IsCredentialKey(k) ==> (k in after <==> k in entries) && Get(after, k) == Get(entries, k)
  {
    entries["stored_username" := Str(username)]["stored_token" := Str(token)]
           ["username" := Str(username)]["token" := Str(token)]
           [PersistentKey := Dict(map["username" := username, "token" := token, "saved_at" := savedAt])]
  }

  /** `clear_auth_credentials`: the four credential entries and the persistent
      one are gone; every other entry is as it was. */
  function Cleared(entries: map<string, SessionValue>): (after: map<string, SessionValue>)
    ensures forall k :: k in after <==> k in entries && !IsCredentialKey(k)
    ensures forall k :: k in after ==> after[k] == entries[k]
  {
    entries - {"username", "token", "stored_username", "stored_token", PersistentKey}
  }

  /** Clearing twice is clearing once. */
  lemma ClearedIdempotent(entries: map<string, SessionValue>)
    ensures Cleared(Cleared(entries)) == Cleared(entries)
  {
    assert Cleared(Cleared(entries)).Keys == Cleared(entries).Keys;
  }

  /** Clearing after storing leaves what clearing alone leaves. */
  lemma ClearUndoesStore(entries: map<string, SessionValue>, username: string, token: string, savedAt: string)
    ensures Cleared(Stored(entries, username, token, savedAt)) == Cleared(entries)
  {
    var a := Cleared(Stored(entries, username, token, savedAt));
    var b := Cleared(entries);
    assert forall k :: k in a ==> a[k] == Get(entries, k);
    assert a.Keys == b.Keys;
  }

  /** Loading after storing changes nothing: the stored entries already match
      the persistent record. */
  lemma LoadAfterStore(entries: map<string, SessionValue>, username: string, token: string, savedAt: string)
    ensures Loaded(Stored(entries, username, token, savedAt)) == Stored(entries, username, token, savedAt)
  {
    var s := Stored(entries, username, token, savedAt);
    assert HasPersistentCredentials(s);
    assert s["stored_username" := Str(username)]["stored_token" := Str(token)] == s;
  }

  /** The outcome of `validate_stored_auth`. */
  datatype AuthCheck = AuthCheck(valid: bool, username: Option<string>)

  const Invalid: AuthCheck := AuthCheck(false, None)

  /** The entries `validate_stored_auth` reads: loaded from the persistent
      record unless both stored entries already exist. */
  function Prepared(entries: map<string, SessionValue>): map<string, SessionValue>
  {
    if "stored_username" !in entries || "stored_token" !in entries then Loaded(entries) else entries
  }

  /** `validate_stored_auth`: the verdict and the session entries afterwards. */
  function ValidateStored(entries: map<string, SessionValue>, decode: string -> Option<Claims>, now: real)
    : (result: (AuthCheck, map<string, SessionValue>))
    ensures result.0.valid ==> result.0.username.Some? && result.1 == Prepared(entries)
    ensures !result.0.valid ==> result.0 == Invalid
  {
    var prepared := Prepared(entries);
    var storedUsername := Get(prepared, "stored_username");
    var storedToken := Get(prepared, "stored_token");
    if !Truthy(storedUsername) || !Truthy(storedToken) then (Invalid, prepared)
    else if !(storedToken.Str? && IsTokenValid(storedToken.text, decode, now)) then (Invalid, Cleared(prepared))
    else if !(storedUsername.Str? && UsernameFromToken(storedToken.text, decode) == Some(storedUsername.text)) then
      (Invalid, Cleared(prepared))
    else (AuthCheck(true, Some(storedUsername.text)), prepared)
  }

  /** Missing credentials give an invalid verdict and clear nothing. */
  lemma MissingCredentialsClearNothing(entries: map<string, SessionValue>, decode: string -> Option<Claims>, now: real)
    requires !Truthy(Get(Prepared(entries), "stored_username")) || !Truthy(Get(Prepared(entries), "stored_token"))
    ensures ValidateStored(entries, decode, now) == (Invalid, Prepared(entries))
  {
  }

  /** A valid verdict names the stored user, whose live token carries that user
      as subject; anything else that reaches the token check clears all
      credentials. */
  lemma ValidateStoredVerdict(entries: map<string, SessionValue>, decode: string -> Option<Claims>, now: real)
    requires Truthy(Get(Prepared(entries), "stored_username")) && Truthy(Get(Prepared(entries), "stored_token"))
    ensures var (check, after) := ValidateStored(entries, decode, now);
      var u := Get(Prepared(entries), "stored_username");
      var t := Get(Prepared(entries), "stored_token");
      && (check.valid <==>
            u.Str? && t.Str? && IsTokenValid(t.text, decode, now)
            && decode(t.text).value.sub == Some(u.text))
      && (check.valid ==> check.username == Some(u.text))
      && (!check.valid ==> after == Cleared(Prepared(entries)))
  {
  }

  /** Right after credentials are stored, validation accepts them exactly when
      the token is live and names the user; otherwise every credential is gone. */
  lemma StoreThenValidate(entries: map<string, SessionValue>, username: string, token: string, savedAt: string,
                          decode: string -> Option<Claims>, now: real)
    requires username != "" && token != ""
    ensures var (check, after) := ValidateStored(Stored(entries, username, token, savedAt), decode, now);
      && (check.valid <==> IsTokenValid(token, decode, now) && decode(token).value.sub == Some(username))
      && (check.valid ==> check.username == Some(username) && after == Stored(entries, username, token, savedAt))
      && (!check.valid ==> forall k :: IsCredentialKey(k) ==> k !in after)
  {
    var s := Stored(entries, username, token, savedAt);
    assert Prepared(s) == s;
    ValidateStoredVerdict(s, decode, now);
  }

  /** The session map of one browser session. */
  class Session {
    var entries: map<string, SessionValue>

    constructor (initial: map<string, SessionValue>)
      ensures entries == initial
    {
      entries := initial;
    }

    /** `load_persistent_credentials`. */
    method LoadPersistentCredentials()
      modifies this
      ensures entries == Loaded(old(entries))
    {
      if PersistentKey in entries {
        var authData := entries[PersistentKey];
        if authData.Dict? && "username" in authData.fields && "token" in authData.fields {
          entries := entries["stored_username" := Str(authData.fields["username"])];
          entries := entries["stored_token" := Str(authData.fields["token"])];
        }
      }
    }

    /** `save_persistent_credentials`; `savedAt` is the ISO time of the call. */
    method SavePersistentCredentials(username: string, token: string, savedAt: string)
      modifies this
      ensures entries == old(entries)[PersistentKey := Dict(map["username" := username, "token" := token, "saved_at" := savedAt])]
    {
      entries := entries[PersistentKey := Dict(map["username" := username, "token" := token, "saved_at" := savedAt])];
    }

    /** `clear_persistent_credentials`. */
    method ClearPersistentCredentials()
      modifies this
      ensures entries == old(entries) - {PersistentKey}
    {
      if PersistentKey in entries {
        entries := entries - {PersistentKey};
      }
    }

    /** `store_auth_credentials`. */
    method StoreAuthCredentials(username: string, token: string, savedAt: string)
      modifies this
      ensures entries == Stored(old(entries), username, token, savedAt)
    {
      entries := entries["stored_username" := Str(username)];
      entries := entries["stored_token" := Str(token)];
      entries := entries["username" := Str(username)];
      entries := entries["token" := Str(token)];
      SavePersistentCredentials(username, token, savedAt);
    }

    /** `clear_auth_credentials`: delete the four keys one by one, then the
        persistent entry. */
    method ClearAuthCredentials()
      modifies this
      ensures entries == Cleared(old(entries))
    {
      for i := 0 to |CredentialKeys|
        invariant forall k :: k in entries <==> k in old(entries) && k !in CredentialKeys[..i]
        invariant forall k :: k in entries ==> entries[k] == old(entries)[k]
      {
        var key := CredentialKeys[i];
        assert forall k :: k in CredentialKeys[..i + 1] <==> k in CredentialKeys[..i] || k == key;
        if key in entries {
          entries := entries - {key};
        }
      }
      assert CredentialKeys[..|CredentialKeys|] == CredentialKeys;
      ClearPersistentCredentials();
    }

    /** `validate_stored_auth`. */
    method ValidateStoredAuth(decode: string -> Option<Claims>, now: real) returns (check: AuthCheck)
      modifies this
      ensures (check, entries) == ValidateStored(old(entries), decode, now)
    {
      if "stored_username" !in entries || "stored_token" !in entries {
        LoadPersistentCredentials();
      }
      var storedUsername := Get(entries, "stored_username");
      var storedToken := Get(entries, "stored_token");
      if !Truthy(storedUsername) || !Truthy(storedToken) {
        return Invalid;
      }
      if !storedToken.Str? || !IsTokenValid(storedToken.text, decode, now) {
        ClearAuthCredentials();
        return Invalid;
      }
      var tokenUsername := UsernameFromToken(storedToken.text, decode);
      if !storedUsername.Str? || tokenUsername != Some(storedUsername.text) {
        ClearAuthCredentials();
        return Invalid;
      }
      return AuthCheck(true, Some(storedUsername.text));
    }
  }
}
