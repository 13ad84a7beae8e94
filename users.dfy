/** `Birch::User`: an active record of the `User` table whose password is
  * stored hashed. The hashing of `SetVariant` is part of `Record.SetVariant`
  * (`StoredValue`); `hashString` is the parameter `hash`. */
module Users {
  import opened Wrappers
  import opened Variants
  import opened Database
  import opened Registry
  import opened Records

  /** `User::GetDefaultPassword`. */
  const DefaultPassword: string := "password"

  /** `IsPassword`'s comparison: the hash of `password` against the text of
    * the stored value. */
  predicate Matches(hash: string -> string, stored: Variant, password: string)
  {
    hash(password) == stored.ToString()
  }

  /** Setting the password to any valid value `v` stores a value that
    * `IsPassword(v.ToString())` accepts. */
  lemma StoredPasswordMatches(hash: string -> string, v: Variant)
    requires v.IsValid()
    ensures Matches(hash, StoredValue(User, hash, "password", v), v.ToString())
  {
    assert StoredValue(User, hash, "password", v) == Str(hash(v.ToString()));
  }

  /** Any other column, or a NULL password, is stored as given, so only the
    * password column is ever hashed. */
  lemma OnlyPasswordHashed(hash: string -> string, column: string, v: Variant)
    requires column != "password" || !v.IsValid()
    ensures StoredValue(User, hash, column, v) == v
  {
  }

  /** `ResetPassword`: sets the password to the default one, which is then
    * stored hashed. */
  method ResetPassword(db: Database, hash: string -> string, user: Record) returns (r: Result<()>)
    requires user.kind == User
    modifies user
    ensures var p := old(user.Prepared(db));
      && (r.Ok? <==> p.Ok? && "password" in p.value)
      && (r.Ok? ==> user.initialized && user.values == p.value["password" := Str(hash(DefaultPassword))])
      && (r.Err? ==> user.Settled(p))
    ensures r.Ok? ==> Matches(hash, user.values["password"], DefaultPassword)
  {
    r := user.Set(db, hash, "password", Str(DefaultPassword));
  }

  /** `IsPassword`: whether `password` hashes to the stored password; fails
    * when the record has no `password` column. */
  method IsPassword(db: Database, hash: string -> string, user: Record, password: string) returns (r: Result<bool>)
    requires user.kind == User
    modifies user
    ensures user.Settled(old(user.Prepared(db)))
    ensures var p := old(user.Prepared(db));
      r.Ok? <==> p.Ok? && "password" in p.value
    ensures r.Ok? ==> (r.value <==> Matches(hash, user.values["password"], password))
  {
    var hashed := hash(password);
    var stored := user.Get(db, "password");
    if stored.Err? {
      return Err(stored.msg);
    }
    r := Ok(hashed == stored.value.ToString());
  }

  /** Setting the password to `password` and then asking `IsPassword` about
    * the same text answers yes. */
  method SetThenCheck(db: Database, hash: string -> string, user: Record, password: string) returns (r: Result<bool>)
    requires user.kind == User
    modifies user
    ensures var p := old(user.Prepared(db));
      r.Ok? <==> p.Ok? && "password" in p.value
    ensures r.Ok? ==> r.value
  {
    var stored := user.Set(db, hash, "password", Str(password));
    if stored.Err? {
      return Err(stored.msg);
    }
    StoredPasswordMatches(hash, Str(password));
    r := IsPassword(db, hash, user, password);
  }
}
