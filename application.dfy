/** `Birch::Application`: the application singleton's selection state (the
  * active user, study and image, where selecting one cascades into the
  * others) and its connection to the database from the configuration. The
  * two class registries are the constants of module `Registry`. */
module App {
  import opened Wrappers
  import opened Variants
  import opened Text
  import opened Sql
  import opened Database
  import opened Registry
  import opened Records
  import opened XmlReader
  import opened Configuration
  import Images

  const DefaultHost := "localhost"
  const DefaultPort := "3306"

  /** The port text the configuration gives when none is set reads as the
    * MySQL port 3306. */
  lemma DefaultPortValue()
    ensures Str(DefaultPort).ToInt() == 3306
  {
    assert DefaultPort == IntToString(3306) by {
      IntToStringOf3306();
    }
    StreamIntOfIntToString(3306);
  }

  lemma IntToStringOf3306()
    ensures IntToString(3306) == "3306"
  {
    assert DigitChar(3) == '3' && DigitChar(0) == '0' && DigitChar(6) == '6';
    assert NatToString(3) == "3";
    assert NatToString(33) == NatToString(3) + "3" == "33";
    assert NatToString(330) == NatToString(33) + "0" == "330";
    assert NatToString(3306) == NatToString(330) + "6" == "3306";
  }

  /** The connection parameters `ConnectToDatabase` passes to the server:
    * database name, user, password, host and port. */
  datatype Parameters = Parameters(name: string, user: string, pass: string, host: string, port: int)

  /** The value of `key` in the `Database` category, "" when missing. */
  function DatabaseValue(settings: Settings, key: string): string
  {
    if "Database" in settings && key in settings["Database"] then settings["Database"][key] else ""
  }

  /** The parameters the settings give: none when the database or user name
    * is missing or empty; an empty host is "localhost" and an empty port
    * 3306. */
  function ConnectionParameters(settings: Settings): (r: Option<Parameters>)
  {
    var name := DatabaseValue(settings, "Name");
    var user := DatabaseValue(settings, "Username");
    if |name| == 0 || |user| == 0 then None
    else
      var host := DatabaseValue(settings, "Host");
      var port := DatabaseValue(settings, "Port");
      Some(Parameters(name, user, DatabaseValue(settings, "Password"),
        if |host| == 0 then DefaultHost else host,
        Str(if |port| == 0 then DefaultPort else port).ToInt()))
  }

  /** The parameters are those of the `Database` category, with host and
    * port defaulted, and none when the name or user is missing. */
  lemma ConnectionParametersOf(settings: Settings)
    ensures ConnectionParameters(settings).None? <==>
      DatabaseValue(settings, "Name") == "" || DatabaseValue(settings, "Username") == ""
    ensures ConnectionParameters(settings).Some? ==>
      var p := ConnectionParameters(settings).value;
      var host := DatabaseValue(settings, "Host");
      var port := DatabaseValue(settings, "Port");
      && p.name == DatabaseValue(settings, "Name") && p.user == DatabaseValue(settings, "Username")
      && p.pass == DatabaseValue(settings, "Password")
      && p.host == (if host == "" then DefaultHost else host)
      && (port == "" ==> p.port == 3306)
      && (port != "" ==> p.port == StreamInt(port))
  {
    DefaultPortValue();
  }

  /** The value `SetActiveStudy` stores in the active user's `study_id`:
    * NULL for no study, and the study's id read as an integer otherwise;
    * fails when the study has no `id` column. */
  function StudyIdValue(sp: Option<Result<map<string, Variant>>>): Result<Variant>
  {
    if sp.None? then Ok(Null)
    else if sp.value.Ok? && "id" in sp.value.value then Ok(Int(sp.value.value["id"].ToInt()))
    else Err("Tried to get column \"Study.id\" which doesn't exist")
  }

  /** Whether `SetActiveStudy` can store the study (answering with `sp`,
    * `None` for no study) in a user answering with `up`: the study value
    * must exist and the user must have `study_id` and `id` columns. */
  predicate Stores(sp: Option<Result<map<string, Variant>>>, up: Result<map<string, Variant>>)
  {
    StudyIdValue(sp).Ok? && up.Ok? && "study_id" in up.value && "id" in up.value
  }

  /** The user's values once the study is stored in them. */
  function StoredUser(sp: Option<Result<map<string, Variant>>>, up: Result<map<string, Variant>>): (m: map<string, Variant>)
    requires Stores(sp, up)
    ensures m.Keys == up.value.Keys && m["study_id"] == StudyIdValue(sp).value
    ensures forall c :: c in up.value && c != "study_id" ==> m[c] == up.value[c]
  {
    up.value["study_id" := StudyIdValue(sp).value]
  }

  /** The statements the user's `Save` executes for the stored values. */
  function SaveWrites(db: Database, values: map<string, Variant>): seq<string>
    requires "id" in values
    reads db
  {
    if db.connected then [Render(SaveStatement(User.Name(), SaveAssignments(values), values["id"]), db.escape)] else []
  }

  /** Whether `GetRecord("Study")` on a user answering with `up` succeeds:
    * the user has a `study_id` column, and a set key loads without
    * failing. */
  predicate LastStudyLoads(db: Database, up: Result<map<string, Variant>>)
    reads db
  {
    up.Ok? && "study_id" in up.value &&
    (up.value["study_id"].IsValid() ==> LoadsOne(db, "Study", "id", up.value["study_id"].ToString()))
  }

  /** What the user's last study answers with: `None` for no study (a NULL
    * or missing `study_id`), otherwise the study loaded by that id. */
  function LastStudyAnswer(db: Database, up: Result<map<string, Variant>>): Option<Result<map<string, Variant>>>
    reads db
  {
    if up.Ok? && "study_id" in up.value && up.value["study_id"].IsValid()
    then Some(LoadedPrepared(db, "Study", "id", up.value["study_id"].ToString()))
    else None
  }

  class Application {
    const config: Configuration
    const db: Database
    /** `hashString`, through which a user's password is stored. */
    const hash: string -> string
    var activeUser: Record?
    var activeStudy: Record?
    var activeImage: Record?
    /** vtkObject's modification time, advanced by `Modified()`. */
    var mtime: nat

    /** Each active record is of its own class. */
    predicate Valid()
      reads this, activeUser, activeStudy, activeImage
    {
      && (activeUser != null ==> activeUser.kind == User)
      && (activeStudy != null ==> activeStudy.kind == Study)
      && (activeImage != null ==> activeImage.kind == Image)
    }

    /** The constructor: nothing is active. */
    constructor(config: Configuration, db: Database, hash: string -> string)
      ensures this.config == config && this.db == db && this.hash == hash
      ensures activeUser == null && activeStudy == null && activeImage == null
      ensures Valid()
    {
      this.config := config;
      this.db := db;
      this.hash := hash;
      activeUser := null;
      activeStudy := null;
      activeImage := null;
      mtime := 0;
    }

    /** `SetActiveImage`: the same image changes nothing; another one
      * becomes active, and nothing else changes. */
    method SetActiveImage(image: Record?)
      requires image != null ==> image.kind == Image
      modifies this`activeImage, this`mtime
      ensures activeImage == image
      ensures image == old(activeImage) ==> mtime == old(mtime)
      ensures image != old(activeImage) ==> mtime > old(mtime)
    {
      if image != activeImage {
        activeImage := image;
        mtime := mtime + 1;
      }
    }

    /** `SetActiveStudy`: the same study changes nothing. Another study (or
      * none) becomes active and clears the active image; with an active
      * user, the study's id (or NULL) is stored in the user's `study_id`
      * and the user is saved. A failure of the user's update leaves the
      * new study active and no image. */
    method SetActiveStudy(study: Record?) returns (r: Result<()>)
      requires Valid() && (study != null ==> study.kind == Study)
      modifies this`activeStudy, this`activeImage, this`mtime, activeUser, study, db`writes
      ensures Valid() && activeUser == old(activeUser) && activeStudy == study
      ensures study == old(activeStudy) ==>
        && r.Ok? && activeImage == old(activeImage) && mtime == old(mtime)
        && db.writes == old(db.writes)
      ensures study != old(activeStudy) ==> activeStudy == study && activeImage == null
      ensures study != old(activeStudy) && activeUser == null ==> r.Ok? && db.writes == old(db.writes)
      ensures study != old(activeStudy) && activeUser != null ==>
        var sp := if study == null then None else Some(old(study.Prepared(db)));
        var up := old(activeUser.Prepared(db));
        && (r.Ok? <==> Stores(sp, up))
        && (r.Ok? ==> activeUser.initialized && activeUser.values == StoredUser(sp, up)
                      && db.writes == old(db.writes) + SaveWrites(db, activeUser.values))
      ensures study != null ==> study.Prepared(db) == old(study.Prepared(db))
      ensures study != old(activeStudy) && r.Ok? ==> mtime > old(mtime)
    {
      if study == activeStudy {
        return Ok(());
      }
      activeStudy := study;
      SetActiveImage(null);
      if activeUser != null {
        var stored := StoreStudy(db, hash, activeUser, study);
        if stored.Err? {
          return Err(stored.msg);
        }
      }
      mtime := mtime + 1;
      r := Ok(());
    }

    /** `SetActiveUser`: the same user changes nothing, and no user (NULL)
      * only clears the active user. A new user becomes active and its last
      * study, the one its `study_id` refers to, becomes the active study
      * through `SetActiveStudy`. */
    method SetActiveUser(user: Record?) returns (r: Result<()>)
      requires Valid() && (user != null ==> user.kind == User)
      modifies this`activeUser, this`activeStudy, this`activeImage, this`mtime, user, db`writes
      ensures Valid()
      ensures user == old(activeUser) ==> r.Ok? && unchanged(this) && db.writes == old(db.writes)
      ensures user != old(activeUser) ==> activeUser == user
      ensures user == null ==>
        && r.Ok? && activeStudy == old(activeStudy) && activeImage == old(activeImage)
        && mtime == old(mtime) && db.writes == old(db.writes)
      ensures user != null && user != old(activeUser) && r.Ok? ==> mtime > old(mtime)
      ensures user != null && user != old(activeUser) ==>
        var up := old(user.Prepared(db));
        var sp := old(LastStudyAnswer(db, up));
        var moves := old(activeStudy) != null || sp.Some?;
        && (r.Ok? <==> old(LastStudyLoads(db, up)) && (moves ==> Stores(sp, up)))
        && (r.Ok? ==>
              && up.Ok? && "study_id" in up.value
              && (activeStudy == null <==> !up.value["study_id"].IsValid())
              && (activeStudy != null ==> activeStudy.Prepared(db) == sp.value)
              && activeImage == (if moves then null else old(activeImage))
              && (moves ==> user.initialized && user.values == StoredUser(sp, up)
                            && db.writes == old(db.writes) + SaveWrites(db, user.values))
              && (!moves ==> db.writes == old(db.writes)))
    {
      if user == activeUser {
        return Ok(());
      }
      activeUser := user;
      if user == null {
        return Ok(());
      }
      r := FollowLastStudy();
    }

    /** The part of `SetActiveUser` for a new user: the user's last study
      * becomes the active study, through `SetActiveStudy`. */
    method FollowLastStudy() returns (r: Result<()>)
      requires Valid() && activeUser != null
      modifies this`activeStudy, this`activeImage, this`mtime, activeUser, db`writes
      ensures Valid() && activeUser == old(activeUser)
      ensures r.Ok? ==> mtime > old(mtime)
      ensures var up := old(activeUser.Prepared(db));
        var sp := old(LastStudyAnswer(db, up));
        var moves := old(activeStudy) != null || sp.Some?;
        && (r.Ok? <==> old(LastStudyLoads(db, up)) && (moves ==> Stores(sp, up)))
        && (r.Ok? ==>
              && up.Ok? && "study_id" in up.value
              && (activeStudy == null <==> !up.value["study_id"].IsValid())
              && (activeStudy != null ==> activeStudy.Prepared(db) == sp.value)
              && activeImage == (if moves then null else old(activeImage))
              && (moves ==> activeUser.initialized && activeUser.values == StoredUser(sp, up)
                            && db.writes == old(db.writes) + SaveWrites(db, activeUser.values))
              && (!moves ==> db.writes == old(db.writes)))
    {
      ghost var up := activeUser.Prepared(db);
      ghost var sp := LastStudyAnswer(db, up);
      var study := LastStudy(db, activeUser);
      if study.Err? {
        return Err(study.msg);
      }
      assert study.value == null <==> sp.None?;
      assert study.value != null ==> study.value.Prepared(db) == sp.value;
      r := SetActiveStudy(study.value);
      if r.Err? {
        return;
      }
      mtime := mtime + 1;
    }

    /** `ResetApplication`: no user, study or image is active. The user is
      * cleared first, so clearing the study does not write to the user's
      * record. */
    method ResetApplication()
      requires Valid()
      modifies this`activeUser, this`activeStudy, this`activeImage, this`mtime, db`writes
      ensures Valid() && activeUser == null && activeStudy == null && activeImage == null
      ensures db.writes == old(db.writes)
    {
      var r := SetActiveUser(null);
      r := SetActiveStudy(null);
      SetActiveImage(null);
    }

    /** `ReadConfiguration`: false when the file does not exist, otherwise
      * what reading the configuration gives. */
    method ReadConfiguration(file: Option<seq<Event>>) returns (success: bool)
      modifies config`settings, config.reader, config.reader.file
      ensures file.None? ==> !success && config.settings == old(config.settings)
      ensures file.Some? ==>
        var spec := ReadFile(file, old(config.reader.settings));
        success == spec.0.Ok? && config.settings == if success then spec.1 else old(config.settings)
    {
      if file.None? {
        return false;
      }
      success := config.Read(file);
    }

    /** The connection parameters the configuration holds now. */
    method ReadParameters() returns (p: Option<Parameters>)
      ensures p == ConnectionParameters(config.settings)
    {
      var name := config.GetValue("Database", "Name");
      var user := config.GetValue("Database", "Username");
      var pass := config.GetValue("Database", "Password");
      var host := config.GetValue("Database", "Host");
      var port := config.GetValue("Database", "Port");
      if |name| == 0 || |user| == 0 {
        return None;
      }
      if |host| == 0 {
        host := DefaultHost;
      }
      if |port| == 0 {
        port := DefaultPort;
      }
      p := Some(Parameters(name, user, pass, host, Str(port).ToInt()));
    }

    /** `ConnectToDatabase`: connects with the configured parameters; false
      * without trying when the database or user name is missing. */
    method ConnectToDatabase() returns (success: bool)
      modifies db`name, db`connected, db`columns
      ensures var p := ConnectionParameters(config.settings);
        && (p.None? ==> !success && db.name == old(db.name) && db.connected == old(db.connected) && db.columns == old(db.columns))
        && (p.Some? ==> success == db.accepts(p.value.name, p.value.user, p.value.pass, p.value.host, p.value.port)
                        && db.name == p.value.name && db.connected == success)
    {
      var p := ReadParameters();
      if p.None? {
        return false;
      }
      success := db.Connect(p.value.name, p.value.user, p.value.pass, p.value.host, p.value.port);
    }
  }

  /** The study a user's `study_id` refers to (`GetRecord("Study")`), null
    * when the key is NULL. */
  method LastStudy(db: Database, user: Record) returns (r: Result<Record?>)
    requires user.kind == User
    modifies user
    ensures user.Prepared(db) == old(user.Prepared(db))
    ensures var up := old(user.Prepared(db));
      && (r.Ok? <==> LastStudyLoads(db, up))
      && (r.Ok? ==>
            && up.Ok? && "study_id" in up.value
            && (r.value == null <==> !up.value["study_id"].IsValid())
            && (r.value != null ==>
                  && fresh(r.value) && r.value.kind == Study
                  && r.value.Prepared(db) == LoadedPrepared(db, "Study", "id", up.value["study_id"].ToString())))
  {
    ghost var up := user.Prepared(db);
    Images.StudyKey();
    r := user.GetRecord(db, "Study", "");
    if r.Ok? && r.value != null {
      PreparedAfterLoad(r.value, db, "id", up.value["study_id"].ToString());
    }
  }

  /** The active user's part of `SetActiveStudy`: stores the study's id (or
    * NULL) in `study_id` and saves the user. */
  method StoreStudy(db: Database, hash: string -> string, user: Record, study: Record?) returns (r: Result<()>)
    requires user.kind == User && (study != null ==> study.kind == Study)
    modifies user, study, db`writes
    ensures study != null ==> study.Prepared(db) == old(study.Prepared(db))
    ensures var sp := if study == null then None else Some(old(study.Prepared(db)));
      var up := old(user.Prepared(db));
      && (r.Ok? <==> Stores(sp, up))
      && (r.Ok? ==> user.initialized && user.values == StoredUser(sp, up)
                    && db.writes == old(db.writes) + SaveWrites(db, user.values))
  {
    ghost var sp := if study == null then None else Some(study.Prepared(db));
    ghost var up := user.Prepared(db);
    var updated;
    if study != null {
      var id := study.Get(db, "id");
      if id.Err? {
        return Err(id.msg);
      }
      updated := user.Set(db, hash, "study_id", Int(id.value.ToInt()));
    } else {
      updated := user.SetNull(db, hash, "study_id");
    }
    if updated.Err? {
      return Err(updated.msg);
    }
    r := user.Save(db);
  }
}
