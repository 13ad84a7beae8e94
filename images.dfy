/** `Birch::Image`: an image record, with the path of its file and whether a
  * user has rated it. */
module Images {
  import opened Wrappers
  import opened Variants
  import opened Text
  import opened Sql
  import opened Database
  import opened Registry
  import opened Records
  import opened Configuration

  /** `AssertPrimaryId` succeeds on a record answering with `p`. */
  predicate HasPrimaryId(p: Result<map<string, Variant>>)
  {
    p.Ok? && "id" in p.value && IsPrimaryId(p.value["id"])
  }

  /** A record whose operations each first settle it keeps answering with
    * the same values. */
  lemma SettledKeepsPrepared(rec: Record, db: Database, p: Result<map<string, Variant>>)
    requires rec.Settled(p)
    requires p.Err? ==> p == InitialValues(db.columns, rec.kind.Name())
    ensures rec.Prepared(db) == p
  {
  }

  /** The default foreign key of a study. */
  lemma StudyKey()
    ensures Lower("Study") + "_id" == "study_id"
  {
    var t := Lower("Study");
    assert |t| == 5;
    assert t[0] == LowerChar('S') == 's';
    assert t[1] == 't' && t[2] == 'u' && t[3] == 'd' && t[4] == 'y';
    assert t == "study";
  }

  // ---------------------------------------------------------------------
  // File name

  /** The file of an image: under the configured image directory, in the
    * study's directory, named after the image's id. */
  function FilePath(base: string, studyUid: string, imageId: string): string
  {
    base + "/" + studyUid + "/Image/" + imageId + ".jpg"
  }

  /** What `GetFileName` needs: an image with a primary id and a non-null
    * study key, whose study is read from one row at most and has a uid. */
  predicate FileNameDefined(db: Database, p: Result<map<string, Variant>>)
    reads db
  {
    && HasPrimaryId(p)
    && "study_id" in p.value && p.value["study_id"].IsValid()
    && LoadsOne(db, "Study", "id", p.value["study_id"].ToString())
    && var sp := LoadedPrepared(db, "Study", "id", p.value["study_id"].ToString());
       sp.Ok? && "uid" in sp.value
  }

  const NullStudy := "Image has no study"

  /** `Image::GetFileName`. An image whose study key is NULL has no study
    * record to read the uid from, which fails. */
  method GetFileName(db: Database, config: Configuration, image: Record) returns (r: Result<string>)
    requires image.kind == Image
    modifies image
    ensures image.Settled(old(image.Prepared(db)))
    ensures var p := old(image.Prepared(db));
      && (r.Ok? <==> FileNameDefined(db, p))
      && (r.Ok? ==>
            var sp := LoadedPrepared(db, "Study", "id", p.value["study_id"].ToString());
            r.value == FilePath(config.GetValue("Path", "ImageData"), sp.value["uid"].ToString(), p.value["id"].ToString()))
  {
    var check := image.AssertPrimaryId(db);
    if check.Err? {
      return Err(check.msg);
    }
    StudyKey();
    ghost var p := image.Prepared(db);
    var study := image.GetRecord(db, "Study", "");
    if study.Err? {
      return Err(study.msg);
    }
    if study.value == null {
      return Err(NullStudy);
    }
    PreparedAfterLoad(study.value, db, "id", image.values["study_id"].ToString());
    var base := config.GetValue("Path", "ImageData");
    var uid := study.value.Get(db, "uid");
    if uid.Err? {
      return Err(uid.msg);
    }
    var id := image.Get(db, "id");
    r := Ok(FilePath(base, uid.value.ToString(), id.value.ToString()));
  }

  // ---------------------------------------------------------------------
  // Rating

  const NullUser := "Tried to get rating for null user"

  /** The conditions of the rating lookup. */
  function RatingConditions(userId: string, imageId: string): map<string, string>
  {
    map["user_id" := userId, "image_id" := imageId]
  }

  /** The rating lookup selects on the image first, then the user: the
    * conditions follow the map's key order. */
  lemma RatingConditionsOrder(userId: string, imageId: string)
    ensures Conditions(RatingConditions(userId, imageId)) == [("image_id", imageId), ("user_id", userId)]
  {
    assert Less("image_id", "user_id");
    ConditionsOfTwo("image_id", imageId, "user_id", userId);
    assert RatingConditions(userId, imageId) == map["image_id" := imageId, "user_id" := userId];
  }

  /** The query of the rating lookup. */
  function RatingText(userId: string, imageId: string, escape: string -> string): string
  {
    "SELECT * FROM " + "Rating" + (" WHERE " + "image_id" + " = " + escape(imageId) + " AND " + "user_id" + " = " + escape(userId))
  }

  /** The rating lookup is `Load` with the two conditions. */
  lemma RatingTextIsLoadText(userId: string, imageId: string, escape: string -> string)
    ensures RatingText(userId, imageId, escape) == LoadText("Rating", RatingConditions(userId, imageId), escape)
  {
    RatingConditionsOrder(userId, imageId);
    WhereClauseOfTwo(("image_id", imageId), ("user_id", userId), escape);
  }

  /** The rows the rating lookup reads. */
  function RatingAnswer(db: Database, userId: string, imageId: string): seq<Row>
    reads db
  {
    db.Answer(RatingText(userId, imageId, db.escape))
  }

  /** Whether the rows of the rating lookup say the image is rated: no row
    * is not rated, one row is rated when its `rating` is not NULL, and more
    * than one row is an error of the load. A row without a `rating` column
    * is an error of `Get`. */
  function RatedIn(rows: seq<Row>): Result<bool>
  {
    if |rows| > 1 then Err("Loading Rating record resulted in multiple rows")
    else if |rows| == 0 then Ok(false)
    else if "rating" in RowValues(rows[0]) then Ok(RowValues(rows[0])["rating"].IsValid())
    else Err("Tried to get column \"Rating.rating\" which doesn't exist")
  }

  /** `Image::IsRatedBy` as a function of what the image (`ip`) and the
    * user (`up`, `None` for a null user) answer with. */
  function Verdict(db: Database, ip: Result<map<string, Variant>>, up: Option<Result<map<string, Variant>>>): Result<bool>
    reads db
  {
    if !HasPrimaryId(ip) then Err("Assert failed: primary id for record is not set")
    else if up.None? then Err(NullUser)
    else if !(up.value.Ok? && "id" in up.value.value) then Err("Tried to get column \"User.id\" which doesn't exist")
    else RatedIn(RatingAnswer(db, up.value.value["id"].ToString(), ip.value["id"].ToString()))
  }

  /** The cases of the verdict: no id or no user fails; otherwise no rating
    * row is false, two or more fail, and one row tells whether its rating
    * is set. */
  lemma VerdictCases(db: Database, ip: Result<map<string, Variant>>, up: Option<Result<map<string, Variant>>>)
    ensures !HasPrimaryId(ip) || up.None? ==> Verdict(db, ip, up).Err?
    ensures HasPrimaryId(ip) && up.Some? && up.value.Ok? && "id" in up.value.value ==>
      var rows := RatingAnswer(db, up.value.value["id"].ToString(), ip.value["id"].ToString());
      && (|rows| == 0 ==> Verdict(db, ip, up) == Ok(false))
      && (|rows| > 1 ==> Verdict(db, ip, up).Err?)
      && (|rows| == 1 && "rating" in RowValues(rows[0]) ==>
            Verdict(db, ip, up) == Ok(RowValues(rows[0])["rating"].IsValid()))
  {
  }

  /** Two outcomes agree on success and on the value, whatever their error
    * messages. */
  predicate SameOutcome<T(==)>(a: Result<T>, b: Result<T>)
  {
    a.Ok? == b.Ok? && (a.Ok? ==> a.value == b.value)
  }

  /** `Image::IsRatedBy`: whether `user` has rated the image, that is, a
    * Rating row for the pair exists with a non-NULL rating. */
  method IsRatedBy(db: Database, image: Record, user: Record?) returns (r: Result<bool>)
    requires image.kind == Image && (user != null ==> user.kind == User)
    modifies image, user
    ensures image.Prepared(db) == old(image.Prepared(db))
    ensures user != null ==> user.Prepared(db) == old(user.Prepared(db))
    ensures SameOutcome(r, Verdict(db, old(image.Prepared(db)), if user == null then None else Some(old(user.Prepared(db)))))
  {
    ghost var ip := image.Prepared(db);
    ghost var up := if user == null then Result.Err("") else user.Prepared(db);
    var check := image.AssertPrimaryId(db);
    SettledKeepsPrepared(image, db, ip);
    if check.Err? {
      return Err(check.msg);
    }
    if user == null {
      return Err(NullUser);
    }
    var userId := user.Get(db, "id");
    SettledKeepsPrepared(user, db, up);
    if userId.Err? {
      return Err(userId.msg);
    }
    var imageId := image.Get(db, "id");
    SettledKeepsPrepared(image, db, ip);
    var conds := RatingConditions(userId.value.ToString(), imageId.value.ToString());
    RatingTextIsLoadText(userId.value.ToString(), imageId.value.ToString(), db.escape);
    var rating := new Record(Rating);
    var loaded := rating.Load(db, conds);
    if loaded.Err? {
      return Err(loaded.msg);
    }
    if !loaded.value {
      return Ok(false);
    }
    var value := rating.Get(db, "rating");
    if value.Err? {
      return Err(value.msg);
    }
    r := Ok(value.value.IsValid());
  }
}
