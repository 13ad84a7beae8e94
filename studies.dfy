/** `Birch::Study`: a study record, the list of all study uids, stepping to
  * the next or previous study in that list (wrapping around at either end),
  * and whether a user has rated every image of the study. */
module Studies {
  import opened Wrappers
  import opened Variants
  import opened Sql
  import opened Database
  import opened Registry
  import opened Records
  import opened Images

  const EmptyList := "Study list is empty while trying to get next study."
  const NotIncluded := "Study list does not include current UID."

  // ---------------------------------------------------------------------
  // The uid list and its neighbours

  /** The uids the rows of `SELECT uid FROM Study ORDER BY uid` hold, in row
    * order. */
  function UidsOf(rows: seq<Row>): (r: seq<string>)
    ensures |r| == |rows| && forall i :: 0 <= i < |rows| ==> r[i] == DataValue(rows[i], 0).ToString()
  {
    seq(|rows|, i requires 0 <= i < |rows| => DataValue(rows[i], 0).ToString())
  }

  /** `Study::GetUIDList` as the server answers it. */
  function UidList(db: Database): seq<string>
    reads db
  {
    UidsOf(db.Answer(Render(SelectUids, db.escape)))
  }

  /** The index of the last occurrence of `x` in `list`, or -1. */
  function LastIndexOf(list: seq<string>, x: string): (i: int)
    ensures -1 <= i < |list|
    ensures i >= 0 ==> list[i] == x && forall j :: i < j < |list| ==> list[j] != x
    ensures i == -1 <==> x !in list
  {
    if |list| == 0 then -1
    else if list[|list| - 1] == x then |list| - 1
    else LastIndexOf(list[..|list| - 1], x)
  }

  /** The index of the first occurrence of `x` in `list`, or -1. */
  function FirstIndexOf(list: seq<string>, x: string): (i: int)
    ensures -1 <= i < |list|
    ensures i >= 0 ==> list[i] == x && forall j :: 0 <= j < i ==> list[j] != x
    ensures i == -1 <==> x !in list
  {
    if |list| == 0 then -1
    else if list[0] == x then 0
    else
      var i := FirstIndexOf(list[1..], x);
      if i == -1 then -1 else i + 1
  }

  /** The uid after the last occurrence of `x`, the first uid after the last
    * one, or "" when `x` does not occur. */
  function Successor(list: seq<string>, x: string): string
  {
    var i := LastIndexOf(list, x);
    if i < 0 then "" else if i == |list| - 1 then list[0] else list[i + 1]
  }

  /** The uid before the first occurrence of `x`, the last uid before the
    * first one, or "" when `x` does not occur. */
  function Predecessor(list: seq<string>, x: string): string
  {
    var i := FirstIndexOf(list, x);
    if i < 0 then "" else if i == 0 then list[|list| - 1] else list[i - 1]
  }

  /** The uid `GetNext` loads: fails on an empty list and when no successor
    * is found (or it is the empty uid). */
  function NextUid(list: seq<string>, current: string): Result<string>
  {
    if |list| == 0 then Err(EmptyList)
    else if Successor(list, current) == "" then Err(NotIncluded)
    else Ok(Successor(list, current))
  }

  /** The uid `GetPrevious` loads. */
  function PreviousUid(list: seq<string>, current: string): Result<string>
  {
    if |list| == 0 then Err(EmptyList)
    else if Predecessor(list, current) == "" then Err(NotIncluded)
    else Ok(Predecessor(list, current))
  }

  predicate Distinct(list: seq<string>)
  {
    forall i, j :: 0 <= i < j < |list| ==> list[i] != list[j]
  }

  /** In a list without repeated uids, the first and last occurrences of a
    * uid coincide. */
  lemma DistinctIndex(list: seq<string>, i: int)
    requires Distinct(list) && 0 <= i < |list|
    ensures LastIndexOf(list, list[i]) == i && FirstIndexOf(list, list[i]) == i
  {
  }

  /** Stepping forward then back, or back then forward, returns to the uid
    * started from, when the list has no repeated uids. */
  lemma NeighboursInverse(list: seq<string>, x: string)
    requires Distinct(list) && x in list
    ensures Predecessor(list, Successor(list, x)) == x
    ensures Successor(list, Predecessor(list, x)) == x
  {
    PredecessorOfSuccessor(list, x);
    SuccessorOfPredecessor(list, x);
  }

  lemma PredecessorOfSuccessor(list: seq<string>, x: string)
    requires Distinct(list) && x in list
    ensures Predecessor(list, Successor(list, x)) == x
  {
    var i := LastIndexOf(list, x);
    DistinctIndex(list, i);
    var n := if i == |list| - 1 then 0 else i + 1;
    assert Successor(list, x) == list[n];
    DistinctIndex(list, n);
    assert FirstIndexOf(list, list[n]) == n;
  }

  lemma SuccessorOfPredecessor(list: seq<string>, x: string)
    requires Distinct(list) && x in list
    ensures Successor(list, Predecessor(list, x)) == x
  {
    var i := FirstIndexOf(list, x);
    DistinctIndex(list, i);
    var p := if i == 0 then |list| - 1 else i - 1;
    assert Predecessor(list, x) == list[p];
    DistinctIndex(list, p);
    assert LastIndexOf(list, list[p]) == p;
  }

  /** With a single uid, both neighbours of it are itself. */
  lemma SingleUid(x: string)
    ensures Successor([x], x) == x && Predecessor([x], x) == x
  {
  }

  /** A uid of the list (other than the empty uid) always has a next and a
    * previous uid, and neither is missing from the list. */
  lemma NeighboursInList(list: seq<string>, x: string)
    requires x in list && forall i :: 0 <= i < |list| ==> list[i] != ""
    ensures NextUid(list, x).Ok? && NextUid(list, x).value in list
    ensures PreviousUid(list, x).Ok? && PreviousUid(list, x).value in list
  {
  }

  /** The loop of `GetNext`: scans from the back for `current` and takes the
    * uid after it, wrapping to the front. */
  method FindNext(list: seq<string>, current: string) returns (uid: string)
    ensures uid == Successor(list, current)
  {
    uid := "";
    var k := |list|;
    while k > 0
      invariant 0 <= k <= |list|
      invariant forall j :: k <= j < |list| ==> list[j] != current
    {
      if current == list[k - 1] {
        if k == |list| {
          uid := list[0];
        } else {
          uid := list[k];
        }
        return;
      }
      k := k - 1;
    }
  }

  /** The loop of `GetPrevious`: scans from the front for `current` and
    * takes the uid before it, wrapping to the back. */
  method FindPrevious(list: seq<string>, current: string) returns (uid: string)
    ensures uid == Predecessor(list, current)
  {
    uid := "";
    var k := 0;
    while k < |list|
      invariant 0 <= k <= |list|
      invariant forall j :: 0 <= j < k ==> list[j] != current
    {
      if current == list[k] {
        if k == 0 {
          uid := list[|list| - 1];
        } else {
          uid := list[k - 1];
        }
        return;
      }
      k := k + 1;
    }
  }

  /** `Study::GetUIDList`: the first field of every row, in row order. */
  method GetUIDList(db: Database) returns (list: seq<string>)
    ensures list == UidList(db)
  {
    var rows := db.Query(Render(SelectUids, db.escape));
    list := [];
    var k := 0;
    while k < |rows|
      invariant 0 <= k <= |rows|
      invariant list == UidsOf(rows[..k])
    {
      list := list + [DataValue(rows[k], 0).ToString()];
      k := k + 1;
    }
    assert rows[..k] == rows;
  }

  // ---------------------------------------------------------------------
  // Stepping between studies

  /** The uid a step from a study answering with `p` goes to. */
  function StepUid(db: Database, p: Result<map<string, Variant>>, forward: bool): Result<string>
    reads db
  {
    if !(p.Ok? && "uid" in p.value) then Err("Tried to get column \"Study.uid\" which doesn't exist")
    else if forward then NextUid(UidList(db), p.value["uid"].ToString())
    else PreviousUid(UidList(db), p.value["uid"].ToString())
  }

  /** `GetNext` and `GetPrevious` succeed: the uid is found and the study of
    * that uid is read from one row at most. */
  predicate Steps(db: Database, p: Result<map<string, Variant>>, forward: bool)
    reads db
  {
    StepUid(db, p, forward).Ok? && LoadsOne(db, "Study", "uid", StepUid(db, p, forward).value)
  }

  /** `Study::GetNext` (`forward`) and `Study::GetPrevious`: a new study
    * loaded by the uid after, or before, this study's uid. */
  method GetNeighbour(db: Database, study: Record, forward: bool) returns (r: Result<Record>)
    requires study.kind == Study
    modifies study
    ensures study.Settled(old(study.Prepared(db)))
    ensures r.Ok? <==> Steps(db, old(study.Prepared(db)), forward)
    ensures r.Ok? ==>
      && fresh(r.value) && r.value.kind == Study
      && LoadedBy(r.value, db, "uid", StepUid(db, old(study.Prepared(db)), forward).value)
  {
    var current := study.Get(db, "uid");
    if current.Err? {
      return Err(current.msg);
    }
    var list := GetUIDList(db);
    if |list| == 0 {
      return Err(EmptyList);
    }
    var uid;
    if forward {
      uid := FindNext(list, current.value.ToString());
    } else {
      uid := FindPrevious(list, current.value.ToString());
    }
    if uid == "" {
      return Err(NotIncluded);
    }
    var next := new Record(Study);
    var loaded := next.LoadKey(db, "uid", uid);
    if loaded.Err? {
      return Err(loaded.msg);
    }
    r := Ok(next);
  }

  /** The id a step reloads this study with: that of the neighbouring study
    * as loaded by its uid (its default when no row was read). */
  function StepId(db: Database, p: Result<map<string, Variant>>, forward: bool): Result<string>
    reads db
  {
    if !Steps(db, p, forward) then Err("Study step failed")
    else IdIn(LoadedPrepared(db, "Study", "uid", StepUid(db, p, forward).value))
  }

  /** The id of a study record answering with `p`. */
  function IdIn(p: Result<map<string, Variant>>): Result<string>
  {
    if p.Ok? && "id" in p.value then Ok(p.value["id"].ToString())
    else Err("Tried to get column \"Study.id\" which doesn't exist")
  }

  /** `Study::Next` (`forward`) and `Study::Previous`: reloads this record as
    * the neighbouring study, by its id. */
  method Step(db: Database, study: Record, forward: bool) returns (r: Result<()>)
    requires study.kind == Study
    modifies study
    ensures var id := StepId(db, old(study.Prepared(db)), forward);
      && (r.Ok? <==> id.Ok? && LoadsOne(db, "Study", "id", id.value))
      && (r.Ok? ==> LoadedBy(study, db, "id", id.value))
  {
    ghost var p := study.Prepared(db);
    var next := GetNeighbour(db, study, forward);
    if next.Err? {
      return Err(next.msg);
    }
    PreparedAfterLoad(next.value, db, "uid", StepUid(db, p, forward).value);
    assert StepId(db, p, forward) == IdIn(next.value.Prepared(db));
    r := ReloadAs(db, study, next.value);
  }

  /** The rest of a step once the neighbouring study `next` is loaded:
    * reloads `study` by the id of `next`. */
  method ReloadAs(db: Database, study: Record, next: Record) returns (r: Result<()>)
    requires study.kind == Study && next.kind == Study
    modifies study, next
    ensures var id := IdIn(old(next.Prepared(db)));
      && (r.Ok? <==> id.Ok? && LoadsOne(db, "Study", "id", id.value))
      && (r.Ok? ==> LoadedBy(study, db, "id", id.value))
  {
    var id := next.Get(db, "id");
    if id.Err? {
      return Err(id.msg);
    }
    var loaded := study.LoadKey(db, "id", id.value.ToString());
    if loaded.Err? {
      return Err(loaded.msg);
    }
    r := Ok(());
  }

  // ---------------------------------------------------------------------
  // Rated by a user

  /** The verdicts of a study's images, in order, folded as the loop of
    * `IsRatedBy` does: the first error or the first unrated image decides,
    * and no image leaves it true. */
  function AllRated(verdicts: seq<Result<bool>>): Result<bool>
  {
    if |verdicts| == 0 then Ok(true)
    else if verdicts[0].Err? then Err(verdicts[0].msg)
    else if !verdicts[0].value then Ok(false)
    else AllRated(verdicts[1..])
  }

  /** The fold is true exactly when every image is rated, vacuously so for
    * no image. */
  lemma {:induction false} AllRatedTrue(verdicts: seq<Result<bool>>)
    ensures AllRated(verdicts) == Ok(true) <==> forall j :: 0 <= j < |verdicts| ==> verdicts[j] == Ok(true)
  {
    if |verdicts| > 0 {
      AllRatedTrue(verdicts[1..]);
      assert forall j :: 1 <= j < |verdicts| ==> verdicts[j] == verdicts[1..][j - 1];
    }
  }

  /** The fold is false exactly when some image is unrated and every image
    * before it is rated. */
  lemma {:induction false} AllRatedFalse(verdicts: seq<Result<bool>>)
    ensures AllRated(verdicts) == Ok(false) <==>
      exists j :: 0 <= j < |verdicts| && verdicts[j] == Ok(false) && forall i :: 0 <= i < j ==> verdicts[i] == Ok(true)
  {
    if |verdicts| > 0 {
      var tail := verdicts[1..];
      AllRatedFalse(tail);
      if AllRated(verdicts) == Ok(false) && verdicts[0] != Ok(false) {
        var j :| 0 <= j < |tail| && tail[j] == Ok(false) && forall i :: 0 <= i < j ==> tail[i] == Ok(true);
        assert verdicts[j + 1] == Ok(false);
        assert forall i :: 0 <= i < j + 1 ==> verdicts[i] == Ok(true) by {
          forall i | 0 <= i < j + 1 ensures verdicts[i] == Ok(true) {
            if i > 0 {
              assert verdicts[i] == tail[i - 1];
            }
          }
        }
      }
      if exists j :: 0 <= j < |verdicts| && verdicts[j] == Ok(false) && forall i :: 0 <= i < j ==> verdicts[i] == Ok(true) {
        var j :| 0 <= j < |verdicts| && verdicts[j] == Ok(false) && forall i :: 0 <= i < j ==> verdicts[i] == Ok(true);
        if j > 0 {
          assert tail[j - 1] == Ok(false);
          assert forall i :: 0 <= i < j - 1 ==> tail[i] == verdicts[i + 1] == Ok(true);
        }
      }
    }
  }

  /** The rows of the study's images. */
  function ImageRows(db: Database, studyId: string): seq<Row>
    reads db
  {
    db.Answer(Render(SelectRelatedIds("Image", "Study", studyId), db.escape))
  }

  /** What each image of `rows` answers with once loaded by its id. */
  function ImagesPrepared(db: Database, rows: seq<Row>): (ps: seq<Result<map<string, Variant>>>)
    reads db
    ensures |ps| == |rows| && forall j :: 0 <= j < |rows| ==> ps[j] == LoadedPrepared(db, "Image", "id", IdOf(rows[j]))
  {
    seq(|rows|, j requires 0 <= j < |rows| reads db => LoadedPrepared(db, "Image", "id", IdOf(rows[j])))
  }

  /** The verdict of each image, for the user answering with `up`. */
  function ImageVerdicts(db: Database, ps: seq<Result<map<string, Variant>>>, up: Result<map<string, Variant>>): (vs: seq<Result<bool>>)
    reads db
    ensures |vs| == |ps| && forall j :: 0 <= j < |ps| ==> vs[j] == Verdict(db, ps[j], Some(up))
  {
    seq(|ps|, j requires 0 <= j < |ps| reads db => Verdict(db, ps[j], Some(up)))
  }

  /** `Study::IsRatedBy` as a function of what the study (`sp`) and the user
    * (`up`, `None` for a null user) answer with. */
  function StudyVerdict(db: Database, sp: Result<map<string, Variant>>, up: Option<Result<map<string, Variant>>>): Result<bool>
    reads db
  {
    if !HasPrimaryId(sp) then Err("Assert failed: primary id for record is not set")
    else if up.None? then Err(NullUser)
    else
      var rows := ImageRows(db, sp.value["id"].ToString());
      if !ImagesLoad(db, rows) then Err("Loading Image record resulted in multiple rows")
      else AllRated(ImageVerdicts(db, ImagesPrepared(db, rows), up.value))
  }

  /** For a study with a primary id and a non-null user whose image rows all
    * load, the study is rated exactly when every image is rated by the
    * user, vacuously so with no image; without a primary id or a user it
    * fails. */
  lemma StudyRatedIffImagesRated(db: Database, sp: Result<map<string, Variant>>, up: Option<Result<map<string, Variant>>>)
    ensures !HasPrimaryId(sp) || up.None? ==> StudyVerdict(db, sp, up).Err?
    ensures HasPrimaryId(sp) && up.Some? ==>
      var rows := ImageRows(db, sp.value["id"].ToString());
      && (!ImagesLoad(db, rows) ==> StudyVerdict(db, sp, up).Err?)
      && (ImagesLoad(db, rows) ==>
            (StudyVerdict(db, sp, up) == Ok(true) <==>
               forall j :: 0 <= j < |rows| ==>
                 Verdict(db, LoadedPrepared(db, "Image", "id", IdOf(rows[j])), up) == Ok(true)))
      && (|rows| == 0 ==> StudyVerdict(db, sp, up) == Ok(true))
  {
    if HasPrimaryId(sp) && up.Some? {
      var rows := ImageRows(db, sp.value["id"].ToString());
      var ps := ImagesPrepared(db, rows);
      var vs := ImageVerdicts(db, ps, up.value);
      assert ImagesLoad(db, rows) ==> StudyVerdict(db, sp, up) == AllRated(vs);
      AllRatedTrue(vs);
      forall j | 0 <= j < |rows|
        ensures vs[j] == Verdict(db, LoadedPrepared(db, "Image", "id", IdOf(rows[j])), up)
      {
        assert ps[j] == LoadedPrepared(db, "Image", "id", IdOf(rows[j]));
      }
    }
  }

  /** Every image row names an image that one row answers for. */
  predicate ImagesLoad(db: Database, rows: seq<Row>)
    reads db
  {
    forall j :: 0 <= j < |rows| ==> LoadsOne(db, "Image", "id", IdOf(rows[j]))
  }

  /** Every record of `recs` answers with the matching entry of `ps`. */
  predicate PreparedAs(recs: seq<Record>, db: Database, ps: seq<Result<map<string, Variant>>>)
    reads recs, db
  {
    |recs| == |ps| && forall j :: 0 <= j < |recs| ==> recs[j].kind == Image && recs[j].Prepared(db) == ps[j]
  }

  /** One iteration of the loop of `IsRatedBy`: the verdict of image `k`. */
  method RateImage(db: Database, images: seq<Record>, ghost ps: seq<Result<map<string, Variant>>>, k: int,
                   user: Record, ghost up: Result<map<string, Variant>>) returns (v: Result<bool>)
    requires 0 <= k < |images| && PreparedAs(images, db, ps)
    requires user.kind == User && user.Prepared(db) == up
    modifies images[k], user
    ensures PreparedAs(images, db, ps) && user.Prepared(db) == up
    ensures SameOutcome(v, Verdict(db, ps[k], Some(up)))
  {
    v := IsRatedBy(db, images[k], user);
  }

  /** The loop of `IsRatedBy` over the study's images: stops at the first
    * error or the first image the user has not rated. */
  method RateAll(db: Database, images: seq<Record>, ghost ps: seq<Result<map<string, Variant>>>,
                 user: Record, ghost up: Result<map<string, Variant>>) returns (r: Result<bool>)
    requires PreparedAs(images, db, ps)
    requires user.kind == User && user.Prepared(db) == up
    modifies images, user
    ensures SameOutcome(r, AllRated(ImageVerdicts(db, ps, up)))
  {
    ghost var vs := ImageVerdicts(db, ps, up);
    var k := 0;
    while k < |images|
      invariant 0 <= k <= |images|
      invariant PreparedAs(images, db, ps) && user.Prepared(db) == up
      invariant AllRated(vs[k..]) == AllRated(vs)
    {
      var rated := RateImage(db, images, ps, k, user, up);
      if rated.Err? {
        return Err(rated.msg);
      }
      if !rated.value {
        return Ok(false);
      }
      assert vs[k..][1..] == vs[k + 1..];
      k := k + 1;
    }
    r := Ok(true);
  }

  /** The images `GetList` loads answer as `ImagesPrepared` says. */
  lemma ListedPrepared(images: seq<Record>, db: Database, rows: seq<Row>)
    requires |images| == |rows| && AllLoaded(images, db, Image, rows)
    ensures PreparedAs(images, db, ImagesPrepared(db, rows))
  {
    AllLoadedEach(images, db, Image, rows);
    forall j | 0 <= j < |images|
      ensures images[j].Prepared(db) == LoadedPrepared(db, "Image", "id", IdOf(rows[j]))
    {
      PreparedAfterLoad(images[j], db, "id", IdOf(rows[j]));
    }
  }

  /** The `GetList<Image>` of `IsRatedBy`, on a study with a primary id:
    * it succeeds when every image row loads, and each image then answers
    * as `ImagesPrepared` says. */
  method ListImages(db: Database, study: Record, ghost sp: Result<map<string, Variant>>)
      returns (images: seq<Record>, r: Result<()>)
    requires study.kind == Study && HasPrimaryId(sp) && study.Settled(sp)
    modifies study
    ensures study.Settled(sp)
    ensures var rows := ImageRows(db, sp.value["id"].ToString());
      && (r.Ok? <==> ImagesLoad(db, rows))
      && (r.Ok? ==> PreparedAs(images, db, ImagesPrepared(db, rows)))
    ensures forall j :: 0 <= j < |images| ==> fresh(images[j])
  {
    ghost var rows := ImageRows(db, sp.value["id"].ToString());
    assert study.Prepared(db) == sp;
    assert Image.Name() == "Image" && study.kind.Name() == "Study";
    images, r := study.GetList(db, Image, []);
    assert rows == db.Answer(Render(SelectRelatedIds(Image.Name(), study.kind.Name(), sp.value["id"].ToString()), db.escape));
    assert images[0..] == images;
    AllLoadedEach(images, db, Image, rows);
    if r.Ok? {
      assert |images| == |rows|;
      forall j | 0 <= j < |rows|
        ensures LoadsOne(db, "Image", "id", IdOf(rows[j]))
      {
        assert LoadedRecord(images[j], db, Image, IdOf(rows[j]));
      }
      ListedPrepared(images, db, rows);
    } else {
      var j := |images|;
      assert 0 <= j < |rows| && !LoadsOne(db, "Image", "id", IdOf(rows[j]));
    }
  }

  /** `Study::IsRatedBy`: whether `user` has rated every image of the
    * study. */
  method StudyIsRatedBy(db: Database, study: Record, user: Record?) returns (r: Result<bool>)
    requires study.kind == Study && (user != null ==> user.kind == User)
    modifies study, user
    ensures SameOutcome(r, StudyVerdict(db, old(study.Prepared(db)), if user == null then None else Some(old(user.Prepared(db)))))
  {
    ghost var sp := study.Prepared(db);
    var check := study.AssertPrimaryId(db);
    if check.Err? {
      return Err(check.msg);
    }
    if user == null {
      return Err(NullUser);
    }
    ghost var up := user.Prepared(db);
    ghost var rows := ImageRows(db, sp.value["id"].ToString());
    var images, listed := ListImages(db, study, sp);
    if listed.Err? {
      return Err(listed.msg);
    }
    r := RateAll(db, images, ImagesPrepared(db, rows), user, up);
  }
}
