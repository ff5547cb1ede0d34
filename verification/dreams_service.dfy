/**
 * The dreams service over an in-memory `dreams` table. The blob store, the
 * clock read when an upload path is built, the key and time the store gives
 * a new row, and any error the store raises are all parameters (`Env`).
 */
module DreamsService {
  import opened Wrappers
  import opened Text
  import opened Records
  import opened Tables
  import Seqs

  const PhotoBucket: string := "dream-photos"
  const VideoBucket: string := "dream-videos"

  /** The blob store's answer to one upload: the object's public URL, or the error it raised. */
  datatype UploadOutcome = Stored(publicUrl: string) | Rejected(error: Exception)

  /** What one service call sees of the world besides the table. */
  datatype Env = Env(
    upload: (string, string) -> UploadOutcome,  // (bucket, path) to outcome
    photoClock: nat,                            // Date.now() when the photo path is built
    videoClock: nat,                            // Date.now() when the video path is built
    stamp: RowStamp,                            // key and time the store gives an inserted row
    fault: Option<Exception>)                   // error the store raises on the table statement

  /** The storage path of an upload: the clock in milliseconds, a dash, the file's name. */
  function UploadPath(clock: nat, file: File): string {
    Decimal(clock) + "-" + file.name
  }

  /** Uploads at different clock readings, or of differently named files, go to different paths. */
  lemma UploadPathInjective(c1: nat, f1: File, c2: nat, f2: File)
    ensures UploadPath(c1, f1) == UploadPath(c2, f2) <==> c1 == c2 && f1 == f2
  {
    if UploadPath(c1, f1) == UploadPath(c2, f2) {
      var d1, d2 := Decimal(c1), Decimal(c2);
      var p := UploadPath(c1, f1);
      assert p == d1 + ("-" + f1.name) && p == d2 + ("-" + f2.name);
      assert forall k :: 0 <= k < |d1| ==> p[k] == d1[k] && p[k] != '-';
      assert forall k :: 0 <= k < |d2| ==> p[k] == d2[k] && p[k] != '-';
      assert p[|d1|] == '-' && p[|d2|] == '-';
      assert |d1| == |d2|;
      assert d1 == p[..|d1|] == d2;
      assert f1.name == p[|d1| + 1..] == f2.name;
    }
  }

  /** The blob store's answer for `file` in `bucket`, given the clock at upload time. */
  function UploadOf(env: Env, bucket: string, clock: nat, file: File): UploadOutcome {
    env.upload(bucket, UploadPath(clock, file))
  }

  /** Uploads the file when one is given: no URL, its public URL, or the upload's error. */
  function UploadIfGiven(env: Env, bucket: string, clock: nat, file: Option<File>): Result<Option<string>, Exception> {
    match file
    case None => Success(None)
    case Some(f) =>
      match UploadOf(env, bucket, clock, f)
      case Stored(url) => Success(Some(url))
      case Rejected(e) => Failure(e)
  }

  /** The upload of `file` into `bucket` succeeded, or there was nothing to upload. */
  predicate UploadOk(env: Env, bucket: string, clock: nat, file: Option<File>) {
    file.None? || UploadOf(env, bucket, clock, file.value).Stored?
  }

  /**
   * The most recently created row, as `order('created_at', desc).limit(1)`
   * returns it; among rows with equal timestamps the first in table order.
   */
  function Latest(rows: seq<Dream>): (r: Option<Dream>)
    ensures r.None? <==> |rows| == 0
    ensures r.Some? ==> r.value in rows
    ensures r.Some? ==> forall i :: 0 <= i < |rows| ==> NotAfter(rows[i].createdAt, r.value.createdAt)
  {
    if |rows| == 0 then None
    else
      var rest := Latest(rows[1..]);
      if rest.Some? && !NotAfter(rest.value.createdAt, rows[0].createdAt) then
        NotAfterTotal(rest.value.createdAt, rows[0].createdAt);
        assert forall i :: 1 <= i < |rows| ==> rows[i] == rows[1..][i - 1];
        rest
      else
        assert forall i :: 1 <= i < |rows| ==> NotAfter(rows[i].createdAt, rows[0].createdAt) by {
          forall i | 1 <= i < |rows|
            ensures NotAfter(rows[i].createdAt, rows[0].createdAt)
          {
            assert rows[i] == rows[1..][i - 1];
            NotAfterTransitive(rows[i].createdAt, rest.value.createdAt, rows[0].createdAt);
          }
        }
        Some(rows[0])
  }

  /** `getUserDream`: the latest dream, none when the table is empty, or the store's error. */
  function GetUserDream(table: seq<Dream>, fault: Option<Exception>): (r: Result<Option<Dream>, Exception>)
    ensures fault.Some? ==> r == Failure(fault.value)
    ensures fault.None? ==> r.Success? && (r.value.None? <==> |table| == 0)
    ensures r.Success? && r.value.Some? ==>
      r.value.value in table
      && forall i :: 0 <= i < |table| ==> NotAfter(table[i].createdAt, r.value.value.createdAt)
  {
    if fault.Some? then Failure(fault.value) else Success(Latest(table))
  }

  /** The row `createDream` inserts, with every column the insert leaves out at its null default. */
  function NewDream(stamp: RowStamp, title: string, photoUrl: Option<string>, videoUrl: Option<string>): Dream {
    Dream(stamp.id, None, title, photoUrl, videoUrl, None, None, None, stamp.at, stamp.at)
  }

  /**
   * `createDream`: uploads the photo, then the video, then inserts one row.
   * A failed upload or insert throws and leaves the table as it was.
   */
  function CreateDream(table: seq<Dream>, title: string, photo: Option<File>, video: Option<File>, env: Env): (r: Response<Dream, Dream>)
    requires !HasKey(table, DreamKey, env.stamp.id)
    ensures r.result.Failure? ==> r.table == table
    ensures r.result.Success? <==>
      UploadOk(env, PhotoBucket, env.photoClock, photo)
      && UploadOk(env, VideoBucket, env.videoClock, video)
      && env.fault.None?
    ensures photo.Some? && UploadOf(env, PhotoBucket, env.photoClock, photo.value).Rejected? ==>
      r.result == Failure(UploadOf(env, PhotoBucket, env.photoClock, photo.value).error)
    ensures (UploadOk(env, PhotoBucket, env.photoClock, photo) && video.Some?
             && UploadOf(env, VideoBucket, env.videoClock, video.value).Rejected?) ==>
      r.result == Failure(UploadOf(env, VideoBucket, env.videoClock, video.value).error)
    ensures (UploadOk(env, PhotoBucket, env.photoClock, photo) && UploadOk(env, VideoBucket, env.videoClock, video)
             && env.fault.Some?) ==>
      r.result == Failure(env.fault.value)
    ensures r.result.Success? ==>
      var d := r.result.value;
      && r.table == table + [d]
      && d.id == env.stamp.id && d.createdAt == env.stamp.at
      && d.title == title && d.userId.None?
      && d.videoStatus.None? && d.videoPrompt.None? && d.errorMessage.None?
      && (d.photoUrl.Some? <==> photo.Some?)
      && (d.videoUrl.Some? <==> video.Some?)
      && (photo.Some? ==> d.photoUrl.value == UploadOf(env, PhotoBucket, env.photoClock, photo.value).publicUrl)
      && (video.Some? ==> d.videoUrl.value == UploadOf(env, VideoBucket, env.videoClock, video.value).publicUrl)
  {
    match UploadIfGiven(env, PhotoBucket, env.photoClock, photo)
    case Failure(e) => Response(table, Failure(e))
    case Success(photoUrl) =>
      match UploadIfGiven(env, VideoBucket, env.videoClock, video)
      case Failure(e) => Response(table, Failure(e))
      case Success(videoUrl) =>
        if env.fault.Some? then Response(table, Failure(env.fault.value))
        else
          var d := NewDream(env.stamp, title, photoUrl, videoUrl);
          Response(table + [d], Success(d))
  }

  /** A successful insert keeps every key distinct. */
  lemma CreateKeepsKeysUnique(table: seq<Dream>, title: string, photo: Option<File>, video: Option<File>, env: Env)
    requires UniqueKeys(table, DreamKey)
    requires !HasKey(table, DreamKey, env.stamp.id)
    ensures UniqueKeys(CreateDream(table, title, photo, video, env).table, DreamKey)
  {
    var r := CreateDream(table, title, photo, video, env);
    if r.result.Success? {
      forall i, j | 0 <= i < j < |r.table|
        ensures r.table[i].id != r.table[j].id
      {
        if j == |table| {
          assert r.table[i] == table[i];
        }
      }
    }
  }

  /** The columns `updateDream` writes: always the title, a media URL only when a truthy one was obtained. */
  function Merge(row: Dream, title: string, photoUrl: Option<string>, videoUrl: Option<string>): Dream {
    row.(title := title,
         photoUrl := if Truthy(photoUrl) then photoUrl else row.photoUrl,
         videoUrl := if Truthy(videoUrl) then videoUrl else row.videoUrl)
  }

  /**
   * `updateDream`: uploads the new photo, then the new video, then writes
   * the title and any new media URL to the row with key `id`. A failed
   * upload, a store error or an unknown id throws and leaves the table as
   * it was.
   */
  function UpdateDream(table: seq<Dream>, id: string, title: string, photo: Option<File>, video: Option<File>, env: Env): (r: Response<Dream, Dream>)
    requires UniqueKeys(table, DreamKey)
    ensures r.result.Failure? ==> r.table == table
    ensures r.result.Success? <==>
      UploadOk(env, PhotoBucket, env.photoClock, photo)
      && UploadOk(env, VideoBucket, env.videoClock, video)
      && env.fault.None? && HasKey(table, DreamKey, id)
    ensures photo.Some? && UploadOf(env, PhotoBucket, env.photoClock, photo.value).Rejected? ==>
      r.result == Failure(UploadOf(env, PhotoBucket, env.photoClock, photo.value).error)
    ensures (UploadOk(env, PhotoBucket, env.photoClock, photo) && video.Some?
             && UploadOf(env, VideoBucket, env.videoClock, video.value).Rejected?) ==>
      r.result == Failure(UploadOf(env, VideoBucket, env.videoClock, video.value).error)
    ensures (UploadOk(env, PhotoBucket, env.photoClock, photo) && UploadOk(env, VideoBucket, env.videoClock, video)
             && env.fault.Some?) ==>
      r.result == Failure(env.fault.value)
    ensures (UploadOk(env, PhotoBucket, env.photoClock, photo) && UploadOk(env, VideoBucket, env.videoClock, video)
             && env.fault.None? && !HasKey(table, DreamKey, id)) ==>
      r.result == Failure(NoSingleRow)
    ensures |r.table| == |table|
    ensures forall i :: 0 <= i < |table| ==> r.table[i].id == table[i].id
    ensures UniqueKeys(r.table, DreamKey)
    ensures forall i :: 0 <= i < |table| && table[i].id != id ==> r.table[i] == table[i]
    ensures r.result.Success? ==> forall i :: 0 <= i < |table| && table[i].id == id ==>
      && r.result.value == r.table[i]
      && r.table[i].title == title
      && r.table[i].(title := table[i].title, photoUrl := table[i].photoUrl, videoUrl := table[i].videoUrl) == table[i]
      && (photo.None? ==> r.table[i].photoUrl == table[i].photoUrl)
      && (video.None? ==> r.table[i].videoUrl == table[i].videoUrl)
      && (photo.Some? ==>
            var u := UploadOf(env, PhotoBucket, env.photoClock, photo.value).publicUrl;
            r.table[i].photoUrl == if u == "" then table[i].photoUrl else Some(u))
      && (video.Some? ==>
            var u := UploadOf(env, VideoBucket, env.videoClock, video.value).publicUrl;
            r.table[i].videoUrl == if u == "" then table[i].videoUrl else Some(u))
  {
    match UploadIfGiven(env, PhotoBucket, env.photoClock, photo)
    case Failure(e) => Response(table, Failure(e))
    case Success(photoUrl) =>
      match UploadIfGiven(env, VideoBucket, env.videoClock, video)
      case Failure(e) => Response(table, Failure(e))
      case Success(videoUrl) =>
        if env.fault.Some? then Response(table, Failure(env.fault.value))
        else
          match IndexOfKey(table, DreamKey, id)
          case None => Response(table, Failure(NoSingleRow))
          case Some(j) =>
            var rows := UpdateWhere(table, DreamKey, id, (d: Dream) => Merge(d, title, photoUrl, videoUrl));
            OnlyRowWithKey(table, DreamKey, j);
            Response(rows, Success(rows[j]))
  }

  /**
   * `deleteDream`: removes the row with key `id` and keeps the rest in
   * order; an unknown id is not an error.
   */
  function DeleteDream(table: seq<Dream>, id: string, fault: Option<Exception>): (r: Response<Dream, ()>)
    requires UniqueKeys(table, DreamKey)
    ensures fault.Some? ==> r == Response(table, Failure(fault.value))
    ensures fault.None? ==> r.result.Success?
    ensures fault.None? ==> forall d :: d in r.table <==> d in table && d.id != id
    ensures fault.None? ==> Seqs.IsSubsequence(r.table, table)
    ensures fault.None? && !HasKey(table, DreamKey, id) ==> r.table == table
    ensures fault.None? ==> forall i :: 0 <= i < |table| && table[i].id == id ==> r.table == table[..i] + table[i + 1..]
    ensures fault.None? ==> UniqueKeys(r.table, DreamKey)
  {
    if fault.Some? then Response(table, Failure(fault.value))
    else
      var keep := KeyOtherThan(DreamKey, id);
      Seqs.FilterIsSubsequence(keep, table);
      match IndexOfKey(table, DreamKey, id)
      case None =>
        Seqs.FilterAll(keep, table);
        Response(Seqs.Filter(keep, table), Success(()))
      case Some(j) =>
        OnlyRowWithKey(table, DreamKey, j);
        RemoveKeepsKeysUnique(table, DreamKey, j);
        Seqs.FilterDropsOne(keep, table, j);
        Response(Seqs.Filter(keep, table), Success(()))
  }

  /** Deleting a dream just created restores the table it was created in. */
  lemma DeleteUndoesCreate(table: seq<Dream>, title: string, photo: Option<File>, video: Option<File>, env: Env)
    requires UniqueKeys(table, DreamKey)
    requires !HasKey(table, DreamKey, env.stamp.id)
    requires CreateDream(table, title, photo, video, env).result.Success?
    ensures UniqueKeys(CreateDream(table, title, photo, video, env).table, DreamKey)
    ensures DeleteDream(CreateDream(table, title, photo, video, env).table, env.stamp.id, None).table == table
  {
    CreateKeepsKeysUnique(table, title, photo, video, env);
    var keep := KeyOtherThan(DreamKey, env.stamp.id);
    var d := CreateDream(table, title, photo, video, env).result.value;
    Seqs.FilterSnoc(keep, table, d);
    Seqs.FilterAll(keep, table);
  }

  /** A dream created after every existing one becomes the current dream. */
  lemma CreatedDreamIsCurrent(table: seq<Dream>, title: string, photo: Option<File>, video: Option<File>, env: Env)
    requires !HasKey(table, DreamKey, env.stamp.id)
    requires CreateDream(table, title, photo, video, env).result.Success?
    requires forall i :: 0 <= i < |table| ==> Below(table[i].createdAt, env.stamp.at)
    ensures GetUserDream(CreateDream(table, title, photo, video, env).table, None)
      == Success(Some(CreateDream(table, title, photo, video, env).result.value))
  {
    var r := CreateDream(table, title, photo, video, env);
    var d := r.result.value;
    var latest := Latest(r.table).value;
    assert r.table[|table|] == d;
    assert NotAfter(env.stamp.at, latest.createdAt);
    forall i | 0 <= i < |table|
      ensures r.table[i] != latest
    {
      assert r.table[i] == table[i];
      BelowAsymmetric(table[i].createdAt, env.stamp.at);
      if env.stamp.at != latest.createdAt {
        BelowTransitive(table[i].createdAt, env.stamp.at, latest.createdAt);
        BelowAsymmetric(table[i].createdAt, latest.createdAt);
      }
    }
  }

  /** Repeating an update that uploads nothing changes nothing more. */
  lemma UpdateWithoutFilesIdempotent(table: seq<Dream>, id: string, title: string, env: Env)
    requires UniqueKeys(table, DreamKey)
    requires UpdateDream(table, id, title, None, None, env).result.Success?
    ensures UpdateDream(UpdateDream(table, id, title, None, None, env).table, id, title, None, None, env).table
      == UpdateDream(table, id, title, None, None, env).table
  {
    var once := UpdateDream(table, id, title, None, None, env);
    var twice := UpdateDream(once.table, id, title, None, None, env);
    forall i | 0 <= i < |table|
      ensures twice.table[i] == once.table[i]
    {
    }
  }
}
