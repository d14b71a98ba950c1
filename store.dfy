/** The `database` package's writes (pkg/database/files.go): the upload
    gate and the transaction of `SaveImg` that creates an image row and its
    `scale_img` task together, and `SaveProcedImgs`, which records the
    derived images of one source. The tables and the image directory are
    fields of `Database`; the file system, the image codecs and the SQL
    driver appear only as the outcomes they report, passed in. */
module Store {
  import opened Wrappers
  import opened Ints
  import opened Schema
  import Pid
  import Enums
  import Text
  import Queue

  // ---------------------------------------------------------------- gate

  const AllowedMIME: seq<string> := ["image/png", "image/jpeg", "image/webp"]

  /** `MAX_IMG_SIZE`: five mebibytes. */
  const MaxImgSize: int := 1024 * 1024 * 5

  /** The fields of the multipart file header that `SaveImg` reads. */
  datatype Upload = Upload(contentType: string, size: int, filename: string)

  /** The content-type check, then the size check. */
  function CheckUpload(f: Upload): (r: Outcome)
    ensures r.Pass? <==> f.contentType in AllowedMIME && f.size <= MaxImgSize
    ensures f.contentType !in AllowedMIME ==> r == Fail(f.contentType + " is not an allowed img format")
    ensures f.contentType in AllowedMIME && f.size > MaxImgSize ==> r == Fail("img is to large: " + Text.Decimal(f.size))
  {
    if f.contentType !in AllowedMIME then Fail(f.contentType + " is not an allowed img format")
    else if f.size > MaxImgSize then Fail("img is to large: " + Text.Decimal(f.size))
    else Pass
  }

  /** The boundary: exactly five mebibytes is accepted, one byte more is
      not. */
  lemma UploadSizeBoundary(contentType: string, filename: string)
    requires contentType in AllowedMIME
    ensures CheckUpload(Upload(contentType, MaxImgSize, filename)) == Pass
    ensures CheckUpload(Upload(contentType, MaxImgSize + 1, filename)).Fail?
  {
  }

  // -------------------------------------------------------------- payload

  /** `json.Marshal(TaskScaleImg{ImageId: id})`, with the ID in its JSON
      string form. */
  function ScalePayload(id: Pid.ID): (p: string)
    ensures |p| == |PayloadPrefix| + Pid.Width + 3
    ensures p[..|PayloadPrefix|] == PayloadPrefix && p[|p| - 1] == '}'
  {
    "{\"ImageId\":" + Pid.MarshalJSON(id) + "}"
  }

  const PayloadPrefix: string := "{\"ImageId\":"

  /** `json.Unmarshal` of a payload of that one shape into `TaskScaleImg`. */
  function ParseScalePayload(p: string): (r: Result<Pid.ID>)
    ensures r.Ok? ==> |PayloadPrefix| < |p| && p[..|PayloadPrefix|] == PayloadPrefix && p[|p| - 1] == '}'
  {
    if |p| < |PayloadPrefix| + 1 || p[..|PayloadPrefix|] != PayloadPrefix || p[|p| - 1] != '}' then
      Err("invalid character in TaskScaleImg payload")
    else
      var u := Pid.UnmarshalJSON(0, p[|PayloadPrefix|..|p| - 1]);
      if u.1.Fail? then Err(u.1.msg) else Ok(u.0)
  }

  /** The worker reads back the image ID that `SaveImg` wrote. */
  lemma PayloadRoundTrip(id: Pid.ID)
    requires 0 <= id
    ensures ParseScalePayload(ScalePayload(id)) == Ok(id)
  {
    var p := ScalePayload(id);
    assert p[..|PayloadPrefix|] == PayloadPrefix;
    assert p[|PayloadPrefix|..|p| - 1] == Pid.MarshalJSON(id);
    Pid.JSONRoundTrip(0, id);
  }

  // --------------------------------------------------------------- tables

  /** The contents of the database and of the image directory. */
  datatype Tables = Tables(
    images: seq<Image>,
    tasks: seq<Task>,
    processed: seq<ProcessedImage>,
    artists: seq<Artist>,
    imgDir: set<string>)

  /** What one operation returns and leaves behind, allocator included. */
  datatype Effect<T> = Effect(result: Result<T>, tables: Tables, window: Pid.Window)

  predicate UniqueImageIds(images: seq<Image>)
  {
    forall i, j :: 0 <= i < |images| && 0 <= j < |images| && images[i].id == images[j].id ==> i == j
  }

  predicate UniqueProcessedIds(rows: seq<ProcessedImage>)
  {
    forall i, j :: 0 <= i < |rows| && 0 <= j < |rows| && rows[i].id == rows[j].id ==> i == j
  }

  /** `Unique()` on every table's id column. */
  predicate TablesValid(t: Tables)
  {
    UniqueImageIds(t.images) && Queue.UniqueIds(t.tasks) && UniqueProcessedIds(t.processed)
  }

  const UniqueFailure: string := "UNIQUE constraint failed"

  /** `Image.Create()...Save` inside the transaction: the hook, the field
      validators, the unique id, then whatever the driver reports. */
  function CreateImage(images: seq<Image>, img: Image, driver: Outcome): (r: Outcome)
    ensures r.Pass? ==> ImageFieldsValid(img) && forall i :: 0 <= i < |images| ==> images[i].id != img.id
  {
    var hook := ImageHook(OpCreate, img.release.Some?, img.artist.Some?);
    if hook.Fail? then hook
    else if ValidateImage(img).Fail? then ValidateImage(img)
    else if exists i :: 0 <= i < |images| && images[i].id == img.id then Fail(UniqueFailure + ": images.id")
    else driver
  }

  /** `Task.Create()...Save`: the type validator, the unique id, then the
      driver. */
  function CreateTask(tasks: seq<Task>, t: Task, driver: Outcome): (r: Outcome)
    ensures r.Pass? ==> ValidTaskType(t.typ) && forall i :: 0 <= i < |tasks| ==> tasks[i].id != t.id
  {
    if ValidateTask(t).Fail? then ValidateTask(t)
    else if exists i :: 0 <= i < |tasks| && tasks[i].id == t.id then Fail(UniqueFailure + ": tasks.id")
    else driver
  }

  // -------------------------------------------------------------- SaveImg

  /** What `image.Decode` and `Stat` tell about the uploaded bytes. */
  datatype Decoded = Decoded(format: string, width: int, height: int, fileSize: int)

  /** The outcomes of the steps of `SaveImg` that the model does not
      compute: temp-file handling, decoding, `Stat`/`Close`, the
      transaction calls, the driver's part of both inserts, and the
      rename into the image directory. */
  datatype SaveImgEnv = SaveImgEnv(
    temp: Outcome,
    decoded: Result<Decoded>,
    stat: Outcome,
    begin: Outcome,
    imageDriver: Outcome,
    rename: Outcome,
    taskDriver: Outcome,
    commit: Outcome)

  /** The image row `SaveImg` inserts: the file is named by the ID's
      Base32 form, and no release or artist is linked yet. */
  function ImageRow(id: Pid.ID, f: Upload, d: Decoded, typ: ImageType, uploader: Pid.ID, now: int): (img: Image)
    ensures img.id == id && img.file == Pid.Encode(id) && img.originalName == f.filename
    ensures img.width == d.width && img.height == d.height && img.typ == typ
    ensures img.release == None && img.artist == None
  {
    Image(id, Pid.Encode(id), f.filename, typ, d.width, d.height, UInt32Of(d.fileSize),
      uploader, None, None, now, now)
  }

  /** `SaveImg` as a function of the state before it: the result, the
      tables and the allocator window after it. */
  function SaveImgSpec(t: Tables, w: Pid.Window, f: Upload, uploader: Pid.ID,
                       imgClock: int, imgDraws: seq<nat>, taskClock: int, taskDraws: seq<nat>,
                       now: int, env: SaveImgEnv): (e: Effect<Image>)
    requires |imgDraws| == Pid.MaxAttempts && |taskDraws| == Pid.MaxAttempts
    ensures e.tables.processed == t.processed && e.tables.artists == t.artists
    ensures e.result.Err? ==> e.tables.images == t.images && e.tables.tasks == t.tasks
  {
    if CheckUpload(f).Fail? then Effect(Err(CheckUpload(f).msg), t, w)
    else if env.temp.Fail? then Effect(Err(env.temp.msg), t, w)
    else if env.decoded.Err? then Effect(Err("failed to decode img: " + env.decoded.msg), t, w)
    else if Enums.ParseImageType(env.decoded.value.format).Err? then
      Effect(Err(Enums.ParseImageType(env.decoded.value.format).msg), t, w)
    else if env.stat.Fail? then Effect(Err(env.stat.msg), t, w)
    else
      var a := Pid.Allocate(w, imgClock, imgDraws);
      var img := ImageRow(a.id, f, env.decoded.value, Enums.ParseImageType(env.decoded.value.format).value, uploader, now);
      if env.begin.Fail? then Effect(Err(env.begin.msg), t, a.window)
      else if CreateImage(t.images, img, env.imageDriver).Fail? then
        Effect(Err(CreateImage(t.images, img, env.imageDriver).msg), t, a.window)
      else if env.rename.Fail? then Effect(Err(env.rename.msg), t, a.window)
      else
        var moved := t.(imgDir := t.imgDir + {img.file});
        var b := Pid.Allocate(a.window, taskClock, taskDraws);
        var task := NewTask(b.id, TypeScaleImg, ScalePayload(a.id), now);
        if CreateTask(t.tasks, task, env.taskDriver).Fail? then
          Effect(Err(CreateTask(t.tasks, task, env.taskDriver).msg), moved, b.window)
        else if env.commit.Fail? then Effect(Err(env.commit.msg), moved, b.window)
        else Effect(Ok(img), moved.(images := t.images + [img], tasks := t.tasks + [task]), b.window)
  }

  /** An upload the gate rejects has no effect at all: no table, file or
      allocator state changes. */
  lemma SaveImgGateFirst(t: Tables, w: Pid.Window, f: Upload, uploader: Pid.ID,
                         imgClock: int, imgDraws: seq<nat>, taskClock: int, taskDraws: seq<nat>,
                         now: int, env: SaveImgEnv)
    requires |imgDraws| == Pid.MaxAttempts && |taskDraws| == Pid.MaxAttempts
    requires CheckUpload(f).Fail?
    ensures SaveImgSpec(t, w, f, uploader, imgClock, imgDraws, taskClock, taskDraws, now, env)
      == Effect(Err(CheckUpload(f).msg), t, w)
  {
  }

  /** A failed save leaves every table as it was (only the image directory
      may have changed), and no save touches the processed images or the
      artists. */
  lemma SaveImgFrame(t: Tables, w: Pid.Window, f: Upload, uploader: Pid.ID,
                     imgClock: int, imgDraws: seq<nat>, taskClock: int, taskDraws: seq<nat>,
                     now: int, env: SaveImgEnv)
    requires |imgDraws| == Pid.MaxAttempts && |taskDraws| == Pid.MaxAttempts
    ensures var e := SaveImgSpec(t, w, f, uploader, imgClock, imgDraws, taskClock, taskDraws, now, env);
      e.tables.processed == t.processed && e.tables.artists == t.artists
      && (e.result.Err? ==> e.tables.images == t.images && e.tables.tasks == t.tasks)
  {
  }

  /** The image row and its task are committed together. On success the
      image is appended with `File` equal to the Base32 form of its ID, and
      a pending `scale_img` task is appended whose payload names that ID;
      the image directory holds the file. */
  lemma SaveImgAtomic(t: Tables, w: Pid.Window, f: Upload, uploader: Pid.ID,
                      imgClock: int, imgDraws: seq<nat>, taskClock: int, taskDraws: seq<nat>,
                      now: int, env: SaveImgEnv)
    requires |imgDraws| == Pid.MaxAttempts && |taskDraws| == Pid.MaxAttempts
    ensures var e := SaveImgSpec(t, w, f, uploader, imgClock, imgDraws, taskClock, taskDraws, now, env);
      e.result.Ok? ==>
        var img := e.result.value;
        e.tables.images == t.images + [img]
        && |e.tables.tasks| == |t.tasks| + 1 && e.tables.tasks[..|t.tasks|] == t.tasks
        && var task := e.tables.tasks[|t.tasks|];
        img.file == Pid.Encode(img.id) && img.file in e.tables.imgDir
        && task.typ == TypeScaleImg && task.status == Pending && task.error == None
        && ParseScalePayload(task.payload) == Ok(img.id)
        && CheckUpload(f).Pass? && ImageFieldsValid(img)
  {
    var e := SaveImgSpec(t, w, f, uploader, imgClock, imgDraws, taskClock, taskDraws, now, env);
    if e.result.Ok? {
      var a := Pid.Allocate(w, imgClock, imgDraws);
      var img := ImageRow(a.id, f, env.decoded.value, Enums.ParseImageType(env.decoded.value.format).value, uploader, now);
      var b := Pid.Allocate(a.window, taskClock, taskDraws);
      var task := NewTask(b.id, TypeScaleImg, ScalePayload(a.id), now);
      assert e.result.value == img && e.tables.tasks == t.tasks + [task];
      Pid.AllocateLayout(w, imgClock, imgDraws);
      PayloadRoundTrip(a.id);
      assert (t.tasks + [task])[..|t.tasks|] == t.tasks;
    }
  }

  /** When the rename has happened and the task insert or the commit then
      fails, the transaction is rolled back but the file stays in the image
      directory, with no image row for it. */
  lemma SaveImgKeepsRenamedFile(t: Tables, w: Pid.Window, f: Upload, uploader: Pid.ID,
                                imgClock: int, imgDraws: seq<nat>, taskClock: int, taskDraws: seq<nat>,
                                now: int, env: SaveImgEnv)
    requires |imgDraws| == Pid.MaxAttempts && |taskDraws| == Pid.MaxAttempts
    requires CheckUpload(f).Pass? && env.temp.Pass? && env.decoded.Ok? && env.stat.Pass?
    requires Enums.ParseImageType(env.decoded.value.format).Ok?
    requires env.begin.Pass? && env.rename.Pass?
    requires var a := Pid.Allocate(w, imgClock, imgDraws);
      CreateImage(t.images, ImageRow(a.id, f, env.decoded.value, Enums.ParseImageType(env.decoded.value.format).value, uploader, now), env.imageDriver).Pass?
    requires env.taskDriver.Fail? || env.commit.Fail?
    ensures var e := SaveImgSpec(t, w, f, uploader, imgClock, imgDraws, taskClock, taskDraws, now, env);
      e.result.Err? && e.tables.images == t.images && e.tables.tasks == t.tasks
      && e.tables.imgDir == t.imgDir + {Pid.Encode(Pid.Allocate(w, imgClock, imgDraws).id)}
  {
  }

  /** `SaveImg` keeps every id column unique. */
  lemma SaveImgKeepsTablesValid(t: Tables, w: Pid.Window, f: Upload, uploader: Pid.ID,
                                imgClock: int, imgDraws: seq<nat>, taskClock: int, taskDraws: seq<nat>,
                                now: int, env: SaveImgEnv)
    requires |imgDraws| == Pid.MaxAttempts && |taskDraws| == Pid.MaxAttempts
    requires TablesValid(t)
    ensures TablesValid(SaveImgSpec(t, w, f, uploader, imgClock, imgDraws, taskClock, taskDraws, now, env).tables)
  {
    var e := SaveImgSpec(t, w, f, uploader, imgClock, imgDraws, taskClock, taskDraws, now, env);
    if e.result.Ok? {
      var img := e.result.value;
      var task := e.tables.tasks[|t.tasks|];
      assert e.tables.tasks == t.tasks + [task];
      assert e.tables.images == t.images + [img];
      assert forall i :: 0 <= i < |t.images| ==> t.images[i].id != img.id;
      assert forall i :: 0 <= i < |t.tasks| ==> t.tasks[i].id != task.id;
    }
  }

  // ------------------------------------------------------- SaveProcedImgs

  /** A decoded picture; only its bounds matter here. */
  datatype Bitmap = Bitmap(width: nat, height: nat)

  predicate AllPass(outcomes: seq<Outcome>)
  {
    forall i :: 0 <= i < |outcomes| ==> outcomes[i].Pass?
  }

  /** The outcomes of the steps of `SaveProcedImgs` that the model does not
      compute, one entry per image where the step is per image. */
  datatype ProcEnv = ProcEnv(
    encode: seq<Outcome>,
    begin: Outcome,
    stat: seq<Outcome>,
    fileSizes: seq<int>,
    close: seq<Outcome>,
    thumbs: seq<Bytes>,
    bulkDriver: Outcome,
    rename: seq<Outcome>,
    commit: Outcome)

  predicate ProcEnvFits(env: ProcEnv, n: nat)
  {
    |env.encode| == n && |env.stat| == n && |env.fileSizes| == n && |env.close| == n
    && |env.thumbs| == n && |env.rename| == n
  }

  /** The builder for the `i`-th image as `SaveProcedImgs` writes it: a
      WEBP row whose side is the image's width, linked to `source`, and no
      `SetThumb` call. */
  function ProcRowAsWritten(id: Pid.ID, img: Bitmap, fileSize: int, source: Pid.ID): (p: ProcessedImage)
    ensures p.id == id && p.typ == WEBP && p.dimentions == img.width && p.source == source
    ensures p.thumb == None
  {
    ProcessedImage(id, WEBP, img.width, UInt32Of(fileSize), None, source)
  }

  function ProcRowsAsWritten(ids: seq<Pid.ID>, imgs: seq<Bitmap>, sizes: seq<int>, source: Pid.ID): (rows: seq<ProcessedImage>)
    requires |ids| == |imgs| == |sizes|
    ensures |rows| == |imgs|
    ensures forall i :: 0 <= i < |imgs| ==> rows[i] == ProcRowAsWritten(ids[i], imgs[i], sizes[i], source)
  {
    seq(|imgs|, i requires 0 <= i < |imgs| => ProcRowAsWritten(ids[i], imgs[i], sizes[i], source))
  }

  /** The same builder with the thumbnail set. */
  function ProcRow(id: Pid.ID, img: Bitmap, fileSize: int, thumb: Bytes, source: Pid.ID): (p: ProcessedImage)
    ensures p.id == id && p.typ == WEBP && p.dimentions == img.width && p.source == source
    ensures p.thumb == Some(thumb)
    ensures p == ProcRowAsWritten(id, img, fileSize, source).(thumb := Some(thumb))
  {
    ProcessedImage(id, WEBP, img.width, UInt32Of(fileSize), Some(thumb), source)
  }

  function ProcRows(ids: seq<Pid.ID>, imgs: seq<Bitmap>, sizes: seq<int>, thumbs: seq<Bytes>, source: Pid.ID): (rows: seq<ProcessedImage>)
    requires |ids| == |imgs| == |sizes| == |thumbs|
    ensures |rows| == |imgs|
    ensures forall i :: 0 <= i < |imgs| ==> rows[i] == ProcRow(ids[i], imgs[i], sizes[i], thumbs[i], source)
  {
    seq(|imgs|, i requires 0 <= i < |imgs| => ProcRow(ids[i], imgs[i], sizes[i], thumbs[i], source))
  }

  /** The builders' checks in order: the first failure is the error. */
  function CheckRows(rows: seq<ProcessedImage>): (r: Outcome)
    ensures r.Pass? <==> forall i :: 0 <= i < |rows| ==> ProcessedFieldsValid(rows[i])
    ensures r.Fail? ==>
      exists i :: 0 <= i < |rows| && r == ValidateProcessed(rows[i]) && forall j :: 0 <= j < i ==> ProcessedFieldsValid(rows[j])
  {
    if rows == [] then Pass
    else if ValidateProcessed(rows[0]).Fail? then ValidateProcessed(rows[0])
    else
      var r := CheckRows(rows[1..]);
      assert forall i :: 1 <= i < |rows| ==> rows[i] == rows[1..][i - 1];
      if r.Fail? then
        var i :| 0 <= i < |rows[1..]| && r == ValidateProcessed(rows[1..][i])
          && forall j :: 0 <= j < i ==> ProcessedFieldsValid(rows[1..][j]);
        assert r == ValidateProcessed(rows[i + 1]);
        r
      else r
  }

  /** `CreateBulk(...).Save`: with no builders nothing is sent and the
      save succeeds; otherwise every builder is checked in order, ids must
      be new and distinct, then the driver reports. */
  function CreateBulk(existing: seq<ProcessedImage>, rows: seq<ProcessedImage>, driver: Outcome): (r: Outcome)
    ensures r.Pass? ==> forall i :: 0 <= i < |rows| ==> ProcessedFieldsValid(rows[i])
    ensures rows != [] && r.Pass? ==> UniqueProcessedIds(existing + rows)
    ensures r.Pass? && UniqueProcessedIds(existing) ==> UniqueProcessedIds(existing + rows)
    ensures (exists i :: 0 <= i < |rows| && !ProcessedFieldsValid(rows[i])) ==>
      exists i :: 0 <= i < |rows| && r == ValidateProcessed(rows[i]) && r.Fail?
        && forall j :: 0 <= j < i ==> ProcessedFieldsValid(rows[j])
    ensures rows == [] ==> r == Pass
    ensures rows != [] && r.Pass? ==> driver.Pass?
  {
    if rows == [] then assert existing + rows == existing; Pass
    else if CheckRows(rows).Fail? then CheckRows(rows)
    else if !UniqueProcessedIds(existing + rows) then Fail(UniqueFailure + ": processed_images.id")
    else driver
  }

  /** As written, no derived image carries a thumbnail, so a save of one
      or more of them never passes the builders' checks; the first row is
      rejected for the missing field unless its side is already out of
      range. */
  lemma AsWrittenBulkFails(existing: seq<ProcessedImage>, ids: seq<Pid.ID>, imgs: seq<Bitmap>,
                           sizes: seq<int>, source: Pid.ID, driver: Outcome)
    requires |ids| == |imgs| == |sizes| && imgs != []
    ensures var r := CreateBulk(existing, ProcRowsAsWritten(ids, imgs, sizes, source), driver);
      r.Fail?
      && (MinProcessedSide <= imgs[0].width <= MaxProcessedSide ==>
            r == Fail(MissingMessage("ProcessedImage.thumb")))
  {
    var rows := ProcRowsAsWritten(ids, imgs, sizes, source);
    assert !ProcessedFieldsValid(rows[0]);
    var r := CreateBulk(existing, rows, driver);
    var i :| 0 <= i < |rows| && r == ValidateProcessed(rows[i])
      && forall j :: 0 <= j < i ==> ProcessedFieldsValid(rows[j]);
    assert i == 0;
  }

  /** With a non-empty thumbnail on every row, the checks pass exactly
      when every side is in range. */
  lemma ThumbedRowsCheck(ids: seq<Pid.ID>, imgs: seq<Bitmap>, sizes: seq<int>, thumbs: seq<Bytes>, source: Pid.ID)
    requires |ids| == |imgs| == |sizes| == |thumbs|
    requires forall i :: 0 <= i < |thumbs| ==> thumbs[i] != []
    ensures CheckRows(ProcRows(ids, imgs, sizes, thumbs, source)).Pass?
      <==> forall i :: 0 <= i < |imgs| ==> MinProcessedSide <= imgs[i].width <= MaxProcessedSide
  {
    var rows := ProcRows(ids, imgs, sizes, thumbs, source);
    assert forall i :: 0 <= i < |imgs| ==> rows[i].thumb == Some(thumbs[i]) && rows[i].dimentions == imgs[i].width;
  }

  /** The names the committed rows' files get in the image directory. */
  function FileNames(rows: seq<ProcessedImage>): set<string>
  {
    set i | 0 <= i < |rows| :: Pid.Encode(rows[i].id)
  }

  lemma FileNamesSnoc(rows: seq<ProcessedImage>, i: nat)
    requires i < |rows|
    ensures FileNames(rows[..i + 1]) == FileNames(rows[..i]) + {Pid.Encode(rows[i].id)}
  {
    assert forall j :: 0 <= j < i ==> rows[..i + 1][j] == rows[..i][j];
    assert rows[..i + 1][i] == rows[i];
  }

  function Ids(rows: seq<ProcessedImage>): (ids: seq<Pid.ID>)
    ensures |ids| == |rows| && forall i :: 0 <= i < |rows| ==> ids[i] == rows[i].id
  {
    seq(|rows|, i requires 0 <= i < |rows| => rows[i].id)
  }

  // ------------------------------------------------------------ Database

  /** `Database`: the tables behind `Client`, and the image directory. */
  class Database {
    var images: seq<Image>
    var tasks: seq<Task>
    var processed: seq<ProcessedImage>
    var artists: seq<Artist>
    var imgDir: set<string>

    /** `NewDatabase` on a fresh SQLite file: the schema is created empty. */
    constructor ()
      ensures images == [] && tasks == [] && processed == [] && artists == [] && imgDir == {}
    {
      images := [];
      tasks := [];
      processed := [];
      artists := [];
      imgDir := {};
    }

    function Snapshot(): Tables
      reads this
    {
      Tables(images, tasks, processed, artists, imgDir)
    }

    /** `SaveImg`: the gate, the file and decoding steps, the ID, then one
        transaction holding the image row, the rename and the task row. */
    method SaveImg(f: Upload, uploader: Pid.ID, alloc: Pid.Allocator,
                   imgClock: int, imgDraws: seq<nat>, taskClock: int, taskDraws: seq<nat>,
                   now: int, env: SaveImgEnv) returns (r: Result<Image>)
      requires |imgDraws| == Pid.MaxAttempts && |taskDraws| == Pid.MaxAttempts
      modifies this, alloc
      ensures Effect(r, Snapshot(), alloc.State())
        == SaveImgSpec(old(Snapshot()), old(alloc.State()), f, uploader, imgClock, imgDraws, taskClock, taskDraws, now, env)
    {
      var gate := CheckUpload(f);
      if gate.Fail? {
        return Err(gate.msg);
      }
      if env.temp.Fail? {
        return Err(env.temp.msg);
      }
      if env.decoded.Err? {
        return Err("failed to decode img: " + env.decoded.msg);
      }
      var d := env.decoded.value;
      var imgType := Enums.ParseImageType(d.format);
      if imgType.Err? {
        return Err(imgType.msg);
      }
      if env.stat.Fail? {
        return Err(env.stat.msg);
      }
      var id := alloc.New(imgClock, imgDraws);
      var taskData := ScalePayload(id);

      if env.begin.Fail? {
        return Err(env.begin.msg);
      }
      var dbImg := ImageRow(id, f, d, imgType.value, uploader, now);
      var created := CreateImage(images, dbImg, env.imageDriver);
      if created.Fail? {
        return Err(created.msg);
      }
      if env.rename.Fail? {
        return Err(env.rename.msg);
      }
      imgDir := imgDir + {dbImg.file};

      var taskId := alloc.New(taskClock, taskDraws);
      var task := NewTask(taskId, TypeScaleImg, taskData, now);
      var taskCreated := CreateTask(tasks, task, env.taskDriver);
      if taskCreated.Fail? {
        return Err(taskCreated.msg);
      }
      if env.commit.Fail? {
        return Err(env.commit.msg);
      }
      images := images + [dbImg];
      tasks := tasks + [task];
      r := Ok(dbImg);
    }

    /** The rename loop of `SaveProcedImgs`: each temporary file is moved
        to the name of its row's ID, stopping at the first failure. Only
        the image directory changes. */
    method MoveFiles(rows: seq<ProcessedImage>, rename: seq<Outcome>) returns (r: Outcome)
      requires |rename| == |rows|
      modifies this
      ensures images == old(images) && tasks == old(tasks) && processed == old(processed)
      ensures artists == old(artists)
      ensures r.Pass? <==> AllPass(rename)
      ensures r.Pass? ==> imgDir == old(imgDir) + FileNames(rows)
      ensures old(imgDir) <= imgDir
    {
      var i := 0;
      while i < |rows|
        invariant 0 <= i <= |rows|
        invariant forall j :: 0 <= j < i ==> rename[j].Pass?
        invariant imgDir == old(imgDir) + FileNames(rows[..i])
        invariant images == old(images) && tasks == old(tasks) && processed == old(processed)
        invariant artists == old(artists)
      {
        if rename[i].Fail? {
          return Fail("failed to move file: " + rename[i].msg);
        }
        FileNamesSnoc(rows, i);
        imgDir := imgDir + {Pid.Encode(rows[i].id)};
        i := i + 1;
      }
      assert rows[..|rows|] == rows;
      r := Pass;
    }

    /** `SaveProcedImgs`: one WEBP row per image, in order, all inserted in
        one transaction; each file is renamed to its row's ID. The rows are
        the corrected builders, each with its thumbnail. With no images
        the bulk insert sends nothing, so only the transaction's start and
        commit can fail. */
    method SaveProcedImgs(source: Pid.ID, imgs: seq<Bitmap>, alloc: Pid.Allocator,
                          clocks: seq<int>, draws: seq<seq<nat>>, env: ProcEnv)
      returns (r: Result<seq<ProcessedImage>>)
      requires |clocks| == |imgs| && |draws| == |imgs|
      requires forall i :: 0 <= i < |draws| ==> |draws[i]| == Pid.MaxAttempts
      requires ProcEnvFits(env, |imgs|)
      modifies this, alloc
      ensures images == old(images) && tasks == old(tasks) && artists == old(artists)
      ensures alloc.State() == ProcWindow(old(alloc.State()), clocks, draws, env)
      ensures r.Ok? <==>
        (AllPass(env.encode) && env.begin.Pass? && AllPass(env.stat) && AllPass(env.close)
         && CreateBulk(old(processed), ProcRows(Pid.AllocateSeq(old(alloc.State()), clocks, draws).0, imgs, env.fileSizes, env.thumbs, source), env.bulkDriver).Pass?
         && AllPass(env.rename) && env.commit.Pass?)
      ensures r.Ok? ==>
        r.value == ProcRows(Pid.AllocateSeq(old(alloc.State()), clocks, draws).0, imgs, env.fileSizes, env.thumbs, source)
        && processed == old(processed) + r.value
        && imgDir == old(imgDir) + FileNames(r.value)
      ensures r.Err? ==> processed == old(processed) && old(imgDir) <= imgDir
      ensures imgs == [] ==> (r.Ok? <==> env.begin.Pass? && env.commit.Pass?) && (r.Ok? ==> r.value == [])
    {
      var bad := FirstFailure(env.encode);
      if bad < |imgs| {
        return Err(env.encode[bad].msg);
      }
      if env.begin.Fail? {
        return Err(env.begin.msg);
      }
      assert BuildFits(imgs, clocks, draws, env.stat, env.fileSizes, env.close, env.thumbs);
      var built := BuildRows(source, imgs, alloc, clocks, draws, env.stat, env.fileSizes, env.close, env.thumbs);
      if built.Err? {
        return Err(built.msg);
      }
      var creates := built.value;
      var bulk := CreateBulk(processed, creates, env.bulkDriver);
      if bulk.Fail? {
        return Err(bulk.msg);
      }
      var moved := MoveFiles(creates, env.rename);
      if moved.Fail? {
        return Err(moved.msg);
      }
      if env.commit.Fail? {
        return Err(env.commit.msg);
      }
      processed := processed + creates;
      r := Ok(creates);
    }
  }

  /** How many IDs the builder loop of `SaveProcedImgs` draws: one per
      image, up to and including the first whose `Stat` or `Close` fails. */
  function Drawn(stat: seq<Outcome>, close: seq<Outcome>): (n: nat)
    requires |stat| == |close|
    ensures n <= |stat|
    ensures AllPass(stat) && AllPass(close) ==> n == |stat|
    ensures forall j :: 0 <= j < n - 1 ==> stat[j].Pass? && close[j].Pass?
    ensures !(AllPass(stat) && AllPass(close)) ==> 0 < n && (stat[n - 1].Fail? || close[n - 1].Fail?)
  {
    if stat == [] then 0
    else if stat[0].Fail? || close[0].Fail? then 1
    else
      var n := Drawn(stat[1..], close[1..]);
      assert forall j :: 1 <= j < |stat| ==> stat[j] == stat[1..][j - 1] && close[j] == close[1..][j - 1];
      1 + n
  }

  /** The allocator state `SaveProcedImgs` leaves behind: untouched when an
      encode or the transaction start fails, otherwise advanced once per ID
      the builder loop drew. */
  function ProcWindow(w: Pid.Window, clocks: seq<int>, draws: seq<seq<nat>>, env: ProcEnv): Pid.Window
    requires |clocks| == |draws| && forall i :: 0 <= i < |draws| ==> |draws[i]| == Pid.MaxAttempts
    requires ProcEnvFits(env, |clocks|)
  {
    if !AllPass(env.encode) || env.begin.Fail? then w
    else
      var n := Drawn(env.stat, env.close);
      Pid.AllocateSeq(w, clocks[..n], draws[..n]).1
  }

  /** Once every step passes, the allocator has made one call per image. */
  lemma ProcWindowOfFullRun(w: Pid.Window, clocks: seq<int>, draws: seq<seq<nat>>, env: ProcEnv)
    requires |clocks| == |draws| && forall i :: 0 <= i < |draws| ==> |draws[i]| == Pid.MaxAttempts
    requires ProcEnvFits(env, |clocks|)
    requires AllPass(env.encode) && env.begin.Pass? && AllPass(env.stat) && AllPass(env.close)
    ensures ProcWindow(w, clocks, draws, env) == Pid.AllocateSeq(w, clocks, draws).1
  {
    assert clocks[..|clocks|] == clocks && draws[..|draws|] == draws;
  }

  /** The index of the first failing outcome, or the length when all pass:
      the encode loop of `SaveProcedImgs`. */
  method FirstFailure(outcomes: seq<Outcome>) returns (k: nat)
    ensures k <= |outcomes|
    ensures forall j :: 0 <= j < k ==> outcomes[j].Pass?
    ensures k < |outcomes| ==> outcomes[k].Fail?
    ensures k == |outcomes| <==> AllPass(outcomes)
  {
    k := 0;
    while k < |outcomes|
      invariant k <= |outcomes|
      invariant forall j :: 0 <= j < k ==> outcomes[j].Pass?
    {
      if outcomes[k].Fail? {
        return;
      }
      k := k + 1;
    }
  }

  /** The inputs of the builder loop, one entry per image. */
  predicate BuildFits(imgs: seq<Bitmap>, clocks: seq<int>, draws: seq<seq<nat>>,
                      stat: seq<Outcome>, fileSizes: seq<int>, close: seq<Outcome>, thumbs: seq<Bytes>)
  {
    |clocks| == |imgs| && |draws| == |imgs|
    && (forall i :: 0 <= i < |draws| ==> |draws[i]| == Pid.MaxAttempts)
    && |stat| == |imgs| && |fileSizes| == |imgs| && |close| == |imgs| && |thumbs| == |imgs|
  }

  /** The state of the builder loop after `i` images: the IDs drawn so far
      and the allocator window are those of `i` calls, and the builders
      are the rows of those images. */
  ghost predicate Building(source: Pid.ID, imgs: seq<Bitmap>, clocks: seq<int>, draws: seq<seq<nat>>,
                           stat: seq<Outcome>, fileSizes: seq<int>, close: seq<Outcome>, thumbs: seq<Bytes>,
                           w0: Pid.Window, i: nat, ids: seq<Pid.ID>, w: Pid.Window, creates: seq<ProcessedImage>)
  {
    BuildFits(imgs, clocks, draws, stat, fileSizes, close, thumbs) && i <= |imgs|
    && (ids, w) == Pid.AllocateSeq(w0, clocks[..i], draws[..i])
    && creates == ProcRows(ids, imgs[..i], fileSizes[..i], thumbs[..i], source)
    && forall j :: 0 <= j < i ==> stat[j].Pass? && close[j].Pass?
  }

  /** One turn of the builder loop that draws an ID and keeps its row. */
  lemma BuildStep(source: Pid.ID, imgs: seq<Bitmap>, clocks: seq<int>, draws: seq<seq<nat>>,
                  stat: seq<Outcome>, fileSizes: seq<int>, close: seq<Outcome>, thumbs: seq<Bytes>,
                  w0: Pid.Window, i: nat, ids: seq<Pid.ID>, w: Pid.Window, creates: seq<ProcessedImage>,
                  a: Pid.Allocation)
    requires Building(source, imgs, clocks, draws, stat, fileSizes, close, thumbs, w0, i, ids, w, creates)
    requires i < |imgs| && a == Pid.Allocate(w, clocks[i], draws[i])
    ensures stat[i].Pass? && close[i].Pass? ==>
      Building(source, imgs, clocks, draws, stat, fileSizes, close, thumbs, w0, i + 1, ids + [a.id], a.window,
               creates + [ProcRow(a.id, imgs[i], fileSizes[i], thumbs[i], source)])
    ensures stat[i].Fail? || close[i].Fail? ==>
      a.window == Pid.AllocateSeq(w0, clocks[..Drawn(stat, close)], draws[..Drawn(stat, close)]).1
  {
    Pid.AllocateSeqStep(w0, clocks, draws, i);
    if stat[i].Pass? && close[i].Pass? {
      ProcRowsSnoc(ids, a.id, imgs, fileSizes, thumbs, source, i);
    } else {
      DrawnAt(stat, close, i);
    }
  }

  /** After the last image the loop has built every row. */
  lemma BuildDone(source: Pid.ID, imgs: seq<Bitmap>, clocks: seq<int>, draws: seq<seq<nat>>,
                  stat: seq<Outcome>, fileSizes: seq<int>, close: seq<Outcome>, thumbs: seq<Bytes>,
                  w0: Pid.Window, ids: seq<Pid.ID>, w: Pid.Window, creates: seq<ProcessedImage>)
    requires Building(source, imgs, clocks, draws, stat, fileSizes, close, thumbs, w0, |imgs|, ids, w, creates)
    ensures AllPass(stat) && AllPass(close)
    ensures creates == ProcRows(Pid.AllocateSeq(w0, clocks, draws).0, imgs, fileSizes, thumbs, source)
    ensures w == Pid.AllocateSeq(w0, clocks[..Drawn(stat, close)], draws[..Drawn(stat, close)]).1
  {
    assert clocks[..|imgs|] == clocks && draws[..|imgs|] == draws;
    assert imgs[..|imgs|] == imgs && fileSizes[..|imgs|] == fileSizes && thumbs[..|imgs|] == thumbs;
  }

  /** The builder loop of `SaveProcedImgs`: an ID from the allocator for
      each image, then its file's `Stat` and `Close`, stopping at the first
      failure. On success the rows carry the allocator's IDs in order. */
  method BuildRows(source: Pid.ID, imgs: seq<Bitmap>, alloc: Pid.Allocator,
                   clocks: seq<int>, draws: seq<seq<nat>>,
                   stat: seq<Outcome>, fileSizes: seq<int>, close: seq<Outcome>, thumbs: seq<Bytes>)
    returns (r: Result<seq<ProcessedImage>>)
    requires BuildFits(imgs, clocks, draws, stat, fileSizes, close, thumbs)
    modifies alloc
    ensures r.Ok? <==> AllPass(stat) && AllPass(close)
    ensures alloc.State() == Pid.AllocateSeq(old(alloc.State()), clocks[..Drawn(stat, close)], draws[..Drawn(stat, close)]).1
    ensures r.Ok? ==>
      r.value == ProcRows(Pid.AllocateSeq(old(alloc.State()), clocks, draws).0, imgs, fileSizes, thumbs, source)
  {
    ghost var w0 := alloc.State();
    ghost var ids: seq<Pid.ID> := [];
    var creates: seq<ProcessedImage> := [];
    var i := 0;
    assert Building(source, imgs, clocks, draws, stat, fileSizes, close, thumbs, w0, 0, ids, w0, creates);
    while i < |imgs|
      invariant Building(source, imgs, clocks, draws, stat, fileSizes, close, thumbs, w0, i, ids, alloc.State(), creates)
    {
      ghost var w := alloc.State();
      var id := alloc.New(clocks[i], draws[i]);
      ghost var a := Pid.Allocation(id, alloc.State());
      BuildStep(source, imgs, clocks, draws, stat, fileSizes, close, thumbs, w0, i, ids, w, creates, a);
      if stat[i].Fail? {
        return Err("failed to get temp file stats: " + stat[i].msg);
      }
      var row := ProcRow(id, imgs[i], fileSizes[i], thumbs[i], source);
      if close[i].Fail? {
        return Err("failed to close temp file: " + close[i].msg);
      }
      ids := ids + [id];
      creates := creates + [row];
      i := i + 1;
    }
    BuildDone(source, imgs, clocks, draws, stat, fileSizes, close, thumbs, w0, ids, alloc.State(), creates);
    r := Ok(creates);
  }

  /** One more builder extends the rows of the images before it. */
  lemma ProcRowsSnoc(ids: seq<Pid.ID>, id: Pid.ID, imgs: seq<Bitmap>, sizes: seq<int>, thumbs: seq<Bytes>,
                     source: Pid.ID, i: nat)
    requires |ids| == i < |imgs| && |sizes| == |imgs| && |thumbs| == |imgs|
    ensures ProcRows(ids + [id], imgs[..i + 1], sizes[..i + 1], thumbs[..i + 1], source)
      == ProcRows(ids, imgs[..i], sizes[..i], thumbs[..i], source) + [ProcRow(id, imgs[i], sizes[i], thumbs[i], source)]
  {
    assert imgs[..i + 1] == imgs[..i] + [imgs[i]];
    assert sizes[..i + 1] == sizes[..i] + [sizes[i]];
    assert thumbs[..i + 1] == thumbs[..i] + [thumbs[i]];
  }

  /** When image `i` is the first whose `Stat` or `Close` fails, the loop
      has drawn `i + 1` IDs. */
  lemma DrawnAt(stat: seq<Outcome>, close: seq<Outcome>, i: nat)
    requires |stat| == |close| && i < |stat|
    requires forall j :: 0 <= j < i ==> stat[j].Pass? && close[j].Pass?
    requires stat[i].Fail? || close[i].Fail?
    ensures Drawn(stat, close) == i + 1
  {
    assert !AllPass(stat) || !AllPass(close);
  }
}
