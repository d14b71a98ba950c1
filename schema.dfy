/** The entity records of the ent schema (pkg/ent/schema) that the core
    reads and writes: tasks, images and processed images, with their enum
    fields, defaults, immutable fields and the checks ent runs before a row
    is saved. Times are milliseconds supplied by the caller. */
module Schema {
  import opened Wrappers
  import opened Ints
  import Pid

  // ---------------------------------------------------------------- Task

  /** The `status` enum of a task. */
  datatype Status = Pending | Working | Error | Done

  function StatusName(s: Status): string
  {
    match s
    case Pending => "pending"
    case Working => "working"
    case Error => "error"
    case Done => "done"
  }

  /** ent's validator for the `status` column: exactly the four values. */
  function ParseStatus(name: string): (r: Option<Status>)
    ensures r.Some? ==> StatusName(r.value) == name
  {
    if name == "pending" then Some(Pending)
    else if name == "working" then Some(Working)
    else if name == "error" then Some(Error)
    else if name == "done" then Some(Done)
    else None
  }

  /** Every status survives the trip through its column value, and the
      four column values are distinct. */
  lemma StatusNameRoundTrip(s: Status, t: Status)
    ensures ParseStatus(StatusName(s)) == Some(s)
    ensures StatusName(s) == StatusName(t) ==> s == t
  {
  }

  /** `Default("pending")`. */
  const DefaultStatus: Status := Pending

  /** The only value of the `type` enum. A task read back from the table
      carries the stored string, which the worker dispatches on. */
  const TypeScaleImg: string := "scale_img"

  predicate ValidTaskType(typ: string)
  {
    typ == TypeScaleImg
  }

  /** A row of the `tasks` table. `error` is optional and `payload` is raw
      JSON text. */
  datatype Task = Task(
    id: Pid.ID,
    typ: string,
    status: Status,
    error: Option<string>,
    payload: string,
    createdAt: int,
    updatedAt: int)

  /** `Task.Create()...Save`: the status takes its default, no error is
      recorded, and both timestamps are the creation time. */
  function NewTask(id: Pid.ID, typ: string, payload: string, now: int): (t: Task)
    ensures t.status == DefaultStatus && t.error == None
    ensures t.createdAt == now && t.updatedAt == now
    ensures t.id == id && t.typ == typ && t.payload == payload
  {
    Task(id, typ, DefaultStatus, None, payload, now, now)
  }

  /** The fields an update can never change: `id` and `created_at` are
      immutable, and no code path sets `type` or `payload` again. */
  predicate SameTask(t: Task, u: Task)
  {
    t.id == u.id && t.typ == u.typ && t.payload == u.payload && t.createdAt == u.createdAt
  }

  /** An update that sets the status: `UpdateDefault(time.Now)` refreshes
      `updated_at` on every update. */
  function SetStatus(t: Task, s: Status, now: int): (u: Task)
    ensures SameTask(t, u) && u.status == s && u.error == t.error && u.updatedAt == now
  {
    t.(status := s, updatedAt := now)
  }

  /** ent's check before a task row is saved: the `type` enum validator. */
  function ValidateTask(t: Task): (r: Outcome)
    ensures r.Pass? <==> ValidTaskType(t.typ)
  {
    if ValidTaskType(t.typ) then Pass
    else Fail("ent: validator failed for field \"Task.type\": task: invalid enum value for type field: \"" + t.typ + "\"")
  }

  // --------------------------------------------------------------- Image

  /** The `type` enum shared by images and processed images. */
  datatype ImageType = WEBP | PNG | JPG

  function ImageTypeName(t: ImageType): string
  {
    match t
    case WEBP => "WEBP"
    case PNG => "PNG"
    case JPG => "JPG"
  }

  /** `Range(16, 10_000)` on both dimensions of an upload. */
  const MinImageSide: int := 16
  const MaxImageSide: int := 10_000

  /** A row of the `images` table; `release` and `artist` are the optional
      unique edges that the hook keeps exclusive. */
  datatype Image = Image(
    id: Pid.ID,
    file: string,
    originalName: string,
    typ: ImageType,
    width: int,
    height: int,
    sizeBits: int,
    uploader: Pid.ID,
    release: Option<Pid.ID>,
    artist: Option<Pid.ID>,
    createdAt: int,
    updatedAt: int)

  predicate ImageFieldsValid(img: Image)
  {
    img.file != [] && img.originalName != []
    && MinImageSide <= img.width <= MaxImageSide
    && MinImageSide <= img.height <= MaxImageSide
    && 0 <= img.sizeBits < Two32
  }

  /** ent's field validators for an image, in field order; the first
      failing field is reported. */
  function ValidateImage(img: Image): (r: Outcome)
    ensures r.Pass? <==> ImageFieldsValid(img)
  {
    if img.file == [] then Fail(ValidatorMessage("Image.file"))
    else if img.originalName == [] then Fail(ValidatorMessage("Image.original_name"))
    else if !(MinImageSide <= img.width <= MaxImageSide) then Fail(ValidatorMessage("Image.dimention_width"))
    else if !(MinImageSide <= img.height <= MaxImageSide) then Fail(ValidatorMessage("Image.dimention_height"))
    else if !(0 <= img.sizeBits < Two32) then Fail(ValidatorMessage("Image.size_bits"))
    else Pass
  }

  function ValidatorMessage(field: string): string
  {
    "ent: validator failed for field \"" + field + "\""
  }

  /** The kinds of mutation ent distinguishes. */
  datatype Op = OpCreate | OpUpdate | OpUpdateOne | OpDelete | OpDeleteOne

  /** `hook.On(..., ent.OpCreate|ent.OpUpdate|ent.OpUpdateOne)`. */
  predicate HookedOp(op: Op)
  {
    op == OpCreate || op == OpUpdate || op == OpUpdateOne
  }

  const BothLinkedMessage: string :=
    "an image must be linked to either a release or an artist, but both were provided"

  /** The image hook: `Fail` stops the mutation with the error, `Pass`
      hands it to the next mutator unchanged. */
  function ImageHook(op: Op, hasRelease: bool, hasArtist: bool): (r: Outcome)
    ensures r.Fail? ==> r.msg == BothLinkedMessage
  {
    if HookedOp(op) && hasRelease == hasArtist && hasRelease then Fail(BothLinkedMessage)
    else Pass
  }

  /** The hook rejects exactly the hooked mutations that set both a release
      and an artist; setting neither is let through, as is every delete. */
  lemma ImageHookRejects(op: Op, hasRelease: bool, hasArtist: bool)
    ensures ImageHook(op, hasRelease, hasArtist).Fail?
      <==> HookedOp(op) && hasRelease && hasArtist
    ensures ImageHook(op, false, false) == Pass
    ensures hasRelease != hasArtist ==> ImageHook(op, hasRelease, hasArtist) == Pass
    ensures !HookedOp(op) ==> ImageHook(op, hasRelease, hasArtist) == Pass
  {
  }

  // ----------------------------------------------------- ProcessedImage

  /** `Range(16, 3_000)` on the side of a derived image. */
  const MinProcessedSide: int := 16
  const MaxProcessedSide: int := 3_000

  /** The contents of a `Bytes` column. */
  type Bytes = seq<bv8>

  /** A row of the `processed_images` table, or a builder about to be saved:
      `thumb` is `None` while the builder has not set it. */
  datatype ProcessedImage = ProcessedImage(
    id: Pid.ID,
    typ: ImageType,
    dimentions: int,
    sizeBits: int,
    thumb: Option<Bytes>,
    source: Pid.ID)

  /** What ent checks before saving a processed image: the side range, the
      `uint32` size, and the required non-empty `thumb`. */
  predicate ProcessedFieldsValid(p: ProcessedImage)
  {
    MinProcessedSide <= p.dimentions <= MaxProcessedSide && 0 <= p.sizeBits < Two32
    && p.thumb.Some? && p.thumb.value != []
  }

  function MissingMessage(field: string): string
  {
    "ent: missing required field \"" + field + "\""
  }

  /** The builder's `check()`, field by field in schema order: a field's
      validator, or for `thumb`, which has neither a default nor
      `Optional()`, first whether it is set at all. */
  function ValidateProcessed(p: ProcessedImage): (r: Outcome)
    ensures r.Pass? <==> ProcessedFieldsValid(p)
    ensures !(MinProcessedSide <= p.dimentions <= MaxProcessedSide) ==>
      r == Fail(ValidatorMessage("ProcessedImage.dimentions"))
    ensures MinProcessedSide <= p.dimentions <= MaxProcessedSide && 0 <= p.sizeBits < Two32 ==>
      (p.thumb.None? ==> r == Fail(MissingMessage("ProcessedImage.thumb")))
      && (p.thumb == Some([]) ==> r == Fail(ValidatorMessage("ProcessedImage.thumb")))
  {
    if !(MinProcessedSide <= p.dimentions <= MaxProcessedSide) then Fail(ValidatorMessage("ProcessedImage.dimentions"))
    else if !(0 <= p.sizeBits < Two32) then Fail(ValidatorMessage("ProcessedImage.size_bits"))
    else if p.thumb.None? then Fail(MissingMessage("ProcessedImage.thumb"))
    else if p.thumb.value == [] then Fail(ValidatorMessage("ProcessedImage.thumb"))
    else Pass
  }

  // --------------------------------------------------------------- Artist

  /** A row of the `artists` table; `image` is the edge `ArtistsAdd` sets
      with `SetImage`. */
  datatype Artist = Artist(id: Pid.ID, name: string, image: Option<Pid.ID>)

  /** The `NotEmpty` validator on `name`. */
  function ValidateArtist(a: Artist): (r: Outcome)
    ensures r.Pass? <==> a.name != []
  {
    if a.name == [] then Fail(ValidatorMessage("Artist.name")) else Pass
  }

  // -------------------------------------------------------------- Release

  /** The `type` enum of a release; note the upper-case `EP`. */
  datatype ReleaseType = Album | Single | EP | Compilation | Unknown

  function ReleaseTypeName(t: ReleaseType): string
  {
    match t
    case Album => "album"
    case Single => "single"
    case EP => "EP"
    case Compilation => "compilation"
    case Unknown => "unknown"
  }
}
