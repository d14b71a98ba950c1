/** The `scale_img` task handler (pkg/worker/scale_img.go): read the image
    ID from the payload, look the image up, crop it to a centred square
    when its recorded sides differ, resize it to each derived size and
    record the results through `SaveProcedImgs`. Pixels are not modelled:
    a picture is its bounds. */
module ScaleImage {
  import opened Wrappers
  import opened Schema
  import Pid
  import Store

  /** `image.Rect(x0, y0, x1, y1)`. */
  datatype Rect = Rect(x0: int, y0: int, x1: int, y1: int)

  function Min(a: int, b: int): int
  {
    if a < b then a else b
  }

  /** The rectangle `CropToSquare` cuts from a `width` by `height` picture:
      side `min(width, height)`, centred, with the odd pixel on the right
      or bottom. */
  function CropToSquare(width: nat, height: nat): (r: Rect)
    ensures r.x1 - r.x0 == r.y1 - r.y0 == Min(width, height)
    ensures 0 <= r.x0 <= r.x1 <= width && 0 <= r.y0 <= r.y1 <= height
    ensures width <= height ==> r.x0 == 0 && r.x1 == width
    ensures height <= width ==> r.y0 == 0 && r.y1 == height
  {
    var size := if width < height then width else height;
    var startX := (width - size) / 2;
    var startY := (height - size) / 2;
    Rect(startX, startY, startX + size, startY + size)
  }

  /** The square is centred: the margins on either side differ by at most
      one pixel, the right or bottom one being the larger. */
  lemma CropIsCentred(width: nat, height: nat)
    ensures var r := CropToSquare(width, height);
      0 <= (width - r.x1) - r.x0 <= 1 && 0 <= (height - r.y1) - r.y0 <= 1
  {
  }

  /** `transform.Crop` to a rectangle inside the bounds. */
  function Crop(b: Store.Bitmap, r: Rect): Store.Bitmap
    requires 0 <= r.x0 <= r.x1 && 0 <= r.y0 <= r.y1
  {
    Store.Bitmap(r.x1 - r.x0, r.y1 - r.y0)
  }

  /** `transform.Resize(img, size, size, ...)`. */
  function Resize(b: Store.Bitmap, size: nat): (s: Store.Bitmap)
    ensures s.width == size && s.height == size
  {
    Store.Bitmap(size, size)
  }

  /** The derived sizes, in the order they are produced. */
  const Sizes: seq<nat> := [64, 265, 1024]

  /** Every derived size is a valid `dimentions` value of a processed
      image. */
  lemma SizesInRange()
    ensures |Sizes| == 3
    ensures forall i :: 0 <= i < |Sizes| ==> MinProcessedSide <= Sizes[i] <= MaxProcessedSide
  {
  }

  /** The picture `ScaleImg` resizes: cropped when the row's recorded
      height and width differ, the crop measured on the opened picture. */
  function Prepared(row: Image, pic: Store.Bitmap): (b: Store.Bitmap)
    ensures row.height != row.width ==> b.width == b.height == Min(pic.width, pic.height)
    ensures row.height == row.width ==> b == pic
  {
    if row.height != row.width then Crop(pic, CropToSquare(pic.width, pic.height))
    else pic
  }

  /** The variants, one per size in order. */
  function Variants(b: Store.Bitmap): (vs: seq<Store.Bitmap>)
    ensures |vs| == |Sizes|
    ensures forall i :: 0 <= i < |Sizes| ==> vs[i] == Resize(b, Sizes[i])
  {
    seq(|Sizes|, i requires 0 <= i < |Sizes| => Resize(b, Sizes[i]))
  }

  /** The resize loop of `ScaleImg`. */
  method ResizeAll(img: Store.Bitmap) returns (imgs: seq<Store.Bitmap>)
    ensures imgs == Variants(img)
  {
    imgs := [];
    var k := 0;
    while k < |Sizes|
      invariant 0 <= k <= |Sizes|
      invariant |imgs| == k
      invariant forall j :: 0 <= j < k ==> imgs[j] == Resize(img, Sizes[j])
    {
      imgs := imgs + [Resize(img, Sizes[k])];
      k := k + 1;
    }
  }

  /** Every variant is square with a side in the processed-image range, so
      the rows recorded for them, each with a non-empty thumbnail, pass
      their field validators. */
  lemma {:induction false} VariantRowsValid(b: Store.Bitmap, ids: seq<Pid.ID>, fileSizes: seq<int>,
                                            thumbs: seq<Bytes>, source: Pid.ID)
    requires |ids| == |Sizes| && |fileSizes| == |Sizes| && |thumbs| == |Sizes|
    requires forall i :: 0 <= i < |thumbs| ==> thumbs[i] != []
    ensures forall i :: 0 <= i < |Sizes| ==>
      Variants(b)[i].width == Variants(b)[i].height == Sizes[i]
    ensures forall i :: 0 <= i < |Sizes| ==>
      ProcessedFieldsValid(Store.ProcRows(ids, Variants(b), fileSizes, thumbs, source)[i])
  {
    SizesInRange();
    var rows := Store.ProcRows(ids, Variants(b), fileSizes, thumbs, source);
    forall i | 0 <= i < |Sizes|
      ensures ProcessedFieldsValid(rows[i])
    {
      assert rows[i] == Store.ProcRow(ids[i], Variants(b)[i], fileSizes[i], thumbs[i], source);
      assert rows[i].dimentions == Sizes[i];
    }
  }

  /** As written, the rows for the variants carry no thumbnail, and the
      first of them has a valid side, so their bulk save always fails on the
      missing `thumb`: no `scale_img` task can succeed. */
  lemma AsWrittenVariantsNeverSave(b: Store.Bitmap, ids: seq<Pid.ID>, fileSizes: seq<int>, source: Pid.ID,
                                   existing: seq<ProcessedImage>, driver: Outcome)
    requires |ids| == |Sizes| && |fileSizes| == |Sizes|
    ensures Store.CreateBulk(existing, Store.ProcRowsAsWritten(ids, Variants(b), fileSizes, source), driver)
      == Fail(MissingMessage("ProcessedImage.thumb"))
  {
    SizesInRange();
    assert Variants(b)[0].width == Sizes[0];
    Store.AsWrittenBulkFails(existing, ids, Variants(b), fileSizes, source, driver);
  }

  /** `Image.Get`: the row with that ID, if any. */
  function FindImage(images: seq<Image>, id: Pid.ID): (r: Option<Image>)
    ensures r.Some? ==> r.value in images && r.value.id == id
    ensures r.None? ==> forall i :: 0 <= i < |images| ==> images[i].id != id
  {
    if images == [] then None
    else if images[0].id == id then Some(images[0])
    else FindImage(images[1..], id)
  }

  const NotFoundMessage: string := "ent: image not found"

  /** What `ScaleImg` hands to `SaveProcedImgs`, or the error that stops it
      before: the source ID and the variants. */
  function ScaleInput(t: Task, images: seq<Image>, pic: Result<Store.Bitmap>): (r: Result<(Pid.ID, seq<Store.Bitmap>)>)
    ensures r.Ok? ==> |r.value.1| == |Sizes| && exists i :: 0 <= i < |images| && images[i].id == r.value.0
    ensures r.Ok? ==> Store.ParseScalePayload(t.payload) == Ok(r.value.0)
  {
    match Store.ParseScalePayload(t.payload)
    case Err(m) => Err(m)
    case Ok(imageId) =>
      match FindImage(images, imageId)
      case None => Err(NotFoundMessage)
      case Some(row) =>
        match pic
        case Err(m) => Err(m)
        case Ok(b) => Ok((row.id, Variants(Prepared(row, b))))
  }

  /** A task `SaveImg` created finds its image again: the variants are
      made from that image's file and recorded against its ID. */
  lemma ScaleInputOfSavedTask(t: Task, images: seq<Image>, img: Image, pic: Store.Bitmap)
    requires t.payload == Store.ScalePayload(img.id) && 0 <= img.id
    requires img in images && Store.UniqueImageIds(images)
    ensures ScaleInput(t, images, Ok(pic)) == Ok((img.id, Variants(Prepared(img, pic))))
  {
    Store.PayloadRoundTrip(img.id);
    var found := FindImage(images, img.id);
    var k :| 0 <= k < |images| && images[k] == img;
    assert found.Some?;
    var j :| 0 <= j < |images| && images[j] == found.value;
  }

  /** A payload that does not decode is returned as the error. */
  lemma UndecodablePayloadFails(t: Task, images: seq<Image>, pic: Result<Store.Bitmap>)
    requires Store.ParseScalePayload(t.payload).Err?
    ensures ScaleInput(t, images, pic) == Err(Store.ParseScalePayload(t.payload).msg)
  {
  }

  /** The outcomes `ScaleImg` meets outside the model: the opened picture
      and, per derived image, the allocator's clock and draws and the
      file and database steps of `SaveProcedImgs`. */
  datatype Call = Call(pic: Result<Store.Bitmap>, clocks: seq<int>, draws: seq<seq<nat>>, env: Store.ProcEnv)

  predicate CallFits(c: Call)
  {
    |c.clocks| == |Sizes| && |c.draws| == |Sizes|
    && (forall i :: 0 <= i < |c.draws| ==> |c.draws[i]| == Pid.MaxAttempts)
    && Store.ProcEnvFits(c.env, |Sizes|)
  }

  /** The processed rows a call records when it gets as far as
      `SaveProcedImgs`, with IDs from the allocator window `w`. */
  function Recorded(t: Task, images: seq<Image>, w: Pid.Window, c: Call): Option<seq<ProcessedImage>>
    requires CallFits(c)
  {
    match ScaleInput(t, images, c.pic)
    case Err(_) => None
    case Ok(input) => Some(Store.ProcRows(Pid.AllocateSeq(w, c.clocks, c.draws).0, input.1, c.env.fileSizes, c.env.thumbs, input.0))
  }

  /** Whether every step of `SaveProcedImgs` succeeds for these rows. */
  predicate Saved(processed: seq<ProcessedImage>, rows: seq<ProcessedImage>, env: Store.ProcEnv)
  {
    Store.AllPass(env.encode) && env.begin.Pass? && Store.AllPass(env.stat) && Store.AllPass(env.close)
    && Store.CreateBulk(processed, rows, env.bulkDriver).Pass?
    && Store.AllPass(env.rename) && env.commit.Pass?
  }

  /** The processed-image table after a call: the recorded rows appended
      when the save succeeds, otherwise as before. */
  function ProcessedAfter(t: Task, images: seq<Image>, processed: seq<ProcessedImage>, w: Pid.Window, c: Call): seq<ProcessedImage>
    requires CallFits(c)
  {
    match Recorded(t, images, w, c)
    case None => processed
    case Some(rows) => if Saved(processed, rows, c.env) then processed + rows else processed
  }

  /** The allocator state after a call: untouched before `SaveProcedImgs`,
      otherwise what the save leaves. */
  function WindowAfter(t: Task, images: seq<Image>, w: Pid.Window, c: Call): Pid.Window
    requires CallFits(c)
  {
    if ScaleInput(t, images, c.pic).Err? then w
    else Store.ProcWindow(w, c.clocks, c.draws, c.env)
  }

  /** `ScaleImg`: an error before `SaveProcedImgs` changes nothing; after
      it, success is exactly the success of every step of the save, which
      appends the derived rows and their files. */
  method ScaleImg(t: Task, db: Store.Database, alloc: Pid.Allocator, c: Call) returns (r: Outcome)
    requires CallFits(c)
    modifies db, alloc
    ensures db.images == old(db.images) && db.tasks == old(db.tasks) && db.artists == old(db.artists)
    ensures old(db.imgDir) <= db.imgDir
    ensures db.processed == ProcessedAfter(t, old(db.images), old(db.processed), old(alloc.State()), c)
    ensures alloc.State() == WindowAfter(t, old(db.images), old(alloc.State()), c)
    ensures ScaleInput(t, old(db.images), c.pic).Err? ==>
      r == Fail(ScaleInput(t, old(db.images), c.pic).msg)
      && db.Snapshot() == old(db.Snapshot())
    ensures var rows := Recorded(t, old(db.images), old(alloc.State()), c);
      rows.Some? ==>
        (r.Pass? <==> Saved(old(db.processed), rows.value, c.env))
        && (r.Pass? ==> db.imgDir == old(db.imgDir) + Store.FileNames(rows.value))
  {
    var ti := Store.ParseScalePayload(t.payload);
    if ti.Err? {
      return Fail(ti.msg);
    }
    var i := FindImage(db.images, ti.value);
    if i.None? {
      return Fail(NotFoundMessage);
    }
    if c.pic.Err? {
      return Fail(c.pic.msg);
    }
    var img := c.pic.value;
    if i.value.height != i.value.width {
      img := Crop(img, CropToSquare(img.width, img.height));
    }
    var imgs := ResizeAll(img);
    var dbImgs := db.SaveProcedImgs(i.value.id, imgs, alloc, c.clocks, c.draws, c.env);
    if dbImgs.Err? {
      return Fail(dbImgs.msg);
    }
    r := Pass;
  }
}
