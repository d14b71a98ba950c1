/** The artist endpoints (pkg/handler/artists.go): the paging parameters
    of `ArtistsGet`, the ID check and lookup of `ArtistGetId`, and the
    upload-then-create sequence of `ArtistsAdd`. The echo context, the
    multipart and JSON decoding and the ent queries are outside the model:
    what they yield is given as parameters. */
module Handler {
  import opened Wrappers
  import opened Ints
  import opened Schema
  import Text
  import Pid
  import Store

  /** What a handler answers: 200 with a body, an `echo.HTTPError` with
      its status and message, or a plain Go error, which echo's default
      error handler answers with 500. */
  datatype Reply<T> = Ok200(body: T) | HttpError(status: int, message: string) | Failure(msg: string)

  /** `http.StatusText` of the two statuses raised without a message. */
  const BadRequest: string := "Bad Request"
  const NotFound: string := "Not Found"

  // ------------------------------------------------------- ArtistsGet

  const DefaultLimit: Int64 := 100
  const MaxLimit: Int64 := 200

  /** The offset `ArtistsGet` queries with. */
  function PageOffset(offsetStr: string): (n: Int64)
    ensures n == 0 || Text.Atoi(offsetStr) == Ok(n)
  {
    match Text.Atoi(offsetStr)
    case Ok(n) => n
    case Err(_) => 0
  }

  /** The limit `ArtistsGet` queries with. */
  function PageLimit(limitStr: string): (n: Int64)
    ensures n <= MaxLimit
    ensures n == DefaultLimit || n == MaxLimit || Text.Atoi(limitStr) == Ok(n)
  {
    var n := match Text.Atoi(limitStr) case Ok(n) => n case Err(_) => DefaultLimit;
    if n > MaxLimit then MaxLimit else n
  }

  /** The paging rules: an offset that does not parse is 0 and one that
      does is kept, whatever its sign; a limit that does not parse is 100;
      a limit is never above 200, and a parsed limit up to 200 is kept,
      zero and negative ones included. */
  lemma PageRules(offsetStr: string, limitStr: string)
    ensures PageOffset(offsetStr) == (if Text.Atoi(offsetStr).Ok? then Text.Atoi(offsetStr).value else 0)
    ensures PageLimit(limitStr) <= MaxLimit
    ensures Text.Atoi(limitStr).Err? ==> PageLimit(limitStr) == DefaultLimit
    ensures Text.Atoi(limitStr).Ok? && Text.Atoi(limitStr).value <= MaxLimit ==>
      PageLimit(limitStr) == Text.Atoi(limitStr).value
    ensures Text.Atoi(limitStr).Ok? && Text.Atoi(limitStr).value > MaxLimit ==> PageLimit(limitStr) == MaxLimit
  {
  }

  /** Missing parameters arrive as empty strings and take the defaults. */
  lemma PageDefaults()
    ensures PageOffset("") == 0 && PageLimit("") == DefaultLimit
  {
  }

  /** A parameter written as an `int` is read back: the offset as is, the
      limit clamped to 200. */
  lemma PageOfDecimal(offset: Int64, limit: Int64)
    ensures PageOffset(Text.Decimal(offset)) == offset
    ensures PageLimit(Text.Decimal(limit)) == if limit > MaxLimit then MaxLimit else limit
  {
    Text.AtoiOfDecimal(offset);
    Text.AtoiOfDecimal(limit);
  }

  /** A number beyond the `int` range does not parse, so it takes the
      default rather than being clamped. */
  lemma PageOutOfRange(n: nat)
    requires n > MaxInt64
    ensures PageOffset(Text.Decimal(n)) == 0 && PageLimit(Text.Decimal(n)) == DefaultLimit
  {
    Text.DigitsValueOfDecimal(n);
  }

  /** The `ArtistsPage` response. */
  datatype ArtistsPage = ArtistsPage(limit: Int64, offset: Int64, artists: seq<Artist>)

  /** `ArtistsGet`: `offset` and `limit` are parsed, defaulted and
      clamped in turn; the query is run with them and the page echoes
      them. `query` stands for the ent query and what it returns. */
  method ArtistsGet(offsetStr: string, limitStr: string, query: (Int64, Int64) -> Result<seq<Artist>>)
    returns (r: Reply<ArtistsPage>)
    ensures var found := query(PageOffset(offsetStr), PageLimit(limitStr));
      (found.Err? ==> r == Failure(found.msg))
      && (found.Ok? ==> r == Ok200(ArtistsPage(PageLimit(limitStr), PageOffset(offsetStr), found.value)))
  {
    var offset: Int64;
    var limit: Int64;
    var parsed := Text.Atoi(offsetStr);
    offset := if parsed.Ok? then parsed.value else 0;
    parsed := Text.Atoi(limitStr);
    limit := if parsed.Ok? then parsed.value else DefaultLimit;
    if limit > MaxLimit {
      limit := MaxLimit;
    }
    var found := query(offset, limit);
    if found.Err? {
      return Failure(found.msg);
    }
    r := Ok200(ArtistsPage(limit, offset, found.value));
  }

  // ------------------------------------------------------ ArtistGetId

  const InvalidIdMessage: string := "invalid ID format provided"
  const NotSingularMessage: string := "not singular"

  /** The rows whose ID is `id`, in table order. */
  function Matching(artists: seq<Artist>, id: Pid.ID): (m: seq<Artist>)
    ensures forall a :: a in m <==> a in artists && a.id == id
  {
    if artists == [] then []
    else (if artists[0].id == id then [artists[0]] else []) + Matching(artists[1..], id)
  }

  predicate UniqueArtistIds(artists: seq<Artist>)
  {
    forall i, j :: 0 <= i < |artists| && 0 <= j < |artists| && artists[i].id == artists[j].id ==> i == j
  }

  /** No row matches exactly when no row has the ID. */
  lemma {:induction false} MatchingEmpty(artists: seq<Artist>, id: Pid.ID)
    ensures Matching(artists, id) == [] <==> forall k :: 0 <= k < |artists| ==> artists[k].id != id
  {
    if artists != [] {
      MatchingEmpty(artists[1..], id);
      assert forall k :: 1 <= k < |artists| ==> artists[k] == artists[1..][k - 1];
    }
  }

  /** With unique IDs at most one row matches. */
  lemma {:induction false} UniqueMatchesAtMostOne(artists: seq<Artist>, id: Pid.ID)
    requires UniqueArtistIds(artists)
    ensures |Matching(artists, id)| <= 1
  {
    if artists != [] {
      var rest := artists[1..];
      assert UniqueArtistIds(rest) by {
        forall i, j | 0 <= i < |rest| && 0 <= j < |rest| && rest[i].id == rest[j].id
          ensures i == j
        {
          assert artists[i + 1] == rest[i] && artists[j + 1] == rest[j];
        }
      }
      UniqueMatchesAtMostOne(rest, id);
      if artists[0].id == id {
        forall k | 0 <= k < |rest|
          ensures rest[k].id != id
        {
          assert artists[k + 1] == rest[k];
        }
        MatchingEmpty(rest, id);
      }
    }
  }

  /** What `Only` finds. */
  datatype Lookup = Found(artist: Artist) | Missing | Several

  function Only(artists: seq<Artist>, id: Pid.ID): Lookup
  {
    var m := Matching(artists, id);
    if |m| == 0 then Missing else if |m| == 1 then Found(m[0]) else Several
  }

  /** `ArtistGetId` as written: a query error that is neither "not found"
      nor "not singular" falls through to the 200 answer with the nil
      artist, a `null` body. `queryError` stands for any other error the
      query reports. */
  function ArtistGetIdAsWritten(idStr: string, artists: seq<Artist>, queryError: Option<string>): (r: Reply<Option<Artist>>)
    ensures Pid.Decode(idStr).Err? <==> r == HttpError(400, InvalidIdMessage)
    ensures Pid.Decode(idStr).Ok? && queryError.Some? ==> r == Ok200(None)
    ensures r.Ok200? && r.body.Some? ==> r.body.value in artists && r.body.value.id == Pid.Decode(idStr).value
  {
    match Pid.Decode(idStr)
    case Err(_) => HttpError(400, InvalidIdMessage)
    case Ok(id) =>
      if queryError.Some? then Ok200(None)
      else
        match Only(artists, id)
        case Missing => HttpError(404, NotFound)
        case Several => HttpError(500, NotSingularMessage)
        case Found(a) => Ok200(Some(a))
  }

  /** `ArtistGetId` with any other query error returned as the error. */
  function ArtistGetId(idStr: string, artists: seq<Artist>, queryError: Option<string>): (r: Reply<Option<Artist>>)
    ensures Pid.Decode(idStr).Err? <==> r == HttpError(400, InvalidIdMessage)
    ensures r.Ok200? ==>
      Pid.Decode(idStr).Ok? && r.body.Some? && r.body.value in artists && r.body.value.id == Pid.Decode(idStr).value
    ensures Pid.Decode(idStr).Ok? && queryError.Some? ==> r == Failure(queryError.value)
  {
    match Pid.Decode(idStr)
    case Err(_) => HttpError(400, InvalidIdMessage)
    case Ok(id) =>
      if queryError.Some? then Failure(queryError.value)
      else
        match Only(artists, id)
        case Missing => HttpError(404, NotFound)
        case Several => HttpError(500, NotSingularMessage)
        case Found(a) => Ok200(Some(a))
  }

  /** The two agree whenever the query itself succeeds; as written, a
      failed query is answered 200 with `null`. */
  lemma ArtistGetIdNullBody(idStr: string, artists: seq<Artist>, queryError: Option<string>)
    ensures queryError.None? ==> ArtistGetIdAsWritten(idStr, artists, queryError) == ArtistGetId(idStr, artists, queryError)
    ensures Pid.Decode(idStr).Ok? && queryError.Some? ==>
      ArtistGetIdAsWritten(idStr, artists, queryError) == Ok200(None)
      && ArtistGetId(idStr, artists, queryError) == Failure(queryError.value)
  {
  }

  /** A stored artist is found again by the text form of its ID, and an ID
      no artist has is answered 404; with unique IDs the lookup never
      answers "not singular". */
  lemma ArtistGetIdOfEncoded(artists: seq<Artist>, id: Pid.ID)
    requires 0 <= id && UniqueArtistIds(artists)
    ensures var r := ArtistGetId(Pid.Encode(id), artists, None);
      (r.Ok200? <==> exists i :: 0 <= i < |artists| && artists[i].id == id)
      && (r.Ok200? ==> r.body.Some? && r.body.value in artists && r.body.value.id == id)
      && (!r.Ok200? ==> r == HttpError(404, NotFound))
  {
    Pid.RoundTrip(id);
    UniqueMatchesAtMostOne(artists, id);
    MatchingEmpty(artists, id);
  }

  // ------------------------------------------------------- ArtistsAdd

  /** The multipart form: the `json` values, the decoded request (the name,
      or the `json.Unmarshal` error) and the `img` files. */
  datatype Form = Form(json: seq<string>, request: Result<string>, img: seq<Store.Upload>)

  /** The request `ArtistsAdd` goes on with, or the reply it stops with. */
  datatype Request = Request(name: string, img: Store.Upload) | Rejected(reply: Reply<()>)

  function ReadForm(form: Result<Form>): (q: Request)
    ensures q.Request? <==> form.Ok? && form.value.json != [] && form.value.request.Ok? && form.value.img != []
    ensures q.Request? ==> q.name == form.value.request.value && q.img == form.value.img[0]
    ensures form.Ok? && (form.value.json == [] || (form.value.request.Ok? && form.value.img == [])) ==>
      q == Rejected(HttpError(400, BadRequest))
  {
    match form
    case Err(m) => Rejected(Failure(m))
    case Ok(f) =>
      if f.json == [] then Rejected(HttpError(400, BadRequest))
      else if f.request.Err? then Rejected(Failure(f.request.msg))
      else if f.img == [] then Rejected(HttpError(400, BadRequest))
      else Request(f.request.value, f.img[0])
  }

  /** `Artist.Create()...Save`: the `NotEmpty` validator on the name, the
      unique ID, then whatever the driver reports. */
  function CreateArtist(artists: seq<Artist>, a: Artist, driver: Outcome): (r: Outcome)
    ensures r.Pass? ==> a.name != [] && forall i :: 0 <= i < |artists| ==> artists[i].id != a.id
    ensures a.name == [] ==> r == Fail(ValidatorMessage("Artist.name"))
  {
    if ValidateArtist(a).Fail? then ValidateArtist(a)
    else if exists i :: 0 <= i < |artists| && artists[i].id == a.id then Fail(Store.UniqueFailure + ": artists.id")
    else driver
  }

  /** The reply, the tables and the allocator window after `ArtistsAdd`. */
  datatype AddEffect = AddEffect(reply: Reply<()>, tables: Store.Tables, window: Pid.Window)

  /** The outcomes `ArtistsAdd` meets outside the model: those of
      `SaveImg`, and the clock, draws and driver of the artist insert. */
  datatype AddCall = AddCall(uploader: Pid.ID, imgClock: int, imgDraws: seq<nat>, taskClock: int, taskDraws: seq<nat>,
                             now: int, env: Store.SaveImgEnv, artistClock: int, artistDraws: seq<nat>, artistDriver: Outcome)

  predicate AddCallFits(c: AddCall)
  {
    |c.imgDraws| == Pid.MaxAttempts && |c.taskDraws| == Pid.MaxAttempts && |c.artistDraws| == Pid.MaxAttempts
  }

  /** The artist row `ArtistsAdd` creates. */
  function NewArtist(id: Pid.ID, name: string, img: Image): Artist
  {
    Artist(id, Text.TrimSpace(name), Some(img.id))
  }

  function ArtistsAddSpec(t: Store.Tables, w: Pid.Window, form: Result<Form>, c: AddCall): (e: AddEffect)
    requires AddCallFits(c)
    ensures e.tables.processed == t.processed
    ensures e.reply.Ok200? ==> |e.tables.artists| == |t.artists| + 1 && |e.tables.images| == |t.images| + 1
    ensures !e.reply.Ok200? ==> e.tables.artists == t.artists
  {
    match ReadForm(form)
    case Rejected(reply) => AddEffect(reply, t, w)
    case Request(name, f) =>
      var e := Store.SaveImgSpec(t, w, f, c.uploader, c.imgClock, c.imgDraws, c.taskClock, c.taskDraws, c.now, c.env);
      if e.result.Err? then AddEffect(Failure(e.result.msg), e.tables, e.window)
      else
        var b := Pid.Allocate(e.window, c.artistClock, c.artistDraws);
        var a := NewArtist(b.id, name, e.result.value);
        var created := CreateArtist(e.tables.artists, a, c.artistDriver);
        if created.Fail? then AddEffect(Failure(created.msg), e.tables, b.window)
        else AddEffect(Ok200(()), e.tables.(artists := e.tables.artists + [a]), b.window)
  }

  /** `ArtistsAdd`: the form checks, `SaveImg`, then the artist insert
      with the trimmed name and the saved image. */
  method ArtistsAdd(db: Store.Database, alloc: Pid.Allocator, form: Result<Form>, c: AddCall) returns (r: Reply<()>)
    requires AddCallFits(c)
    modifies db, alloc
    ensures AddEffect(r, db.Snapshot(), alloc.State()) == ArtistsAddSpec(old(db.Snapshot()), old(alloc.State()), form, c)
  {
    var q := ReadForm(form);
    if q.Rejected? {
      return q.reply;
    }
    var img := db.SaveImg(q.img, c.uploader, alloc, c.imgClock, c.imgDraws, c.taskClock, c.taskDraws, c.now, c.env);
    if img.Err? {
      return Failure(img.msg);
    }
    var id := alloc.New(c.artistClock, c.artistDraws);
    var a := NewArtist(id, q.name, img.value);
    var created := CreateArtist(db.artists, a, c.artistDriver);
    if created.Fail? {
      return Failure(created.msg);
    }
    db.artists := db.artists + [a];
    r := Ok200(());
  }

  /** A form without `json` or without `img` is refused with 400 before
      anything is stored. */
  lemma AddRejectsIncompleteForm(t: Store.Tables, w: Pid.Window, f: Form, c: AddCall)
    requires AddCallFits(c)
    requires f.json == [] || (f.request.Ok? && f.img == [])
    ensures ArtistsAddSpec(t, w, Ok(f), c) == AddEffect(HttpError(400, BadRequest), t, w)
  {
  }

  /** On success one artist is appended: its name is the requested name
      with the surrounding white space trimmed, it is not empty, and its
      image is the one just saved, whose row is in the images table. Only
      the image, task and artist tables grow. */
  lemma AddCreatesTrimmedArtist(t: Store.Tables, w: Pid.Window, f: Form, c: AddCall)
    requires AddCallFits(c)
    ensures var e := ArtistsAddSpec(t, w, Ok(f), c);
      e.reply.Ok200? ==>
        f.request.Ok? && f.img != []
        && |e.tables.artists| == |t.artists| + 1 && e.tables.artists[..|t.artists|] == t.artists
        && var a := e.tables.artists[|t.artists|];
        a.name == Text.TrimSpace(f.request.value) && a.name != []
        && !Text.IsSpace(a.name[0]) && !Text.IsSpace(a.name[|a.name| - 1])
        && |e.tables.images| == |t.images| + 1 && e.tables.images[..|t.images|] == t.images
        && a.image == Some(e.tables.images[|t.images|].id)
        && e.tables.processed == t.processed
  {
    var e := ArtistsAddSpec(t, w, Ok(f), c);
    if e.reply.Ok200? {
      var q := ReadForm(Ok(f));
      Store.SaveImgAtomic(t, w, q.img, c.uploader, c.imgClock, c.imgDraws, c.taskClock, c.taskDraws, c.now, c.env);
      Store.SaveImgFrame(t, w, q.img, c.uploader, c.imgClock, c.imgDraws, c.taskClock, c.taskDraws, c.now, c.env);
      var s := Store.SaveImgSpec(t, w, q.img, c.uploader, c.imgClock, c.imgDraws, c.taskClock, c.taskDraws, c.now, c.env);
      var b := Pid.Allocate(s.window, c.artistClock, c.artistDraws);
      var a := NewArtist(b.id, q.name, s.result.value);
      assert (t.artists + [a])[..|t.artists|] == t.artists;
    }
  }

  /** A name that is nothing but white space trims to the empty name,
      which the `NotEmpty` validator refuses, so no artist is added. */
  lemma AddRejectsBlankName(t: Store.Tables, w: Pid.Window, f: Form, c: AddCall)
    requires AddCallFits(c)
    requires f.request.Ok? && forall i :: 0 <= i < |f.request.value| ==> Text.IsSpace(f.request.value[i])
    ensures var e := ArtistsAddSpec(t, w, Ok(f), c);
      !e.reply.Ok200? && e.tables.artists == t.artists
  {
    var name := f.request.value;
    var i := Text.SkipSpaces(name, 0);
    assert i == |name|;
    assert Text.TrimSpace(name) == [];
    if ReadForm(Ok(f)).Request? {
      var q := ReadForm(Ok(f));
      Store.SaveImgFrame(t, w, q.img, c.uploader, c.imgClock, c.imgDraws, c.taskClock, c.taskDraws, c.now, c.env);
    }
  }

  /** Artist IDs stay unique: a new artist is only appended when no row
      has its ID. */
  lemma AddKeepsArtistIdsUnique(t: Store.Tables, w: Pid.Window, form: Result<Form>, c: AddCall)
    requires AddCallFits(c) && UniqueArtistIds(t.artists)
    ensures UniqueArtistIds(ArtistsAddSpec(t, w, form, c).tables.artists)
  {
    var q := ReadForm(form);
    if q.Request? {
      Store.SaveImgFrame(t, w, q.img, c.uploader, c.imgClock, c.imgDraws, c.taskClock, c.taskDraws, c.now, c.env);
    }
  }
}
