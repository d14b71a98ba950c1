# cvrs core, modelled in Dafny

cvrs is a self-hosted music cover and release catalogue written in Go. This
project models the parts of its backend that decide what gets stored and
how:

- the 63-bit identifiers of `pkg/pid` and their Crockford base32 text form;
- the ent schema validators for tasks, images, processed images and artists;
- the image and release type parsers of `pkg/database/enums.go`;
- the upload path `SaveImg` and the derived-image path `SaveProcedImgs` of
  `pkg/database/files.go`, as transactions over an in-memory database;
- the background task queue of `pkg/worker`: recovery at start-up, the
  fetcher that claims the ten oldest pending tasks, the workers that run a
  task and record its outcome, and the `scale_img` task itself;
- the streaming Discogs importer of `pkg/sources/discogs.go`: batching,
  release classification and date parsing;
- the three artist HTTP handlers of `pkg/handler/artists.go`.

The modules follow the Go packages:

| module | file | models |
|---|---|---|
| `Wrappers`, `Ints` | `wrappers.dfy` | `Option`, `Result`, `Outcome`; Go's `int64`/`uint64`/`uint32` ranges and reinterpretation |
| `Text` | `text.dfy` | the parts of Go's `strings` and `strconv` the core calls: ASCII case mapping, `Atoi`, decimal formatting, `Split`, `Contains`, `TrimSpace`, byte-wise ordering |
| `Pid` | `pid.dfy` | `pkg/pid/id.go`: layout, the allocator (`New`) as a class, encoder, decoder table, decoder, JSON |
| `Schema` | `schema.dfy` | `pkg/ent/schema`: entities as datatypes, field validators, the image hook |
| `Enums` | `enums.dfy` | `pkg/database/enums.go` |
| `Queue` | `queue.dfy` | the task-table statements the worker issues, as functions on the table |
| `Store` | `store.dfy` | `pkg/database/files.go`: the `Database` class holding the tables and the image directory |
| `ScaleImage` | `scale_img.dfy` | `pkg/worker/scale_img.go` |
| `Workers` | `worker.dfy` | `pkg/worker/worker.go`: `Workforce`, `Worker` and the buffered task channel as classes |
| `Discogs` | `discogs.dfy` | `pkg/sources/discogs.go` |
| `Handler` | `handler.dfy` | `pkg/handler/artists.go` |

Everything the Go code gets from outside is a parameter: the clock (Unix
milliseconds), the draws of the random number generator, the success or
failure of each file, decoder and database-driver call, the parsed multipart
form, and the XML token stream. The database tables are sequences in
insertion order and the image directory is a set of file names. A
transaction is modelled by computing the tables at commit and keeping the
old ones on any failure.

Integer widths are written out. Identifiers are `int64`. The decoder
accumulates in `uint64`, wrapping modulo 2^64, and reinterprets the result
as `int64`. `size_bits` is the file size truncated to `uint32`.

## Model

| member | source | states |
|---|---|---|
| Ints.UInt32Of | pkg/database/files.go:105 | the `uint32(...)` conversion: a value in [0, 2^32) congruent to its argument modulo 2^32 |
| Ints.Int64Of | pkg/pid/id.go:117 | `ID(val)` from a `uint64`: unchanged below 2^63, otherwise the value minus 2^64, which is negative |
| Text.ToUpper | pkg/database/enums.go:12 | `strings.ToUpper` on ASCII: same length, each character upper-cased and nothing else changed |
| Text.ToLower | pkg/database/enums.go:25 | `strings.ToLower` on ASCII: same length, each character lower-cased and nothing else changed |
| Text.FoldCase | pkg/database/enums.go:11-39 | case mapping is idempotent, and upper- or lower-casing first does not change the other mapping |
| Text.NatDecimal | pkg/worker/worker.go:40 | the decimal form of a natural number: digits only, with no leading zero |
| Text.Decimal | pkg/database/files.go:43 | `%d` formatting: non-empty, with a leading minus exactly for negative numbers |
| Text.Atoi | pkg/handler/artists.go:70-77 | `strconv.Atoi`: success needs a non-empty string with a sign or a digit first; a non-empty all-digit string yields its value when that is within the `int64` range and the out-of-range error otherwise |
| Text.DigitsValueOfDecimal | pkg/handler/artists.go:70 | reading back the digits of a natural number's decimal form gives the number |
| Text.AtoiOfDecimal | pkg/handler/artists.go:70-77 | `Atoi` parses every formatted `int64` back to itself |
| Text.Split | pkg/sources/discogs.go:205 | `strings.Split`: one more part than separators, and no part contains the separator |
| Text.JoinSplit | pkg/sources/discogs.go:205 | joining the parts with the separator gives back the string |
| Text.SplitAfter | pkg/sources/discogs.go:205-206 | a separator-free prefix followed by a separator becomes the first part |
| Text.SplitWithout | pkg/sources/discogs.go:205-206 | a string without the separator splits into itself alone |
| Text.FourDigitDecimal | pkg/sources/discogs.go:200-201 | years 1000 to 9999 print with exactly four characters |
| Text.Contains | pkg/sources/discogs.go:239 | `strings.Contains`: true exactly when the pattern occurs at some position |
| Text.SkipSpaces | pkg/handler/artists.go:48 | the first non-space position from a start, with only spaces before it |
| Text.DropTrailingSpaces | pkg/handler/artists.go:48 | the end of a range once trailing spaces are dropped, with only spaces after it |
| Text.TrimSpace | pkg/handler/artists.go:48 | `strings.TrimSpace`: a substring bounded by spaces only, and neither starting nor ending with a space |
| Text.TrimSpaceIdempotent | pkg/handler/artists.go:48 | trimming twice is the same as trimming once |
| Text.BelowIrreflexive | pkg/pid/id_test.go:126 | byte-wise string order (`strings.Compare`) is irreflexive |
| Text.BelowAsymmetric | pkg/pid/id_test.go:126 | byte-wise string order is asymmetric |
| Text.BelowAppend | pkg/pid/id_test.go:126 | equal-length strings keep their order when extended, and equal strings are ordered by the next character |
| Pid.Tick | pkg/pid/id.go:40 | the clock masked to 43 bits: below 2^43 and congruent to the clock modulo 2^43 |
| Pid.RandomOf | pkg/pid/id.go:35-37 | a draw masked to 20 bits: at most the mask, congruent to the draw modulo 2^20 |
| Pid.Random | pkg/pid/id.go:70-72 | the random part of an ID never exceeds the mask |
| Pid.PackLayout | pkg/pid/id.go:55 | packing a tick and a random part gives a non-negative `int64` from which `Time` and `Random` recover both parts |
| Pid.Pack | pkg/pid/id.go:55 | the tick shifted left by 20 bits and OR-ed with the random part: a non-negative ID whose low 20 bits are the random part |
| Pid.Time | pkg/pid/id.go:65-68 | the time part of a non-negative ID is a 43-bit tick |
| Pid.UnpackPack | pkg/pid/id.go:65-72 | every non-negative ID is the packing of its own time and random parts |
| Pid.PackTickOrder | pkg/pid/id.go:55 | an earlier tick packs to a smaller ID, whatever the random parts |
| Pid.Adopt | pkg/pid/id.go:47-50 | a new tick clears the used set; the same tick keeps it |
| Pid.FirstUnused | pkg/pid/id.go:43-57 | the first attempt whose masked draw is unused; all earlier ones were used |
| Pid.Allocate | pkg/pid/id.go:39-63 | `New` as a function of the state, clock and draws: the window always moves to the current tick |
| Pid.AllocateLayout | pkg/pid/id.go:39-63 | `New` returns a non-negative ID carrying the current tick, and keeps the allocator state valid |
| Pid.AllocateOnNewTick | pkg/pid/id.go:47-57 | on a new tick the first draw is taken and the used set becomes just that value |
| Pid.AllocateWithinTick | pkg/pid/id.go:43-62 | within a tick: if some draw is unused the ID is fresh and added to the issued set; if all ten are used, the last draw is returned unrecorded, a duplicate |
| Pid.DuplicateOnlyWhenExhausted | pkg/pid/id.go:52-62 | a duplicate ID is only returned when all ten draws were already used in this tick |
| Pid.AllocateSeq | pkg/pid/id.go:39-63 | successive calls to `New` yield one ID per call |
| Pid.AllocateSeqStep | pkg/pid/id.go:39-63 | successive calls: each new call extends the previous results by one allocation from the state they left |
| Pid.AllocateSeqLayout | pkg/pid/id.go:39-63 | every ID from a run of `New` calls is non-negative and carries its own call's tick |
| Pid.Allocator.constructor | pkg/pid/id.go:28-31 | the package state starts with tick 0 and no used random values |
| Pid.Allocator.New | pkg/pid/id.go:39-63 | the class's `New` updates its state exactly as the allocation function specifies |
| Pid.SameTickCallsDiffer | pkg/pid/id.go:43-57 | two calls in one tick give different IDs unless the second exhausts its draws |
| Pid.Pow32Width | pkg/pid/id.go:98 | thirteen base32 digits span 2^65, enough for any `int64` |
| Pid.AlphabetAt | pkg/pid/id.go:83 | the alphabet has 32 characters, as the digit table lists them |
| Pid.AlphabetAscending | pkg/pid/id.go:83 | the alphabet is in strictly ascending byte order |
| Pid.AlphabetRange | pkg/pid/id.go:83 | every alphabet character lies between '0' and 'Z' |
| Pid.DigitsRunes | pkg/pid/id.go:100-104 | every written digit is an alphabet character |
| Pid.EncodeShape | pkg/pid/id.go:97-106 | an encoding has exactly 13 characters, all from the alphabet |
| Pid.Encode | pkg/pid/id.go:97-106 | `EncodeBase32`: always exactly 13 characters |
| Pid.DigitsPadded | pkg/pid/id.go:98-104 | a value encoded in a wider buffer is the narrower encoding padded with leading '0's |
| Pid.EncodeNonPositive | pkg/pid/id.go:100 | zero and negative IDs encode as thirteen '0's, since the loop never runs |
| Pid.EncodeBase32 | pkg/pid/id.go:97-106 | the buffer-filling loop computes the 13-digit base32 form of the ID |
| Pid.DigitValue | pkg/pid/id.go:85-95 | the decode table maps only to digit values below 32 |
| Pid.LowerDigit | pkg/pid/id.go:89 | a decodable character and its lower-case form decode to the same value |
| Pid.AlphabetDecodes | pkg/pid/id.go:87-90 | each alphabet character, and its lower-case form, decodes to its own index |
| Pid.UpperIsCanonical | pkg/pid/id.go:87-88 | a decodable character that is not lower case is the alphabet character for its value |
| Pid.UpperDigit | pkg/pid/id.go:89 | a lower-case letter other than i, l and o decodes like its upper-case form |
| Pid.DecodedRuneIsCanonical | pkg/pid/id.go:85-95 | apart from i, l and o, every decodable character is an alphabet character or its lower-case form |
| Pid.BuildDecodeTable | pkg/pid/id.go:85-95 | the table-building loop yields exactly the decodable characters, each with its value |
| Pid.TableComplete | pkg/pid/id.go:87-93 | a table holding the alphabet, its lower case and i, l, o covers every decodable character |
| Pid.DecodeBase32 | pkg/pid/id.go:108-118 | the decoding loop computes the decoder's result, including its error |
| Pid.DecodeFrom | pkg/pid/id.go:110-117 | the decoding loop from an accumulator fails exactly when some remaining character is outside the table |
| Pid.Decode | pkg/pid/id.go:108-118 | `DecodeBase32` fails exactly when some character is outside the table |
| Pid.DecodeWithoutWrap | pkg/pid/id.go:115 | while the accumulated value stays below 2^64, decoding yields the plain base32 value |
| Pid.RoundTrip | pkg/pid/id_test.go:23-43 | decoding the encoding of a non-negative ID gives the ID back |
| Pid.NegativeEncodesAsZero | pkg/pid/id_test.go:145-158 | for a negative ID, encode then decode gives 0, not the ID |
| Pid.DecodeFailure | pkg/pid/id.go:110-114 | decoding fails exactly when some character is outside the table; the error names the first such character |
| Pid.RejectsExcludedLetters | pkg/pid/id_test.go:59-64 | any string containing I, L, O, U or u fails to decode |
| Pid.DecodeNormalized | pkg/pid/id_test.go:45-57 | replacing lower-case i or l by 1, or lower-case o by 0, does not change the decoded result |
| Pid.UpperAmbiguousRejected | pkg/pid/id.go:85-118 | the replacement is lower-case only: a string holding an upper-case I, L or O fails to decode |
| Pid.DecodeLowerCase | pkg/pid/id.go:89 | decoding is case-insensitive for decodable strings |
| Pid.DecodeWrapsToNegative | pkg/pid/id.go:115-117 | "8" followed by twelve '0's decodes to the smallest `int64`, wrapping rather than failing |
| Pid.DecodeIgnoresLength | pkg/pid/id.go:108-118 | a 14-character "1" followed by thirteen '0's decodes to 0: length is not checked and overflow is silent |
| Pid.EncodeOrder | pkg/pid/id_test.go:110-143 | for non-negative IDs, a smaller ID is exactly one whose encoding sorts first byte-wise |
| Pid.EarlierTickEncodesSmaller | pkg/pid/id_test.go:110-129 | an ID from an earlier tick encodes to a string that sorts first |
| Pid.UnmarshalJSON | pkg/pid/id.go:124-135 | on failure the target ID is left unchanged |
| Pid.MarshalJSON | pkg/pid/id.go:120-122 | the JSON form is a quoted string of 13 alphabet characters, so it needs no escapes |
| Pid.UnmarshalString | pkg/pid/id.go:125-128 | a JSON string other than `null` is read as its quoted contents, which hold no quote or backslash |
| Pid.JSONRoundTrip | pkg/pid/id_test.go:78-92 | unmarshalling the JSON form of a non-negative ID restores it |
| Pid.NullUnmarshalsToZero | pkg/pid/id.go:126-133 | JSON `null` leaves the string empty, which decodes to ID 0 |
| Schema.ParseStatus | pkg/ent/schema/task.go:23-29 | a parsed status has exactly the parsed name |
| Schema.StatusNameRoundTrip | pkg/ent/schema/task.go:23-29 | every status parses back from its name, and distinct statuses have distinct names |
| Schema.NewTask | pkg/ent/schema/task.go:17-40 | a new task is pending, has no error, and has both timestamps set to now |
| Schema.SetStatus | pkg/ent/schema/task.go:23-38 | a status update keeps the identity, type, payload, creation time and error, and stamps `updated_at` |
| Schema.ValidateTask | pkg/ent/schema/task.go:19-22 | a task passes validation exactly when its type is `scale_img` |
| Schema.ValidateImage | pkg/ent/schema/image.go:22-52 | an image passes exactly when file and original name are non-empty and both sides lie in 16..10000 |
| Schema.ImageHook | pkg/ent/schema/image.go:73-92 | the hook can only fail with the "both were provided" message |
| Schema.ImageHookRejects | pkg/ent/schema/image.go:76-89 | the hook fails exactly for a create or update linked to both a release and an artist; neither, or one of them, passes |
| Schema.ValidateProcessed | pkg/ent/schema/processedimage.go:18-29 | a processed image passes exactly when its side lies in 16..3000 and its thumbnail is set and non-empty; an unset thumbnail fails with ent's "missing required field" message, an empty one with the validator message |
| Schema.ValidateArtist | pkg/ent/schema/artist.go:15-20 | an artist passes exactly when its name is non-empty |
| Enums.ImageTypeCaseInsensitive | pkg/database/enums.go:11-22 | strings equal up to upper-casing parse to the same image type or both fail |
| Enums.ImageTypeErrors | pkg/database/enums.go:19-20 | parsing fails exactly for spellings outside WEBP, PNG, JPG and JPEG, with a message quoting the input |
| Enums.ImageTypeExamples | pkg/database/enums.go:17-18 | JPG and JPEG, in any case, both give JPG; the lower-case names parse |
| Enums.ImageTypeRoundTrip | pkg/database/enums.go:11-22 | every image type parses back from its name, in upper or lower case |
| Enums.ParseImageType | pkg/database/enums.go:11-22 | an accepted input has 3 or 4 characters; the error is "invalid ImageType: " followed by the input quoted as `%q` quotes it |
| Enums.ReleaseTypeErrors | pkg/database/enums.go:36-37 | parsing fails exactly for names outside the five release types, with a message quoting the input |
| Enums.ReleaseTypeCaseInsensitive | pkg/database/enums.go:24-39 | strings equal up to lower-casing parse to the same release type or both fail |
| Enums.ReleaseTypeRoundTrip | pkg/database/enums.go:24-39 | every release type parses back from its stored name |
| Enums.EscapeChar | pkg/database/enums.go:20 | `%q`'s escape of one character: a quote or backslash gets a backslash, printable ASCII is kept, the seven control characters with a short escape use it and the other control characters become `\x` and two hex digits; a character is kept as it is exactly when it needs no escape |
| Enums.QuoteBody | pkg/database/enums.go:20 | the escaped text is at least as long as the input and holds only printable ASCII or kept non-ASCII characters |
| Enums.Quoted | pkg/database/enums.go:20 | the quoted text starts and ends with a double quote and holds no raw control character |
| Enums.QuotedPlain | pkg/database/enums.go:37 | a string that needs no escape is quoted by wrapping it in double quotes |
| Enums.QuotedEscapesQuote | pkg/database/enums.go:37 | a double quote inside the input is written back-slashed |
| Enums.ParseReleaseType | pkg/database/enums.go:24-39 | an accepted input has 2 to 11 characters; the error is "invalid ReleaseType: " followed by the input quoted as `%q` quotes it |
| Queue.CountStatus | pkg/worker/worker.go:65-68 | a status count never exceeds the table size |
| Queue.Recover | pkg/worker/worker.go:65-68 | start-up recovery turns every working task back to pending, stamped now, and leaves every other row as it was |
| Queue.RecoverCount | pkg/worker/worker.go:65-73 | after recovery nothing is working, pending gains exactly the tasks that were working, and other counts are unchanged |
| Queue.RecoverIdempotent | pkg/worker/worker.go:65-68 | recovering twice is the same as recovering once |
| Queue.PendingRows | pkg/worker/worker.go:110-111 | the pending filter keeps exactly the pending rows |
| Queue.InsertByCreated | pkg/worker/worker.go:112 | inserting into a sorted list adds exactly that task (the multiset gains it) and keeps creation-time order |
| Queue.NotOlderThanHead | pkg/worker/worker.go:112 | the head of a sorted list is the oldest |
| Queue.SortByCreated | pkg/worker/worker.go:112 | `ORDER BY created_at`: a permutation of the rows (same multiset), sorted by creation time |
| Queue.ConsInsert | pkg/worker/worker.go:112 | putting an older head in front of the insertion into the tail keeps the multiset, the set of rows and the order |
| Queue.InsertUnique | pkg/worker/worker.go:112 | inserting a task with a new ID keeps IDs unique |
| Queue.SortUnique | pkg/worker/worker.go:112 | sorting keeps IDs unique |
| Queue.PendingRowsUnique | pkg/worker/worker.go:110-111 | filtering keeps IDs unique |
| Queue.OldestPending | pkg/worker/worker.go:110-114 | the claim selects min(10, number of pending tasks) rows |
| Queue.PrefixOfSorted | pkg/worker/worker.go:112-113 | a prefix of a sorted list is sorted and holds no row newer than one it left out |
| Queue.OldestPendingSelects | pkg/worker/worker.go:110-114 | the selected rows are pending rows of the table with unique IDs, in age order, and none is newer than any pending task left out |
| Queue.MarkWorking | pkg/worker/worker.go:128-132 | the rows whose IDs are claimed become working, stamped now; all other rows are unchanged |
| Queue.ClaimMarksSelected | pkg/worker/worker.go:110-132 | after a claim, exactly the selected pending rows have become working |
| Queue.UpdateOne | pkg/worker/worker.go:177-180 | updating one task succeeds exactly when its ID exists; it changes only that row's status, error and `updated_at` |
| Queue.TableStepsAreTransitions | pkg/ent/schema/task.go:23-29 | recovery and claiming only take permitted status transitions |
| Queue.Transition | pkg/ent/schema/task.go:23-29 | the status changes the workforce makes: `done` and `error` are final, and only a pending or working row becomes pending |
| Queue.UpdatesKeepUniqueIds | pkg/ent/schema/mixin.go:14-22 | recovery, claiming and single-task updates keep task IDs unique |
| Store.CheckUpload | pkg/database/files.go:35-44 | an upload passes exactly when its MIME type is allowed and its size is at most 5 MiB; the two error messages match the source |
| Store.UploadSizeBoundary | pkg/database/files.go:29 | exactly 5 MiB is accepted and one byte more is refused |
| Store.PayloadRoundTrip | pkg/database/files.go:88-90 | the task payload written for an image reads back to that image's ID |
| Store.ScalePayload | pkg/database/files.go:88-90 | the payload is the `{"ImageId":` prefix, the 15-character quoted ID and a closing brace |
| Store.ParseScalePayload | pkg/worker/scale_img.go:19-23 | only a payload of that shape unmarshals |
| Store.CreateImage | pkg/database/files.go:100-115 | an image insert succeeds only for valid fields and a fresh ID |
| Store.CreateTask | pkg/database/files.go:124-133 | a task insert succeeds only for a valid type and a fresh ID |
| Store.ImageRow | pkg/database/files.go:100-109 | the inserted row carries the new ID, its encoded file name, the original name, decoded sides and type, and no release or artist link |
| Store.SaveImgGateFirst | pkg/database/files.go:35-44 | a refused MIME type or size changes nothing and draws no ID |
| Store.SaveImgSpec | pkg/database/files.go:33-143 | `SaveImg` as a function of the state: it never touches processed images or artists, and on an error it keeps the image and task tables |
| Store.SaveImgFrame | pkg/database/files.go:95-138 | saving an upload never touches processed images or artists, and on any error keeps the image and task tables |
| Store.SaveImgAtomic | pkg/database/files.go:33-143 | on success one image and one pending `scale_img` task are appended, the payload names the image, and the image's file is in the image directory |
| Store.SaveImgKeepsRenamedFile | pkg/database/files.go:116-138 | when the task insert or commit fails after the rename, the tables roll back but the renamed file stays in the image directory |
| Store.SaveImgKeepsTablesValid | pkg/database/files.go:33-143 | saving an upload keeps every table's rows valid and their IDs unique |
| Store.ProcRow | pkg/database/files.go:178-183 | the builder with `SetThumb` added: a WEBP row with the new ID, the image's width, the source ID and the thumbnail; otherwise the row as written |
| Store.ProcRowAsWritten | pkg/database/files.go:178-183 | the builder as written: a WEBP row with the new ID, the image's width and the source ID, and no thumbnail |
| Store.ProcRowsAsWritten | pkg/database/files.go:168-192 | one as-written row per derived image, in order |
| Store.CheckRows | pkg/database/files.go:194 | the builders' checks in order: pass exactly when every row is valid, otherwise the first invalid row's validation error |
| Store.AsWrittenBulkFails | pkg/ent/schema/processedimage.go:28-29 | as written, a bulk save of one or more derived rows always fails; when the first side is in range the error is the missing `thumb` |
| Store.ThumbedRowsCheck | pkg/ent/schema/processedimage.go:24-29 | with a non-empty thumbnail on every row, the checks pass exactly when every side is in 16..3000 |
| Store.ProcRows | pkg/database/files.go:168-192 | one row with its thumbnail per derived image, in order |
| Store.CreateBulk | pkg/database/files.go:194-200 | with no rows nothing is sent and the insert succeeds; otherwise it succeeds only if every row is valid, all IDs stay unique and the driver passes; when some row is invalid the error is the validation error of the first invalid row |
| Store.FileNamesSnoc | pkg/database/files.go:202-210 | the renamed files of one more row are the previous set plus that row's encoded ID |
| Store.Ids | pkg/database/files.go:203 | the IDs of the saved rows, in order |
| Store.Database.constructor | pkg/database/database.go:16-29 | a freshly created database has empty tables and an empty image directory |
| Store.Database.SaveImg | pkg/database/files.go:33-143 | the method changes the tables, the image directory and the allocator exactly as the SaveImg specification says |
| Store.Database.MoveFiles | pkg/database/files.go:202-210 | the rename loop succeeds exactly when every rename does; on success all row files are added; files are never removed; tables are unchanged |
| Store.Database.SaveProcedImgs | pkg/database/files.go:145-221 | success exactly when every step passes; on success the rows are appended, their files added and the IDs allocated in order; on failure the processed table is unchanged; the allocator advances once per ID drawn, not at all when an encode or the transaction start fails; the rows are built with the thumbnail the corrected builder sets; with no images the call succeeds exactly when the transaction starts and commits, and returns no rows |
| Store.FirstFailure | pkg/database/files.go:147-161 | the index of the first failed step, with all earlier steps passing, or the length when none fails |
| Store.BuildRows | pkg/database/files.go:168-192 | the builder loop succeeds exactly when every stat and close passes, and then yields one row per image with IDs from successive `New` calls; the allocator has advanced once per image up to and including the first failed stat or close |
| Store.Drawn | pkg/database/files.go:169-192 | the number of IDs the builder loop draws: every image when all stats and closes pass, otherwise up to and including the first failing one |
| Store.DrawnAt | pkg/database/files.go:169-192 | when image i is the first whose stat or close fails, the loop has drawn i + 1 IDs |
| Store.BuildStep | pkg/database/files.go:169-192 | one builder turn extends the IDs and rows by one, or on a failed stat or close leaves the allocator after the drawn prefix |
| Store.ProcWindowOfFullRun | pkg/database/files.go:145-192 | when every step passes, the allocator has made one `New` call per image |
| ScaleImage.CropToSquare | pkg/worker/scale_img.go:53-69 | the crop is a square with side min(width, height), inside the bounds, spanning the full shorter side |
| ScaleImage.CropIsCentred | pkg/worker/scale_img.go:65-68 | the margins on either side differ by at most one pixel, the right or bottom one being the larger |
| ScaleImage.Resize | pkg/worker/scale_img.go:40 | a resize to a size gives a square of that side |
| ScaleImage.SizesInRange | pkg/worker/scale_img.go:16 | the three derived sizes all lie in the processed-image range 16..3000 |
| ScaleImage.Prepared | pkg/worker/scale_img.go:34-36 | an image recorded as non-square is cropped to a square; a square one is used as is |
| ScaleImage.Variants | pkg/worker/scale_img.go:38-42 | one resized copy per size, in the order 64, 265, 1024 |
| ScaleImage.ResizeAll | pkg/worker/scale_img.go:38-42 | the resize loop produces exactly the variants |
| ScaleImage.VariantRowsValid | pkg/worker/scale_img.go:38-43 | every variant is square with its size as side, so every processed row recorded for it with a non-empty thumbnail is valid |
| ScaleImage.AsWrittenVariantsNeverSave | pkg/worker/scale_img.go:38-43 | as written, the bulk save of the three variants' rows always fails with the missing `thumb`, so `ScaleImg` never succeeds |
| ScaleImage.FindImage | pkg/worker/scale_img.go:25-28 | `Image.Get` returns a row with the requested ID, or reports that none has it |
| ScaleImage.ScaleInput | pkg/worker/scale_img.go:18-43 | on success, three variants and the ID of an existing image, the one the payload names |
| ScaleImage.ScaleInputOfSavedTask | pkg/worker/scale_img.go:18-43 | a task written by `SaveImg` finds its image again and scales that image's picture |
| ScaleImage.UndecodablePayloadFails | pkg/worker/scale_img.go:19-23 | a payload that does not unmarshal is returned as the error |
| ScaleImage.ScaleImg | pkg/worker/scale_img.go:18-51 | an error before the save changes nothing; otherwise success is exactly the success of every save step, which appends the derived rows and their files; images, tasks and artists are kept, files only added, and the processed table and allocator end as the save leaves them |
| Workers.AppendUnique | pkg/worker/worker.go:152-154 | joining two ID-unique task lists with no shared ID keeps IDs unique |
| Workers.ClaimedAreNotBuffered | pkg/worker/worker.go:110-114 | tasks just claimed (still pending) are not already waiting in the channel |
| Workers.MarkedAreWorking | pkg/worker/worker.go:128-132 | after a claim, every buffered and every newly claimed task is working in the table |
| Workers.ClaimKeepsBuffered | pkg/worker/worker.go:110-154 | after a claim, the channel's tasks are distinct, are in the table, and are marked working |
| Workers.FinishKeepsBuffered | pkg/worker/worker.go:172-184 | finishing or failing the head task succeeds, keeps the rest buffered, and takes a permitted transition |
| Workers.Context.constructor | pkg/worker/worker.go:36 | a new context is not cancelled |
| Workers.Channel.constructor | pkg/worker/worker.go:54 | the task channel starts empty with the given capacity |
| Workers.Channel.Push | pkg/worker/worker.go:153 | a send appends the task at the back |
| Workers.Channel.PushAll | pkg/worker/worker.go:152-154 | the send loop appends the fetched tasks in order |
| Workers.Channel.Pop | pkg/worker/worker.go:172 | a receive takes the front task, or none from an empty channel |
| Workers.Worker.constructor | pkg/worker/worker.go:39-50 | a worker has its database, its name and a fresh uncancelled context |
| Workers.Worker.Stop | pkg/worker/worker.go:191-194 | stopping cancels the worker's context |
| Workers.Worker.ProcessTask | pkg/worker/worker.go:196-207 | an unknown type fails with "... is not a valid task type" and changes nothing; success means the scale ran and the task is now done; images and artists are kept, files only added, and the processed table and allocator end as the scale leaves them |
| Workers.Worker.Step | pkg/worker/worker.go:159-189 | one loop turn: stopped when cancelled and idle on an empty channel, both changing nothing; otherwise the head task is taken and run, and marked done or failed with its error; a failed error write stops the worker; on the committed fetch transaction the error write always fails, so the turn never ends as failed |
| Workers.Worker.Run | pkg/worker/worker.go:174-185 | the task is processed; a failure is written as `error` with its message through the task's own driver, and when that write fails the worker stops and the row is kept |
| Workers.WriteError | pkg/worker/worker.go:177-180 | the error update fails with "transaction has already been committed" on a committed transaction; on the client it succeeds exactly when the row exists and the driver passes, and is the one-row update |
| Workers.CommittedWriteLeavesWorking | pkg/ent/task.go:122-127 | as written, the error write of a buffered task fails and its row is still `working` |
| Workers.UnwrappedWriteRecordsError | pkg/worker/worker.go:177-180 | with the task rebound to the client, the error write records `error` and the message on that row only and keeps the rest of the buffer valid |
| Workers.Workforce.constructor | pkg/worker/worker.go:35-61 | one uncancelled worker named by its decimal index per configured slot, each with a fresh context of its own distinct from the shared one, and an empty channel of capacity 20 |
| Workers.Workforce.Start | pkg/worker/worker.go:63-83 | start-up returns the recovery outcome and, on success, recovers the table and marks the workforce running |
| Workers.Workforce.Stop | pkg/worker/worker.go:85-89 | stopping cancels the shared context, so every worker is done |
| Workers.Workforce.FetchStep | pkg/worker/worker.go:91-157 | one fetcher turn: stop when cancelled, skip when more than 10 are buffered, otherwise claim exactly the oldest pending tasks and buffer them, or change nothing on any failure |
| Discogs.ParseYear | pkg/sources/discogs.go:200-204 | a four-digit year parses to 1 January of that year |
| Discogs.NoDash | pkg/sources/discogs.go:205 | the decimal form of a natural number has no dash |
| Discogs.ParseFullDate | pkg/sources/discogs.go:205-216 | "y-m-d" parses to that date, with day 0 read as day 1 |
| Discogs.ParseDateFallback | pkg/sources/discogs.go:199-220 | a string that is neither a four-digit number nor three dash-separated parts gives year 0, 1 January |
| Discogs.ParseDate | pkg/sources/discogs.go:199-220 | `parseDate` never gives day 0, and a date other than 1 January only comes from three dash-separated parts |
| Discogs.ParseParts | pkg/sources/discogs.go:205-216 | the dash branch never gives day 0, and anything but three parts is 1 January |
| Discogs.ConcatAppend | pkg/sources/discogs.go:166-172 | the descriptions of two format lists are those of each, concatenated |
| Discogs.ConcatHas | pkg/sources/discogs.go:166-172 | a description is flattened exactly when some format lists it |
| Discogs.FlattenDescriptions | pkg/sources/discogs.go:166-172 | the flattening loop yields every format's descriptions in order |
| Discogs.Keyword | pkg/sources/discogs.go:239-246 | a single description never classifies as Unknown |
| Discogs.ClassifyRelease | pkg/sources/discogs.go:227-247 | the classification loop computes the release type of the descriptions |
| Discogs.ClassifyIsFirstMatch | pkg/sources/discogs.go:227-247 | Unknown exactly when no description matches a keyword; otherwise the first matching description decides |
| Discogs.Classify | pkg/sources/discogs.go:227-247 | a type other than Unknown is the keyword type of some description |
| Discogs.RepressKeywords | pkg/sources/discogs.go:239-242 | "repress" contains "ep" and none of the other keywords |
| Discogs.RepressIsClassifiedEP | pkg/sources/discogs.go:239-242 | a release described only as "Repress" is classified as EP |
| Discogs.KeywordIntended | pkg/sources/discogs.go:239-242 | the corrected rule gives EP only for the description "ep" itself |
| Discogs.ClassifyIntended | pkg/sources/discogs.go:227-247 | with the whole-word EP test, a type other than Unknown is the corrected keyword type of some description |
| Discogs.IntendedEPNeedsEP | pkg/sources/discogs.go:227-247 | under the corrected rule, EP needs a description equal to "ep" ignoring case, and ["EP"] is EP |
| Discogs.RepressIsNotEPWhenIntended | pkg/sources/discogs.go:239-242 | under the corrected rule "Repress" is Unknown |
| Discogs.FirstReadError | pkg/sources/discogs.go:86-94 | the position of the first token-read error, after error-free tokens, or the stream length |
| Discogs.ItemsPrefix | pkg/sources/discogs.go:96-105 | the items of a shorter stream prefix are a prefix of those of a longer one |
| Discogs.ItemsSnoc | pkg/sources/discogs.go:96-105 | one more token adds exactly its decoded matching item, if any |
| Discogs.FlattenSnoc | pkg/sources/discogs.go:105-113 | flushing a batch appends it to the inserted items |
| Discogs.FirstReadErrorFrom | pkg/sources/discogs.go:86-94 | when no error occurs before i, the first error is at or after i, and at i if token i is an error |
| Discogs.FullAppend | pkg/sources/discogs.go:106-112 | flushing a full batch keeps every flushed call full |
| Discogs.SizedAppend | pkg/sources/discogs.go:116-122 | a final partial batch after full ones respects the size rules |
| Discogs.InsertsPassNext | pkg/sources/discogs.go:107 | one more passing insert extends the passing calls |
| Discogs.AddItem | pkg/sources/discogs.go:105-113 | appending an item keeps the items in order and flushes a full batch, returning "bulk insert: " and the error when the insert fails |
| Discogs.Feed | pkg/sources/discogs.go:96-113 | one token: skipped when it does not start a matching element or fails to decode, otherwise added |
| Discogs.ImportLoop | pkg/sources/discogs.go:86-114 | the token loop: every full batch is inserted in stream order; it stops at the first read or insert error |
| Discogs.ImportEntities | pkg/sources/discogs.go:28-122 | a failed open or `Stat` is reported with "open file: " or "stat file: " before anything is read or inserted; otherwise success exactly when the stream reads cleanly and every insert passes, and then every matching item is inserted once, in order, in batches of the batch size; a read error is reported with "read token: " |
| Discogs.FinalFlush | pkg/sources/discogs.go:116-122 | the left-over items, if any, go to one more insert whose error is returned unwrapped; the batches stay sized and in order |
| Discogs.ParseThreeParts | pkg/sources/discogs.go:205-216 | a string that is not four long and splits into three parsable parts is read part by part, day 0 becoming day 1 |
| Discogs.NamedKeepsNamed | pkg/sources/discogs.go:144-149 | the kept artists are exactly those with a non-empty name |
| Discogs.NamedAppend | pkg/sources/discogs.go:143-150 | filtering distributes over concatenation |
| Discogs.InsertArtists | pkg/sources/discogs.go:142-152 | the builder loop keeps the named artists in order; with no named artist nothing is sent and the call succeeds, otherwise the result is the bulk insert's |
| Handler.PageRules | pkg/handler/artists.go:70-80 | an unparsable offset is 0; an unparsable limit is 100; a limit above 200 becomes 200; the limit is never above 200 |
| Handler.PageOffset | pkg/handler/artists.go:70-73 | the offset is 0 or the parsed value |
| Handler.PageLimit | pkg/handler/artists.go:74-80 | the limit is never above 200, and is 100, 200 or the parsed value |
| Handler.PageDefaults | pkg/handler/artists.go:67-77 | absent parameters give offset 0 and limit 100 |
| Handler.PageOfDecimal | pkg/handler/artists.go:70-80 | a formatted offset is used as is, and a formatted limit is capped at 200 |
| Handler.PageOutOfRange | pkg/handler/artists.go:70-77 | numbers beyond `int64` fall back to the defaults |
| Handler.ArtistsGet | pkg/handler/artists.go:64-99 | the handler queries with the parsed page and replies with limit, offset and the rows, or passes the query error on |
| Handler.Matching | pkg/handler/artists.go:108-109 | the query keeps exactly the artists with the requested ID |
| Handler.MatchingEmpty | pkg/handler/artists.go:114-116 | no artist matches exactly when no artist has the ID |
| Handler.UniqueMatchesAtMostOne | pkg/handler/artists.go:117-120 | with unique IDs at most one artist matches, so "not singular" cannot arise from duplicates |
| Handler.ArtistGetId | pkg/handler/artists.go:101-123 | 400 exactly for an undecodable ID; a 200 body is an artist with the decoded ID; a query error is passed on |
| Handler.ArtistGetIdNullBody | pkg/handler/artists.go:108-122 | without a query error the handler as written and the corrected one agree; with one, the source replies 200 with a null body |
| Handler.ArtistGetIdAsWritten | pkg/handler/artists.go:101-123 | as written: 400 exactly for an undecodable ID; any other query error gives 200 with a `null` body; a present body is an artist with the decoded ID |
| Handler.ArtistGetIdOfEncoded | pkg/handler/artists.go:101-123 | for an encoded ID and unique artist IDs, the reply is 200 with that artist exactly when it exists, otherwise 404 |
| Handler.ReadForm | pkg/handler/artists.go:22-39 | the form yields a request exactly when it has a json value that unmarshals and an image; a missing json value or image is a 400 |
| Handler.CreateArtist | pkg/handler/artists.go:47-50 | the artist insert succeeds only for a non-empty name and a fresh ID; an empty name fails the name validator |
| Handler.ArtistsAdd | pkg/handler/artists.go:21-56 | the handler changes the tables and the allocator exactly as the ArtistsAdd specification says |
| Handler.ArtistsAddSpec | pkg/handler/artists.go:21-56 | `ArtistsAdd` as a function of the state: processed images are never touched; a 200 adds one image and one artist; any other reply adds no artist |
| Handler.AddRejectsIncompleteForm | pkg/handler/artists.go:27-38 | a form without json or without an image is a 400 and changes nothing |
| Handler.AddCreatesTrimmedArtist | pkg/handler/artists.go:41-55 | on 200 one image and one artist are appended; the artist's name is the trimmed, non-empty request name and it links to the new image |
| Handler.AddRejectsBlankName | pkg/handler/artists.go:47-53 | a name of only spaces is never accepted and adds no artist |
| Handler.AddKeepsArtistIdsUnique | pkg/handler/artists.go:47-50 | adding an artist keeps artist IDs unique |

## Left out

- Concurrency: the mutex in `pkg/pid`, the wait group, goroutines and the sleeps of the worker and fetcher are not modelled. Each loop becomes one step method (`Workers.Worker.Step`, `Workers.Workforce.FetchStep`), run by whoever calls it.
- The clock and the PRNG seeded from it are parameters. `Pid.Allocate` takes the Unix milliseconds and the ten random draws, one per attempt.
- Image decoding, cropping, resizing, WebP encoding and file IO are not computed. A picture is its bounds, and each IO or decode step is an outcome parameter.
- Multipart parsing and JSON unmarshalling of the request body are parameters of `Handler.ArtistsAdd`. `Pid.UnmarshalJSON` reads only a JSON string or `null`.
- The `TaskScaleImg` type is not part of this model. Its JSON form is modelled only as `{"ImageId":"<encoded id>"}`, with no white space. `Store.ParseScalePayload` accepts exactly that shape, so it refuses some payloads Go's decoder would accept.
- The ent query builder is not modelled. The ordering and paging of `ArtistsGet` are inside its `query` parameter. `Image.Get` is a lookup by ID in the table.
- ent's own error messages are abbreviated to short strings (such as "ent: image not found").
- Rollback errors are not modelled. A rollback always restores the tables, and the extra rollback message is not appended.
- Handler.ArtistsAddSpec: does not remove the upload when the artist insert fails, because `HardDeleteImg` is not part of this model; the tables are left as `SaveImg` left them.
- Handler.ArtistsAdd: for the same reason, a failed artist insert leaves the image and its task in the tables.
- Image notes, the timestamps' `time.Time` values and the `deleted_at` soft delete are not modelled. Times are integers.
- Thumbnails are not computed. The corrected builder `Store.ProcRow` takes one thumbnail per derived image from the `thumbs` field of `Store.ProcEnv`; the builder as written, `Store.ProcRowAsWritten`, sets none (see Findings).
- The `josn:"artists"` struct tag typo in `ArtistsPage` is a JSON-encoding detail outside the model. The reply carries the rows as a field.
- Discogs.ParseDate: returns the parsed (year, month, day) triple rather than `time.Date`. It does not model Go's normalisation of out-of-range months and days, for example month 0 or 13. Month 0 is returned as-is.
- Discogs.ImportEntities: does not state the message of a failed bulk insert. `Discogs.AddItem` states the "bulk insert: " wrapping inside the loop and `Discogs.FinalFlush` the unwrapped error after it.
- `len(d) == 4` in `parseDate` counts bytes. The model counts characters, which agree on every string `Atoi` accepts.
- The XML decoder is not modelled. The token stream is a sequence of read errors, start elements (with the decode outcome) and other tokens. The `total` counter is a plain integer, not atomic, and the logger goroutine is left out.
- `insertRelease` beyond classification does not compile as written, because it declares `buildersRA` twice. Only its classification loop is modelled. The MusicBrainz source is left out.
- Pid.UnmarshalJSON: reads only a JSON string without escape sequences, or `null`, with no surrounding white space. Go's decoder also accepts escapes such as `\u0030` and surrounding white space, which the model refuses. `Pid.UnmarshalString` carries the same restriction.
- Enums.ParseImageType: the quoted input in the error keeps every non-ASCII character as it is; Go's `%q` escapes non-printable runes and bytes that are not valid UTF-8, which the model does not distinguish.
- Enums.ParseReleaseType: the same limit on the quoting of non-ASCII characters as `Enums.ParseImageType`.
- Store.Database.SaveProcedImgs: builds its rows with the corrected builder `Store.ProcRow`, which sets a thumbnail. As written no builder sets one and every call with at least one image fails at the bulk insert (`Store.AsWrittenBulkFails`, see Findings).
- ScaleImage.ScaleImg: saves through the corrected `SaveProcedImgs`, so it can succeed. As written the save of the variants always fails on the missing thumbnail (`ScaleImage.AsWrittenVariantsNeverSave`).
- Workers.Worker.Step: whether the task entity is still bound to the fetcher's committed transaction is the `binding` parameter. The fetcher as written always sends bound tasks, so `CommittedTx` is the case that occurs; `Client` is the corrected case (see Findings).
- Text: `strings.ToUpper`/`ToLower` are modelled on ASCII letters only, with no Unicode case mapping. `TrimSpace` uses the white space of Go's `unicode.IsSpace`.
- Pid.RoundTrip: holds for non-negative IDs only. The fuzz test `FuzzEncodeDecodeBase32Roundtrip` draws arbitrary `int64` values, and for a negative one the encoder writes thirteen '0's (`Pid.NegativeEncodesAsZero`). IDs from `New` are never negative.

## Findings

| source | as written | input that shows it | evidently intended | confidence | as-written member | corrected member |
|---|---|---|---|---|---|---|
| pkg/handler/artists.go:108-122 | `ArtistGetId` returns 404 for not-found and 500 for not-singular, but any other query error falls through to a 200 reply whose body is `null` | a decodable ID with the database unreachable (query error "connection refused") | any other query error is returned to the caller as an error | medium, not executed | Handler.ArtistGetIdNullBody | Handler.ArtistGetId |
| pkg/sources/discogs.go:239-242 | `strings.Contains(dl, "ep")` matches any description containing the letters "ep" | the description list ["Repress"] is classified as EP | EP only for the description "EP" | medium, not executed | Discogs.RepressIsClassifiedEP | Discogs.IntendedEPNeedsEP |
| pkg/database/files.go:178-183 | the builder for each derived image never calls `SetThumb`, but `thumb` is a required, non-empty field (pkg/ent/schema/processedimage.go:28-29) | any call with at least one image, such as the three variants of a `scale_img` task: the bulk insert fails with `ent: missing required field "ProcessedImage.thumb"`, so no derived image is ever saved | every builder sets a non-empty thumbnail, and rows with sides in range are saved | high, not executed | Store.AsWrittenBulkFails | Store.ThumbedRowsCheck |
| pkg/worker/worker.go:177-180 | a failed task's error is written with `t.Update()`, which runs on the driver the entity was read with (pkg/ent/task.go:122-127); the fetcher read it inside a transaction that it committed before sending the task (pkg/worker/worker.go:110-154) | any task whose processing fails, such as one with an unknown type: the write fails with `sql: transaction has already been committed or rolled back`, the worker stops itself and the row stays `working` | the entity is unwrapped first, or the client is used as for the done write (pkg/worker/worker.go:203), so the row becomes `error` with the message | medium, not executed | Workers.CommittedWriteLeavesWorking | Workers.UnwrappedWriteRecordsError |
