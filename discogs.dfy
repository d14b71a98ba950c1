/** The Discogs importer (pkg/sources/discogs.go): the streaming, batching
    loop of `ImportEntities`, the empty-name filter of `insertArtists`,
    release-date parsing, the flattening of format descriptions and the
    release-type classification of `insertRelease`. The XML decoder is the
    token sequence it yields, and the bulk inserts are the outcomes they
    report. */
module Discogs {
  import opened Wrappers
  import opened Schema
  import Text

  // ------------------------------------------------------------ dates

  /** The year, month and day `time.Date` is called with. */
  datatype Date = Date(year: int, month: int, day: int)

  /** `parseDate`: a four-character year, or `year-month-day` with a day of
      zero taken as the first; anything else is year zero. */
  function ParseDate(d: string): (r: Date)
    ensures r.day != 0
    ensures (r.month == 1 && r.day == 1) || |Text.Split(d, '-')| == 3
  {
    if |d| == 4 && Text.Atoi(d).Ok? then Date(Text.Atoi(d).value, 1, 1)
    else ParseParts(Text.Split(d, '-'))
  }

  /** The `year-month-day` branch of `parseDate`, on the split parts. */
  function ParseParts(parts: seq<string>): (r: Date)
    ensures r.day != 0
    ensures (r.month == 1 && r.day == 1) || |parts| == 3
  {
    if |parts| == 3 && Text.Atoi(parts[0]).Ok? && Text.Atoi(parts[1]).Ok? && Text.Atoi(parts[2]).Ok? then
      var day := Text.Atoi(parts[2]).value;
      Date(Text.Atoi(parts[0]).value, Text.Atoi(parts[1]).value, if day == 0 then 1 else day)
    else Date(0, 1, 1)
  }

  /** A four-digit year means January 1 of that year. */
  lemma ParseYear(y: nat)
    requires 1000 <= y <= 9999
    ensures ParseDate(Text.Decimal(y)) == Date(y, 1, 1)
  {
    Text.FourDigitDecimal(y);
    Text.AtoiOfDecimal(y);
  }

  lemma NoDash(n: nat)
    ensures '-' !in Text.Decimal(n)
  {
  }

  /** A full date is taken as written, except that day zero becomes day
      one. */
  lemma ParseFullDate(y: nat, m: nat, d: nat)
    requires y <= Ints.MaxInt64 && m <= Ints.MaxInt64 && d <= Ints.MaxInt64
    ensures ParseDate(Text.Decimal(y) + "-" + Text.Decimal(m) + "-" + Text.Decimal(d))
      == Date(y, m, if d == 0 then 1 else d)
  {
    var a, b, c := Text.Decimal(y), Text.Decimal(m), Text.Decimal(d);
    NoDash(y);
    NoDash(m);
    NoDash(d);
    SplitDate(a, b, c);
    Text.AtoiOfDecimal(y);
    Text.AtoiOfDecimal(m);
    Text.AtoiOfDecimal(d);
    ParseThreeParts(a + "-" + b + "-" + c, a, b, c);
  }

  /** Three dash-free parts joined by dashes split back into them. */
  lemma SplitDate(a: string, b: string, c: string)
    requires '-' !in a && '-' !in b && '-' !in c
    ensures Text.Split(a + "-" + b + "-" + c, '-') == [a, b, c]
    ensures |a + "-" + b + "-" + c| == |a| + |b| + |c| + 2
  {
    assert a + "-" + b + "-" + c == a + ['-'] + (b + ['-'] + c);
    Text.SplitAfter(a, '-', b + ['-'] + c);
    Text.SplitAfter(b, '-', c);
    Text.SplitWithout(c, '-');
  }

  /** A string that is not four long and splits into three parsable parts
      is read part by part. */
  lemma ParseThreeParts(s: string, a: string, b: string, c: string)
    requires |s| != 4 && Text.Split(s, '-') == [a, b, c]
    requires Text.Atoi(a).Ok? && Text.Atoi(b).Ok? && Text.Atoi(c).Ok?
    ensures ParseDate(s)
      == Date(Text.Atoi(a).value, Text.Atoi(b).value, if Text.Atoi(c).value == 0 then 1 else Text.Atoi(c).value)
  {
    assert ParseDate(s) == ParseParts([a, b, c]);
  }

  /** Whatever is neither a parsable four-character string nor three
      parsable dash-separated parts falls back to year zero. */
  lemma ParseDateFallback(d: string)
    requires |d| != 4 || Text.Atoi(d).Err?
    requires Text.Count('-', d) != 2
    ensures ParseDate(d) == Date(0, 1, 1)
  {
  }

  // ----------------------------------------------------- descriptions

  datatype Format = Format(name: string, qty: string, text: string, descriptions: seq<string>)

  /** The descriptions of all formats, format by format, in order. */
  function Concat(formats: seq<Format>): seq<string>
  {
    if formats == [] then []
    else Concat(formats[..|formats| - 1]) + formats[|formats| - 1].descriptions
  }

  /** Concatenation distributes over the formats, so each format's
      descriptions appear in order and in the order of the formats. */
  lemma {:induction false} ConcatAppend(a: seq<Format>, b: seq<Format>)
    ensures Concat(a + b) == Concat(a) + Concat(b)
    decreases |b|
  {
    if b != [] {
      var n := |b| - 1;
      assert (a + b)[..|a + b| - 1] == a + b[..n];
      assert (a + b)[|a + b| - 1] == b[n];
      ConcatAppend(a, b[..n]);
      assert Concat(a + b) == Concat(a + b[..n]) + b[n].descriptions;
      assert Concat(b) == Concat(b[..n]) + b[n].descriptions;
    } else {
      assert a + b == a;
    }
  }

  /** A description is flattened exactly when some format has it. */
  lemma {:induction false} ConcatHas(formats: seq<Format>, d: string)
    ensures d in Concat(formats) <==> exists f :: f in formats && d in f.descriptions
    decreases |formats|
  {
    if formats != [] {
      var n := |formats| - 1;
      ConcatHas(formats[..n], d);
      assert forall f :: f in formats <==> f in formats[..n] || f == formats[n];
    }
  }

  /** `FlattenDescriptions`. */
  method FlattenDescriptions(formats: seq<Format>) returns (descriptions: seq<string>)
    ensures descriptions == Concat(formats)
  {
    descriptions := [];
    var i := 0;
    while i < |formats|
      invariant 0 <= i <= |formats|
      invariant descriptions == Concat(formats[..i])
    {
      descriptions := descriptions + formats[i].descriptions;
      i := i + 1;
      assert formats[..i][..i - 1] == formats[..i - 1];
    }
    assert formats[..|formats|] == formats;
  }

  // --------------------------------------------------- classification

  /** The keyword test on one lower-cased description, in the order the
      loop checks them. */
  function Keyword(dl: string): (r: Option<ReleaseType>)
    ensures r != Some(Unknown)
  {
    if Text.Contains(dl, "single") then Some(Single)
    else if Text.Contains(dl, "album") then Some(Album)
    else if Text.Contains(dl, "ep") then Some(EP)
    else if Text.Contains(dl, "compilation") then Some(Compilation)
    else None
  }

  /** The type the first matching description gives. */
  function Classify(ds: seq<string>): (t: ReleaseType)
    ensures t != Unknown ==> exists i :: 0 <= i < |ds| && Keyword(Text.ToLower(ds[i])) == Some(t)
  {
    if ds == [] then Unknown
    else match Keyword(Text.ToLower(ds[0]))
      case Some(t) => t
      case None => Classify(ds[1..])
  }

  /** The classification loop of `insertRelease`. */
  method ClassifyRelease(ds: seq<string>) returns (t: ReleaseType)
    ensures t == Classify(ds)
  {
    t := Unknown;
    var i := 0;
    while i < |ds|
      invariant 0 <= i <= |ds|
      invariant t == Unknown
      invariant Classify(ds) == Classify(ds[i..])
    {
      var dl := Text.ToLower(ds[i]);
      if Text.Contains(dl, "single") {
        t := Single;
        break;
      }
      if Text.Contains(dl, "album") {
        t := Album;
        break;
      }
      if Text.Contains(dl, "ep") {
        t := EP;
        break;
      }
      if Text.Contains(dl, "compilation") {
        t := Compilation;
        break;
      }
      assert ds[i..][1..] == ds[i + 1..];
      i := i + 1;
    }
  }

  /** The type is unknown exactly when no description has a keyword, and
      otherwise it is the keyword of the first description that has one. */
  lemma {:induction false} ClassifyIsFirstMatch(ds: seq<string>)
    ensures Classify(ds) == Unknown <==> forall i :: 0 <= i < |ds| ==> Keyword(Text.ToLower(ds[i])).None?
    ensures forall i ::
      (0 <= i < |ds| && Keyword(Text.ToLower(ds[i])).Some?
       && (forall j :: 0 <= j < i ==> Keyword(Text.ToLower(ds[j])).None?)) ==>
        Classify(ds) == Keyword(Text.ToLower(ds[i])).value
    decreases |ds|
  {
    if ds != [] {
      ClassifyIsFirstMatch(ds[1..]);
      assert forall i :: 1 <= i < |ds| ==> ds[1..][i - 1] == ds[i];
      if Keyword(Text.ToLower(ds[0])).None? {
        forall i | 0 <= i < |ds| && Keyword(Text.ToLower(ds[i])).Some?
            && (forall j :: 0 <= j < i ==> Keyword(Text.ToLower(ds[j])).None?)
          ensures Classify(ds) == Keyword(Text.ToLower(ds[i])).value
        {
          assert forall j :: 0 <= j < i - 1 ==> ds[1..][j] == ds[j + 1];
        }
      }
    }
  }

  /** None of the other keywords occurs in "repress"; "ep" does. */
  lemma RepressKeywords()
    ensures !Text.Contains("repress", "single") && !Text.Contains("repress", "album")
    ensures !Text.Contains("repress", "compilation")
    ensures Text.Contains("repress", "ep")
  {
    assert "repress"[1..] == "epress" && "epress"[1..] == "press" && "press"[1..] == "ress";
    assert "repress"[..6][0] == 'r' && "epress"[..6][0] == 'e';
    assert "repress"[..5] != "album" && "epress"[..5] != "album" && "press"[..5] != "album";
    assert "repress"[..2][0] == 'r';
    assert "epress"[..2] == ['e', 'p'];
  }

  /** "Repress" is classified as an EP: its lower-cased form contains
      "ep". */
  lemma RepressIsClassifiedEP()
    ensures Classify(["Repress"]) == EP
  {
    assert Text.ToLower("Repress") == "repress";
    RepressKeywords();
  }

  /** The keyword test with "ep" matched only as the whole description. */
  function KeywordIntended(dl: string): (r: Option<ReleaseType>)
    ensures r != Some(Unknown)
    ensures r == Some(EP) ==> dl == "ep"
  {
    if Text.Contains(dl, "single") then Some(Single)
    else if Text.Contains(dl, "album") then Some(Album)
    else if dl == "ep" then Some(EP)
    else if Text.Contains(dl, "compilation") then Some(Compilation)
    else None
  }

  /** `Classify` with the whole-word EP test. */
  function ClassifyIntended(ds: seq<string>): (t: ReleaseType)
    ensures t != Unknown ==> exists i :: 0 <= i < |ds| && KeywordIntended(Text.ToLower(ds[i])) == Some(t)
  {
    if ds == [] then Unknown
    else match KeywordIntended(Text.ToLower(ds[0]))
      case Some(t) => t
      case None => ClassifyIntended(ds[1..])
  }

  /** With the whole-word test a release is an EP only when one of its
      descriptions is "EP" in some case; "Repress" is no longer one, and
      "EP" still is. */
  lemma {:induction false} IntendedEPNeedsEP(ds: seq<string>)
    ensures ClassifyIntended(ds) == EP ==> exists i :: 0 <= i < |ds| && Text.ToLower(ds[i]) == "ep"
    ensures ClassifyIntended(["EP"]) == EP
    decreases |ds|
  {
    assert Text.ToLower("EP") == "ep";
    assert !Text.Contains("ep", "single") && !Text.Contains("ep", "album");
    if ds != [] && ClassifyIntended(ds) == EP && KeywordIntended(Text.ToLower(ds[0])).None? {
      IntendedEPNeedsEP(ds[1..]);
      var i :| 0 <= i < |ds[1..]| && Text.ToLower(ds[1..][i]) == "ep";
      assert ds[i + 1] == ds[1..][i];
    }
  }

  lemma RepressIsNotEPWhenIntended()
    ensures ClassifyIntended(["Repress"]) == Unknown
  {
    assert Text.ToLower("Repress") == "repress";
    RepressKeywords();
    assert ["Repress"][1..] == [];
  }

  // --------------------------------------------------------- batching

  /** What `decoder.Token` yields: a start element with the result of
      decoding it, any other token, or a read error. The end of the
      sequence is `io.EOF`. */
  datatype Token<T> = Start(name: string, item: Result<T>) | Other | ReadError(msg: string)

  /** The index of the first read error, or the length. */
  function FirstReadError<T>(tokens: seq<Token<T>>): (k: nat)
    ensures k <= |tokens|
    ensures forall j :: 0 <= j < k ==> !tokens[j].ReadError?
    ensures k < |tokens| ==> tokens[k].ReadError?
  {
    if tokens == [] then 0
    else if tokens[0].ReadError? then 0
    else 1 + FirstReadError(tokens[1..])
  }

  /** The item a token contributes: a decoded element with the wanted
      name; other elements and decode errors are skipped. */
  function ItemOf<T>(t: Token<T>, elementName: string): seq<T>
  {
    if t.Start? && t.name == elementName && t.item.Ok? then [t.item.value] else []
  }

  function Items<T>(tokens: seq<Token<T>>, elementName: string): seq<T>
  {
    if tokens == [] then []
    else Items(tokens[..|tokens| - 1], elementName) + ItemOf(tokens[|tokens| - 1], elementName)
  }

  lemma {:induction false} ItemsPrefix<T>(tokens: seq<Token<T>>, elementName: string, i: nat, k: nat)
    requires i <= k <= |tokens|
    ensures var a, b := Items(tokens[..i], elementName), Items(tokens[..k], elementName);
      |a| <= |b| && b[..|a|] == a
    decreases k - i
  {
    if i < k {
      ItemsPrefix(tokens, elementName, i, k - 1);
      assert tokens[..k][..k - 1] == tokens[..k - 1];
    }
  }

  function Flatten<T>(calls: seq<seq<T>>): seq<T>
  {
    if calls == [] then [] else Flatten(calls[..|calls| - 1]) + calls[|calls| - 1]
  }

  lemma ItemsSnoc<T>(tokens: seq<Token<T>>, elementName: string, i: nat)
    requires i < |tokens|
    ensures Items(tokens[..i + 1], elementName) == Items(tokens[..i], elementName) + ItemOf(tokens[i], elementName)
  {
    assert tokens[..i + 1][..i] == tokens[..i];
  }

  lemma FlattenSnoc<T>(calls: seq<seq<T>>, b: seq<T>)
    ensures Flatten(calls + [b]) == Flatten(calls) + b
  {
    assert (calls + [b])[..|calls|] == calls;
  }

  /** The size of an in-loop batch: `len(batch) >= batchSize` first holds
      at `batchSize` items, or at one when `batchSize` is zero. */
  function Chunk(batchSize: nat): nat
  {
    if batchSize == 0 then 1 else batchSize
  }

  /** The outcome of the `j`-th bulk insert. */
  function InsertOutcome(inserts: seq<Outcome>, j: nat): Outcome
  {
    if j < |inserts| then inserts[j] else Pass
  }

  /** Where the first read error is, given that none occurs before `i`. */
  lemma FirstReadErrorFrom<T>(tokens: seq<Token<T>>, i: nat)
    requires i <= |tokens|
    requires forall j :: 0 <= j < i ==> !tokens[j].ReadError?
    ensures i <= FirstReadError(tokens)
    ensures i < |tokens| && tokens[i].ReadError? ==> FirstReadError(tokens) == i
  {
  }

  /** Every batch is full. */
  predicate Full<T>(calls: seq<seq<T>>, batchSize: nat)
  {
    forall j :: 0 <= j < |calls| ==> |calls[j]| == Chunk(batchSize)
  }

  /** Every batch but the last is full, and none is empty or over full. */
  predicate Sized<T>(calls: seq<seq<T>>, batchSize: nat)
  {
    (forall j :: 0 <= j < |calls| - 1 ==> |calls[j]| == Chunk(batchSize))
    && (forall j :: 0 <= j < |calls| ==> 0 < |calls[j]| <= Chunk(batchSize))
  }

  /** The first `n` bulk inserts succeed. */
  predicate InsertsPass(inserts: seq<Outcome>, n: int)
  {
    forall j :: 0 <= j < n ==> InsertOutcome(inserts, j).Pass?
  }

  ghost predicate IsPrefix<T>(a: seq<T>, b: seq<T>)
  {
    |a| <= |b| && b[..|a|] == a
  }

  lemma FullAppend<T>(calls: seq<seq<T>>, batch: seq<T>, batchSize: nat)
    requires Full(calls, batchSize) && |batch| == Chunk(batchSize)
    ensures Full(calls + [batch], batchSize)
  {
  }

  lemma SizedAppend<T>(calls: seq<seq<T>>, batch: seq<T>, batchSize: nat)
    requires Full(calls, batchSize) && 0 < |batch| <= Chunk(batchSize)
    ensures Sized(calls + [batch], batchSize)
  {
  }

  lemma InsertsPassNext(inserts: seq<Outcome>, n: nat)
    requires InsertsPass(inserts, n) && InsertOutcome(inserts, n).Pass?
    ensures InsertsPass(inserts, n + 1)
  {
  }

  /** One decoded item joins the batch; a full batch is handed to the
      next bulk insert and, when that succeeds, counted and emptied. */
  method AddItem<T>(calls: seq<seq<T>>, batch: seq<T>, total: nat, item: T, batchSize: nat, inserts: seq<Outcome>)
    returns (calls': seq<seq<T>>, batch': seq<T>, total': nat, failed: Option<string>)
    requires Full(calls, batchSize) && InsertsPass(inserts, |calls|) && |batch| < Chunk(batchSize)
    ensures Flatten(calls') + batch' == Flatten(calls) + batch + [item]
    ensures Full(calls', batchSize) && InsertsPass(inserts, |calls'| - 1)
    ensures failed.None? ==>
      InsertsPass(inserts, |calls'|) && |batch'| < Chunk(batchSize)
      && total' == total + |Flatten(calls')| - |Flatten(calls)|
    ensures failed.Some? ==>
      batch' == [] && |calls'| == |calls| + 1 && !InsertsPass(inserts, |calls'|)
      && failed.value == "bulk insert: " + InsertOutcome(inserts, |calls|).msg
  {
    calls', batch', total', failed := calls, batch + [item], total, None;
    if |batch'| >= batchSize {
      FlattenSnoc(calls, batch');
      FullAppend(calls, batch', batchSize);
      var out := InsertOutcome(inserts, |calls|);
      calls' := calls + [batch'];
      if out.Fail? {
        return calls', [], total, Some("bulk insert: " + out.msg);
      }
      InsertsPassNext(inserts, |calls|);
      total' := total + |batch'|;
      batch' := [];
    }
  }

  /** What holds after the first `i` tokens: none is a read error, the
      batches handed over and the pending batch are their items, every
      batch handed over is full and inserted, and `total` counts them. */
  ghost predicate Progress<T>(tokens: seq<Token<T>>, elementName: string, batchSize: nat, inserts: seq<Outcome>,
                              i: nat, calls: seq<seq<T>>, batch: seq<T>, total: nat)
  {
    i <= |tokens|
    && (forall j :: 0 <= j < i ==> !tokens[j].ReadError?)
    && Flatten(calls) + batch == Items(tokens[..i], elementName)
    && Full(calls, batchSize) && InsertsPass(inserts, |calls|)
    && |batch| < Chunk(batchSize)
    && total == |Flatten(calls)|
  }

  /** One token that is not a read error: skipped, or its item added. */
  method Feed<T>(tokens: seq<Token<T>>, elementName: string, batchSize: nat, inserts: seq<Outcome>,
                 i: nat, calls: seq<seq<T>>, batch: seq<T>, total: nat)
    returns (calls': seq<seq<T>>, batch': seq<T>, total': nat, failed: Option<string>)
    requires i < |tokens| && !tokens[i].ReadError?
    requires Progress(tokens, elementName, batchSize, inserts, i, calls, batch, total)
    ensures failed.None? ==> Progress(tokens, elementName, batchSize, inserts, i + 1, calls', batch', total')
    ensures failed.Some? ==>
      Full(calls', batchSize) && InsertsPass(inserts, |calls'| - 1) && !InsertsPass(inserts, |calls'|)
      && IsPrefix(Flatten(calls'), Items(tokens[..i + 1], elementName))
      && failed.value == "bulk insert: " + InsertOutcome(inserts, |calls'| - 1).msg
  {
    var tok := tokens[i];
    ItemsSnoc(tokens, elementName, i);
    if !tok.Start? || tok.name != elementName || tok.item.Err? {
      return calls, batch, total, None;
    }
    calls', batch', total', failed := AddItem(calls, batch, total, tok.item.value, batchSize, inserts);
  }

  /** The import loop: reads tokens up to the end or the first failure,
      flushing each full batch. On success `batch` holds the items left
      over, with fewer than a full batch of them. */
  method ImportLoop<T>(tokens: seq<Token<T>>, elementName: string, batchSize: nat, inserts: seq<Outcome>)
    returns (r: Outcome, calls: seq<seq<T>>, batch: seq<T>, total: nat)
    ensures Full(calls, batchSize) && InsertsPass(inserts, |calls| - 1)
    ensures r.Pass? <==> FirstReadError(tokens) == |tokens| && InsertsPass(inserts, |calls|)
    ensures r.Pass? ==>
      Flatten(calls) + batch == Items(tokens, elementName) && |batch| < Chunk(batchSize)
      && total == |Flatten(calls)|
    ensures r.Fail? ==> batch == []
    ensures IsPrefix(Flatten(calls), Items(tokens[..FirstReadError(tokens)], elementName))
    ensures r.Fail? && InsertsPass(inserts, |calls|) ==>
      FirstReadError(tokens) < |tokens| && r.msg == "read token: " + tokens[FirstReadError(tokens)].msg
  {
    batch := [];
    calls := [];
    total := 0;
    var i := 0;
    while i < |tokens|
      invariant Progress(tokens, elementName, batchSize, inserts, i, calls, batch, total)
    {
      if tokens[i].ReadError? {
        FirstReadErrorFrom(tokens, i);
        return Fail("read token: " + tokens[i].msg), calls, [], total;
      }
      FirstReadErrorFrom(tokens, i + 1);
      var failed;
      calls, batch, total, failed := Feed(tokens, elementName, batchSize, inserts, i, calls, batch, total);
      if failed.Some? {
        ItemsPrefix(tokens, elementName, i + 1, FirstReadError(tokens));
        return Fail(failed.value), calls, [], total;
      }
      i := i + 1;
    }
    FirstReadErrorFrom(tokens, i);
    assert tokens[..|tokens|] == tokens;
    r := Pass;
  }

  /** `ImportEntities`: the batches handed to the bulk insert, the running
      total and the result. When the file does not open, or its `Stat`
      fails, nothing is read or inserted and the error is wrapped with
      "open file: " or "stat file: ". Otherwise every batch but the last
      has exactly the batch size and none is empty; together they are the
      decoded items in order, all of them when the import succeeds; every
      insert but the last succeeded, and the import succeeds exactly when
      there is no read error and every insert succeeds; the total counts
      the items of the inserts that succeeded. */
  method ImportEntities<T>(open: Outcome, stat: Outcome, tokens: seq<Token<T>>, elementName: string,
                           batchSize: nat, inserts: seq<Outcome>)
    returns (r: Outcome, calls: seq<seq<T>>, total: nat)
    ensures open.Fail? ==> r == Fail("open file: " + open.msg) && calls == [] && total == 0
    ensures open.Pass? && stat.Fail? ==> r == Fail("stat file: " + stat.msg) && calls == [] && total == 0
    ensures Sized(calls, batchSize) && InsertsPass(inserts, |calls| - 1)
    ensures IsPrefix(Flatten(calls), Items(tokens[..FirstReadError(tokens)], elementName))
    ensures r.Pass? <==>
      open.Pass? && stat.Pass? && FirstReadError(tokens) == |tokens| && InsertsPass(inserts, |calls|)
    ensures r.Pass? ==> Flatten(calls) == Items(tokens, elementName) && total == |Flatten(calls)|
    ensures r.Fail? && open.Pass? && stat.Pass? && InsertsPass(inserts, |calls|) ==>
      FirstReadError(tokens) < |tokens| && r.msg == "read token: " + tokens[FirstReadError(tokens)].msg
  {
    if open.Fail? {
      return Fail("open file: " + open.msg), [], 0;
    }
    if stat.Fail? {
      return Fail("stat file: " + stat.msg), [], 0;
    }
    var batch;
    r, calls, batch, total := ImportLoop(tokens, elementName, batchSize, inserts);
    if r.Pass? {
      assert tokens[..|tokens|] == tokens;
      r, calls, total := FinalFlush(calls, batch, total, batchSize, inserts);
    } else {
      assert Sized(calls, batchSize);
    }
  }

  /** The insert of the items left over after the loop, if there are any;
      its error is returned as it is. */
  method FinalFlush<T>(calls: seq<seq<T>>, batch: seq<T>, total: nat, batchSize: nat, inserts: seq<Outcome>)
    returns (r: Outcome, calls': seq<seq<T>>, total': nat)
    requires Full(calls, batchSize) && InsertsPass(inserts, |calls|) && |batch| < Chunk(batchSize)
    requires total == |Flatten(calls)|
    ensures Sized(calls', batchSize) && InsertsPass(inserts, |calls'| - 1)
    ensures Flatten(calls') == Flatten(calls) + batch
    ensures r.Pass? <==> InsertsPass(inserts, |calls'|)
    ensures r.Pass? ==> total' == |Flatten(calls')|
    ensures r.Fail? ==> r == InsertOutcome(inserts, |calls|)
  {
    if |batch| == 0 {
      assert Sized(calls, batchSize);
      return Pass, calls, total;
    }
    FlattenSnoc(calls, batch);
    SizedAppend(calls, batch, batchSize);
    var out := InsertOutcome(inserts, |calls|);
    calls' := calls + [batch];
    if out.Fail? {
      return out, calls', total;
    }
    InsertsPassNext(inserts, |calls|);
    r, total' := Pass, total + |batch|;
  }

  // ----------------------------------------------------------- artists

  datatype DiscogsArtist = DiscogsArtist(id: int, name: string)

  /** The entries `insertArtists` builds rows for: those with a name. */
  function Named(items: seq<DiscogsArtist>): seq<DiscogsArtist>
  {
    if items == [] then []
    else Named(items[..|items| - 1]) + (if items[|items| - 1].name == "" then [] else [items[|items| - 1]])
  }

  /** Exactly the named entries are kept. */
  lemma {:induction false} NamedKeepsNamed(items: seq<DiscogsArtist>)
    ensures forall a :: a in Named(items) <==> a in items && a.name != ""
    decreases |items|
  {
    if items != [] {
      var n := |items| - 1;
      NamedKeepsNamed(items[..n]);
      assert items == items[..n] + [items[n]];
    }
  }

  /** The filter works entry by entry, so the order of the named entries
      is kept. */
  lemma {:induction false} NamedAppend(items: seq<DiscogsArtist>, more: seq<DiscogsArtist>)
    ensures Named(items + more) == Named(items) + Named(more)
    decreases |more|
  {
    if more != [] {
      var m := |more| - 1;
      NamedAppend(items, more[..m]);
      assert (items + more)[..|items + more| - 1] == items + more[..m];
      assert (items + more)[|items + more| - 1] == more[m];
      var last := if more[m].name == "" then [] else [more[m]];
      assert Named(more) == Named(more[..m]) + last;
      assert Named(items + more) == Named(items + more[..m]) + last;
    } else {
      assert items + more == items;
    }
  }

  /** `insertArtists`: one builder per named entry, then one bulk create,
      which sends nothing and succeeds when there is no builder. */
  method InsertArtists(items: seq<DiscogsArtist>, driver: Outcome) returns (r: Outcome, builders: seq<DiscogsArtist>)
    ensures builders == Named(items)
    ensures builders == [] ==> r == Pass
    ensures builders != [] ==> r == driver
  {
    builders := [];
    var i := 0;
    while i < |items|
      invariant 0 <= i <= |items|
      invariant builders == Named(items[..i])
    {
      assert items[..i + 1][..i] == items[..i];
      if items[i].name != "" {
        builders := builders + [items[i]];
      }
      i := i + 1;
    }
    assert items[..|items|] == items;
    r := if builders == [] then Pass else driver;
  }
}
