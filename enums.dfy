/** `ParseImageType` and `ParseReleaseType` (pkg/database/enums.go): a
    `switch` on the case-folded input. The copy of `ParseImageType` in
    pkg/database/files.go has the same cases and is this one function. */
module Enums {
  import opened Wrappers
  import opened Schema
  import Text

  const HexDigits: string := "0123456789abcdef"

  /** A character `strconv.Quote` writes as it is: printable ASCII other
      than the quote and the backslash, or a character beyond ASCII. */
  predicate PlainChar(c: char)
  {
    (' ' <= c <= '~' && c != '"' && c != '\\') || c as int >= 0x80
  }

  /** How `%q` writes one character: a backslash before `"` and `\`, the
      short escapes for bell, backspace, form feed, newline, carriage
      return, tab and vertical tab, `\x` and two lower-case hex digits for
      the other ASCII control characters and DEL. Characters beyond ASCII
      are written as they are. */
  function EscapeChar(c: char): (e: string)
    ensures 1 <= |e| <= 4
    ensures PlainChar(c) <==> e == [c]
    ensures forall i :: 0 <= i < |e| ==> ' ' <= e[i] <= '~' || (e[i] == c && c as int >= 0x80)
  {
    if c == '"' || c == '\\' then ['\\', c]
    else if ' ' <= c <= '~' || c as int >= 0x80 then [c]
    else if c as int == 7 then "\\a"
    else if c as int == 8 then "\\b"
    else if c as int == 12 then "\\f"
    else if c == '\n' then "\\n"
    else if c == '\r' then "\\r"
    else if c == '\t' then "\\t"
    else if c as int == 11 then "\\v"
    else ['\\', 'x', HexDigits[c as int / 16], HexDigits[c as int % 16]]
  }

  /** The characters of `s`, each written as `%q` writes it. */
  function QuoteBody(s: string): (b: string)
    ensures |b| >= |s|
    ensures forall i :: 0 <= i < |b| ==> ' ' <= b[i] <= '~' || b[i] as int >= 0x80
  {
    if s == [] then [] else EscapeChar(s[0]) + QuoteBody(s[1..])
  }

  /** `%q` of a string: quoted, with every character escaped as Go does;
      the result has no control character. */
  function Quoted(s: string): (q: string)
    ensures |q| >= |s| + 2 && q[0] == '"' && q[|q| - 1] == '"'
    ensures forall i :: 0 <= i < |q| ==> ' ' <= q[i] <= '~' || q[i] as int >= 0x80
  {
    "\"" + QuoteBody(s) + "\""
  }

  /** A string with nothing to escape is quoted as it is. */
  lemma {:induction false} QuotedPlain(s: string)
    requires forall i :: 0 <= i < |s| ==> PlainChar(s[i])
    ensures QuoteBody(s) == s
    ensures Quoted(s) == "\"" + s + "\""
  {
    if s != [] {
      QuotedPlain(s[1..]);
      assert s == [s[0]] + s[1..];
    }
  }

  /** A quote inside the input is escaped in the message. */
  lemma QuotedEscapesQuote()
    ensures Quoted("a\"b") == "\"a\\\"b\""
  {
    assert "a\"b"[1..] == "\"b";
    assert "a\"b"[1..][1..] == "b";
  }

  /** `ParseImageType`: upper-case, then match against the names; the
      error quotes the input as given. */
  function ParseImageType(s: string): (r: Result<ImageType>)
    ensures r.Ok? ==> |s| == 3 || |s| == 4
    ensures r.Err? ==> r.msg == "invalid ImageType: " + Quoted(s)
  {
    var u := Text.ToUpper(s);
    if u == "WEBP" then Ok(WEBP)
    else if u == "PNG" then Ok(PNG)
    else if u == "JPG" || u == "JPEG" then Ok(JPG)
    else Err("invalid ImageType: " + Quoted(s))
  }

  /** The spellings `ParseImageType` accepts, after upper-casing. */
  predicate ImageTypeSpelling(u: string)
  {
    u == "WEBP" || u == "PNG" || u == "JPG" || u == "JPEG"
  }

  /** Upper-casing and lower-casing `s` never changes which type it
      names, so "webp", "Png" and "jpeg" are all accepted. */
  lemma ImageTypeCaseInsensitive(s: string, t: string)
    requires Text.ToUpper(s) == Text.ToUpper(t)
    ensures ParseImageType(s).Ok? <==> ParseImageType(t).Ok?
    ensures ParseImageType(s).Ok? ==> ParseImageType(s) == ParseImageType(t)
  {
  }

  /** An error exactly for the strings outside the four spellings, and the
      message quotes the input as given. */
  lemma ImageTypeErrors(s: string)
    ensures ParseImageType(s).Err? <==> !ImageTypeSpelling(Text.ToUpper(s))
    ensures ParseImageType(s).Err? ==> ParseImageType(s).msg == "invalid ImageType: " + Quoted(s)
  {
  }

  /** "jpg" and "jpeg", in any case, both give JPG; "webp" gives WEBP and
      "png" gives PNG. */
  lemma ImageTypeExamples(s: string)
    ensures Text.ToUpper(s) == "JPG" || Text.ToUpper(s) == "JPEG" ==> ParseImageType(s) == Ok(JPG)
    ensures ParseImageType("webp") == Ok(WEBP) && ParseImageType("png") == Ok(PNG)
    ensures ParseImageType("jpg") == Ok(JPG) && ParseImageType("jpeg") == Ok(JPG)
  {
    assert Text.ToUpper("webp") == "WEBP";
    assert Text.ToUpper("png") == "PNG";
    assert Text.ToUpper("jpg") == "JPG";
    assert Text.ToUpper("jpeg") == "JPEG";
  }

  /** Every image type parses back from its column value, in upper or
      lower case. */
  lemma ImageTypeRoundTrip(t: ImageType)
    ensures ParseImageType(ImageTypeName(t)) == Ok(t)
    ensures ParseImageType(Text.ToLower(ImageTypeName(t))) == Ok(t)
  {
    Text.FoldCase(ImageTypeName(t));
    match t
    case WEBP => assert Text.ToUpper("WEBP") == "WEBP";
    case PNG => assert Text.ToUpper("PNG") == "PNG";
    case JPG => assert Text.ToUpper("JPG") == "JPG";
  }

  /** `ParseReleaseType`: lower-case, then match against the names; the
      error quotes the input as given. */
  function ParseReleaseType(s: string): (r: Result<ReleaseType>)
    ensures r.Ok? ==> 2 <= |s| <= 11
    ensures r.Err? ==> r.msg == "invalid ReleaseType: " + Quoted(s)
  {
    var l := Text.ToLower(s);
    if l == "album" then Ok(Album)
    else if l == "compilation" then Ok(Compilation)
    else if l == "ep" then Ok(EP)
    else if l == "single" then Ok(Single)
    else if l == "unknown" then Ok(Unknown)
    else Err("invalid ReleaseType: " + Quoted(s))
  }

  predicate ReleaseTypeSpelling(l: string)
  {
    l == "album" || l == "compilation" || l == "ep" || l == "single" || l == "unknown"
  }

  /** Exactly the five lower-cased spellings are accepted and anything
      else is an error quoting the input; "unknown" is a value, not an
      error. */
  lemma ReleaseTypeErrors(s: string)
    ensures ParseReleaseType(s).Err? <==> !ReleaseTypeSpelling(Text.ToLower(s))
    ensures ParseReleaseType(s).Err? ==> ParseReleaseType(s).msg == "invalid ReleaseType: " + Quoted(s)
    ensures ParseReleaseType("unknown") == Ok(Unknown)
  {
    assert Text.ToLower("unknown") == "unknown";
  }

  lemma ReleaseTypeCaseInsensitive(s: string, t: string)
    requires Text.ToLower(s) == Text.ToLower(t)
    ensures ParseReleaseType(s).Ok? <==> ParseReleaseType(t).Ok?
    ensures ParseReleaseType(s).Ok? ==> ParseReleaseType(s) == ParseReleaseType(t)
  {
  }

  /** Every schema value, the upper-case "EP" included, parses back to the
      same release type. */
  lemma ReleaseTypeRoundTrip(t: ReleaseType)
    ensures ParseReleaseType(ReleaseTypeName(t)) == Ok(t)
  {
    match t
    case Album => assert Text.ToLower("album") == "album";
    case Single => assert Text.ToLower("single") == "single";
    case EP => assert Text.ToLower("EP") == "ep";
    case Compilation => assert Text.ToLower("compilation") == "compilation";
    case Unknown => assert Text.ToLower("unknown") == "unknown";
  }
}
