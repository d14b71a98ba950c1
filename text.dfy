/** The few pieces of Go's `strings` and `strconv` packages that the core
    relies on, on strings of runes: `strconv.Atoi`, `fmt`'s `%d`,
    `strings.ToUpper`/`ToLower` (ASCII letters only), `strings.Split` with a
    one-rune separator, `strings.Contains` and `strings.TrimSpace`. */
module Text {
  import opened Wrappers
  import opened Ints

  // ---------------------------------------------------------------- case

  predicate IsAsciiUpper(c: char) { 'A' <= c <= 'Z' }
  predicate IsAsciiLower(c: char) { 'a' <= c <= 'z' }

  function UpperChar(c: char): (u: char)
    ensures !IsAsciiLower(u)
    ensures IsAsciiLower(c) ==> u as int == c as int - 32
    ensures !IsAsciiLower(c) ==> u == c
  {
    if IsAsciiLower(c) then (c as int - 32) as char else c
  }

  function LowerChar(c: char): (l: char)
    ensures !IsAsciiUpper(l)
    ensures IsAsciiUpper(c) ==> l as int == c as int + 32
    ensures !IsAsciiUpper(c) ==> l == c
  {
    if IsAsciiUpper(c) then (c as int + 32) as char else c
  }

  /** `strings.ToUpper`, restricted to ASCII letters. */
  function ToUpper(s: string): (u: string)
    ensures |u| == |s|
    ensures forall i :: 0 <= i < |s| ==> u[i] == UpperChar(s[i])
  {
    seq(|s|, i requires 0 <= i < |s| => UpperChar(s[i]))
  }

  /** `strings.ToLower`, restricted to ASCII letters. */
  function ToLower(s: string): (l: string)
    ensures |l| == |s|
    ensures forall i :: 0 <= i < |s| ==> l[i] == LowerChar(s[i])
  {
    seq(|s|, i requires 0 <= i < |s| => LowerChar(s[i]))
  }

  /** Case-folding twice is folding once, in either order. */
  lemma FoldCase(s: string)
    ensures ToUpper(ToLower(s)) == ToUpper(s)
    ensures ToLower(ToUpper(s)) == ToLower(s)
    ensures ToUpper(ToUpper(s)) == ToUpper(s)
    ensures ToLower(ToLower(s)) == ToLower(s)
  {
    forall i | 0 <= i < |s|
      ensures UpperChar(LowerChar(s[i])) == UpperChar(s[i]) && LowerChar(UpperChar(s[i])) == LowerChar(s[i])
    {
    }
  }

  // ------------------------------------------------------------- decimal

  predicate IsDigit(c: char) { '0' <= c <= '9' }

  predicate AllDigits(s: string) { forall i :: 0 <= i < |s| ==> IsDigit(s[i]) }

  function DigitChar(d: nat): (c: char)
    requires d < 10
    ensures IsDigit(c) && c as int - '0' as int == d
  {
    ('0' as int + d) as char
  }

  /** The decimal digits of `n`, most significant first, no leading zeros. */
  function NatDecimal(n: nat): (s: string)
    ensures |s| >= 1 && AllDigits(s)
    ensures |s| > 1 ==> s[0] != '0'
  {
    if n < 10 then [DigitChar(n)] else NatDecimal(n / 10) + [DigitChar(n % 10)]
  }

  /** `fmt.Sprintf("%d", n)`. */
  function Decimal(n: int): (s: string)
    ensures |s| >= 1
    ensures n < 0 <==> s[0] == '-'
  {
    if n < 0 then "-" + NatDecimal(-n) else NatDecimal(n)
  }

  /** The number a string of decimal digits denotes (leading zeros allowed). */
  function DigitsValue(s: string): nat
    requires AllDigits(s)
  {
    if s == [] then 0
    else 10 * DigitsValue(s[..|s| - 1]) + (s[|s| - 1] as int - '0' as int)
  }

  /** `strconv.Atoi` on a 64-bit platform: an optional sign, one or more
      ASCII digits and nothing else, whose value fits in an `int`. */
  function Atoi(s: string): (r: Result<Int64>)
    ensures r.Ok? ==> 0 < |s| && (IsDigit(s[0]) || s[0] == '+' || s[0] == '-')
    ensures r.Ok? && IsDigit(s[0]) ==> AllDigits(s) && r.value == DigitsValue(s)
    ensures 0 < |s| && AllDigits(s) ==>
      r == if DigitsValue(s) <= MaxInt64 then Ok(DigitsValue(s)) else Err("value out of range")
  {
    var signed := 0 < |s| && (s[0] == '+' || s[0] == '-');
    var body := if signed then s[1..] else s;
    if |body| == 0 || !AllDigits(body) then Err("invalid syntax")
    else
      var v: int := if signed && s[0] == '-' then -(DigitsValue(body) as int) else DigitsValue(body);
      if v < MinInt64 || MaxInt64 < v then Err("value out of range") else Ok(v)
  }

  lemma {:induction false} DigitsValueOfDecimal(n: nat)
    ensures DigitsValue(NatDecimal(n)) == n
  {
    if n >= 10 {
      var p := NatDecimal(n / 10);
      var s := p + [DigitChar(n % 10)];
      assert s[..|s| - 1] == p;
      DigitsValueOfDecimal(n / 10);
    }
  }

  lemma AtoiOfNatDecimal(m: nat)
    requires m <= MaxInt64
    ensures Atoi(NatDecimal(m)) == Ok(m)
  {
    DigitsValueOfDecimal(m);
    var s := NatDecimal(m);
    assert IsDigit(s[0]);
  }

  lemma AtoiOfNegativeDecimal(m: nat)
    requires 0 < m <= -MinInt64
    ensures Atoi("-" + NatDecimal(m)) == Ok(-(m as int))
  {
    DigitsValueOfDecimal(m);
    var s := "-" + NatDecimal(m);
    assert s[0] == '-' && s[1..] == NatDecimal(m);
  }

  /** `Atoi` reads back what `%d` writes, for every `int`. */
  lemma AtoiOfDecimal(n: Int64)
    ensures Atoi(Decimal(n)) == Ok(n)
  {
    if n < 0 {
      AtoiOfNegativeDecimal(-(n as int));
    } else {
      AtoiOfNatDecimal(n);
    }
  }

  // --------------------------------------------------------------- split

  function Count(c: char, s: string): nat
  {
    if s == [] then 0 else (if s[0] == c then 1 else 0) + Count(c, s[1..])
  }

  /** `strings.Split(s, [sep])`: the maximal runs between separators; the
      empty string splits into one empty part. */
  function Split(s: string, sep: char): (parts: seq<string>)
    ensures |parts| == Count(sep, s) + 1
    ensures forall i :: 0 <= i < |parts| ==> sep !in parts[i]
  {
    if s == [] then [""]
    else
      var rest := Split(s[1..], sep);
      if s[0] == sep then [""] + rest
      else [[s[0]] + rest[0]] + rest[1..]
  }

  function Join(parts: seq<string>, sep: char): string
    requires |parts| > 0
  {
    if |parts| == 1 then parts[0] else parts[0] + [sep] + Join(parts[1..], sep)
  }

  /** Splitting loses nothing: joining the parts back gives the input. */
  lemma {:induction false} JoinSplit(s: string, sep: char)
    ensures Join(Split(s, sep), sep) == s
  {
    if s != [] {
      var rest := Split(s[1..], sep);
      JoinSplit(s[1..], sep);
      if s[0] == sep {
        assert Split(s, sep)[1..] == rest;
      } else {
        var parts := Split(s, sep);
        if |rest| == 1 {
          assert parts == [[s[0]] + rest[0]];
        } else {
          assert parts[1..] == rest[1..];
          assert Join(rest, sep) == rest[0] + [sep] + Join(rest[1..], sep);
        }
      }
    }
  }

  /** A part without the separator, followed by the separator, splits off
      as the first part. */
  lemma {:induction false} SplitAfter(p: string, sep: char, rest: string)
    requires sep !in p
    ensures Split(p + [sep] + rest, sep) == [p] + Split(rest, sep)
    decreases |p|
  {
    var s := p + [sep] + rest;
    if p == [] {
      assert s == [sep] + rest && s[1..] == rest;
    } else {
      assert s[1..] == p[1..] + [sep] + rest;
      SplitAfter(p[1..], sep, rest);
      assert [p[0]] + p[1..] == p;
    }
  }

  /** A string without the separator is its own single part. */
  lemma {:induction false} SplitWithout(p: string, sep: char)
    requires sep !in p
    ensures Split(p, sep) == [p]
    decreases |p|
  {
    if p != [] {
      SplitWithout(p[1..], sep);
      assert [p[0]] + p[1..] == p;
    }
  }

  /** Decimal digits of a number with four digits. */
  lemma FourDigitDecimal(n: nat)
    requires 1000 <= n <= 9999
    ensures |Decimal(n)| == 4
  {
    assert |NatDecimal(n / 10 / 10 / 10)| == 1;
    assert |NatDecimal(n / 10 / 10)| == 2;
    assert |NatDecimal(n / 10)| == 3;
  }

  // ------------------------------------------------------------ contains

  /** `sub` occurs in `s` starting at index `i`. */
  predicate OccursAt(s: string, sub: string, i: int)
  {
    0 <= i <= |s| - |sub| && s[i..i + |sub|] == sub
  }

  /** `strings.Contains(s, sub)`. */
  function Contains(s: string, sub: string): (r: bool)
    ensures r <==> exists i :: OccursAt(s, sub, i)
    decreases |s|
  {
    if |s| < |sub| then false
    else if s[..|sub|] == sub then assert OccursAt(s, sub, 0); true
    else
      var r := Contains(s[1..], sub);
      assert forall i :: OccursAt(s[1..], sub, i) ==> OccursAt(s, sub, i + 1);
      assert forall i :: OccursAt(s, sub, i) ==> i == 0 || OccursAt(s[1..], sub, i - 1);
      r
  }

  // ----------------------------------------------------------- trimming

  /** The white space runes of Go's `unicode.IsSpace` outside U+2000..U+200A. */
  const SpaceRunes: set<char> := {' ', '\t', '\n', '\U{000B}', '\U{000C}', '\r', '\U{0085}',
    '\U{00A0}', '\U{1680}', '\U{2028}', '\U{2029}', '\U{202F}', '\U{205F}', '\U{3000}'}

  /** Go's `unicode.IsSpace`. */
  predicate IsSpace(c: char)
  {
    c in SpaceRunes || '\U{2000}' <= c <= '\U{200A}'
  }

  /** Every rune of `s[lo..hi]` is white space. */
  predicate SpacesBetween(s: string, lo: int, hi: int)
    requires 0 <= lo <= hi <= |s|
  {
    forall k :: lo <= k < hi ==> IsSpace(s[k])
  }

  /** The index of the first rune of `s` at or after `lo` that is not white
      space (`|s|` if there is none). */
  function SkipSpaces(s: string, lo: nat): (i: nat)
    requires lo <= |s|
    ensures lo <= i <= |s| && SpacesBetween(s, lo, i)
    ensures i < |s| ==> !IsSpace(s[i])
    decreases |s| - lo
  {
    if lo == |s| || !IsSpace(s[lo]) then lo else SkipSpaces(s, lo + 1)
  }

  /** The end of `s[lo..hi]` once its trailing white space is dropped. */
  function DropTrailingSpaces(s: string, lo: nat, hi: nat): (j: nat)
    requires lo <= hi <= |s|
    ensures lo <= j <= hi && SpacesBetween(s, j, hi)
    ensures lo < j ==> !IsSpace(s[j - 1])
    decreases hi
  {
    if hi == lo || !IsSpace(s[hi - 1]) then hi else DropTrailingSpaces(s, lo, hi - 1)
  }

  /** `strings.TrimSpace`: the slice of `s` between its leading and its
      trailing white space; it neither starts nor ends with a space. */
  function TrimSpace(s: string): (r: string)
    ensures var i := SkipSpaces(s, 0);
      exists j :: i <= j <= |s| && r == s[i..j] && SpacesBetween(s, 0, i) && SpacesBetween(s, j, |s|)
    ensures r == [] || (!IsSpace(r[0]) && !IsSpace(r[|r| - 1]))
  {
    var i := SkipSpaces(s, 0);
    var j := DropTrailingSpaces(s, i, |s|);
    s[i..j]
  }

  /** Trimming an already trimmed string changes nothing. */
  lemma TrimSpaceIdempotent(s: string)
    ensures TrimSpace(TrimSpace(s)) == TrimSpace(s)
  {
  }

  // ------------------------------------------------------ byte ordering

  /** `strings.Compare(s, t) < 0`: `s` sorts strictly before `t`. */
  predicate Below(s: string, t: string)
  {
    if s == [] then t != []
    else t != [] && (s[0] < t[0] || (s[0] == t[0] && Below(s[1..], t[1..])))
  }

  lemma {:induction false} BelowIrreflexive(s: string)
    ensures !Below(s, s)
  {
    if s != [] { BelowIrreflexive(s[1..]); }
  }

  lemma {:induction false} BelowAsymmetric(s: string, t: string)
    requires Below(s, t)
    ensures !Below(t, s)
  {
    if s != [] && t != [] && s[0] == t[0] { BelowAsymmetric(s[1..], t[1..]); }
  }

  /** Comparing two strings of the same length extended by one rune each:
      the prefixes decide, and the last runes decide between equal prefixes. */
  lemma {:induction false} BelowAppend(p: string, q: string, x: char, y: char)
    requires |p| == |q|
    requires Below(p, q) || (p == q && x < y)
    ensures Below(p + [x], q + [y])
  {
    if p != [] {
      assert (p + [x])[1..] == p[1..] + [x];
      assert (q + [y])[1..] == q[1..] + [y];
      if p[0] == q[0] && (Below(p[1..], q[1..]) || (p == q && x < y)) {
        BelowAppend(p[1..], q[1..], x, y);
      }
    }
  }
}
