/** The 64-bit identifier used as the primary key of every entity
    (pkg/pid/id.go): a 43-bit millisecond tick above a 20-bit random field,
    the per-tick window of random values already handed out, and the fixed
    13-rune Crockford Base32 text form used in URLs and JSON. */
module Pid {
  import opened Wrappers
  import opened Ints
  import Text

  const TimestampBits: nat := 43
  const RandomBits: nat := 20
  /** `randomMask`, `(1 << randomBits) - 1`. */
  const RandomMask: nat := 0xF_FFFF
  /** `1 << randomBits`: the number of distinct random fields. */
  const RandomSpan: nat := 0x10_0000
  /** `1 << timestampBits`: the number of distinct ticks. */
  const TickSpan: nat := 0x800_0000_0000
  const MaxAttempts: nat := 10

  /** `type ID int64`. */
  type ID = Int64

  // ------------------------------------------------------------ layout

  /** `time.Now().UnixMilli() & ((1 << timestampBits) - 1)`: on a
      two's-complement `int64`, masking keeps the residue modulo 2^43. */
  function Tick(unixMilli: int): (ts: nat)
    ensures ts < TickSpan
    ensures (unixMilli - ts) % TickSpan == 0
  {
    unixMilli % TickSpan
  }

  /** `generateRandom`: a draw of `prng.Int31()` masked to 20 bits. */
  function RandomOf(draw: nat): (r: nat)
    ensures r <= RandomMask
    ensures (draw - r) % RandomSpan == 0
  {
    draw % RandomSpan
  }

  /** `(ts << randomBits) | int64(r)`: the two fields occupy disjoint bits,
      so the OR is a sum. */
  function Pack(ts: nat, r: nat): (id: ID)
    requires ts < TickSpan && r < RandomSpan
    ensures 0 <= id && id % RandomSpan == r
  {
    ts * RandomSpan + r
  }

  /** `int64(id) >> randomBits` (the tick `ID.Time` converts to a time):
      an arithmetic shift, that is, division rounding down. */
  function Time(id: ID): (t: int)
    ensures 0 <= id ==> 0 <= t < TickSpan
  {
    id / RandomSpan
  }

  /** `ID.Random`: `uint32(int64(id) & randomMask)`, the low 20 bits. */
  function Random(id: ID): (r: nat)
    ensures r <= RandomMask
  {
    id % RandomSpan
  }

  /** Every packed ID is non-negative (the sign bit stays clear), and
      `Time` and `Random` recover the two fields it was built from. */
  lemma PackLayout(ts: nat, r: nat)
    requires ts < TickSpan && r < RandomSpan
    ensures 0 <= Pack(ts, r) < Two63
    ensures Time(Pack(ts, r)) == ts && Random(Pack(ts, r)) == r
  {
    var id := Pack(ts, r);
    assert id == ts * RandomSpan + r;
    assert id / RandomSpan == ts;
  }

  /** Conversely, every non-negative ID is the packing of its two fields. */
  lemma UnpackPack(id: ID)
    requires 0 <= id
    ensures Time(id) < TickSpan && Pack(Time(id), Random(id)) == id
  {
    assert id == (id / RandomSpan) * RandomSpan + id % RandomSpan;
  }

  /** An ID from an earlier tick is numerically smaller, whatever the
      random fields are. */
  lemma PackTickOrder(ts1: nat, r1: nat, ts2: nat, r2: nat)
    requires ts1 < ts2 < TickSpan && r1 < RandomSpan && r2 < RandomSpan
    ensures Pack(ts1, r1) < Pack(ts2, r2)
  {
    assert ts1 * RandomSpan + RandomSpan <= ts2 * RandomSpan;
  }

  // ------------------------------------------------- per-tick window

  /** `lastTs` and `usedRandom`: the tick of the last call and the random
      fields handed out during it. */
  datatype Window = Window(lastTs: int, used: set<nat>)

  predicate ValidWindow(w: Window)
  {
    0 <= w.lastTs < TickSpan && forall r :: r in w.used ==> r < RandomSpan
  }

  /** The IDs a window records as issued during its tick. */
  function Issued(w: Window): set<ID>
    requires ValidWindow(w)
  {
    set r | r in w.used :: Pack(w.lastTs, r)
  }

  /** Lines 47-50: a new tick empties the used set and becomes `lastTs`. */
  function Adopt(w: Window, ts: nat): (w': Window)
    ensures w'.lastTs == ts
    ensures w'.used == if ts == w.lastTs then w.used else {}
  {
    if ts != w.lastTs then Window(ts, {}) else w
  }

  /** The index of the first draw whose random field is not in `used`, or
      `|draws|` when every draw collides. */
  function FirstUnused(used: set<nat>, draws: seq<nat>): (k: nat)
    ensures k <= |draws|
    ensures forall j :: 0 <= j < k ==> RandomOf(draws[j]) in used
    ensures k < |draws| ==> RandomOf(draws[k]) !in used
  {
    if draws == [] || RandomOf(draws[0]) !in used then 0
    else 1 + FirstUnused(used, draws[1..])
  }

  /** What one call of `New` returns and leaves behind. */
  datatype Allocation = Allocation(id: ID, window: Window)

  /** `New` as a function of the window, the clock reading and the
      `maxAttempts` draws of the random source. */
  function Allocate(w: Window, unixMilli: int, draws: seq<nat>): (a: Allocation)
    requires |draws| == MaxAttempts
    ensures a.window.lastTs == Tick(unixMilli)
  {
    var ts := Tick(unixMilli);
    var base := Adopt(w, ts);
    var k := FirstUnused(base.used, draws);
    if k < |draws| then
      Allocation(Pack(ts, RandomOf(draws[k])), Window(ts, base.used + {RandomOf(draws[k])}))
    else
      Allocation(Pack(ts, RandomOf(draws[|draws| - 1])), base)
  }

  /** Every allocated ID is `(ts << 20) | r` for the current tick, is
      non-negative, and the window moves to that tick and stays valid. */
  lemma AllocateLayout(w: Window, unixMilli: int, draws: seq<nat>)
    requires |draws| == MaxAttempts
    ensures var a := Allocate(w, unixMilli, draws);
      0 <= a.id && Time(a.id) == Tick(unixMilli) && Random(a.id) <= RandomMask
      && a.id == Pack(Tick(unixMilli), Random(a.id))
      && a.window.lastTs == Tick(unixMilli)
      && (ValidWindow(w) ==> ValidWindow(a.window))
  {
    var ts := Tick(unixMilli);
    var base := Adopt(w, ts);
    var k := FirstUnused(base.used, draws);
    var r := if k < |draws| then RandomOf(draws[k]) else RandomOf(draws[|draws| - 1]);
    PackLayout(ts, r);
  }

  /** On a new tick the used set is cleared, so the first draw is taken
      and becomes the only recorded value. */
  lemma AllocateOnNewTick(w: Window, unixMilli: int, draws: seq<nat>)
    requires |draws| == MaxAttempts && Tick(unixMilli) != w.lastTs
    ensures var a := Allocate(w, unixMilli, draws);
      a.window == Window(Tick(unixMilli), {Random(a.id)})
      && Random(a.id) == RandomOf(draws[0])
  {
    PackLayout(Tick(unixMilli), RandomOf(draws[0]));
  }

  /** Within one tick: when some draw is unused, the first such draw is
      returned and recorded, so the ID is new for this tick; when all ten
      collide, the last draw is returned anyway, a value already handed out,
      and nothing is recorded. */
  lemma AllocateWithinTick(w: Window, unixMilli: int, draws: seq<nat>)
    requires |draws| == MaxAttempts && ValidWindow(w) && Tick(unixMilli) == w.lastTs
    ensures var a := Allocate(w, unixMilli, draws);
      ((exists j :: 0 <= j < |draws| && RandomOf(draws[j]) !in w.used) ==>
        a.id !in Issued(w) && Issued(a.window) == Issued(w) + {a.id}
        && a.window.used == w.used + {Random(a.id)})
      && ((forall j :: 0 <= j < |draws| ==> RandomOf(draws[j]) in w.used) ==>
        a.id in Issued(w) && a.window == w && Random(a.id) == RandomOf(draws[|draws| - 1]))
  {
    var ts := Tick(unixMilli);
    var a := Allocate(w, unixMilli, draws);
    var k := FirstUnused(w.used, draws);
    if k < |draws| {
      var r := RandomOf(draws[k]);
      PackLayout(ts, r);
      assert a.id !in Issued(w);
      assert Issued(a.window) == Issued(w) + {a.id};
    } else {
      var r := RandomOf(draws[|draws| - 1]);
      PackLayout(ts, r);
      assert r in w.used;
    }
  }

  /** The weakened guarantee: an ID that repeats one issued earlier in the
      same tick is returned only after all ten draws collided. */
  lemma DuplicateOnlyWhenExhausted(w: Window, unixMilli: int, draws: seq<nat>)
    requires |draws| == MaxAttempts && ValidWindow(w) && Tick(unixMilli) == w.lastTs
    requires Allocate(w, unixMilli, draws).id in Issued(w)
    ensures forall j :: 0 <= j < |draws| ==> RandomOf(draws[j]) in w.used
  {
    AllocateWithinTick(w, unixMilli, draws);
  }

  /** `New` called once per clock reading, in order: the IDs returned and
      the window left behind. */
  function AllocateSeq(w: Window, clocks: seq<int>, draws: seq<seq<nat>>): (r: (seq<ID>, Window))
    requires |clocks| == |draws| && forall i :: 0 <= i < |draws| ==> |draws[i]| == MaxAttempts
    ensures |r.0| == |clocks|
    decreases |clocks|
  {
    if clocks == [] then ([], w)
    else
      var n := |clocks| - 1;
      var prev := AllocateSeq(w, clocks[..n], draws[..n]);
      var a := Allocate(prev.1, clocks[n], draws[n]);
      (prev.0 + [a.id], a.window)
  }

  /** One more call extends the sequence by the ID that call returns. */
  lemma AllocateSeqStep(w: Window, clocks: seq<int>, draws: seq<seq<nat>>, i: nat)
    requires |clocks| == |draws| && forall j :: 0 <= j < |draws| ==> |draws[j]| == MaxAttempts
    requires i < |clocks|
    ensures var prev := AllocateSeq(w, clocks[..i], draws[..i]);
      var a := Allocate(prev.1, clocks[i], draws[i]);
      AllocateSeq(w, clocks[..i + 1], draws[..i + 1]) == (prev.0 + [a.id], a.window)
  {
    assert clocks[..i + 1][..i] == clocks[..i];
    assert draws[..i + 1][..i] == draws[..i];
  }

  /** Every ID of a run of calls has the layout of `Pack`: non-negative, with
      its tick equal to the tick of its clock reading. */
  lemma {:induction false} AllocateSeqLayout(w: Window, clocks: seq<int>, draws: seq<seq<nat>>)
    requires |clocks| == |draws| && forall i :: 0 <= i < |draws| ==> |draws[i]| == MaxAttempts
    ensures forall i :: 0 <= i < |clocks| ==>
      0 <= AllocateSeq(w, clocks, draws).0[i] && Time(AllocateSeq(w, clocks, draws).0[i]) == Tick(clocks[i])
    decreases |clocks|
  {
    if clocks != [] {
      var n := |clocks| - 1;
      AllocateSeqLayout(w, clocks[..n], draws[..n]);
      var prev := AllocateSeq(w, clocks[..n], draws[..n]);
      AllocateLayout(prev.1, clocks[n], draws[n]);
    }
  }

  /** The package-level allocator state (`lastTs`, `usedRandom`), with the
      clock and the random source passed in to `New`. */
  class Allocator {
    var lastTs: int
    var usedRandom: set<nat>

    /** The initial package state: `lastTs` zero, an empty used set. */
    constructor ()
      ensures lastTs == 0 && usedRandom == {}
    {
      lastTs := 0;
      usedRandom := {};
    }

    function State(): Window
      reads this
    {
      Window(lastTs, usedRandom)
    }

    /** `New`: up to `maxAttempts` draws, each checked against the used set
        of the current tick; the lock around each check is not modelled. */
    method New(unixMilli: int, draws: seq<nat>) returns (id: ID)
      requires |draws| == MaxAttempts
      modifies this
      ensures Allocation(id, State()) == Allocate(old(State()), unixMilli, draws)
    {
      var ts := Tick(unixMilli);
      ghost var base := Adopt(State(), ts);
      var r: nat := 0;
      var i := 0;
      while i < MaxAttempts
        invariant 0 <= i <= MaxAttempts
        invariant i == 0 ==> State() == old(State())
        invariant i > 0 ==> State() == base && r == RandomOf(draws[i - 1])
        invariant forall j :: 0 <= j < i ==> RandomOf(draws[j]) in base.used
      {
        r := RandomOf(draws[i]);
        if ts != lastTs {
          lastTs := ts;
          usedRandom := {};
        }
        if r !in usedRandom {
          usedRandom := usedRandom + {r};
          id := Pack(ts, r);
          assert FirstUnused(base.used, draws) == i;
          return;
        }
        i := i + 1;
      }
      assert FirstUnused(base.used, draws) == |draws|;
      id := Pack(ts, r);
    }
  }

  /** Two calls in the same tick whose second call finds an unused draw
      return different IDs (the first call's ID is in the window the second
      one starts from). */
  lemma SameTickCallsDiffer(w: Window, unixMilli: int, d1: seq<nat>, d2: seq<nat>)
    requires |d1| == MaxAttempts && |d2| == MaxAttempts && ValidWindow(w)
    requires exists j :: 0 <= j < |d2| && RandomOf(d2[j]) !in Allocate(w, unixMilli, d1).window.used
    ensures Allocate(Allocate(w, unixMilli, d1).window, unixMilli, d2).id != Allocate(w, unixMilli, d1).id
  {
    var a1 := Allocate(w, unixMilli, d1);
    AllocateLayout(w, unixMilli, d1);
    var ts := Tick(unixMilli);
    var k := FirstUnused(Adopt(w, ts).used, d1);
    var r1 := Random(a1.id);
    assert r1 in a1.window.used by {
      PackLayout(ts, if k < |d1| then RandomOf(d1[k]) else RandomOf(d1[|d1| - 1]));
    }
    assert a1.id in Issued(a1.window);
    AllocateWithinTick(a1.window, unixMilli, d2);
  }

  // ----------------------------------------------------------- Base32

  /** Crockford's alphabet: no I, L, O or U. */
  const Alphabet: string := "0123456789ABCDEFGHJKMNPQRSTVWXYZ"
  /** The length of every encoding: 13 runes of 5 bits cover 65 bits. */
  const Width: nat := 13

  function Pow32(n: nat): (p: nat)
    ensures p >= 1
  {
    if n == 0 then 1 else 32 * Pow32(n - 1)
  }

  lemma Pow32Width()
    ensures Pow32(Width) == 2 * Two64
  {
  }

  /** The alphabet rune at index `k`, by ranges of consecutive runes. */
  function RuneAt(k: nat): char
    requires k < 32
  {
    if k < 10 then ('0' as int + k) as char
    else if k < 18 then ('A' as int + k - 10) as char
    else if k < 20 then ('J' as int + k - 18) as char
    else if k < 22 then ('M' as int + k - 20) as char
    else if k < 27 then ('P' as int + k - 22) as char
    else ('V' as int + k - 27) as char
  }

  lemma AlphabetAt(k: nat)
    requires k < 32
    ensures |Alphabet| == 32 && Alphabet[k] == RuneAt(k)
  {
    if k < 8 { } else if k < 16 { } else if k < 24 { } else { }
  }

  /** The alphabet is in ascending rune order, so comparing encodings rune
      by rune compares digit by digit. */
  lemma AlphabetAscending()
    ensures |Alphabet| == 32
    ensures forall i, j :: 0 <= i < j < 32 ==> Alphabet[i] < Alphabet[j]
  {
    forall i, j | 0 <= i < j < 32 ensures Alphabet[i] < Alphabet[j] {
      AlphabetAt(i);
      AlphabetAt(j);
    }
  }

  /** The last `n` base-32 digits of `v`, most significant first. */
  function Digits(v: nat, n: nat): (s: string)
    ensures |s| == n
  {
    if n == 0 then [] else Digits(v / 32, n - 1) + [Alphabet[v % 32]]
  }

  /** `EncodeBase32`: the digits are written right to left while `val > 0`
      into a buffer of `'0'`, so a value that is not positive encodes as
      thirteen zeros. */
  function Encode(v: ID): (s: string)
    ensures |s| == Width
  {
    Digits(if v > 0 then v else 0, Width)
  }

  predicate AlphabetRune(c: char)
  {
    exists k :: 0 <= k < 32 && Alphabet[k] == c
  }

  /** Every rune of the alphabet is a digit or an upper-case letter. */
  lemma AlphabetRange(c: char)
    requires AlphabetRune(c)
    ensures '0' <= c <= 'Z'
  {
    var k :| 0 <= k < 32 && Alphabet[k] == c;
    AlphabetAt(k);
  }

  lemma {:induction false} DigitsRunes(v: nat, n: nat)
    ensures forall i :: 0 <= i < n ==> AlphabetRune(Digits(v, n)[i])
  {
    if n > 0 {
      DigitsRunes(v / 32, n - 1);
      var s := Digits(v, n);
      assert AlphabetRune(s[n - 1]);
      forall i | 0 <= i < n - 1 ensures AlphabetRune(s[i]) {
        assert s[i] == Digits(v / 32, n - 1)[i];
      }
    }
  }

  /** The encoding is exactly 13 runes of the alphabet. */
  lemma EncodeShape(v: ID)
    ensures |Encode(v)| == Width
    ensures forall i :: 0 <= i < Width ==> AlphabetRune(Encode(v)[i])
  {
    DigitsRunes(if v > 0 then v else 0, Width);
  }

  const Zeros: string := "0000000000000"

  /** Numbers with fewer digits are left-padded with `'0'`. */
  lemma {:induction false} DigitsPadded(v: nat, m: nat, n: nat)
    requires m <= n && v < Pow32(m)
    ensures Digits(v, n) == Digits(0, n - m) + Digits(v, m)
  {
    if m < n {
      DigitsBound(v, m);
      if m == 0 {
        assert Digits(v, m) == [];
      } else {
        DigitsStep(v, n);
        DigitsStep(v, m);
        DigitsPadded(v / 32, m - 1, n - 1);
        assert n - 1 - (m - 1) == n - m;
      }
    }
  }

  lemma {:induction false} ZeroDigits(n: nat)
    ensures forall i :: 0 <= i < n ==> Digits(0, n)[i] == '0'
  {
    if n > 0 { ZeroDigits(n - 1); }
  }

  /** A value that is not positive encodes as thirteen zeros. */
  lemma EncodeNonPositive(v: ID)
    requires v <= 0
    ensures Encode(v) == Zeros
  {
    ZeroDigits(Width);
  }

  /** The last digit of `v` comes last, after the digits of `v / 32`. */
  lemma DigitsStep(v: nat, n: nat)
    requires 0 < n
    ensures Digits(v, n) == Digits(v / 32, n - 1) + [Alphabet[v % 32]]
  {
  }

  /** The state of the encoding loop: the runes still to be written come
      from the pending value `val`, and `b` holds zeros to the left of `i`
      and the runes already written from `i` on. */
  ghost predicate Encoding(v: ID, val: int, i: nat, b: string)
  {
    |b| == Width && i <= Width && (val > 0 ==> val < Pow32(i))
    && (forall j :: 0 <= j < i ==> b[j] == '0')
    && Encode(v) == Digits(if val > 0 then val else 0, i) + b[i..]
  }

  /** One turn of the encoding loop: the digit written moves from the
      pending value to the buffer. */
  lemma EncodeStep(v: ID, val: int, i: nat, b: string)
    requires Encoding(v, val, i, b) && val > 0
    ensures 0 < i && Encoding(v, val / 32, i - 1, b[i - 1 := Alphabet[val % 32]])
  {
    DigitsBound(val, i);
    DigitsStep(val, i);
    var c := Alphabet[val % 32];
    assert b[i - 1 := c][i - 1..] == [c] + b[i..];
  }

  /** Once the value is used up, the buffer is the encoding. */
  lemma EncodeDone(v: ID, val: int, i: nat, b: string)
    requires Encoding(v, val, i, b) && val <= 0
    ensures b == Encode(v)
  {
    ZeroDigits(i);
    assert Digits(0, i) == b[..i];
    assert b == b[..i] + b[i..];
  }

  /** `EncodeBase32` itself: a 13-rune buffer filled from the right. */
  method EncodeBase32(v: ID) returns (s: string)
    ensures s == Encode(v)
  {
    var buf := new char[Width](_ => '0');
    var i: nat := Width;
    var val: int := v;
    Pow32Width();
    assert Encoding(v, val, i, buf[..]);
    while val > 0
      invariant Encoding(v, val, i, buf[..])
    {
      ghost var b := buf[..];
      EncodeStep(v, val, i, b);
      i := i - 1;
      buf[i] := Alphabet[val % 32];
      assert buf[..] == b[i := Alphabet[val % 32]];
      val := val / 32;
    }
    EncodeDone(v, val, i, buf[..]);
    s := buf[..];
  }

  /** `decodeCrockford`: each alphabet rune and its lower-case form map to
      its index, and lower-case `i`, `l` map to 1 and `o` to 0. Upper-case
      `I`, `L`, `O` and both cases of `U` are absent. */
  function DigitValue(c: char): (d: Option<nat>)
    ensures d.Some? ==> d.value < 32
  {
    if '0' <= c <= '9' then Some(c as int - '0' as int)
    else if 'A' <= c <= 'H' then Some(c as int - 'A' as int + 10)
    else if 'J' <= c <= 'K' then Some(c as int - 'J' as int + 18)
    else if 'M' <= c <= 'N' then Some(c as int - 'M' as int + 20)
    else if 'P' <= c <= 'T' then Some(c as int - 'P' as int + 22)
    else if 'V' <= c <= 'Z' then Some(c as int - 'V' as int + 27)
    else if 'a' <= c <= 'h' then Some(c as int - 'a' as int + 10)
    else if 'j' <= c <= 'k' then Some(c as int - 'j' as int + 18)
    else if 'm' <= c <= 'n' then Some(c as int - 'm' as int + 20)
    else if 'p' <= c <= 't' then Some(c as int - 'p' as int + 22)
    else if 'v' <= c <= 'z' then Some(c as int - 'v' as int + 27)
    else if c == 'i' || c == 'l' then Some(1)
    else if c == 'o' then Some(0)
    else None
  }

  /** `strings.ToLower` never changes what a rune decodes to. */
  lemma LowerDigit(c: char)
    requires DigitValue(c).Some?
    ensures DigitValue(Text.LowerChar(c)) == DigitValue(c)
  {
  }

  /** The alphabet rune at index `i`, and its lower-case form, decode to `i`. */
  lemma AlphabetDecodes(i: nat)
    requires i < 32
    ensures DigitValue(Alphabet[i]) == Some(i)
    ensures DigitValue(Text.LowerChar(Alphabet[i])) == Some(i)
  {
    AlphabetAt(i);
    LowerDigit(Alphabet[i]);
  }

  /** A digit or upper-case rune that decodes to `d` is the alphabet rune
      at `d`. */
  lemma UpperIsCanonical(c: char)
    requires DigitValue(c).Some? && !Text.IsAsciiLower(c)
    ensures RuneAt(DigitValue(c).value) == c
  {
    if c <= '9' { } else if c <= 'H' { } else if c <= 'N' { } else if c <= 'T' { } else { }
  }

  /** Upper-casing a decodable lower-case letter other than `i`, `l` and
      `o` keeps its value. */
  lemma UpperDigit(c: char)
    requires DigitValue(c).Some? && Text.IsAsciiLower(c) && c != 'i' && c != 'l' && c != 'o'
    ensures DigitValue(Text.UpperChar(c)) == DigitValue(c)
  {
    if c <= 'h' { } else if c <= 'n' { } else if c <= 't' { } else { }
  }

  /** Apart from `i`, `l` and `o`, a rune that decodes to `d` is the
      alphabet rune at `d` or its lower-case form. */
  lemma DecodedRuneIsCanonical(c: char)
    requires DigitValue(c).Some? && c != 'i' && c != 'l' && c != 'o'
    ensures var d := DigitValue(c).value;
      c == Alphabet[d] || c == Text.LowerChar(Alphabet[d])
  {
    var d := DigitValue(c).value;
    AlphabetAt(d);
    if Text.IsAsciiLower(c) {
      var u := Text.UpperChar(c);
      UpperDigit(c);
      UpperIsCanonical(u);
      assert Text.LowerChar(u) == c;
    } else {
      UpperIsCanonical(c);
    }
  }

  /** The table built by the initialiser of `decodeCrockford`: for every
      alphabet rune, itself and `strings.ToLower` of it, then the three
      ambiguous lower-case letters. */
  /** Every entry of `m` agrees with `DigitValue`. */
  predicate TableSound(m: map<char, nat>)
  {
    forall c :: c in m ==> DigitValue(c) == Some(m[c])
  }

  lemma SoundUpdate(m: map<char, nat>, c: char, d: nat)
    requires TableSound(m) && DigitValue(c) == Some(d)
    ensures TableSound(m[c := d])
  {
  }

  method BuildDecodeTable() returns (m: map<char, nat>)
    ensures forall c :: c in m ==> DigitValue(c) == Some(m[c])
    ensures forall c :: DigitValue(c).Some? ==> c in m
  {
    m := map[];
    var i := 0;
    while i < 32
      invariant 0 <= i <= 32
      invariant forall j :: 0 <= j < i ==> Alphabet[j] in m && Text.LowerChar(Alphabet[j]) in m
      invariant TableSound(m)
    {
      AlphabetDecodes(i);
      var c := Alphabet[i];
      SoundUpdate(m, c, i);
      m := m[c := i];
      SoundUpdate(m, Text.LowerChar(c), i);
      m := m[Text.LowerChar(c) := i];
      i := i + 1;
    }
    SoundUpdate(m, 'i', 1);
    m := m['i' := 1];
    SoundUpdate(m, 'l', 1);
    m := m['l' := 1];
    SoundUpdate(m, 'o', 0);
    m := m['o' := 0];
    TableComplete(m);
  }

  lemma TableComplete(m: map<char, nat>)
    requires forall j :: 0 <= j < 32 ==> Alphabet[j] in m && Text.LowerChar(Alphabet[j]) in m
    requires 'i' in m && 'l' in m && 'o' in m
    ensures forall c :: DigitValue(c).Some? ==> c in m
  {
    forall c | DigitValue(c).Some? ensures c in m {
      if c != 'i' && c != 'l' && c != 'o' {
        DecodedRuneIsCanonical(c);
      }
    }
  }

  function InvalidCharMessage(c: char): string
  {
    "invalid base32 character: " + [c]
  }

  /** The decoding loop from accumulator `acc` on: `val*32 + d` in `uint64`
      arithmetic, which wraps; the first rune outside the table is an error. */
  function DecodeFrom(acc: UInt64, s: string): (r: Result<UInt64>)
    ensures r.Err? <==> exists i :: 0 <= i < |s| && DigitValue(s[i]).None?
    decreases |s|
  {
    if s == [] then Ok(acc)
    else match DigitValue(s[0])
      case None => Err(InvalidCharMessage(s[0]))
      case Some(d) => DecodeFrom((acc * 32 + d) % Two64, s[1..])
  }

  /** `DecodeBase32`: `ID(val)` reinterprets the `uint64` as an `int64`.
      There is no length check and no overflow check. */
  function Decode(s: string): (r: Result<ID>)
    ensures r.Err? <==> exists i :: 0 <= i < |s| && DigitValue(s[i]).None?
  {
    match DecodeFrom(0, s)
    case Ok(u) => Ok(Int64Of(u))
    case Err(m) => Err(m)
  }

  /** `DecodeBase32` itself: the loop over the runes of `s`. */
  method DecodeBase32(s: string) returns (r: Result<ID>)
    ensures r == Decode(s)
  {
    var val: UInt64 := 0;
    var i := 0;
    while i < |s|
      invariant 0 <= i <= |s|
      invariant DecodeFrom(0, s) == DecodeFrom(val, s[i..])
    {
      assert s[i..][1..] == s[i + 1..];
      var d := DigitValue(s[i]);
      if d.None? {
        return Err(InvalidCharMessage(s[i]));
      }
      val := (val * 32 + d.value) % Two64;
      i := i + 1;
    }
    r := Ok(Int64Of(val));
  }

  /** The positional value of a string of valid runes, read left to right
      from `acc` without wrapping. */
  function Value(acc: nat, s: string): nat
    requires forall i :: 0 <= i < |s| ==> DigitValue(s[i]).Some?
    decreases |s|
  {
    if s == [] then acc else Value(acc * 32 + DigitValue(s[0]).value, s[1..])
  }

  lemma {:induction false} ValueAtLeast(acc: nat, s: string)
    requires forall i :: 0 <= i < |s| ==> DigitValue(s[i]).Some?
    ensures Value(acc, s) >= acc
    decreases |s|
  {
    if s != [] { ValueAtLeast(acc * 32 + DigitValue(s[0]).value, s[1..]); }
  }

  lemma {:induction false} ValueAppend(acc: nat, s: string, c: char)
    requires forall i :: 0 <= i < |s| ==> DigitValue(s[i]).Some?
    requires DigitValue(c).Some?
    ensures forall i :: 0 <= i < |s + [c]| ==> DigitValue((s + [c])[i]).Some?
    ensures Value(acc, s + [c]) == Value(acc, s) * 32 + DigitValue(c).value
    decreases |s|
  {
    if s != [] {
      assert (s + [c])[1..] == s[1..] + [c];
      ValueAppend(acc * 32 + DigitValue(s[0]).value, s[1..], c);
    }
  }

  /** While the value stays below 2^64 the `uint64` never wraps. */
  lemma {:induction false} DecodeWithoutWrap(acc: UInt64, s: string)
    requires forall i :: 0 <= i < |s| ==> DigitValue(s[i]).Some?
    requires Value(acc, s) < Two64
    ensures DecodeFrom(acc, s) == Ok(Value(acc, s))
    decreases |s|
  {
    if s != [] {
      var next := acc * 32 + DigitValue(s[0]).value;
      ValueAtLeast(next, s[1..]);
      DecodeWithoutWrap(next, s[1..]);
    }
  }

  lemma {:induction false} ValueOfDigits(v: nat, n: nat)
    requires v < Pow32(n)
    ensures forall i :: 0 <= i < n ==> DigitValue(Digits(v, n)[i]).Some?
    ensures Value(0, Digits(v, n)) == v
  {
    if n > 0 {
      var p := Digits(v / 32, n - 1);
      var c := Alphabet[v % 32];
      DigitsBound(v, n);
      DigitsStep(v, n);
      ValueOfDigits(v / 32, n - 1);
      AlphabetDecodes(v % 32);
      forall i | 0 <= i < n ensures DigitValue(Digits(v, n)[i]).Some? {
        if i < n - 1 { assert Digits(v, n)[i] == p[i]; }
      }
      ValueAppend(0, p, c);
      assert v == v / 32 * 32 + v % 32;
    }
  }

  /** `DecodeBase32(EncodeBase32(x)) == x` for every non-negative ID,
      including 2^63 - 1. */
  lemma RoundTrip(x: ID)
    requires 0 <= x
    ensures Decode(Encode(x)) == Ok(x)
  {
    Pow32Width();
    ValueOfDigits(x, Width);
    DecodeWithoutWrap(0, Encode(x));
  }

  /** A negative ID does not survive the round trip: it encodes as zeros. */
  lemma NegativeEncodesAsZero(x: ID)
    requires x < 0
    ensures Decode(Encode(x)) == Ok(0)
  {
    RoundTrip(0);
  }

  /** Decoding fails exactly when some rune is outside the table, and then
      it names the first such rune. */
  lemma {:induction false} DecodeFailure(acc: UInt64, s: string)
    ensures DecodeFrom(acc, s).Err? <==> exists i :: 0 <= i < |s| && DigitValue(s[i]).None?
    ensures DecodeFrom(acc, s).Err? ==>
      exists i :: 0 <= i < |s| && DigitValue(s[i]).None?
        && (forall j :: 0 <= j < i ==> DigitValue(s[j]).Some?)
        && DecodeFrom(acc, s).msg == InvalidCharMessage(s[i])
    decreases |s|
  {
    if s != [] && DigitValue(s[0]).Some? {
      DecodeFailure((acc * 32 + DigitValue(s[0]).value) % Two64, s[1..]);
      assert forall i :: 1 <= i < |s| ==> s[i] == s[1..][i - 1];
      if DecodeFrom(acc, s).Err? {
        var i :| 0 <= i < |s[1..]| && DigitValue(s[1..][i]).None?
          && (forall j :: 0 <= j < i ==> DigitValue(s[1..][j]).Some?)
          && DecodeFrom(acc, s).msg == InvalidCharMessage(s[1..][i]);
        assert DigitValue(s[i + 1]).None?;
      }
    }
  }

  /** Any string holding `I`, `L`, `O` or `U` in upper case, or `u`, is
      rejected. */
  lemma RejectsExcludedLetters(s: string, i: nat)
    requires i < |s| && s[i] in {'I', 'L', 'O', 'U', 'u'}
    ensures Decode(s).Err?
  {
    DecodeFailure(0, s);
  }

  /** The transcription rule: lower-case `i` and `l` read as `1`, `o` as `0`. */
  function Normalize(c: char): char
  {
    if c == 'i' || c == 'l' then '1' else if c == 'o' then '0' else c
  }

  /** Replacing the ambiguous lower-case letters by the digits they stand
      for never changes the outcome of decoding. */
  lemma {:induction false} DecodeNormalized(acc: UInt64, s: string)
    ensures DecodeFrom(acc, seq(|s|, i requires 0 <= i < |s| => Normalize(s[i]))) == DecodeFrom(acc, s)
    decreases |s|
  {
    var t := seq(|s|, i requires 0 <= i < |s| => Normalize(s[i]));
    if s != [] {
      assert t[1..] == seq(|s| - 1, i requires 0 <= i < |s| - 1 => Normalize(s[1..][i]));
      assert DigitValue(t[0]) == DigitValue(s[0]);
      DecodeNormalized((acc * 32 + if DigitValue(s[0]).Some? then DigitValue(s[0]).value else 0) % Two64, s[1..]);
    }
  }

  /** The normalisation is lower-case only: a string holding an upper-case
      `I`, `L` or `O` does not decode. */
  lemma UpperAmbiguousRejected(acc: UInt64, s: string, k: nat)
    requires k < |s| && (s[k] == 'I' || s[k] == 'L' || s[k] == 'O')
    ensures DecodeFrom(acc, s).Err?
  {
    assert DigitValue(s[k]).None?;
  }

  /** A decodable string, a canonical encoding in particular, decodes the
      same in lower case. */
  lemma {:induction false} DecodeLowerCase(acc: UInt64, s: string)
    requires forall i :: 0 <= i < |s| ==> DigitValue(s[i]).Some?
    ensures DecodeFrom(acc, Text.ToLower(s)) == DecodeFrom(acc, s)
    decreases |s|
  {
    if s != [] {
      var t := Text.ToLower(s);
      LowerDigit(s[0]);
      assert DigitValue(t[0]) == DigitValue(s[0]);
      assert t[1..] == Text.ToLower(s[1..]);
      DecodeLowerCase((acc * 32 + DigitValue(s[0]).value) % Two64, s[1..]);
    }
  }

  /** `n` zero runes. */
  function ZeroRunes(n: nat): (s: string)
    ensures |s| == n && forall i :: 0 <= i < n ==> s[i] == '0'
  {
    seq(n, _ => '0')
  }

  lemma {:induction false} DecodeZeroRunes(acc: UInt64, n: nat)
    ensures DecodeFrom(acc, ZeroRunes(n)) == Ok(acc * Pow32(n) % Two64)
    decreases n
  {
    if n > 0 {
      var z := ZeroRunes(n);
      assert DigitValue(z[0]) == Some(0);
      assert z[1..] == ZeroRunes(n - 1);
      var next := acc * 32 % Two64;
      assert DecodeFrom(acc, z) == DecodeFrom(next, ZeroRunes(n - 1));
      DecodeZeroRunes(next, n - 1);
      ModMul(acc * 32, Pow32(n - 1));
      MulAssoc(acc, 32, Pow32(n - 1));
    }
  }

  lemma ModMul(x: int, y: nat)
    ensures (x % Two64) * y % Two64 == x * y % Two64
  {
    var q := x / Two64;
    assert x == q * Two64 + x % Two64;
    assert x * y == (x % Two64) * y + (q * y) * Two64;
  }

  lemma MulAssoc(a: int, b: int, c: int)
    ensures a * b * c == a * (b * c)
  {
  }

  /** No length or overflow check: thirteen runes can denote values up to
      2^65 - 1, and `8` followed by twelve `0` (2^63) comes back negative. */
  lemma DecodeWrapsToNegative()
    ensures Decode(['8'] + ZeroRunes(12)) == Ok(MinInt64)
  {
    var s := ['8'] + ZeroRunes(12);
    assert s[1..] == ZeroRunes(12);
    DecodeZeroRunes(8, 12);
    assert Pow32(12) == 0x1000_0000_0000_0000;
  }

  /** A fourteenth rune shifts the leading digit out of the 64 bits:
      `1` followed by thirteen `0` (2^65) reads as 0. */
  lemma DecodeIgnoresLength()
    ensures Decode(['1'] + ZeroRunes(13)) == Ok(0)
  {
    var s := ['1'] + ZeroRunes(13);
    assert s[1..] == ZeroRunes(13);
    DecodeZeroRunes(1, 13);
    assert Pow32(13) == 2 * Two64;
  }

  /** A number below `32^n` loses one digit when divided by 32. */
  lemma DigitsBound(v: nat, n: nat)
    requires v < Pow32(n)
    ensures 0 < v ==> 0 < n
    ensures 0 < n ==> v / 32 < Pow32(n - 1)
  {
    if 0 < n {
      assert Pow32(n) == 32 * Pow32(n - 1);
    }
  }

  lemma DigitSplitOrder(a: nat, b: nat)
    requires a < b
    ensures a / 32 < b / 32 || (a / 32 == b / 32 && a % 32 < b % 32)
  {
  }

  lemma {:induction false} DigitsOrder(a: nat, b: nat, n: nat)
    requires a < b < Pow32(n)
    ensures Text.Below(Digits(a, n), Digits(b, n))
  {
    DigitsBound(b, n);
    assert a / 32 <= b / 32 < Pow32(n - 1);
    DigitSplitOrder(a, b);
    AlphabetAscending();
    var p, q := Digits(a / 32, n - 1), Digits(b / 32, n - 1);
    if a / 32 < b / 32 {
      DigitsOrder(a / 32, b / 32, n - 1);
    }
    Text.BelowAppend(p, q, Alphabet[a % 32], Alphabet[b % 32]);
  }

  /** For non-negative IDs, the order of the encodings is the numeric
      order. */
  lemma EncodeOrder(a: ID, b: ID)
    requires 0 <= a && 0 <= b
    ensures a < b <==> Text.Below(Encode(a), Encode(b))
  {
    Pow32Width();
    if a < b {
      DigitsOrder(a, b, Width);
    } else if a == b {
      Text.BelowIrreflexive(Encode(a));
    } else {
      DigitsOrder(b, a, Width);
      Text.BelowAsymmetric(Encode(b), Encode(a));
    }
  }

  /** An ID minted at an earlier tick encodes to a smaller string. */
  lemma EarlierTickEncodesSmaller(ts1: nat, r1: nat, ts2: nat, r2: nat)
    requires ts1 < ts2 < TickSpan && r1 < RandomSpan && r2 < RandomSpan
    ensures Text.Below(Encode(Pack(ts1, r1)), Encode(Pack(ts2, r2)))
  {
    PackTickOrder(ts1, r1, ts2, r2);
    EncodeOrder(Pack(ts1, r1), Pack(ts2, r2));
  }

  // --------------------------------------------------------------- JSON

  /** `ID.MarshalJSON`: `json.Marshal(id.String())`; alphabet runes need
      no escaping. */
  function MarshalJSON(id: ID): (j: string)
    ensures |j| == Width + 2 && j[0] == '"' && j[|j| - 1] == '"'
    ensures forall i :: 1 <= i < |j| - 1 ==> AlphabetRune(j[i])
  {
    EncodeShape(id);
    "\"" + Encode(id) + "\""
  }

  /** `json.Unmarshal` into a Go string, for a JSON string without escape
      sequences, or `null` (which leaves the string empty). */
  function UnmarshalString(data: string): (r: Result<string>)
    ensures r.Ok? && data != "null" ==> data == "\"" + r.value + "\""
    ensures r.Ok? ==> forall i :: 0 <= i < |r.value| ==> r.value[i] != '"' && r.value[i] != '\\'
  {
    if data == "null" then Ok("")
    else if 2 <= |data| && data[0] == '"' && data[|data| - 1] == '"'
      && forall i :: 1 <= i < |data| - 1 ==> data[i] != '"' && data[i] != '\\' && data[i] >= ' '
    then Ok(data[1..|data| - 1])
    else Err("json: cannot unmarshal into Go value of type string")
  }

  /** `(*ID).UnmarshalJSON`: the ID the pointer holds afterwards, and the
      error; on an error the target keeps its previous value. */
  function UnmarshalJSON(target: ID, data: string): (r: (ID, Outcome))
    ensures r.1.Fail? ==> r.0 == target
  {
    match UnmarshalString(data)
    case Err(m) => (target, Fail(m))
    case Ok(s) =>
      match Decode(s)
      case Err(m) => (target, Fail(m))
      case Ok(u) => (u, Pass)
  }

  /** JSON round trip for every non-negative ID, whatever the target held. */
  lemma JSONRoundTrip(target: ID, id: ID)
    requires 0 <= id
    ensures UnmarshalJSON(target, MarshalJSON(id)) == (id, Pass)
  {
    var data := MarshalJSON(id);
    EncodeShape(id);
    assert data[1..|data| - 1] == Encode(id);
    forall i | 1 <= i < |data| - 1 ensures data[i] != '"' && data[i] != '\\' && data[i] >= ' ' {
      assert data[i] == Encode(id)[i - 1];
      AlphabetRange(data[i]);
    }
    RoundTrip(id);
  }

  /** The JSON literal `null` decodes to ID 0 without an error. */
  lemma NullUnmarshalsToZero(target: ID)
    ensures UnmarshalJSON(target, "null") == (0, Pass)
  {
  }
}
