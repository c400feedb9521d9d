/** Duration texts: what the preset field accepts and what a preset prints. */
module Durations {
  import opened Options
  import opened Text

  const MIN_PRESET_SECONDS: nat := 10
  const MAX_PRESET_SECONDS: nat := 86_400
  const MILLION: nat := 1_000_000

  datatype DurationError = EmptyText | ExpectedNumber | ExpectedUnit | UnknownUnit | InvalidNumber | OutOfRange

  datatype Result = Ok(seconds: nat) | Err(error: DurationError)

  // ---------------------------------------------------------------------------
  // Numbers, as the grammar has them.

  /** Digits, and optionally a dot with more digits. */
  datatype Number = Number(whole: string, fraction: Option<string>)

  predicate ValidNumber(n: Number) {
    && AllDigits(n.whole)
    && (n.fraction.Some? ==> AllDigits(n.fraction.value) && |n.fraction.value| <= 6)
    && (n.whole != [] || n.fraction.Some?)
  }

  predicate HasDigit(n: Number) {
    n.whole != [] || (n.fraction.Some? && n.fraction.value != [])
  }

  function NumberText(n: Number): string {
    match n.fraction
    case None => n.whole
    case Some(f) => n.whole + "." + f
  }

  function FractionMicros(f: string): nat
    requires AllDigits(f) && |f| <= 6
  {
    DigitsValue(f) * Pow10(6 - |f|)
  }

  /** The value in millionths, exact. */
  function Micros(n: Number): nat
    requires ValidNumber(n)
  {
    DigitsValue(n.whole) * MILLION + (if n.fraction.Some? then FractionMicros(n.fraction.value) else 0)
  }

  predicate IsNumeral(c: char) {
    IsDigit(c) || c == '.'
  }

  predicate AllNumerals(s: string) {
    forall i :: 0 <= i < |s| ==> IsNumeral(s[i])
  }

  /** The number a text of digits and dots spells, if it has at most one dot and six decimals. */
  function NumberOf(text: string): Option<Number> {
    var parts := Split(text, '.');
    if |parts| > 2 then None
    else
      var fraction := if |parts| == 2 then Some(parts[1]) else None;
      if parts[0] == [] && fraction.None? then None
      else if fraction.Some? && |fraction.value| > 6 then None
      else Some(Number(parts[0], fraction))
  }

  lemma DigitsHaveNoDot(s: string)
    requires AllDigits(s)
    ensures '.' !in s
  {
  }

  lemma NumberOfText(n: Number)
    requires ValidNumber(n)
    ensures NumberOf(NumberText(n)) == Some(n)
  {
    DigitsHaveNoDot(n.whole);
    match n.fraction
    case None => SplitNone(n.whole, '.');
    case Some(f) =>
      DigitsHaveNoDot(f);
      SplitFirst(n.whole, '.', f);
      SplitNone(f, '.');
  }

  lemma {:induction false} SplitPieces<T>(s: seq<T>, c: T)
    ensures |Split(s, c)| == 1 ==> Split(s, c)[0] == s && c !in s
    ensures |Split(s, c)| == 2 ==> s == Split(s, c)[0] + [c] + Split(s, c)[1] && c !in Split(s, c)[0]
    ensures |Split(s, c)| == 2 ==> c !in Split(s, c)[1]
    decreases |s|
  {
    var k := IndexOf(s, c);
    if k < |s| {
      SplitPieces(s[k + 1..], c);
      assert s == s[..k] + [c] + s[k + 1..];
    } else {
      assert s[..k] == s;
    }
  }

  lemma TextOfNumber(text: string)
    requires AllNumerals(text) && NumberOf(text).Some?
    ensures ValidNumber(NumberOf(text).value) && NumberText(NumberOf(text).value) == text
  {
    var parts := Split(text, '.');
    SplitPieces(text, '.');
    if |parts| == 2 {
      NumeralPieces(parts[0], parts[1], text);
    } else {
      assert AllDigits(text);
    }
  }

  lemma NumeralPieces(a: string, b: string, text: string)
    requires text == a + "." + b && AllNumerals(text) && '.' !in a && '.' !in b
    ensures AllDigits(a) && AllDigits(b)
  {
    forall i | 0 <= i < |a| ensures IsDigit(a[i]) {
      assert text[i] == a[i] && IsNumeral(text[i]) && a[i] in a;
    }
    forall i | 0 <= i < |b| ensures IsDigit(b[i]) {
      assert text[|a| + 1 + i] == b[i] && IsNumeral(text[|a| + 1 + i]) && b[i] in b;
    }
  }

  // ---------------------------------------------------------------------------
  // Checked arithmetic on numbers.

  lemma PadStep(s: string)
    requires AllDigits(s) && |s| < 6
    ensures AllDigits(s + "0") && FractionMicros(s + "0") == FractionMicros(s)
  {
    assert (s + "0")[..|s|] == s;
    PadScales(DigitsValue(s), Pow10(6 - |s|), Pow10(6 - |s| - 1));
  }

  lemma PadScales(value: nat, scale: nat, smaller: nat)
    requires scale == 10 * smaller
    ensures value * scale == (10 * value) * smaller
  {
  }

  lemma PaddedParses(s: string)
    requires AllDigits(s) && |s| == 6
    ensures ParseUnsigned(s, U64_MAX) == Some(FractionMicros(s))
  {
    DigitsBound(s);
    MillionIsPow10();
    assert IsDigit(s[0]);
  }

  /** Decimals filled up with zeros to six digits. */
  method PadFraction(fraction: string) returns (micros: Option<nat>)
    requires AllDigits(fraction) && |fraction| <= 6
    ensures micros == Some(FractionMicros(fraction))
  {
    var padded := fraction;
    while |padded| < 6
      invariant AllDigits(padded) && |padded| <= 6 && FractionMicros(padded) == FractionMicros(fraction)
      decreases 6 - |padded|
    {
      PadStep(padded);
      padded := padded + "0";
    }
    PaddedParses(padded);
    micros := ParseUnsigned(padded, U64_MAX);
  }

  lemma MillionIsPow10()
    ensures Pow10(0) == 1 && Pow10(6) == MILLION
  {
    assert Pow10(3) == 1000;
  }

  /** `parse_decimal_micros`: the exact value, or nothing when 64 bits cannot hold it. */
  method ParseDecimalMicros(text: string) returns (r: Option<nat>)
    requires AllNumerals(text)
    ensures r.Some? <==> NumberOf(text).Some? && ValidNumber(NumberOf(text).value)
                         && Micros(NumberOf(text).value) <= U64_MAX
    ensures r.Some? ==> r.value == Micros(NumberOf(text).value)
  {
    var parts := Split(text, '.');
    if |parts| > 2 {
      return None;
    }
    if |parts| == 1 && parts[0] == [] {
      return None;
    }
    if |parts| == 2 && |parts[1]| > 6 {
      return None;
    }
    TextOfNumber(text);
    var n := NumberOf(text).value;
    var integerPart := 0;
    if n.whole != [] {
      assert IsDigit(n.whole[0]);
      var parsed := ParseUnsigned(n.whole, U64_MAX);
      if parsed.None? {
        return None;
      }
      integerPart := parsed.value;
    }
    var fractional := Some(0);
    if n.fraction.Some? {
      fractional := PadFraction(n.fraction.value);
    }
    var whole := integerPart * MILLION;
    if whole > U64_MAX || whole + fractional.value > U64_MAX {
      return None;
    }
    r := Some(whole + fractional.value);
  }

  // ---------------------------------------------------------------------------
  // Segments.

  /** Blanks, a number and its unit, the unit directly after the number. */
  datatype Segment = Segment(gap: string, number: Number, unit: string)

  predicate IsAlpha(c: char) {
    'a' <= c <= 'z' || 'A' <= c <= 'Z'
  }

  predicate AllAlpha(s: string) {
    forall i :: 0 <= i < |s| ==> IsAlpha(s[i])
  }

  predicate AllBlank(s: string) {
    forall i :: 0 <= i < |s| ==> IsWhitespace(s[i])
  }

  function UnitSeconds(unit: string): Option<nat> {
    if unit in ["s", "sec", "secs", "second", "seconds"] then Some(1)
    else if unit in ["m", "min", "mins", "minute", "minutes"] then Some(60)
    else if unit in ["h", "hr", "hrs", "hour", "hours"] then Some(3600)
    else None
  }

  lemma UnitIsWord(unit: string)
    requires UnitSeconds(unit).Some?
    ensures unit != [] && AllAlpha(unit)
  {
  }

  predicate ValidSegment(g: Segment) {
    AllBlank(g.gap) && ValidNumber(g.number) && HasDigit(g.number) && UnitSeconds(g.unit).Some?
  }

  function SegmentText(g: Segment): string {
    g.gap + NumberText(g.number) + g.unit
  }

  /** Nearest whole number of seconds, halves upwards. */
  function HalfUp(micros: nat): nat {
    (micros + 500_000) / MILLION
  }

  /** Exactly the seconds within half a second, the upper one of two that are equally near. */
  lemma HalfUpIsNearest(micros: nat, seconds: nat)
    ensures HalfUp(micros) == seconds <==> seconds * 1_000_000 <= micros + 500_000 < (seconds + 1) * 1_000_000
  {
    var q := (micros + 500_000) / 1_000_000;
    assert q * 1_000_000 <= micros + 500_000 < (q + 1) * 1_000_000;
  }

  function SegmentSeconds(g: Segment): nat
    requires ValidSegment(g)
  {
    HalfUp(Micros(g.number) * UnitSeconds(g.unit).value)
  }

  predicate AllValid(segments: seq<Segment>) {
    forall i :: 0 <= i < |segments| ==> ValidSegment(segments[i])
  }

  function Total(segments: seq<Segment>): nat
    requires AllValid(segments)
  {
    if segments == [] then 0 else SegmentSeconds(segments[0]) + Total(segments[1..])
  }

  function SegmentsText(segments: seq<Segment>): string {
    if segments == [] then [] else SegmentText(segments[0]) + SegmentsText(segments[1..])
  }

  // ---------------------------------------------------------------------------
  // Reading segments from the left.

  datatype Lexeme = Lexeme(number: Number, unit: string, rest: string)

  function LexNumber(s: string): (Number, string) {
    var whole, tail := TakeWhile(IsDigit, s), DropWhile(IsDigit, s);
    if tail != [] && tail[0] == '.' then
      (Number(whole, Some(TakeWhile(IsDigit, tail[1..]))), DropWhile(IsDigit, tail[1..]))
    else (Number(whole, None), tail)
  }

  function Lex(s: string): Lexeme {
    var (n, tail) := LexNumber(s);
    Lexeme(n, TakeWhile(IsAlpha, tail), DropWhile(IsAlpha, tail))
  }

  predicate Digital(n: Number) {
    AllDigits(n.whole) && (n.fraction.Some? ==> AllDigits(n.fraction.value))
  }

  lemma NumberCovers(s: string)
    ensures s == NumberText(LexNumber(s).0) + LexNumber(s).1 && Digital(LexNumber(s).0)
  {
    TakeDrop(IsDigit, s);
    var whole, tail := TakeWhile(IsDigit, s), DropWhile(IsDigit, s);
    if tail != [] && tail[0] == '.' {
      TakeDrop(IsDigit, tail[1..]);
      Regroup(whole, tail[0], TakeWhile(IsDigit, tail[1..]), DropWhile(IsDigit, tail[1..]), tail);
    }
  }

  lemma Regroup<T>(whole: seq<T>, dot: T, f: seq<T>, rest: seq<T>, tail: seq<T>)
    requires tail != [] && tail[0] == dot && tail[1..] == f + rest
    ensures whole + tail == whole + [dot] + f + rest
  {
    assert tail == [dot] + (f + rest);
  }

  lemma LexCovers(s: string)
    ensures var x := Lex(s); s == NumberText(x.number) + x.unit + x.rest && Digital(x.number)
  {
    NumberCovers(s);
    var (n, tail) := LexNumber(s);
    TakeDrop(IsAlpha, tail);
    Associate(NumberText(n), TakeWhile(IsAlpha, tail), DropWhile(IsAlpha, tail));
  }

  predicate Acceptable(x: Lexeme) {
    HasDigit(x.number) && UnitSeconds(x.unit).Some? && (x.number.fraction.Some? ==> |x.number.fraction.value| <= 6)
  }

  lemma LexAdvances(s: string)
    requires HasDigit(Lex(s).number)
    ensures |Lex(s).rest| < |s|
  {
    LexCovers(s);
  }

  /** All segments of a text, or nothing when some part of it is not one. */
  function Parsed(s: string): Option<seq<Segment>>
    decreases |s|
  {
    var body := DropWhile(IsWhitespace, s);
    if body == [] then Some([])
    else
      var x := Lex(body);
      if !Acceptable(x) then None
      else
        LexAdvances(body);
        match Parsed(x.rest)
        case None => None
        case Some(more) => Some([Segment(TakeWhile(IsWhitespace, s), x.number, x.unit)] + more)
  }

  // ---------------------------------------------------------------------------
  // Reading is exact: the segments of a text are its only decomposition.

  lemma {:induction false} ParsedCovers(s: string) returns (tail: string)
    requires Parsed(s).Some?
    ensures AllValid(Parsed(s).value) && AllBlank(tail) && s == SegmentsText(Parsed(s).value) + tail
    decreases |s|
  {
    var gap, body := TakeWhile(IsWhitespace, s), DropWhile(IsWhitespace, s);
    TakeDrop(IsWhitespace, s);
    if body == [] {
      BlankEnds(s);
      tail := s;
    } else {
      ParsedNext(s);
      var x := Lex(body);
      tail := ParsedCovers(x.rest);
      LexCovers(body);
      var g, more := Segment(gap, x.number, x.unit), Parsed(x.rest).value;
      PrependValid(g, more);
      FrontText(gap, x, SegmentsText(more), tail);
    }
  }

  lemma PrependValid(g: Segment, more: seq<Segment>)
    requires ValidSegment(g) && AllValid(more)
    ensures AllValid([g] + more) && SegmentsText([g] + more) == SegmentText(g) + SegmentsText(more)
  {
    assert ([g] + more)[1..] == more;
  }

  lemma FrontText(gap: string, x: Lexeme, text: string, tail: string)
    requires x.rest == text + tail
    ensures gap + (NumberText(x.number) + x.unit + x.rest) == gap + NumberText(x.number) + x.unit + text + tail
  {
  }

  lemma LexNumberText(n: Number, rest: string)
    requires Digital(n) && (rest != [] ==> !IsDigit(rest[0]) && rest[0] != '.')
    ensures LexNumber(NumberText(n) + rest) == (n, rest)
  {
    match n.fraction
    case None =>
      LeadingTakes(IsDigit, n.whole, rest);
      LeadingDrops(IsDigit, n.whole, rest);
    case Some(f) =>
      var tail := "." + (f + rest);
      assert NumberText(n) + rest == n.whole + tail;
      LeadingTakes(IsDigit, n.whole, tail);
      LeadingDrops(IsDigit, n.whole, tail);
      assert tail[1..] == f + rest;
      LeadingTakes(IsDigit, f, rest);
      LeadingDrops(IsDigit, f, rest);
  }

  lemma LexText(n: Number, unit: string, rest: string)
    requires Digital(n) && unit != [] && AllAlpha(unit) && (rest != [] ==> !IsAlpha(rest[0]))
    ensures Lex(NumberText(n) + (unit + rest)) == Lexeme(n, unit, rest)
  {
    assert (unit + rest)[0] == unit[0] && IsAlpha(unit[0]);
    LexNumberText(n, unit + rest);
    LeadingTakes(IsAlpha, unit, rest);
    LeadingDrops(IsAlpha, unit, rest);
  }

  predicate StartsAfresh(s: string) {
    s != [] ==> !IsAlpha(s[0])
  }

  lemma NumberFirst(n: Number)
    requires Digital(n) && HasDigit(n)
    ensures NumberText(n) != [] && IsNumeral(NumberText(n)[0])
  {
  }

  lemma SegmentFirst(g: Segment, rest: string)
    requires ValidSegment(g)
    ensures SegmentText(g) + rest != [] && !IsAlpha((SegmentText(g) + rest)[0])
  {
    NumberFirst(g.number);
    assert g.gap != [] ==> IsWhitespace(g.gap[0]);
  }

  lemma RestStartsAfresh(segments: seq<Segment>, tail: string)
    requires AllValid(segments) && AllBlank(tail)
    ensures StartsAfresh(SegmentsText(segments) + tail)
  {
    if segments == [] {
      assert SegmentsText(segments) + tail == tail;
    } else {
      SegmentFirst(segments[0], SegmentsText(segments[1..]) + tail);
      Associate(SegmentText(segments[0]), SegmentsText(segments[1..]), tail);
    }
  }

  lemma ParsedStep(g: Segment, rest: string)
    requires ValidSegment(g) && StartsAfresh(rest)
    ensures Parsed(SegmentText(g) + rest)
            == match Parsed(rest) case None => None case Some(more) => Some([g] + more)
  {
    var s := SegmentText(g) + rest;
    var body := NumberText(g.number) + (g.unit + rest);
    UnitIsWord(g.unit);
    NumberFirst(g.number);
    NumeralNotBlank(body[0]);
    RegroupSegment(g.gap, NumberText(g.number), g.unit, rest);
    LeadingTakes(IsWhitespace, g.gap, body);
    LeadingDrops(IsWhitespace, g.gap, body);
    LexText(g.number, g.unit, rest);
  }

  lemma RegroupSegment<T>(a: seq<T>, b: seq<T>, c: seq<T>, d: seq<T>)
    ensures a + b + c + d == a + (b + (c + d))
  {
  }

  lemma NumeralNotBlank(c: char)
    requires IsNumeral(c)
    ensures !IsWhitespace(c)
  {
  }

  lemma BlankParses(tail: string)
    requires AllBlank(tail)
    ensures Parsed(tail) == Some([])
  {
    assert tail + [] == tail;
    LeadingDrops(IsWhitespace, tail, []);
  }

  lemma {:induction false} TextParses(segments: seq<Segment>, tail: string)
    requires AllValid(segments) && AllBlank(tail)
    ensures Parsed(SegmentsText(segments) + tail) == Some(segments)
  {
    if segments == [] {
      assert SegmentsText(segments) + tail == tail;
      BlankParses(tail);
    } else {
      var rest := SegmentsText(segments[1..]) + tail;
      TextParses(segments[1..], tail);
      RestStartsAfresh(segments[1..], tail);
      ParsedStep(segments[0], rest);
      Associate(SegmentText(segments[0]), SegmentsText(segments[1..]), tail);
      assert segments == [segments[0]] + segments[1..];
    }
  }

  // ---------------------------------------------------------------------------
  // The whole text.

  function InRange(seconds: nat): Option<nat> {
    if MIN_PRESET_SECONDS <= seconds <= MAX_PRESET_SECONDS then Some(seconds) else None
  }

  /** The duration a trimmed lower-case text denotes, over unbounded integers: a bare number counts
      minutes, anything else is a sum of segments, each rounded on its own. */
  function Denotes(t: string): Option<nat> {
    if t == [] then None
    else if AllNumerals(t) then
      match NumberOf(t)
      case None => None
      case Some(n) =>
        TextOfNumber(t);
        InRange(HalfUp(Micros(n) * 60))
    else SegmentResult(t)
  }

  function SegmentResult(t: string): Option<nat> {
    match Parsed(t)
    case None => None
    case Some(segments) =>
      ParsedIsValid(t);
      InRange(Total(segments))
  }

  lemma ParsedIsValid(t: string)
    requires Parsed(t).Some?
    ensures AllValid(Parsed(t).value)
  {
    var tail := ParsedCovers(t);
  }

  function DurationOf(text: string): Option<nat> {
    Denotes(Lowercase(Trim(text)))
  }

  /** Every rejected overflow is truly out of range, and every accepted product is exact. */
  lemma CheckedIsExact(micros: nat, unit: nat)
    requires unit in {1, 60, 3600}
    ensures micros > U64_MAX ==> HalfUp(micros * unit) > MAX_PRESET_SECONDS
    ensures micros * (unit * MILLION) > U64_MAX ==> HalfUp(micros * unit) > MAX_PRESET_SECONDS
    ensures micros * (unit * MILLION) / MILLION == micros * unit
    ensures micros * unit + 500_000 > U64_MAX ==> HalfUp(micros * unit) > MAX_PRESET_SECONDS
  {
  }

  method CheckedFraction(number: Number, unit: nat) returns (micros: Option<nat>)
    requires ValidNumber(number) && unit in {1, 60, 3600}
    ensures micros.Some? ==> micros.value == Micros(number) * unit
    ensures micros.None? ==> HalfUp(Micros(number) * unit) > MAX_PRESET_SECONDS
  {
    TextIsNumerals(number);
    NumberOfText(number);
    var parsed := ParseDecimalMicros(NumberText(number));
    ghost var exact := Micros(number);
    CheckedIsExact(exact, unit);
    if parsed.None? || parsed.value * (unit * MILLION) > U64_MAX {
      return None;
    }
    micros := Some(parsed.value * (unit * MILLION) / MILLION);
  }

  method CheckedWhole(number: Number, unit: nat) returns (micros: Option<nat>)
    requires ValidNumber(number) && number.fraction.None? && unit in {1, 60, 3600}
    ensures micros.Some? ==> micros.value == Micros(number) * unit
    ensures micros.None? ==> HalfUp(Micros(number) * unit) > MAX_PRESET_SECONDS
  {
    assert IsDigit(number.whole[0]);
    ghost var exact := Micros(number);
    WholeMicros(number, unit);
    CheckedIsExact(exact, unit);
    var value := ParseUnsigned(number.whole, U64_MAX);
    if value.None? || value.value * (unit * MILLION) > U64_MAX {
      return None;
    }
    micros := Some(value.value * (unit * MILLION));
  }

  /** The seconds of one segment, computed in 64 bits. */
  method CheckedSegment(number: Number, unit: nat) returns (seconds: Option<nat>)
    requires ValidNumber(number) && unit in {1, 60, 3600}
    ensures seconds.Some? ==> seconds.value == HalfUp(Micros(number) * unit)
    ensures seconds.None? ==> HalfUp(Micros(number) * unit) > MAX_PRESET_SECONDS
  {
    var micros;
    if number.fraction.Some? {
      micros := CheckedFraction(number, unit);
    } else {
      micros := CheckedWhole(number, unit);
    }
    if micros.None? || micros.value + 500_000 > U64_MAX {
      return None;
    }
    seconds := Some((micros.value + 500_000) / MILLION);
  }

  lemma TextIsNumerals(n: Number)
    requires ValidNumber(n)
    ensures AllNumerals(NumberText(n))
  {
  }

  lemma WholeMicros(n: Number, unit: nat)
    requires ValidNumber(n) && n.fraction.None? && unit in {1, 60, 3600}
    ensures Micros(n) * unit == DigitsValue(n.whole) * (unit * MILLION)
    ensures DigitsValue(n.whole) > U64_MAX ==> Micros(n) > U64_MAX
  {
  }

  /** The number that reading on from `rest` makes of the part already read. */
  function Resume(read: Number, rest: string): (Number, string) {
    match read.fraction
    case None =>
      var (n, tail) := LexNumber(rest);
      (Number(read.whole + n.whole, n.fraction), tail)
    case Some(f) => (Number(read.whole, Some(f + TakeWhile(IsDigit, rest))), DropWhile(IsDigit, rest))
  }

  function AddDigit(read: Number, c: char): Number {
    match read.fraction
    case None => Number(read.whole + [c], None)
    case Some(f) => Number(read.whole, Some(f + [c]))
  }

  lemma ResumeDigit(read: Number, rest: string)
    requires rest != [] && IsDigit(rest[0])
    ensures Resume(read, rest) == Resume(AddDigit(read, rest[0]), rest[1..])
  {
    match read.fraction
    case None => Associate(read.whole, [rest[0]], TakeWhile(IsDigit, rest[1..]));
    case Some(f) => Associate(f, [rest[0]], TakeWhile(IsDigit, rest[1..]));
  }

  lemma ResumeDot(read: Number, rest: string)
    requires rest != [] && rest[0] == '.' && read.fraction.None?
    ensures Resume(read, rest) == Resume(Number(read.whole, Some([])), rest[1..])
  {
    assert read.whole + [] == read.whole;
    assert [] + TakeWhile(IsDigit, rest[1..]) == TakeWhile(IsDigit, rest[1..]);
  }

  lemma ResumeEnd(read: Number, rest: string)
    requires rest != [] ==> !IsDigit(rest[0]) && !(rest[0] == '.' && read.fraction.None?)
    ensures Resume(read, rest) == (read, rest)
  {
    match read.fraction
    case None => assert read.whole + [] == read.whole;
    case Some(f) => assert f + [] == f;
  }

  lemma ResumeStart(s: string)
    ensures Resume(Number([], None), s) == LexNumber(s)
  {
    var n := LexNumber(s).0;
    assert [] + n.whole == n.whole;
  }

  /** The number loop: digits with at most one dot among them. */
  method TakeNumber(s: string) returns (number: Number, seenDigit: bool, rest: string)
    ensures (number, rest) == LexNumber(s) && seenDigit == HasDigit(number)
  {
    number, seenDigit, rest := Number([], None), false, s;
    ResumeStart(s);
    while rest != []
      invariant seenDigit == HasDigit(number)
      invariant Resume(number, rest) == LexNumber(s)
      decreases |rest|
    {
      var c := rest[0];
      if IsDigit(c) {
        ResumeDigit(number, rest);
        seenDigit, number, rest := true, AddDigit(number, c), rest[1..];
      } else if c == '.' && number.fraction.None? {
        ResumeDot(number, rest);
        number, rest := Number(number.whole, Some([])), rest[1..];
      } else {
        break;
      }
    }
    ResumeEnd(number, rest);
  }

  method TakeUnit(s: string) returns (unit: string, rest: string)
    ensures unit == TakeWhile(IsAlpha, s) && rest == DropWhile(IsAlpha, s)
  {
    unit, rest := [], s;
    while rest != [] && IsAlpha(rest[0])
      invariant TakeWhile(IsAlpha, s) == unit + TakeWhile(IsAlpha, rest)
      invariant DropWhile(IsAlpha, s) == DropWhile(IsAlpha, rest)
      decreases |rest|
    {
      unit, rest := unit + [rest[0]], rest[1..];
    }
  }

  method SkipBlanks(s: string) returns (rest: string)
    ensures rest == DropWhile(IsWhitespace, s)
  {
    rest := s;
    while rest != [] && IsWhitespace(rest[0])
      invariant DropWhile(IsWhitespace, s) == DropWhile(IsWhitespace, rest)
      decreases |rest|
    {
      rest := rest[1..];
    }
  }

  // ---------------------------------------------------------------------------
  // `DurationPreset::parse`.

  function Prepended(done: seq<Segment>, rest: Option<seq<Segment>>): Option<seq<Segment>> {
    match rest
    case None => None
    case Some(more) => Some(done + more)
  }

  lemma {:induction false} TotalAppend(a: seq<Segment>, b: seq<Segment>)
    requires AllValid(a) && AllValid(b)
    ensures AllValid(a + b) && Total(a + b) == Total(a) + Total(b)
  {
    if a == [] {
      assert a + b == b;
    } else {
      TotalAppend(a[1..], b);
      assert (a + b)[1..] == a[1..] + b;
    }
  }

  lemma TotalOne(g: Segment)
    requires ValidSegment(g)
    ensures AllValid([g]) && Total([g]) == SegmentSeconds(g)
  {
    assert [g][1..] == [];
  }

  /** What the segments already read say about the whole text. */
  ghost predicate Progress(t: string, done: seq<Segment>, rest: string, total: nat) {
    AllValid(done) && Parsed(t) == Prepended(done, Parsed(rest)) && total == Total(done)
  }

  lemma ProgressStep(t: string, done: seq<Segment>, s: string, total: nat, g: Segment, rest: string)
    requires Progress(t, done, s, total) && ValidSegment(g)
    requires Parsed(s) == Prepended([g], Parsed(rest))
    ensures Progress(t, done + [g], rest, total + SegmentSeconds(g))
  {
    TotalOne(g);
    TotalAppend(done, [g]);
    if Parsed(rest).Some? {
      Associate(done, [g], Parsed(rest).value);
    }
  }

  /** Once the segments read exceed the maximum, so does every complete reading. */
  lemma TooLong(t: string, done: seq<Segment>, rest: string, total: nat)
    requires Progress(t, done, rest, total) && total > MAX_PRESET_SECONDS
    ensures SegmentResult(t) == None
  {
    if Parsed(rest).Some? {
      var tail := ParsedCovers(rest);
      TotalAppend(done, Parsed(rest).value);
    }
  }

  lemma Complete(t: string, done: seq<Segment>, rest: string, total: nat)
    requires Progress(t, done, rest, total) && Parsed(rest) == Some([])
    ensures Parsed(t) == Some(done) && SegmentResult(t) == InRange(total)
  {
    assert done + [] == done;
  }

  lemma ProgressStart(t: string)
    ensures Progress(t, [], t, 0)
  {
    if Parsed(t).Some? {
      assert [] + Parsed(t).value == Parsed(t).value;
    }
  }

  /** A number and its unit at the front of a text that does not start with a blank. */
  method NextSegment(body: string) returns (error: Option<DurationError>, number: Number, unit: string, rest: string)
    ensures Lex(body) == Lexeme(number, unit, rest)
    ensures error.None? <==> Acceptable(Lex(body))
  {
    var seenDigit, afterNumber;
    number, seenDigit, afterNumber := TakeNumber(body);
    unit, rest := TakeUnit(afterNumber);
    UnitIsNotEmpty();
    error := None;
    if !seenDigit {
      error := Some(ExpectedNumber);
    } else if unit == [] {
      error := Some(ExpectedUnit);
    } else if UnitSeconds(unit).None? {
      error := Some(UnknownUnit);
    } else if number.fraction.Some? && |number.fraction.value| > 6 {
      error := Some(InvalidNumber);
    }
  }

  lemma UnitIsNotEmpty()
    ensures UnitSeconds([]) == None
  {
  }

  lemma ParsedNext(s: string)
    requires DropWhile(IsWhitespace, s) != []
    ensures var x := Lex(DropWhile(IsWhitespace, s));
            var g := Segment(TakeWhile(IsWhitespace, s), x.number, x.unit);
            if Acceptable(x) then
              ValidSegment(g) && |x.rest| < |s| && Parsed(s) == Prepended([g], Parsed(x.rest))
            else Parsed(s) == None
  {
    var body := DropWhile(IsWhitespace, s);
    LexCovers(body);
    if Acceptable(Lex(body)) {
      LexAdvances(body);
    }
  }

  lemma BlankEnds(s: string)
    requires DropWhile(IsWhitespace, s) == []
    ensures Parsed(s) == Some([])
  {
  }

  /** The text `s` starts with segment `g` and goes on with `rest`. */
  ghost predicate Reads(s: string, g: Segment, rest: string) {
    ValidSegment(g) && Parsed(s) == Prepended([g], Parsed(rest))
  }

  /** One turn of the loop, up to the running total. */
  method ReadSegment(s: string) returns (error: Option<DurationError>, seconds: nat, rest: string, ghost g: Segment)
    requires DropWhile(IsWhitespace, s) != []
    ensures error.None? ==> Reads(s, g, rest) && |rest| < |s| && seconds == SegmentSeconds(g)
    ensures error.Some? ==>
      Parsed(s) == None || (Reads(s, g, rest) && SegmentSeconds(g) > MAX_PRESET_SECONDS)
  {
    var body := SkipBlanks(s);
    ParsedNext(s);
    var number, unit;
    error, number, unit, rest := NextSegment(body);
    g := Segment(TakeWhile(IsWhitespace, s), number, unit);
    seconds := 0;
    if error.None? {
      var checked := CheckedSegment(number, UnitSeconds(unit).value);
      if checked.None? {
        error := Some(InvalidNumber);
      } else {
        seconds := checked.value;
      }
    }
  }

  lemma SegmentFails(t: string, done: seq<Segment>, s: string, total: nat, g: Segment, rest: string)
    requires Progress(t, done, s, total)
    requires Parsed(s) == None || (Reads(s, g, rest) && SegmentSeconds(g) > MAX_PRESET_SECONDS)
    ensures SegmentResult(t) == None
  {
    if Parsed(s).Some? {
      ProgressStep(t, done, s, total, g, rest);
      TooLong(t, done + [g], rest, total + SegmentSeconds(g));
    }
  }

  method ParseSegments(t: string) returns (r: Result)
    ensures r.Ok? <==> SegmentResult(t).Some?
    ensures r.Ok? ==> r.seconds == SegmentResult(t).value
  {
    var rest := t;
    var total: nat := 0;
    var consumed := false;
    ghost var done: seq<Segment> := [];
    ProgressStart(t);
    while true
      invariant Progress(t, done, rest, total) && total <= MAX_PRESET_SECONDS
      invariant !consumed ==> total == 0
      decreases |rest|
    {
      var body := SkipBlanks(rest);
      if body == [] {
        BlankEnds(rest);
        Complete(t, done, rest, total);
        break;
      }
      var error, seconds, after, g := ReadSegment(rest);
      if error.Some? {
        SegmentFails(t, done, rest, total, g, after);
        return Err(error.value);
      }
      ProgressStep(t, done, rest, total, g, after);
      total, done, rest := total + seconds, done + [g], after;
      if total > MAX_PRESET_SECONDS {
        TooLong(t, done, rest, total);
        return Err(OutOfRange);
      }
      consumed := true;
    }
    if !consumed {
      return Err(EmptyText);
    }
    if !(MIN_PRESET_SECONDS <= total <= MAX_PRESET_SECONDS) {
      return Err(OutOfRange);
    }
    r := Ok(total);
  }

  method FromMicrosRounded(micros: nat) returns (r: Result)
    requires micros <= U64_MAX
    ensures r.Ok? <==> InRange(HalfUp(micros)).Some?
    ensures r.Ok? ==> r.seconds == HalfUp(micros)
  {
    if micros + 500_000 > U64_MAX {
      return Err(InvalidNumber);
    }
    var total := (micros + 500_000) / MILLION;
    if total < MIN_PRESET_SECONDS || total > MAX_PRESET_SECONDS {
      return Err(OutOfRange);
    }
    r := Ok(total);
  }

  /** Accepts exactly the texts that denote a duration in range, and returns that duration. */
  method ParseDuration(text: string) returns (r: Result)
    ensures r.Ok? <==> DurationOf(text).Some?
    ensures r.Ok? ==> r.seconds == DurationOf(text).value
  {
    var trimmed := Trim(text);
    if trimmed == [] {
      return Err(EmptyText);
    }
    var lower := Lowercase(trimmed);
    if AllNumerals(lower) {
      var micros := ParseDecimalMicros(lower);
      if NumberOf(lower).Some? {
        TextOfNumber(lower);
        CheckedIsExact(Micros(NumberOf(lower).value), 60);
      }
      if micros.None? || micros.value * 60 > U64_MAX {
        return Err(InvalidNumber);
      }
      r := FromMicrosRounded(micros.value * 60);
    } else {
      r := ParseSegments(lower);
    }
  }

  // ---------------------------------------------------------------------------
  // Labels.

  function UnitLabel(value: nat, unit: string): string {
    if value == 1 then Decimal(value) + " " + unit else Decimal(value) + " " + unit + "s"
  }

  /** Pieces with a blank between them. */
  function JoinWithBlank(parts: seq<string>): string {
    if parts == [] then []
    else if |parts| == 1 then parts[0]
    else parts[0] + " " + JoinWithBlank(parts[1..])
  }

  function Part(value: nat, unit: string): seq<string> {
    if value > 0 then [Decimal(value) + unit] else []
  }

  /** Neither below a minute, nor a whole number of hours, nor of minutes below the hour. */
  predicate Compound(seconds: nat) {
    !(seconds < 60) && seconds % 3600 != 0 && !(seconds < 3600 && seconds % 60 == 0)
  }

  function FormatLabel(seconds: nat): string {
    if seconds < 60 then UnitLabel(seconds, "second")
    else if seconds % 3600 == 0 then UnitLabel(seconds / 3600, "hour")
    else if seconds < 3600 && seconds % 60 == 0 then UnitLabel(seconds / 60, "minute")
    else Clock(seconds / 3600, seconds % 3600 / 60, seconds % 60)
  }

  /** The parts that are not zero, each with its letter. */
  function Clock(h: nat, m: nat, s: nat): string {
    JoinWithBlank(Part(h, "h") + Part(m, "m") + Part(s, "s"))
  }

  // --- A spelled-out unit does not parse.

  lemma DecimalLexes(n: nat, rest: string)
    requires rest != [] ==> !IsDigit(rest[0]) && rest[0] != '.'
    ensures LexNumber(Decimal(n) + rest) == (Number(Decimal(n), None), rest)
  {
    LexNumberText(Number(Decimal(n), None), rest);
  }

  lemma BlankUnitFails(n: nat, rest: string)
    requires rest != [] && rest[0] == ' '
    ensures Parsed(Decimal(n) + rest) == None
  {
    var s := Decimal(n) + rest;
    assert IsDigit(s[0]);
    NumeralNotBlank(s[0]);
    assert DropWhile(IsWhitespace, s) == s;
    DecimalLexes(n, rest);
    assert TakeWhile(IsAlpha, rest) == [];
    UnitIsNotEmpty();
  }

  // --- Compound labels.

  /** The segments a compound label spells. */
  function LabelSegments(values: seq<(nat, string)>, first: bool): seq<Segment> {
    if values == [] then []
    else
      [Segment(if first then "" else " ", Number(Decimal(values[0].0), None), values[0].1)]
      + LabelSegments(values[1..], false)
  }

  function PartsOf(values: seq<(nat, string)>): seq<string> {
    if values == [] then [] else [Decimal(values[0].0) + values[0].1] + PartsOf(values[1..])
  }

  predicate KnownUnits(values: seq<(nat, string)>) {
    forall i :: 0 <= i < |values| ==> UnitSeconds(values[i].1).Some?
  }

  function Weight(values: seq<(nat, string)>): nat
    requires KnownUnits(values)
  {
    if values == [] then 0 else values[0].0 * UnitSeconds(values[0].1).value + Weight(values[1..])
  }

  lemma WholeSeconds(value: nat, unit: nat)
    requires unit in {1, 60, 3600}
    ensures HalfUp(value * MILLION * unit) == value * unit
  {
  }

  lemma LabelSegment(value: nat, unit: string, gap: string)
    requires UnitSeconds(unit).Some? && AllBlank(gap)
    ensures var g := Segment(gap, Number(Decimal(value), None), unit);
            ValidSegment(g) && SegmentSeconds(g) == value * UnitSeconds(unit).value
  {
    DecimalValue(value);
    WholeSeconds(value, UnitSeconds(unit).value);
  }

  lemma {:induction false} LabelTotal(values: seq<(nat, string)>, first: bool)
    requires KnownUnits(values)
    ensures AllValid(LabelSegments(values, first)) && Total(LabelSegments(values, first)) == Weight(values)
  {
    if values != [] {
      var gap := if first then "" else " ";
      LabelSegment(values[0].0, values[0].1, gap);
      LabelTotal(values[1..], false);
      var segments := LabelSegments(values, first);
      assert segments[1..] == LabelSegments(values[1..], false);
    }
  }

  lemma {:induction false} LabelText(values: seq<(nat, string)>, first: bool, gap: string)
    requires values != [] && gap == if first then "" else " "
    ensures SegmentsText(LabelSegments(values, first)) == gap + JoinWithBlank(PartsOf(values))
    decreases |values|
  {
    var front, rest := Decimal(values[0].0) + values[0].1, values[1..];
    LabelStep(values, first, gap);
    JoinStep(front, PartsOf(rest));
    if rest == [] {
      assert gap + front + [] == gap + front;
    } else {
      LabelText(rest, false, " ");
      Associate(gap, front, " " + JoinWithBlank(PartsOf(rest)));
    }
  }

  lemma JoinStep(front: string, parts: seq<string>)
    ensures JoinWithBlank([front] + parts)
            == if parts == [] then front else front + (" " + JoinWithBlank(parts))
  {
    assert ([front] + parts)[1..] == parts;
    Associate(front, " ", JoinWithBlank(parts));
  }

  lemma LabelStep(values: seq<(nat, string)>, first: bool, gap: string)
    requires values != [] && gap == if first then "" else " "
    ensures SegmentsText(LabelSegments(values, first))
            == gap + (Decimal(values[0].0) + values[0].1) + SegmentsText(LabelSegments(values[1..], false))
  {
    var segments := LabelSegments(values, first);
    assert segments[1..] == LabelSegments(values[1..], false);
    Associate(gap, Decimal(values[0].0), values[0].1);
  }

  // --- A label survives trimming and lower-casing.

  predicate Plain(s: string) {
    forall i :: 0 <= i < |s| ==> IsDigit(s[i]) || s[i] == ' ' || 'a' <= s[i] <= 'z'
  }

  predicate LikePart(s: string) {
    s != [] && Plain(s) && IsDigit(s[0]) && 'a' <= s[|s| - 1] <= 'z'
  }

  lemma LikePartIsKept(s: string)
    requires LikePart(s)
    ensures Lowercase(Trim(s)) == s && !AllNumerals(s)
  {
    TrimTight(s);
    assert forall i :: 0 <= i < |s| ==> LowerChar(s[i]) == s[i];
    assert !IsNumeral(s[|s| - 1]);
  }

  lemma LikePartJoins(a: string, gap: string, b: string)
    requires LikePart(a) && LikePart(b) && gap == " "
    ensures LikePart(a + (gap + b))
  {
    var s := a + (gap + b);
    assert s[|s| - 1] == b[|b| - 1];
  }

  lemma {:induction false} JoinLikePart(parts: seq<string>)
    requires parts != [] && AllLikeParts(parts)
    ensures LikePart(JoinWithBlank(parts))
  {
    var rest := parts[1..];
    assert parts == [parts[0]] + rest;
    JoinStep(parts[0], rest);
    if rest != [] {
      JoinLikePart(rest);
      LikePartJoins(parts[0], " ", JoinWithBlank(rest));
    }
  }

  lemma DigitsThenWord(n: nat, word: string)
    requires word != [] && Plain(word) && 'a' <= word[|word| - 1] <= 'z'
    ensures LikePart(Decimal(n) + word)
  {
    var s := Decimal(n) + word;
    assert s[|s| - 1] == word[|word| - 1];
  }

  // --- Putting the parts together.

  function ValueOf(value: nat, unit: string): seq<(nat, string)> {
    if value > 0 then [(value, unit)] else []
  }

  lemma {:induction false} PartsOfAppend(a: seq<(nat, string)>, b: seq<(nat, string)>)
    ensures PartsOf(a + b) == PartsOf(a) + PartsOf(b)
  {
    if a == [] {
      assert a + b == b;
    } else {
      PartsOfAppend(a[1..], b);
      assert (a + b)[1..] == a[1..] + b;
    }
  }

  lemma {:induction false} WeightAppend(a: seq<(nat, string)>, b: seq<(nat, string)>)
    requires KnownUnits(a) && KnownUnits(b)
    ensures KnownUnits(a + b) && Weight(a + b) == Weight(a) + Weight(b)
  {
    if a == [] {
      assert a + b == b;
    } else {
      WeightAppend(a[1..], b);
      assert (a + b)[1..] == a[1..] + b;
    }
  }

  /** A unit of `weight` seconds, spelled in lower case. */
  predicate PlainUnit(unit: string, weight: nat) {
    UnitSeconds(unit) == Some(weight) && Plain(unit) && unit != [] && 'a' <= unit[|unit| - 1] <= 'z'
  }

  predicate AllLikeParts(parts: seq<string>) {
    forall i :: 0 <= i < |parts| ==> LikePart(parts[i])
  }

  lemma ValuePart(value: nat, unit: string, weight: nat)
    requires PlainUnit(unit, weight)
    ensures KnownUnits(ValueOf(value, unit)) && Weight(ValueOf(value, unit)) == value * weight
    ensures PartsOf(ValueOf(value, unit)) == Part(value, unit)
    ensures AllLikeParts(Part(value, unit))
  {
    if value > 0 {
      var one := [(value, unit)];
      assert one[1..] == [];
      assert PartsOf(one) == [Decimal(value) + unit] + PartsOf([]);
      assert Weight(one) == value * UnitSeconds(unit).value + Weight([]);
      DigitsThenWord(value, unit);
    }
  }

  lemma ShortUnits(h: string, m: string, s: string)
    requires h == "h" && m == "m" && s == "s"
    ensures PlainUnit(h, 3600) && PlainUnit(m, 60) && PlainUnit(s, 1)
  {
    assert "h" in ["h", "hr", "hrs", "hour", "hours"];
  }

  /** Three parts, of which at least one is present, read back as their sum. */
  lemma PartsParse(h: nat, m: nat, s: nat, hours: string, minutes: string, secs: string)
    requires PlainUnit(hours, 3600) && PlainUnit(minutes, 60) && PlainUnit(secs, 1) && (h > 0 || m > 0 || s > 0)
    ensures var printed := JoinWithBlank(Part(h, hours) + Part(m, minutes) + Part(s, secs));
            LikePart(printed) && SegmentResult(printed) == InRange(3600 * h + 60 * m + s)
  {
    var hs, ms, ss := ValueOf(h, hours), ValueOf(m, minutes), ValueOf(s, secs);
    ValuePart(h, hours, 3600);
    ValuePart(m, minutes, 60);
    ValuePart(s, secs, 1);
    ThreeValues(hs, ms, ss);
    ThreeLikeParts(PartsOf(hs), PartsOf(ms), PartsOf(ss));
    LikeValuesParse(hs + ms + ss, PartsOf(hs) + PartsOf(ms) + PartsOf(ss), 3600 * h + 60 * m + s);
  }

  lemma ThreeLikeParts(a: seq<string>, b: seq<string>, c: seq<string>)
    requires AllLikeParts(a) && AllLikeParts(b) && AllLikeParts(c)
    ensures AllLikeParts(a + b + c)
  {
  }

  lemma LikeValuesParse(values: seq<(nat, string)>, parts: seq<string>, total: nat)
    requires values != [] && KnownUnits(values) && parts == PartsOf(values) && AllLikeParts(parts)
    requires total == Weight(values)
    ensures LikePart(JoinWithBlank(parts)) && SegmentResult(JoinWithBlank(parts)) == InRange(total)
  {
    JoinLikePart(parts);
    ValuesParse(values);
  }

  lemma ThreeValues(hs: seq<(nat, string)>, ms: seq<(nat, string)>, ss: seq<(nat, string)>)
    requires KnownUnits(hs) && KnownUnits(ms) && KnownUnits(ss)
    ensures PartsOf(hs + ms + ss) == PartsOf(hs) + PartsOf(ms) + PartsOf(ss)
    ensures KnownUnits(hs + ms + ss) && Weight(hs + ms + ss) == Weight(hs) + Weight(ms) + Weight(ss)
  {
    PartsOfAppend(hs + ms, ss);
    PartsOfAppend(hs, ms);
    WeightAppend(hs, ms);
    WeightAppend(hs + ms, ss);
  }

  lemma ValuesParse(values: seq<(nat, string)>)
    requires values != [] && KnownUnits(values)
    ensures SegmentResult(JoinWithBlank(PartsOf(values))) == InRange(Weight(values))
  {
    var segments := LabelSegments(values, true);
    LabelText(values, true, "");
    LabelTotal(values, true);
    TextParses(segments, "");
    var printed := JoinWithBlank(PartsOf(values));
    assert "" + printed == printed && printed + "" == printed;
  }

  lemma SpelledOut(value: nat, unit: string)
    requires unit in ["second", "minute", "hour"]
    ensures DurationOf(UnitLabel(value, unit)) == None
  {
    var word := if value == 1 then " " + unit else " " + unit + "s";
    assert Plain(word);
    assert UnitLabel(value, unit) == Decimal(value) + word;
    DigitsThenWord(value, word);
    LikePartIsKept(UnitLabel(value, unit));
    BlankUnitFails(value, word);
  }

  lemma ClockDigits(seconds: nat)
    ensures 3600 * (seconds / 3600) + 60 * (seconds % 3600 / 60) + seconds % 60 == seconds
  {
    var hours, rest := seconds / 3600, seconds % 3600;
    LastDigit(seconds, 60 * hours + rest / 60, rest % 60);
  }

  lemma LastDigit(x: nat, k: nat, q: nat)
    requires x == 60 * k + q && q < 60
    ensures x % 60 == q
  {
  }

  lemma CompoundParses(h: nat, m: nat, s: nat, hours: string, minutes: string, secs: string, printed: string)
    requires MIN_PRESET_SECONDS <= 3600 * h + 60 * m + s <= MAX_PRESET_SECONDS
    requires PlainUnit(hours, 3600) && PlainUnit(minutes, 60) && PlainUnit(secs, 1)
    requires printed == JoinWithBlank(Part(h, hours) + Part(m, minutes) + Part(s, secs))
    ensures DurationOf(printed) == Some(3600 * h + 60 * m + s)
  {
    PartsParse(h, m, s, hours, minutes, secs);
    LikePartIsKept(printed);
    SegmentsDenote(printed);
  }

  lemma ClockParses(h: nat, m: nat, s: nat)
    requires MIN_PRESET_SECONDS <= 3600 * h + 60 * m + s <= MAX_PRESET_SECONDS
    ensures DurationOf(Clock(h, m, s)) == Some(3600 * h + 60 * m + s)
  {
    ShortUnits("h", "m", "s");
    CompoundParses(h, m, s, "h", "m", "s", Clock(h, m, s));
  }

  lemma SegmentsDenote(printed: string)
    requires LikePart(printed) && Lowercase(Trim(printed)) == printed && !AllNumerals(printed)
    ensures DurationOf(printed) == SegmentResult(printed)
  {
  }

  /** A label reads back as its own preset exactly when it is compound: the labels with a
      spelled-out unit put a blank before it, which no input may have. */
  lemma LabelRoundTrip(seconds: nat)
    requires MIN_PRESET_SECONDS <= seconds <= MAX_PRESET_SECONDS
    ensures DurationOf(FormatLabel(seconds)) == if Compound(seconds) then Some(seconds) else None
  {
    if Compound(seconds) {
      ClockDigits(seconds);
      ClockParses(seconds / 3600, seconds % 3600 / 60, seconds % 60);
    } else if seconds < 60 {
      SpelledOut(seconds, "second");
    } else if seconds % 3600 == 0 {
      SpelledOut(seconds / 3600, "hour");
    } else {
      SpelledOut(seconds / 60, "minute");
    }
  }
}
