/** The string primitives of the Rust standard library that the modelled code relies on. */
module Text {
  import opened Options

  const U32_MAX: nat := 0xFFFF_FFFF
  const U64_MAX: nat := 0xFFFF_FFFF_FFFF_FFFF

  // ---------------------------------------------------------------------------
  // Characters.

  /** `char::len_utf8`. */
  function Utf8Width(c: char): (n: nat)
    ensures 1 <= n <= 4
  {
    if c as int < 0x80 then 1 else if c as int < 0x800 then 2 else if c as int < 0x10000 then 3 else 4
  }

  /** `str::len`: the length in bytes. */
  function Utf8Len(s: string): (n: nat)
    ensures n >= |s|
  {
    if s == [] then 0 else Utf8Width(s[0]) + Utf8Len(s[1..])
  }

  /** `char::is_whitespace`: the Unicode White_Space property. */
  predicate IsWhitespace(c: char) {
    var n := c as int;
    0x9 <= n <= 0xD || n == 0x20 || n == 0x85 || n == 0xA0 || n == 0x1680 || 0x2000 <= n <= 0x200A
    || n == 0x2028 || n == 0x2029 || n == 0x202F || n == 0x205F || n == 0x3000
  }

  predicate IsDigit(c: char) {
    '0' <= c <= '9'
  }

  predicate AllDigits(s: string) {
    forall i :: 0 <= i < |s| ==> IsDigit(s[i])
  }

  predicate Ascii(s: string) {
    forall i :: 0 <= i < |s| ==> s[i] as int < 0x80
  }

  lemma {:induction false} AsciiLen(s: string)
    requires Ascii(s)
    ensures Utf8Len(s) == |s|
  {
    if s != [] {
      AsciiLen(s[1..]);
    }
  }

  lemma {:induction false} Utf8LenBound(s: string)
    ensures Utf8Len(s) <= 4 * |s|
  {
    if s != [] {
      Utf8LenBound(s[1..]);
    }
  }

  lemma {:induction false} Utf8LenAppend(a: string, b: string)
    ensures Utf8Len(a + b) == Utf8Len(a) + Utf8Len(b)
  {
    if a == [] {
      assert a + b == b;
    } else {
      Utf8LenAppend(a[1..], b);
      assert (a + b)[1..] == a[1..] + b;
    }
  }

  // ---------------------------------------------------------------------------
  // Numbers.

  function DigitValue(c: char): (d: nat)
    requires IsDigit(c)
    ensures d < 10
  {
    (c as int) - ('0' as int)
  }

  function DigitChar(d: nat): (c: char)
    requires d < 10
    ensures IsDigit(c) && DigitValue(c) == d
  {
    (d + ('0' as int)) as char
  }

  /** The number a string of digits denotes. */
  function DigitsValue(s: string): nat
    requires AllDigits(s)
  {
    if s == [] then 0 else 10 * DigitsValue(s[..|s| - 1]) + DigitValue(s[|s| - 1])
  }

  /** `format!("{n}")`. */
  function Decimal(n: nat): (s: string)
    ensures s != [] && AllDigits(s)
  {
    if n < 10 then [DigitChar(n)] else Decimal(n / 10) + [DigitChar(n % 10)]
  }

  /** `str::parse` for an unsigned type whose largest value is `max`: an optional plus sign, at least
      one digit, and no overflow. */
  function ParseUnsigned(s: string, max: nat): Option<nat> {
    var digits := if s != [] && s[0] == '+' then s[1..] else s;
    if digits != [] && AllDigits(digits) && DigitsValue(digits) <= max then Some(DigitsValue(digits))
    else None
  }

  lemma {:induction false} DecimalValue(n: nat)
    ensures DigitsValue(Decimal(n)) == n
  {
    if n >= 10 {
      DecimalValue(n / 10);
      var s := Decimal(n);
      assert s[..|s| - 1] == Decimal(n / 10);
    }
  }

  lemma {:induction false} DigitsBound(s: string)
    requires AllDigits(s)
    ensures DigitsValue(s) < Pow10(|s|)
  {
    if s != [] {
      DigitsBound(s[..|s| - 1]);
    }
  }

  lemma DecimalParses(n: nat, max: nat)
    requires n <= max
    ensures ParseUnsigned(Decimal(n), max) == Some(n)
  {
    DecimalValue(n);
    assert IsDigit(Decimal(n)[0]);
  }

  lemma {:induction false} DecimalLength(n: nat, digits: nat)
    requires digits >= 1 && n < Pow10(digits)
    ensures |Decimal(n)| <= digits
  {
    if n >= 10 {
      DecimalLength(n / 10, digits - 1);
    }
  }

  function Pow10(k: nat): (p: nat)
    ensures p >= 1
  {
    if k == 0 then 1 else 10 * Pow10(k - 1)
  }

  // ---------------------------------------------------------------------------
  // Searching and splitting.

  /** Index of the first `c`, or the length when there is none. */
  function IndexOf<T(==)>(s: seq<T>, c: T): (k: nat)
    ensures k <= |s|
    ensures k < |s| ==> s[k] == c
    ensures c !in s[..k]
  {
    if s == [] || s[0] == c then 0 else 1 + IndexOf(s[1..], c)
  }

  /** Index of the last `c`, or the length when there is none. */
  function LastIndexOf<T(==)>(s: seq<T>, c: T): (k: nat)
    ensures k <= |s|
    ensures k < |s| ==> s[k] == c
  {
    if s == [] then 0
    else if s[|s| - 1] == c then |s| - 1
    else
      var k := LastIndexOf(s[..|s| - 1], c);
      if k == |s| - 1 then |s| else k
  }

  /** `str::split` on one character: always at least one piece. */
  function Split<T(==)>(s: seq<T>, c: T): (r: seq<seq<T>>)
    ensures |r| >= 1
    decreases |s|
  {
    var k := IndexOf(s, c);
    if k == |s| then [s] else [s[..k]] + Split(s[k + 1..], c)
  }

  /** `str::strip_prefix`. */
  function StripPrefix<T(==)>(prefix: seq<T>, s: seq<T>): Option<seq<T>> {
    if prefix <= s then Some(s[|prefix|..]) else None
  }

  lemma PrefixStrips<T>(prefix: seq<T>, rest: seq<T>)
    ensures StripPrefix(prefix, prefix + rest) == Some(rest)
  {
    assert (prefix + rest)[|prefix|..] == rest;
  }

  lemma PrefixDiffers<T>(prefix: seq<T>, s: seq<T>)
    requires prefix != [] && s != [] && prefix[0] != s[0]
    ensures StripPrefix(prefix, s) == None
  {
  }

  /** Pieces, each followed by `c`. */
  function Joined<T>(pieces: seq<seq<T>>, c: T): seq<T> {
    if pieces == [] then [] else pieces[0] + [c] + Joined(pieces[1..], c)
  }

  lemma FirstIndex<T>(a: seq<T>, c: T, rest: seq<T>)
    requires c !in a
    ensures IndexOf(a + [c] + rest, c) == |a|
  {
    var s := a + [c] + rest;
    var k := IndexOf(s, c);
    assert s[|a|] == c && s[|a|] in s[|a|..];
    assert forall i :: 0 <= i < |a| ==> s[i] == a[i];
  }

  lemma NoIndex<T>(a: seq<T>, c: T)
    requires c !in a
    ensures IndexOf(a, c) == |a|
  {
  }

  lemma SplitFirst<T>(a: seq<T>, c: T, rest: seq<T>)
    requires c !in a
    ensures Split(a + [c] + rest, c) == [a] + Split(rest, c)
  {
    var s := a + [c] + rest;
    FirstIndex(a, c, rest);
    assert s[..|a|] == a && s[|a| + 1..] == rest;
  }

  lemma SplitNone<T>(a: seq<T>, c: T)
    requires c !in a
    ensures Split(a, c) == [a]
  {
    NoIndex(a, c);
  }

  /** Splitting closed pieces gives them back, with one empty piece after the last. */
  lemma {:induction false} SplitJoined<T>(pieces: seq<seq<T>>, c: T)
    requires Free(pieces, c)
    ensures Split(Joined(pieces, c), c) == pieces + [[]]
  {
    if pieces == [] {
      SplitNone([], c);
    } else {
      var head, tail := pieces[0], pieces[1..];
      SplitJoined(tail, c);
      SplitFirst(head, c, Joined(tail, c));
      PutInFront(head, tail, pieces);
    }
  }

  predicate Free<T(==)>(pieces: seq<seq<T>>, c: T) {
    forall i :: 0 <= i < |pieces| ==> c !in pieces[i]
  }

  lemma PutInFront<U>(head: U, tail: seq<U>, all: seq<U>)
    requires all != [] && head == all[0] && tail == all[1..]
    ensures forall last :: [head] + (tail + [last]) == all + [last]
  {
    forall last ensures [head] + (tail + [last]) == all + [last] {
      assert all == [head] + tail;
    }
  }

  lemma {:induction false} JoinedAppend<T>(a: seq<seq<T>>, b: seq<seq<T>>, c: T)
    ensures Joined(a + b, c) == Joined(a, c) + Joined(b, c)
  {
    if a == [] {
      assert a + b == b;
    } else {
      assert (a + b)[1..] == a[1..] + b;
      JoinedAppend(a[1..], b, c);
    }
  }

  lemma JoinedOne<T>(a: seq<T>, c: T)
    ensures Joined([a], c) == a + [c]
  {
    assert [a][1..] == [];
  }

  lemma {:induction false} LastIndex<T>(a: seq<T>, c: T, b: seq<T>)
    requires c !in b
    ensures LastIndexOf(a + [c] + b, c) == |a|
  {
    var s := a + [c] + b;
    if b == [] {
      assert s[|s| - 1] == c;
    } else {
      var k := |b| - 1;
      assert s[..|s| - 1] == a + [c] + b[..k];
      assert s[|s| - 1] == b[k];
      LastIndex(a, c, b[..k]);
    }
  }

  // ---------------------------------------------------------------------------
  // Concatenation.

  lemma Associate<T>(a: seq<T>, b: seq<T>, c: seq<T>)
    ensures a + (b + c) == a + b + c
  {
  }

  // ---------------------------------------------------------------------------
  // Trimming.

  function DropWhile<T>(p: T -> bool, s: seq<T>): (r: seq<T>)
    ensures |r| <= |s|
    ensures r != [] ==> !p(r[0])
  {
    if s != [] && p(s[0]) then DropWhile(p, s[1..]) else s
  }

  function TakeWhile<T>(p: T -> bool, s: seq<T>): (r: seq<T>)
    ensures r <= s
    ensures forall i :: 0 <= i < |r| ==> p(r[i])
  {
    if s != [] && p(s[0]) then [s[0]] + TakeWhile(p, s[1..]) else []
  }

  lemma {:induction false} TakeDrop<T>(p: T -> bool, s: seq<T>)
    ensures TakeWhile(p, s) + DropWhile(p, s) == s
  {
    if s != [] && p(s[0]) {
      TakeDrop(p, s[1..]);
      assert s == [s[0]] + s[1..];
    }
  }

  lemma {:induction false} LeadingTakes<T>(p: T -> bool, before: seq<T>, rest: seq<T>)
    requires forall i :: 0 <= i < |before| ==> p(before[i])
    requires rest != [] ==> !p(rest[0])
    ensures TakeWhile(p, before + rest) == before
  {
    if before == [] {
      assert before + rest == rest;
    } else {
      assert (before + rest)[1..] == before[1..] + rest;
      LeadingTakes(p, before[1..], rest);
    }
  }

  function DropWhileEnd<T>(p: T -> bool, s: seq<T>): (r: seq<T>)
    ensures r <= s
    ensures r != [] ==> !p(r[|r| - 1])
  {
    if s != [] && p(s[|s| - 1]) then DropWhileEnd(p, s[..|s| - 1]) else s
  }

  /** `trim_matches`. */
  function TrimMatches<T>(p: T -> bool, s: seq<T>): seq<T> {
    DropWhileEnd(p, DropWhile(p, s))
  }

  lemma TrimmedEdges<T>(p: T -> bool, s: seq<T>)
    ensures var r := TrimMatches(p, s);
            r != [] ==> !p(r[0]) && !p(r[|r| - 1])
  {
  }

  lemma {:induction false} DroppedEnd<T>(p: T -> bool, s: seq<T>) returns (after: seq<T>)
    ensures s == DropWhileEnd(p, s) + after && forall i :: 0 <= i < |after| ==> p(after[i])
  {
    if s != [] && p(s[|s| - 1]) {
      var rest := DroppedEnd(p, s[..|s| - 1]);
      after := rest + [s[|s| - 1]];
      assert s == s[..|s| - 1] + [s[|s| - 1]];
    } else {
      after := [];
    }
  }

  /** What trimming takes away. */
  lemma TrimParts<T>(p: T -> bool, s: seq<T>) returns (before: seq<T>, after: seq<T>)
    ensures s == before + TrimMatches(p, s) + after
    ensures forall i :: 0 <= i < |before| ==> p(before[i])
    ensures forall i :: 0 <= i < |after| ==> p(after[i])
  {
    before := TakeWhile(p, s);
    TakeDrop(p, s);
    after := DroppedEnd(p, DropWhile(p, s));
    Associate(before, TrimMatches(p, s), after);
  }

  /** One pass of trimming already reaches its fixed point. */
  lemma TrimIsIdempotent<T>(p: T -> bool, s: seq<T>)
    ensures TrimMatches(p, TrimMatches(p, s)) == TrimMatches(p, s)
  {
    TrimmedEdges(p, s);
  }

  lemma {:induction false} LeadingDrops<T>(p: T -> bool, before: seq<T>, rest: seq<T>)
    requires forall i :: 0 <= i < |before| ==> p(before[i])
    requires rest != [] ==> !p(rest[0])
    ensures DropWhile(p, before + rest) == rest
  {
    if before == [] {
      assert before + rest == rest;
    } else {
      assert (before + rest)[1..] == before[1..] + rest;
      LeadingDrops(p, before[1..], rest);
    }
  }

  lemma {:induction false} TrailingDrops<T>(p: T -> bool, rest: seq<T>, after: seq<T>)
    requires forall i :: 0 <= i < |after| ==> p(after[i])
    requires rest != [] ==> !p(rest[|rest| - 1])
    ensures DropWhileEnd(p, rest + after) == rest
  {
    if after == [] {
      assert rest + after == rest;
    } else {
      var k := |after| - 1;
      assert (rest + after)[..|rest| + k] == rest + after[..k];
      TrailingDrops(p, rest, after[..k]);
    }
  }

  /** `str::trim`. */
  function Trim(s: string): string {
    TrimMatches(IsWhitespace, s)
  }

  predicate Tight(s: string) {
    s == [] || (!IsWhitespace(s[0]) && !IsWhitespace(s[|s| - 1]))
  }

  lemma TrimTight(s: string)
    ensures Tight(Trim(s))
    ensures Tight(s) ==> Trim(s) == s
  {
    TrimmedEdges(IsWhitespace, s);
  }

  // ---------------------------------------------------------------------------
  // Lines, words and case.

  function StripCr(s: string): string {
    if s != [] && s[|s| - 1] == '\r' then s[..|s| - 1] else s
  }

  function StripAll(raws: seq<string>): seq<string> {
    if raws == [] then [] else [StripCr(raws[0])] + StripAll(raws[1..])
  }

  /** `str::lines`: an unterminated last line counts only when it is not empty. */
  function LinesOf(text: string): seq<string> {
    var pieces := Split(text, '\n');
    var k := |pieces| - 1;
    StripAll(pieces[..k]) + (if pieces[k] == [] then [] else [pieces[k]])
  }

  /** `split_whitespace`. */
  function Words(s: string): seq<string>
    decreases |s|
  {
    var rest := DropWhile(IsWhitespace, s);
    if rest == [] then []
    else
      var word := TakeWhile(IsInk, rest);
      TakeDrop(IsInk, rest);
      [word] + Words(DropWhile(IsInk, rest))
  }

  predicate IsInk(c: char) {
    !IsWhitespace(c)
  }

  function LowerChar(c: char): char {
    if 'A' <= c <= 'Z' then (c as int + 32) as char else c
  }

  /** `to_ascii_lowercase`. */
  function Lowercase(s: string): (r: string)
    ensures |r| == |s| && forall i :: 0 <= i < |s| ==> r[i] == LowerChar(s[i])
  {
    seq(|s|, i requires 0 <= i < |s| => LowerChar(s[i]))
  }
}
