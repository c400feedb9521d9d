/** The signed release manifest: its printer, its parser and the canonical text that is signed. */
module Manifest {
  import opened Options
  import opened Text
  import opened Sequences

  const MAX_MANIFEST_ENTRIES: nat := 256
  const MAX_MANIFEST_LINE_BYTES: nat := 4096
  const DIGEST_LEN: nat := 32
  const SIGNATURE_LEN: nat := 64

  const COUNTER_PREFIX: string := "release_counter "
  const ENTRY_PREFIX: string := "entry "
  const SIGNATURE_PREFIX: string := "signature "

  type byte = n: int | 0 <= n < 256

  datatype Error = MalformedManifest | WrongSignatureLength
  datatype Result<+T> = Ok(value: T) | Err(error: Error)

  datatype Entry = Entry(path: string, sha256: seq<byte>)
  datatype SignedManifest = SignedManifest(counter: nat, entries: seq<Entry>, signature: seq<byte>)

  // ---------------------------------------------------------------------------
  // Lowercase hexadecimal.

  function HexDigit(n: nat): (c: char)
    requires n < 16
    ensures IsHex(c) && HexValue(c) == n
  {
    if n < 10 then (n + ('0' as int)) as char else (n - 10 + ('a' as int)) as char
  }

  predicate IsHex(c: char) {
    '0' <= c <= '9' || 'a' <= c <= 'f'
  }

  function HexValue(c: char): (n: nat)
    requires IsHex(c)
    ensures n < 16
  {
    if c <= '9' then (c as int) - ('0' as int) else (c as int) - ('a' as int) + 10
  }

  lemma HexDigitOf(c: char)
    requires IsHex(c)
    ensures HexDigit(HexValue(c)) == c
  {
  }

  predicate AllHex(s: string) {
    forall i :: 0 <= i < |s| ==> IsHex(s[i])
  }

  /** `{byte:02x}` for every byte in turn. */
  function Hex(bytes: seq<byte>): (s: string)
    ensures |s| == 2 * |bytes| && AllHex(s)
  {
    if bytes == [] then []
    else [HexDigit(bytes[0] / 16), HexDigit(bytes[0] % 16)] + Hex(bytes[1..])
  }

  function HexPairs(s: string): (bytes: seq<byte>)
    requires |s| % 2 == 0 && AllHex(s)
    ensures 2 * |bytes| == |s|
  {
    if s == [] then [] else [16 * HexValue(s[0]) + HexValue(s[1])] + HexPairs(s[2..])
  }

  function DecodeHex(s: string, n: nat): Option<seq<byte>> {
    if Utf8Len(s) != 2 * n || !AllHex(s) then None
    else if |s| % 2 == 0 then Some(HexPairs(s))
    else None
  }

  lemma HexIsAscii(s: string)
    requires AllHex(s)
    ensures Utf8Len(s) == |s|
  {
    AsciiLen(s);
  }

  lemma {:induction false} PairsOfHex(bytes: seq<byte>)
    ensures HexPairs(Hex(bytes)) == bytes
  {
    if bytes != [] {
      PairsOfHex(bytes[1..]);
      assert Hex(bytes)[2..] == Hex(bytes[1..]);
      assert bytes == [bytes[0]] + bytes[1..];
    }
  }

  lemma {:induction false} HexOfPairs(s: string)
    requires |s| % 2 == 0 && AllHex(s)
    ensures Hex(HexPairs(s)) == s
  {
    if s != [] {
      HexOfPairs(s[2..]);
      HexDigitOf(s[0]);
      HexDigitOf(s[1]);
      var b := HexPairs(s)[0];
      assert b / 16 == HexValue(s[0]) && b % 16 == HexValue(s[1]);
      assert HexPairs(s)[1..] == HexPairs(s[2..]);
      assert s == [s[0], s[1]] + s[2..];
    }
  }

  lemma DecodeOfHex(bytes: seq<byte>)
    ensures DecodeHex(Hex(bytes), |bytes|) == Some(bytes)
  {
    DecodeHexIs(Hex(bytes), |bytes|);
    PairsOfHex(bytes);
  }

  lemma DecodeHexIs(s: string, n: nat)
    requires AllHex(s) && |s| == 2 * n
    ensures DecodeHex(s, n) == Some(HexPairs(s))
  {
    HexIsAscii(s);
  }

  /** Only the canonical lowercase spelling of `n` bytes decodes. */
  lemma HexOfDecode(s: string, n: nat)
    requires DecodeHex(s, n).Some?
    ensures |DecodeHex(s, n).value| == n && Hex(DecodeHex(s, n).value) == s
  {
    HexIsAscii(s);
    HexOfPairs(s);
  }

  // ---------------------------------------------------------------------------
  // One line.

  datatype Line =
    | Blank
    | CounterLine(counter: nat)
    | EntryLine(entry: Entry)
    | SignatureLine(signature: seq<byte>)
    | BadSignatureLength
    | Bad

  predicate HasWhitespace(s: string) {
    exists i :: 0 <= i < |s| && IsWhitespace(s[i])
  }

  function ClassifyEntry(rest: string): Line {
    var k := LastIndexOf(rest, ' ');
    if k == |rest| then Bad
    else
      var path := rest[..k];
      if path == [] || HasWhitespace(path) then Bad
      else
        match DecodeHex(rest[k + 1..], DIGEST_LEN)
        case None => Bad
        case Some(digest) => EntryLine(Entry(path, digest))
  }

  function ClassifySignature(rest: string): Line {
    if Utf8Len(rest) != 2 * SIGNATURE_LEN then BadSignatureLength
    else
      match DecodeHex(rest, SIGNATURE_LEN)
      case None => Bad
      case Some(signature) => SignatureLine(signature)
  }

  function ClassifyCounter(rest: string): Line {
    match ParseUnsigned(rest, U64_MAX)
    case None => Bad
    case Some(n) => CounterLine(n)
  }

  function Classify(raw: string): Line {
    var line := StripCr(raw);
    if Utf8Len(line) > MAX_MANIFEST_LINE_BYTES then Bad
    else if line == [] then Blank
    else Route(line)
  }

  function Route(line: string): Line {
    match StripPrefix(COUNTER_PREFIX, line)
    case Some(rest) => ClassifyCounter(rest)
    case None =>
      match StripPrefix(ENTRY_PREFIX, line)
      case Some(rest) => ClassifyEntry(rest)
      case None =>
        match StripPrefix(SIGNATURE_PREFIX, line)
        case Some(rest) => ClassifySignature(rest)
        case None => Bad
  }

  // ---------------------------------------------------------------------------
  // The parser.

  datatype Parse = Parse(counter: Option<nat>, entries: seq<Entry>, signature: Option<seq<byte>>)

  predicate HasPath(entries: seq<Entry>, path: string) {
    exists i :: 0 <= i < |entries| && entries[i].path == path
  }

  function Step(p: Parse, line: Line): Result<Parse> {
    match line
    case Blank => Ok(p)
    case Bad => Err(MalformedManifest)
    case BadSignatureLength => Err(if p.signature.Some? then MalformedManifest else WrongSignatureLength)
    case CounterLine(n) => if p.counter.Some? then Err(MalformedManifest) else Ok(p.(counter := Some(n)))
    case EntryLine(e) =>
      if |p.entries| >= MAX_MANIFEST_ENTRIES || HasPath(p.entries, e.path) then Err(MalformedManifest)
      else Ok(p.(entries := p.entries + [e]))
    case SignatureLine(s) => if p.signature.Some? then Err(MalformedManifest) else Ok(p.(signature := Some(s)))
  }

  function Fold(lines: seq<Line>): Result<Parse> {
    if lines == [] then Ok(Parse(None, [], None))
    else
      var before := Fold(lines[..|lines| - 1]);
      if before.Err? then before else Step(before.value, lines[|lines| - 1])
  }

  function SomeLine(raw: string): Option<Line> {
    Some(Classify(raw))
  }

  /** The lines of a text, classified one by one. */
  function Lines(raws: seq<string>): seq<Line> {
    FilterMap(SomeLine, raws)
  }

  function Finish(p: Parse): Result<SignedManifest> {
    if p.counter.None? || p.signature.None? then Err(MalformedManifest)
    else Ok(SignedManifest(p.counter.value, p.entries, p.signature.value))
  }

  function ParseText(text: string): Result<SignedManifest> {
    var p := Fold(Lines(Split(text, '\n')));
    if p.Err? then Err(p.error) else Finish(p.value)
  }

  lemma {:induction false} ErrorSticks(lines: seq<Line>, rest: seq<Line>)
    requires Fold(lines).Err?
    ensures Fold(lines + rest) == Fold(lines)
  {
    if rest == [] {
      assert lines + rest == lines;
    } else {
      var k := |rest| - 1;
      ErrorSticks(lines, rest[..k]);
      assert (lines + rest)[..|lines + rest| - 1] == lines + rest[..k];
    }
  }

  lemma FoldNext(raws: seq<string>, i: nat)
    requires i < |raws| && Fold(Lines(raws[..i])).Ok?
    ensures Fold(Lines(raws[..i + 1])) == Step(Fold(Lines(raws[..i])).value, Classify(raws[i]))
  {
    assert raws[..i + 1] == raws[..i] + [raws[i]];
    LinesGrow(raws[..i], raws[i], Classify(raws[i]));
    FoldMore(Lines(raws[..i]), Classify(raws[i]));
  }

  lemma FoldMore(lines: seq<Line>, line: Line)
    requires Fold(lines).Ok?
    ensures Fold(lines + [line]) == Step(Fold(lines).value, line)
  {
    assert (lines + [line])[..|lines|] == lines;
  }

  lemma FoldStops(raws: seq<string>, i: nat)
    requires i <= |raws| && Fold(Lines(raws[..i])).Err?
    ensures Fold(Lines(raws)) == Fold(Lines(raws[..i]))
  {
    assert raws == raws[..i] + raws[i..];
    FilterMapAppend(SomeLine, raws[..i], raws[i..]);
    ErrorSticks(Lines(raws[..i]), Lines(raws[i..]));
  }

  /** The source's loop over the lines. */
  method ParseSignedManifest(text: string) returns (r: Result<SignedManifest>)
    ensures r == ParseText(text)
  {
    var p := Parse(None, [], None);
    var lines := Split(text, '\n');
    for i := 0 to |lines|
      invariant Fold(Lines(lines[..i])) == Ok(p)
    {
      FoldNext(lines, i);
      var step := Step(p, Classify(lines[i]));
      if step.Err? {
        FoldStops(lines, i + 1);
        return Err(step.error);
      }
      p := step.value;
    }
    assert lines[..|lines|] == lines;
    r := Finish(p);
  }

  // What the parser accepts, regardless of order.

  function CounterOf(line: Line): Option<nat> {
    if line.CounterLine? then Some(line.counter) else None
  }

  function EntryOf(line: Line): Option<Entry> {
    if line.EntryLine? then Some(line.entry) else None
  }

  function SignatureOf(line: Line): Option<seq<byte>> {
    if line.SignatureLine? then Some(line.signature) else None
  }

  predicate Readable(line: Line) {
    !line.Bad? && !line.BadSignatureLength?
  }

  predicate DistinctPaths(entries: seq<Entry>) {
    forall i, j :: 0 <= i < j < |entries| ==> entries[i].path != entries[j].path
  }

  function AtMostOne<T>(s: seq<T>): Option<T>
    requires |s| <= 1
  {
    if s == [] then None else Some(s[0])
  }

  ghost predicate Acceptable(lines: seq<Line>) {
    && (forall i :: 0 <= i < |lines| ==> Readable(lines[i]))
    && |FilterMap(CounterOf, lines)| <= 1
    && |FilterMap(SignatureOf, lines)| <= 1
    && |FilterMap(EntryOf, lines)| <= MAX_MANIFEST_ENTRIES
    && DistinctPaths(FilterMap(EntryOf, lines))
  }

  function Collected(lines: seq<Line>): Parse
    requires |FilterMap(CounterOf, lines)| <= 1 && |FilterMap(SignatureOf, lines)| <= 1
  {
    Parse(AtMostOne(FilterMap(CounterOf, lines)), FilterMap(EntryOf, lines),
          AtMostOne(FilterMap(SignatureOf, lines)))
  }

  /** Acceptance does not depend on order: the lines must be readable, with at most one counter, at
      most one signature, at most 256 entries, and no path twice. */
  lemma {:induction false} AcceptedLines(lines: seq<Line>)
    ensures Fold(lines).Ok? <==> Acceptable(lines)
    ensures Acceptable(lines) ==> Fold(lines) == Ok(Collected(lines))
  {
    if lines != [] {
      var k := |lines| - 1;
      AcceptedLines(lines[..k]);
      PrefixAcceptable(lines, k);
    }
  }

  ghost predicate Fits(lines: seq<Line>, line: Line) {
    && Readable(line)
    && (line.CounterLine? ==> FilterMap(CounterOf, lines) == [])
    && (line.SignatureLine? ==> FilterMap(SignatureOf, lines) == [])
    && (line.EntryLine? ==>
          && |FilterMap(EntryOf, lines)| < MAX_MANIFEST_ENTRIES
          && !HasPath(FilterMap(EntryOf, lines), line.entry.path))
  }

  lemma PrefixAcceptable(lines: seq<Line>, k: nat)
    requires k == |lines| - 1
    ensures Acceptable(lines) <==> Acceptable(lines[..k]) && Fits(lines[..k], lines[k])
  {
    assert lines == lines[..k] + [lines[k]];
    if lines[k].EntryLine? {
      DistinctGrows(FilterMap(EntryOf, lines[..k]), lines[k].entry);
    }
  }

  lemma DistinctGrows(es: seq<Entry>, e: Entry)
    ensures DistinctPaths(es + [e]) <==> DistinctPaths(es) && !HasPath(es, e.path)
  {
    var all := es + [e];
    if DistinctPaths(all) {
      forall i, j | 0 <= i < j < |es| ensures es[i].path != es[j].path {
        assert all[i] == es[i] && all[j] == es[j];
      }
      forall i | 0 <= i < |es| ensures es[i].path != e.path {
        assert all[i] == es[i] && all[|es|] == e;
      }
    }
  }

  // ---------------------------------------------------------------------------
  // Path order, sorting and deduplication.

  /** `str::cmp`: code point order, which is byte order in UTF-8. */
  predicate Less(a: string, b: string) {
    b != [] && (a == [] || a[0] < b[0] || (a[0] == b[0] && Less(a[1..], b[1..])))
  }

  lemma {:induction false} LessIrreflexive(a: string)
    ensures !Less(a, a)
  {
    if a != [] {
      LessIrreflexive(a[1..]);
    }
  }

  lemma {:induction false} LessTransitive(a: string, b: string, c: string)
    requires Less(a, b) && Less(b, c)
    ensures Less(a, c)
  {
    if a != [] && a[0] == b[0] && b[0] == c[0] {
      LessTransitive(a[1..], b[1..], c[1..]);
    }
  }

  lemma {:induction false} LessTotal(a: string, b: string)
    ensures Less(a, b) || a == b || Less(b, a)
  {
    if a != [] && b != [] && a[0] == b[0] {
      LessTotal(a[1..], b[1..]);
      assert a == [a[0]] + a[1..] && b == [b[0]] + b[1..];
    }
  }

  /** At the first place where they differ the code point of `a` is smaller, or `a` ends there. */
  predicate Precedes(a: string, b: string, k: nat) {
    k <= |a| && k < |b| && (forall i :: 0 <= i < k ==> a[i] == b[i]) && (k == |a| || a[k] < b[k])
  }

  lemma {:induction false} LessExactly(a: string, b: string)
    ensures Less(a, b) <==> exists k: nat :: Precedes(a, b, k)
  {
    if a == [] || b == [] || a[0] != b[0] {
      if Less(a, b) {
        assert Precedes(a, b, 0);
      }
    } else {
      LessExactly(a[1..], b[1..]);
      if k: nat :| Precedes(a[1..], b[1..], k) {
        assert forall i :: 0 <= i < k ==> a[1..][i] == a[i + 1] && b[1..][i] == b[i + 1];
        assert Precedes(a, b, k + 1);
      }
      if k: nat :| Precedes(a, b, k) {
        assert k > 0;
        assert Precedes(a[1..], b[1..], k - 1);
      }
    }
  }

  predicate PathLess(a: Entry, b: Entry) {
    Less(a.path, b.path)
  }

  /** `sort_by` on the path: stable. */
  function Sort(s: seq<Entry>): seq<Entry> {
    SortBy(PathLess, s)
  }

  /** `dedup_by` on the path: the first of each run stays. */
  function Dedup(s: seq<Entry>): (r: seq<Entry>)
    ensures |r| <= |s|
    ensures s != [] ==> r != [] && r[0] == s[0]
    decreases |s|
  {
    if |s| <= 1 then s
    else if s[0].path == s[1].path then Dedup([s[0]] + s[2..])
    else [s[0]] + Dedup(s[1..])
  }

  /** The digest of the first entry for a path: the meaning of an entry list. */
  function Find(s: seq<Entry>, path: string): Option<seq<byte>> {
    if s == [] then None else if s[0].path == path then Some(s[0].sha256) else Find(s[1..], path)
  }

  predicate Sorted(s: seq<Entry>) {
    SortedBy(PathLess, s)
  }

  predicate StrictlySorted(s: seq<Entry>) {
    forall i, j :: 0 <= i < j < |s| ==> Less(s[i].path, s[j].path)
  }

  lemma FindCons(e: Entry, s: seq<Entry>, path: string)
    ensures Find([e] + s, path) == if e.path == path then Some(e.sha256) else Find(s, path)
  {
    assert ([e] + s)[1..] == s;
  }

  lemma {:induction false} InsertFinds(e: Entry, s: seq<Entry>, path: string)
    ensures Find(InsertBy(PathLess, e, s), path) == if e.path == path then Some(e.sha256) else Find(s, path)
  {
    FindCons(e, s, path);
    if s != [] && PathLess(s[0], e) {
      InsertFinds(e, s[1..], path);
      FindCons(s[0], InsertBy(PathLess, e, s[1..]), path);
      LessIrreflexive(e.path);
    }
  }

  lemma {:induction false} SortFinds(s: seq<Entry>, path: string)
    ensures Find(Sort(s), path) == Find(s, path)
  {
    if s != [] {
      SortFinds(s[1..], path);
      InsertFinds(s[0], Sort(s[1..]), path);
    }
  }

  lemma SortMembers(s: seq<Entry>)
    ensures multiset(Sort(s)) == multiset(s) && |Sort(s)| == |s|
    ensures forall x :: x in Sort(s) <==> x in s
  {
    SortByPermutes(PathLess, s);
    BagSize(s, Sort(s));
  }

  lemma PathsAreOrdered()
    ensures WeakOrder(PathLess)
  {
    forall x, y | PathLess(x, y) ensures !PathLess(y, x) {
      LessAsymmetric(x.path, y.path);
    }
    forall x, y, z | PathLess(x, z) ensures PathLess(x, y) || PathLess(y, z) {
      LessTotal(x.path, y.path);
      if Less(y.path, x.path) {
        LessTransitive(y.path, x.path, z.path);
      }
    }
  }

  lemma LessAsymmetric(a: string, b: string)
    requires Less(a, b)
    ensures !Less(b, a)
  {
    if Less(b, a) {
      LessTransitive(a, b, a);
      LessIrreflexive(a);
    }
  }

  lemma SortSorted(s: seq<Entry>)
    ensures Sorted(Sort(s))
  {
    PathsAreOrdered();
    SortBySorted(PathLess, s);
  }

  lemma {:induction false} DedupMembers(s: seq<Entry>)
    ensures forall x :: x in Dedup(s) ==> x in s
    decreases |s|
  {
    if |s| > 1 {
      if s[0].path == s[1].path {
        DedupMembers([s[0]] + s[2..]);
      } else {
        DedupMembers(s[1..]);
      }
    }
  }

  lemma {:induction false} DedupFinds(s: seq<Entry>, path: string)
    ensures Find(Dedup(s), path) == Find(s, path)
    decreases |s|
  {
    if |s| > 1 {
      assert s == [s[0]] + s[1..] && s[1..] == [s[1]] + s[2..];
      FindCons(s[0], s[1..], path);
      FindCons(s[1], s[2..], path);
      if s[0].path == s[1].path {
        DedupFinds([s[0]] + s[2..], path);
        FindCons(s[0], s[2..], path);
      } else {
        DedupFinds(s[1..], path);
        FindCons(s[0], Dedup(s[1..]), path);
      }
    }
  }

  lemma ConsStrict(e: Entry, s: seq<Entry>)
    requires StrictlySorted(s) && forall x :: x in s ==> Less(e.path, x.path)
    ensures StrictlySorted([e] + s)
  {
    var r := [e] + s;
    forall i, j | 0 <= i < j < |r| ensures Less(r[i].path, r[j].path) {
      assert r[j] == s[j - 1];
      if i > 0 {
        assert r[i] == s[i - 1];
      }
    }
  }

  /** In a sorted list everything after a first, different path lies above it. */
  lemma AboveFirst(s: seq<Entry>)
    requires |s| > 1 && Sorted(s) && s[0].path != s[1].path
    ensures forall x :: x in s[1..] ==> Less(s[0].path, x.path)
  {
    forall x | x in s[1..] ensures Less(s[0].path, x.path) {
      var i :| 0 <= i < |s[1..]| && s[1..][i] == x;
      assert s[i + 1] == x;
      LessTotal(s[0].path, x.path);
      LessTotal(s[0].path, s[1].path);
      assert i > 0 ==> !Less(s[i + 1].path, s[1].path);
    }
  }

  lemma {:induction false} DedupStrict(s: seq<Entry>)
    requires Sorted(s)
    ensures StrictlySorted(Dedup(s))
    decreases |s|
  {
    if |s| > 1 {
      if s[0].path == s[1].path {
        var t := [s[0]] + s[2..];
        assert forall i :: 0 <= i < |t| ==> t[i] == s[if i == 0 then 0 else i + 1];
        DedupStrict(t);
      } else {
        DedupStrict(s[1..]);
        DedupMembers(s[1..]);
        AboveFirst(s);
        ConsStrict(s[0], Dedup(s[1..]));
      }
    }
  }

  /** Strictly sorted lists are equal when they mean the same. */
  lemma {:induction false} StrictlySortedUnique(a: seq<Entry>, b: seq<Entry>)
    requires StrictlySorted(a) && StrictlySorted(b)
    requires forall path :: Find(a, path) == Find(b, path)
    ensures a == b
  {
    assert a != [] ==> Find(a, a[0].path).Some?;
    assert b != [] ==> Find(b, b[0].path).Some?;
    if a != [] && b != [] {
      HeadsAgree(a, b);
      forall path ensures Find(a[1..], path) == Find(b[1..], path) {
        assert a == [a[0]] + a[1..] && b == [b[0]] + b[1..];
        FindCons(a[0], a[1..], path);
        FindCons(b[0], b[1..], path);
        if path == a[0].path {
          AbsentAbove(a[1..], path);
          AbsentAbove(b[1..], path);
        }
      }
      StrictlySortedUnique(a[1..], b[1..]);
    }
  }

  lemma {:induction false} AbsentAbove(s: seq<Entry>, path: string)
    requires forall i :: 0 <= i < |s| ==> Less(path, s[i].path)
    ensures Find(s, path) == None
  {
    if s != [] {
      LessIrreflexive(path);
      AbsentAbove(s[1..], path);
    }
  }

  lemma HeadsAgree(a: seq<Entry>, b: seq<Entry>)
    requires StrictlySorted(a) && StrictlySorted(b) && a != [] && b != []
    requires forall path :: Find(a, path) == Find(b, path)
    ensures a[0] == b[0]
  {
    assert Find(a, a[0].path) == Some(a[0].sha256);
    assert Find(b, b[0].path) == Some(b[0].sha256);
    LessTotal(a[0].path, b[0].path);
    if Less(a[0].path, b[0].path) {
      AllAbove(a[0].path, b);
      AbsentAbove(b, a[0].path);
    } else if Less(b[0].path, a[0].path) {
      AllAbove(b[0].path, a);
      AbsentAbove(a, b[0].path);
    }
  }

  lemma AllAbove(path: string, s: seq<Entry>)
    requires s != [] && StrictlySorted(s) && Less(path, s[0].path)
    ensures forall i :: 0 <= i < |s| ==> Less(path, s[i].path)
  {
    forall i | 0 <= i < |s| ensures Less(path, s[i].path) {
      if i > 0 {
        LessTransitive(path, s[0].path, s[i].path);
      }
    }
  }

  lemma StrictIsDistinct(s: seq<Entry>)
    requires StrictlySorted(s)
    ensures DistinctPaths(s) && Sorted(s)
  {
    forall i, j | 0 <= i < j < |s| ensures s[i].path != s[j].path && !Less(s[j].path, s[i].path) {
      LessAsymmetric(s[i].path, s[j].path);
      LessIrreflexive(s[i].path);
    }
  }

  // ---------------------------------------------------------------------------
  // Printing.

  function CounterRaw(counter: nat): string {
    COUNTER_PREFIX + Decimal(counter)
  }

  function EntryBody(e: Entry): string {
    e.path + " " + Hex(e.sha256)
  }

  function EntryRaw(e: Entry): string {
    ENTRY_PREFIX + EntryBody(e)
  }

  function SignatureRaw(signature: seq<byte>): string {
    SIGNATURE_PREFIX + Hex(signature)
  }

  function EntryRaws(entries: seq<Entry>): (r: seq<string>)
    ensures |r| == |entries| && forall i :: 0 <= i < |r| ==> r[i] == EntryRaw(entries[i])
  {
    seq(|entries|, i requires 0 <= i < |entries| => EntryRaw(entries[i]))
  }

  /** The text the signature covers. */
  function Canonical(counter: nat, entries: seq<Entry>): string {
    Joined([CounterRaw(counter)] + EntryRaws(Sort(entries)), '\n')
  }

  function CanonicalOf(m: SignedManifest): string {
    Canonical(m.counter, m.entries)
  }

  function SignedText(counter: nat, entries: seq<Entry>, signature: seq<byte>): string {
    Canonical(counter, entries) + SignatureRaw(signature) + "\n"
  }

  /** The source's loop over the sorted entries. */
  method CanonicalBytes(m: SignedManifest) returns (text: string)
    ensures text == CanonicalOf(m)
  {
    var sorted := Sort(m.entries);
    text := CounterRaw(m.counter) + "\n";
    var raws := EntryRaws(sorted);
    JoinedOne(CounterRaw(m.counter), '\n');
    for i := 0 to |sorted|
      invariant text == Joined([CounterRaw(m.counter)] + raws[..i], '\n')
    {
      JoinedAppend([CounterRaw(m.counter)] + raws[..i], [raws[i]], '\n');
      JoinedOne(raws[i], '\n');
      assert [CounterRaw(m.counter)] + raws[..i] + [raws[i]] == [CounterRaw(m.counter)] + raws[..i + 1];
      text := text + (EntryRaw(sorted[i]) + "\n");
    }
    assert raws[..|sorted|] == raws;
  }

  method SignManifest(sign: string -> seq<byte>, counter: nat, entries: seq<Entry>) returns (text: string)
    ensures var es := Dedup(Sort(entries));
            text == SignedText(counter, es, sign(Canonical(counter, es)))
  {
    var es := Dedup(Sort(entries));
    var canonical := CanonicalBytes(SignedManifest(counter, es, []));
    text := canonical + SignatureRaw(sign(canonical)) + "\n";
  }

  // ---------------------------------------------------------------------------
  // Reading back what was printed.

  /** What the packaging tool demands of a path, and what the types guarantee. */
  predicate ValidEntry(e: Entry) {
    && e.path != [] && !HasWhitespace(e.path) && |e.sha256| == DIGEST_LEN
    && Utf8Len(e.path) + |ENTRY_PREFIX| + 1 + 2 * DIGEST_LEN <= MAX_MANIFEST_LINE_BYTES
  }

  predicate ValidManifest(counter: nat, entries: seq<Entry>) {
    && counter <= U64_MAX && |entries| <= MAX_MANIFEST_ENTRIES
    && (forall i :: 0 <= i < |entries| ==> ValidEntry(entries[i]))
  }

  lemma NoCarriageReturn(prefix: string, rest: string)
    requires rest != [] && rest[|rest| - 1] != '\r'
    ensures StripCr(prefix + rest) == prefix + rest
  {
  }

  lemma ClassifiesAs(prefix: string, rest: string, line: Line)
    requires rest != [] && rest[|rest| - 1] != '\r' && Route(prefix + rest) == line
    requires Utf8Len(prefix) + Utf8Len(rest) <= MAX_MANIFEST_LINE_BYTES
    ensures Classify(prefix + rest) == line
  {
    NoCarriageReturn(prefix, rest);
    Utf8LenAppend(prefix, rest);
  }

  /** Every printed line is routed by its own prefix. */
  lemma RoutedCounter(rest: string)
    ensures Route(COUNTER_PREFIX + rest) == ClassifyCounter(rest)
  {
    PrefixStrips(COUNTER_PREFIX, rest);
  }

  lemma RoutedEntry(rest: string)
    ensures Route(ENTRY_PREFIX + rest) == ClassifyEntry(rest)
  {
    var line := ENTRY_PREFIX + rest;
    PrefixStrips(ENTRY_PREFIX, rest);
    assert line[0] == 'e' && COUNTER_PREFIX[0] == 'r';
    PrefixDiffers(COUNTER_PREFIX, line);
  }

  lemma RoutedSignature(rest: string)
    ensures Route(SIGNATURE_PREFIX + rest) == ClassifySignature(rest)
  {
    var line := SIGNATURE_PREFIX + rest;
    PrefixStrips(SIGNATURE_PREFIX, rest);
    assert line[0] == 's' && COUNTER_PREFIX[0] == 'r' && ENTRY_PREFIX[0] == 'e';
    PrefixDiffers(COUNTER_PREFIX, line);
    PrefixDiffers(ENTRY_PREFIX, line);
  }

  lemma EntryBodyReads(e: Entry)
    requires ValidEntry(e)
    ensures ClassifyEntry(EntryBody(e)) == EntryLine(e)
  {
    var hex, rest := Hex(e.sha256), EntryBody(e);
    HexHasNoNewline(hex);
    LastIndex(e.path, ' ', hex);
    assert rest[..|e.path|] == e.path && rest[|e.path| + 1..] == hex;
    DecodeOfHex(e.sha256);
  }

  lemma EntryBodyShape(e: Entry)
    requires ValidEntry(e)
    ensures EntryBody(e) != [] && EntryBody(e)[|EntryBody(e)| - 1] != '\r' && '\n' !in EntryBody(e)
    ensures Utf8Len(EntryBody(e)) == Utf8Len(e.path) + 1 + 2 * DIGEST_LEN
  {
    var hex, rest := Hex(e.sha256), EntryBody(e);
    HexHasNoNewline(hex);
    assert rest[|rest| - 1] == hex[|hex| - 1] && hex[|hex| - 1] in hex;
    assert '\n' !in e.path by {
      assert forall i :: 0 <= i < |e.path| ==> !IsWhitespace(e.path[i]);
    }
    BodyLength(e.path, hex);
    HexIsAscii(hex);
  }

  lemma EntryPrefixLength()
    ensures Utf8Len(ENTRY_PREFIX) == |ENTRY_PREFIX|
  {
    AsciiLen(ENTRY_PREFIX);
  }

  lemma EntryReads(e: Entry)
    requires ValidEntry(e)
    ensures Classify(EntryRaw(e)) == EntryLine(e) && '\n' !in EntryRaw(e)
  {
    EntryPrefixLength();
    EntryBodyShape(e);
    EntryBodyReads(e);
    RoutedEntry(EntryBody(e));
    EntryClassifies(ENTRY_PREFIX, EntryBody(e), e);
    PrefixedFree(ENTRY_PREFIX, EntryBody(e), '\n');
  }

  lemma EntryClassifies(prefix: string, body: string, e: Entry)
    requires prefix == ENTRY_PREFIX && body == EntryBody(e) && body != [] && body[|body| - 1] != '\r'
    requires Route(prefix + body) == EntryLine(e) && Utf8Len(prefix) == |prefix|
    requires Utf8Len(body) + |prefix| <= MAX_MANIFEST_LINE_BYTES
    ensures Classify(prefix + body) == EntryLine(e)
  {
    ClassifiesAs(prefix, body, EntryLine(e));
  }

  lemma PrefixedFree<T>(prefix: seq<T>, body: seq<T>, c: T)
    requires c !in prefix && c !in body
    ensures c !in prefix + body
  {
  }

  lemma DigitsAreAscii(digits: string)
    requires AllDigits(digits)
    ensures Ascii(digits) && '\n' !in digits && '\r' !in digits
  {
  }

  lemma CounterReads(counter: nat)
    requires counter <= U64_MAX
    ensures Classify(CounterRaw(counter)) == CounterLine(counter)
  {
    var digits := Decimal(counter);
    DecimalParses(counter, U64_MAX);
    CounterLength(counter);
    DigitsAreAscii(digits);
    AsciiLen(digits);
    RoutedCounter(digits);
    ShortLine(COUNTER_PREFIX, digits, CounterLine(counter));
  }

  /** The same for the prefixes whose lines are far from the limit. */
  lemma ShortLine(prefix: string, rest: string, line: Line)
    requires rest != [] && '\r' !in rest && Route(prefix + rest) == line
    requires 4 * |prefix| + Utf8Len(rest) <= MAX_MANIFEST_LINE_BYTES
    ensures Classify(prefix + rest) == line
  {
    Utf8LenBound(prefix);
    assert rest[|rest| - 1] in rest;
    ClassifiesAs(prefix, rest, line);
  }

  lemma CounterHasNoNewline(counter: nat)
    ensures '\n' !in CounterRaw(counter)
  {
    DigitsAreAscii(Decimal(counter));
    assert '\n' !in COUNTER_PREFIX;
  }

  lemma SignatureHasNoNewline(signature: seq<byte>)
    ensures '\n' !in SignatureRaw(signature)
  {
    HexHasNoNewline(Hex(signature));
    assert '\n' !in SIGNATURE_PREFIX;
  }

  lemma CounterLength(counter: nat)
    requires counter <= U64_MAX
    ensures |Decimal(counter)| <= 20
  {
    assert Pow10(10) == 100_0000_0000;
    assert Pow10(20) == 1_0000_0000_0000_0000_0000;
    DecimalLength(counter, 20);
  }

  lemma HexHasNoNewline(hex: string)
    requires AllHex(hex)
    ensures '\n' !in hex && '\r' !in hex && ' ' !in hex && Ascii(hex)
  {
  }

  lemma SignatureReads(signature: seq<byte>)
    requires |signature| == SIGNATURE_LEN
    ensures Classify(SignatureRaw(signature)) == SignatureLine(signature)
  {
    var hex := Hex(signature);
    HexHasNoNewline(hex);
    HexIsAscii(hex);
    DecodeOfHex(signature);
    RoutedSignature(hex);
    ShortLine(SIGNATURE_PREFIX, hex, SignatureLine(signature));
  }

  function SignedLines(counter: nat, entries: seq<Entry>, signature: seq<byte>): seq<Line> {
    [CounterLine(counter)] + EntryLines(entries) + [SignatureLine(signature), Blank]
  }

  function EntryLines(entries: seq<Entry>): seq<Line> {
    if entries == [] then [] else EntryLines(entries[..|entries| - 1]) + [EntryLine(entries[|entries| - 1])]
  }

  lemma LinesGrow(raws: seq<string>, raw: string, line: Line)
    requires Classify(raw) == line
    ensures Lines(raws + [raw]) == Lines(raws) + [line]
  {
    assert (raws + [raw])[..|raws|] == raws;
  }

  lemma LinesGrowEntry(raws: seq<string>, e: Entry)
    requires ValidEntry(e)
    ensures Lines(raws + [EntryRaw(e)]) == Lines(raws) + [EntryLine(e)]
  {
    EntryReads(e);
    LinesGrow(raws, EntryRaw(e), EntryLine(e));
  }

  lemma EntryRawsGrow(entries: seq<Entry>)
    requires entries != []
    ensures EntryRaws(entries) == EntryRaws(entries[..|entries| - 1]) + [EntryRaw(entries[|entries| - 1])]
  {
  }

  lemma {:induction false} EntryLinesRead(entries: seq<Entry>)
    requires forall i :: 0 <= i < |entries| ==> ValidEntry(entries[i])
    ensures Lines(EntryRaws(entries)) == EntryLines(entries)
  {
    if entries != [] {
      var init, e := entries[..|entries| - 1], entries[|entries| - 1];
      EntryLinesRead(init);
      EntryRawsGrow(entries);
      LinesGrowEntry(EntryRaws(init), e);
    }
  }

  lemma {:induction false} EntryLinesCollect(entries: seq<Entry>)
    ensures FilterMap(EntryOf, EntryLines(entries)) == entries
    ensures FilterMap(CounterOf, EntryLines(entries)) == [] && FilterMap(SignatureOf, EntryLines(entries)) == []
    ensures forall i :: 0 <= i < |EntryLines(entries)| ==> EntryLines(entries)[i].EntryLine?
  {
    if entries != [] {
      var init, e := entries[..|entries| - 1], entries[|entries| - 1];
      EntryLinesCollect(init);
      CollectEntry(EntryLines(init), e);
      assert entries == init + [e];
    }
  }

  lemma CollectEntry(lines: seq<Line>, e: Entry)
    ensures FilterMap(EntryOf, lines + [EntryLine(e)]) == FilterMap(EntryOf, lines) + [e]
    ensures FilterMap(CounterOf, lines + [EntryLine(e)]) == FilterMap(CounterOf, lines)
    ensures FilterMap(SignatureOf, lines + [EntryLine(e)]) == FilterMap(SignatureOf, lines)
  {
    assert (lines + [EntryLine(e)])[..|lines|] == lines;
  }

  lemma FilterMapSurrounded<U>(f: Line -> Option<U>, a: Line, mid: seq<Line>, b: Line, c: Line)
    ensures FilterMap(f, [a] + mid + [b, c]) ==
            FilterMap(f, [a]) + FilterMap(f, mid) + FilterMap(f, [b]) + FilterMap(f, [c])
  {
    FilterMapAppend(f, [a] + mid, [b, c]);
    FilterMapAppend(f, [a], mid);
    assert [b, c] == [b] + [c];
    FilterMapAppend(f, [b], [c]);
  }

  lemma SignedLinesCollect(counter: nat, entries: seq<Entry>, signature: seq<byte>)
    ensures var lines := SignedLines(counter, entries, signature);
            && FilterMap(CounterOf, lines) == [counter]
            && FilterMap(EntryOf, lines) == entries
            && FilterMap(SignatureOf, lines) == [signature]
            && forall i :: 0 <= i < |lines| ==> Readable(lines[i])
  {
    var a, mid, b := CounterLine(counter), EntryLines(entries), SignatureLine(signature);
    EntryLinesCollect(entries);
    CollectOne(CounterOf, a, mid, b);
    CollectOne(EntryOf, a, mid, b);
    CollectOne(SignatureOf, a, mid, b);
  }

  lemma CollectOne<U>(f: Line -> Option<U>, a: Line, mid: seq<Line>, b: Line)
    requires f(Blank) == None
    ensures FilterMap(f, [a] + mid + [b, Blank]) ==
            (if f(a).Some? then [f(a).value] else []) + FilterMap(f, mid)
            + (if f(b).Some? then [f(b).value] else [])
  {
    FilterMapSurrounded(f, a, mid, b, Blank);
    FilterMapSingle(f, a);
    FilterMapSingle(f, b);
    FilterMapSingle(f, Blank);
  }

  function SignedRaws(counter: nat, entries: seq<Entry>, signature: seq<byte>): seq<string> {
    [CounterRaw(counter)] + EntryRaws(entries) + [SignatureRaw(signature)]
  }

  lemma SignedRawsRead(counter: nat, entries: seq<Entry>, signature: seq<byte>)
    requires ValidManifest(counter, entries) && |signature| == SIGNATURE_LEN
    ensures Lines(SignedRaws(counter, entries, signature) + [""]) == SignedLines(counter, entries, signature)
  {
    CounterReads(counter);
    SignatureReads(signature);
    EntryLinesRead(entries);
    BlankReads();
    RawsSurrounded(CounterRaw(counter), EntryRaws(entries), SignatureRaw(signature),
                   CounterLine(counter), SignatureLine(signature));
  }

  lemma BlankReads()
    ensures Classify("") == Blank
  {
  }

  lemma RawsFree(counter: nat, entries: seq<Entry>, signature: seq<byte>)
    requires forall i :: 0 <= i < |entries| ==> ValidEntry(entries[i])
    ensures Free(SignedRaws(counter, entries, signature), '\n')
  {
    CounterHasNoNewline(counter);
    SignatureHasNoNewline(signature);
    forall i | 0 <= i < |entries| ensures '\n' !in EntryRaw(entries[i]) {
      EntryReads(entries[i]);
    }
  }

  lemma RawsSurrounded(a: string, mid: seq<string>, b: string, first: Line, last: Line)
    requires Classify(a) == first && Classify(b) == last && Classify("") == Blank
    ensures Lines([a] + mid + [b] + [""]) == [first] + Lines(mid) + [last, Blank]
  {
    LinesGrow([a] + mid + [b], "", Blank);
    LinesGrow([a] + mid, b, last);
    LinesStart(a, mid, first);
    TwoMore([first] + Lines(mid), last, Blank);
  }

  lemma LinesStart(a: string, mid: seq<string>, first: Line)
    requires Classify(a) == first
    ensures Lines([a] + mid) == [first] + Lines(mid)
  {
    FilterMapAppend(SomeLine, [a], mid);
    FilterMapSingle(SomeLine, a);
  }

  lemma TwoMore<T>(s: seq<T>, x: T, y: T)
    ensures s + [x] + [y] == s + [x, y]
  {
  }

  /** The three kinds of lines, in full. */
  lemma LinesAsWritten(counter: nat, e: Entry, signature: seq<byte>)
    requires counter <= U64_MAX && ValidEntry(e) && |signature| == SIGNATURE_LEN
    ensures Classify("release_counter " + Decimal(counter)) == CounterLine(counter)
    ensures Classify("entry " + (e.path + " " + Hex(e.sha256))) == EntryLine(e)
    ensures Classify("signature " + Hex(signature)) == SignatureLine(signature)
  {
    CounterReads(counter);
    EntryReads(e);
    SignatureReads(signature);
  }

  /** The canonical order is ascending. */
  lemma CanonicalAscends(entries: seq<Entry>, i: nat, j: nat)
    requires i < j < |Sort(entries)|
    ensures var a, b := Sort(entries)[i].path, Sort(entries)[j].path; a == b || exists k: nat :: Precedes(a, b, k)
  {
    var a, b := Sort(entries)[i].path, Sort(entries)[j].path;
    PathsAreOrdered();
    SortBySorted(PathLess, entries);
    assert !PathLess(Sort(entries)[j], Sort(entries)[i]);
    LessTotal(a, b);
    LessExactly(a, b);
  }

  /** Printed lines in any path order parse back to exactly what was printed. */
  lemma PrintedParses(counter: nat, entries: seq<Entry>, signature: seq<byte>)
    requires ValidManifest(counter, entries) && DistinctPaths(entries) && |signature| == SIGNATURE_LEN
    ensures ParseText(Joined(SignedRaws(counter, entries, signature), '\n'))
         == Ok(SignedManifest(counter, entries, signature))
  {
    var raws := SignedRaws(counter, entries, signature);
    var lines := SignedLines(counter, entries, signature);
    SignedRawsRead(counter, entries, signature);
    RawsFree(counter, entries, signature);
    SplitJoined(raws, '\n');
    SignedLinesCollect(counter, entries, signature);
    AcceptedLines(lines);
  }

  lemma SignedTextIsPrinted(counter: nat, entries: seq<Entry>, signature: seq<byte>)
    ensures SignedText(counter, entries, signature)
         == Joined(SignedRaws(counter, Sort(entries), signature), '\n')
  {
    JoinedAppend([CounterRaw(counter)] + EntryRaws(Sort(entries)), [SignatureRaw(signature)], '\n');
    JoinedOne(SignatureRaw(signature), '\n');
  }

  // ---------------------------------------------------------------------------
  // Main results.

  lemma {:induction false} SortFixed(s: seq<Entry>)
    requires StrictlySorted(s)
    ensures Sort(s) == s
  {
    if s != [] {
      SortFixed(s[1..]);
      if |s| > 1 {
        LessAsymmetric(s[0].path, s[1].path);
      }
      assert s == [s[0]] + s[1..];
    }
  }

  lemma SortStrict(s: seq<Entry>)
    requires DistinctPaths(s)
    ensures StrictlySorted(Sort(s))
  {
    var r := Sort(s);
    SortSorted(s);
    SortMembers(s);
    PermutedDistinct(s, r);
    forall i, j | 0 <= i < j < |r| ensures Less(r[i].path, r[j].path) {
      assert !PathLess(r[j], r[i]);
      LessTotal(r[i].path, r[j].path);
    }
  }

  lemma KeptValid(counter: nat, entries: seq<Entry>, kept: seq<Entry>)
    requires ValidManifest(counter, entries) && |kept| <= |entries|
    requires forall x :: x in kept ==> x in entries
    ensures ValidManifest(counter, kept)
  {
    forall i | 0 <= i < |kept| ensures ValidEntry(kept[i]) {
      assert kept[i] in kept;
      var j :| 0 <= j < |entries| && entries[j] == kept[i];
    }
  }

  /** Parsing what was signed yields the counter, the entries sorted by path with the first of each
      path kept, and the exact signature. */
  lemma SignedRoundTrip(sign: string -> seq<byte>, counter: nat, entries: seq<Entry>)
    requires ValidManifest(counter, entries)
    requires |sign(Canonical(counter, Dedup(Sort(entries))))| == SIGNATURE_LEN
    ensures var kept := Dedup(Sort(entries));
            var signature := sign(Canonical(counter, kept));
            && ParseText(SignedText(counter, kept, signature)) == Ok(SignedManifest(counter, kept, signature))
            && StrictlySorted(kept)
            && forall path :: Find(kept, path) == Find(entries, path)
  {
    var kept := Dedup(Sort(entries));
    var signature := sign(Canonical(counter, kept));
    SortSorted(entries);
    SortMembers(entries);
    DedupStrict(Sort(entries));
    DedupMembers(Sort(entries));
    KeptValid(counter, entries, kept);
    StrictIsDistinct(kept);
    SortFixed(kept);
    SignedTextIsPrinted(counter, kept, signature);
    PrintedParses(counter, kept, signature);
    forall path ensures Find(kept, path) == Find(entries, path) {
      DedupFinds(Sort(entries), path);
      SortFinds(entries, path);
    }
  }

  /** Equal signed bytes mean the same counter and the same digest for every path. */
  lemma CanonicalInjective(m: SignedManifest, m': SignedManifest)
    requires ValidManifest(m.counter, m.entries) && DistinctPaths(m.entries)
    requires ValidManifest(m'.counter, m'.entries) && DistinctPaths(m'.entries)
    requires CanonicalOf(m) == CanonicalOf(m')
    ensures m.counter == m'.counter
    ensures forall path :: Find(m.entries, path) == Find(m'.entries, path)
  {
    var blank: seq<byte> := seq(SIGNATURE_LEN, _ => 0);
    CanonicalParses(m, blank);
    CanonicalParses(m', blank);
    assert SignedText(m.counter, m.entries, blank) == SignedText(m'.counter, m'.entries, blank);
    forall path ensures Find(m.entries, path) == Find(m'.entries, path) {
      SortFinds(m.entries, path);
      SortFinds(m'.entries, path);
    }
  }

  lemma CanonicalParses(m: SignedManifest, signature: seq<byte>)
    requires ValidManifest(m.counter, m.entries) && DistinctPaths(m.entries) && |signature| == SIGNATURE_LEN
    ensures ParseText(SignedText(m.counter, m.entries, signature))
         == Ok(SignedManifest(m.counter, Sort(m.entries), signature))
  {
    SortStrict(m.entries);
    SortMembers(m.entries);
    StrictIsDistinct(Sort(m.entries));
    KeptValid(m.counter, m.entries, Sort(m.entries));
    SignedTextIsPrinted(m.counter, m.entries, signature);
    PrintedParses(m.counter, Sort(m.entries), signature);
  }

  lemma DistinctFinds(s: seq<Entry>, path: string, digest: seq<byte>)
    requires DistinctPaths(s)
    ensures Find(s, path) == Some(digest) <==> Entry(path, digest) in s
  {
    FindMembers(s, path, digest);
  }

  lemma {:induction false} FindMembers(s: seq<Entry>, path: string, digest: seq<byte>)
    requires DistinctPaths(s)
    ensures Find(s, path) == Some(digest) <==> Entry(path, digest) in s
  {
    if s != [] {
      FindMembers(s[1..], path, digest);
      assert s == [s[0]] + s[1..];
      if Entry(path, digest) in s[1..] {
        var i :| 0 <= i < |s[1..]| && s[1..][i] == Entry(path, digest);
        assert s[i + 1] == Entry(path, digest);
      }
    }
  }

  /** Two distinct-path lists with the same members sort to the same list. */
  lemma SortOfPermutation(a: seq<Entry>, b: seq<Entry>)
    requires DistinctPaths(a) && DistinctPaths(b) && multiset(a) == multiset(b)
    ensures Sort(a) == Sort(b)
  {
    SortStrict(a);
    SortStrict(b);
    BagSize(a, b);
    forall path ensures Find(Sort(a), path) == Find(Sort(b), path) {
      SortFinds(a, path);
      SortFinds(b, path);
      if Find(a, path).Some? {
        DistinctFinds(a, path, Find(a, path).value);
        DistinctFinds(b, path, Find(a, path).value);
      } else if Find(b, path).Some? {
        DistinctFinds(a, path, Find(b, path).value);
        DistinctFinds(b, path, Find(b, path).value);
      }
    }
    StrictlySortedUnique(Sort(a), Sort(b));
  }

  lemma PermutedAcceptable(a: seq<Line>, b: seq<Line>)
    requires multiset(a) == multiset(b) && Acceptable(a)
    ensures Acceptable(b)
    ensures FilterMap(CounterOf, a) == FilterMap(CounterOf, b)
    ensures FilterMap(SignatureOf, a) == FilterMap(SignatureOf, b)
    ensures multiset(FilterMap(EntryOf, a)) == multiset(FilterMap(EntryOf, b))
  {
    BagSize(a, b);
    forall i | 0 <= i < |b| ensures Readable(b[i]) {
      assert b[i] in a;
    }
    FilterMapPermutes(CounterOf, a, b);
    FilterMapPermutes(SignatureOf, a, b);
    FilterMapPermutes(EntryOf, a, b);
    SmallBag(FilterMap(CounterOf, a), FilterMap(CounterOf, b));
    SmallBag(FilterMap(SignatureOf, a), FilterMap(SignatureOf, b));
    BagSize(FilterMap(EntryOf, a), FilterMap(EntryOf, b));
    PermutedDistinct(FilterMap(EntryOf, a), FilterMap(EntryOf, b));
  }

  lemma SmallBag<U>(a: seq<U>, b: seq<U>)
    requires multiset(a) == multiset(b) && |a| <= 1
    ensures a == b
  {
    BagSize(a, b);
    if |a| == 1 {
      assert a[0] in b;
    }
  }

  lemma PermutedDistinct(a: seq<Entry>, b: seq<Entry>)
    requires multiset(a) == multiset(b) && DistinctPaths(a)
    ensures DistinctPaths(b)
  {
    assert Distinct(a);
    DistinctPermutes(a, b);
    forall i, j | 0 <= i < j < |b| ensures b[i].path != b[j].path {
      if b[i].path == b[j].path {
        OneEntryPerPath(a, b, b[i], b[j]);
      }
    }
  }

  lemma OneEntryPerPath(a: seq<Entry>, b: seq<Entry>, x: Entry, y: Entry)
    requires multiset(a) == multiset(b) && DistinctPaths(a) && x in b && y in b && x.path == y.path
    ensures x == y
  {
    BagSize(a, b);
    var i :| 0 <= i < |a| && a[i] == x;
    var j :| 0 <= j < |a| && a[j] == y;
  }

  /** Any reordering of the lines of an accepted text is accepted with the same counter, signature
      and canonical bytes. */
  lemma ReorderedText(text: string, text': string)
    requires multiset(Split(text, '\n')) == multiset(Split(text', '\n')) && ParseText(text).Ok?
    ensures ParseText(text').Ok?
    ensures var m, m' := ParseText(text).value, ParseText(text').value;
            && m'.counter == m.counter && m'.signature == m.signature
            && multiset(m'.entries) == multiset(m.entries)
            && CanonicalOf(m') == CanonicalOf(m)
  {
    var a, b := Lines(Split(text, '\n')), Lines(Split(text', '\n'));
    FilterMapPermutes(SomeLine, Split(text, '\n'), Split(text', '\n'));
    ReorderedLines(a, b);
  }

  lemma ReorderedLines(a: seq<Line>, b: seq<Line>)
    requires multiset(a) == multiset(b) && Fold(a).Ok?
    ensures Fold(b).Ok? && Fold(b).value.counter == Fold(a).value.counter
    ensures Fold(b).value.signature == Fold(a).value.signature
    ensures multiset(Fold(b).value.entries) == multiset(Fold(a).value.entries)
    ensures Sort(Fold(b).value.entries) == Sort(Fold(a).value.entries)
  {
    AcceptedLines(a);
    AcceptedLines(b);
    PermutedAcceptable(a, b);
    SortOfPermutation(FilterMap(EntryOf, a), FilterMap(EntryOf, b));
  }

  /** Blank lines, wherever they stand, change nothing. */
  lemma BlankLinesSkipped(a: seq<Line>, b: seq<Line>)
    ensures Acceptable(a + [Blank] + b) <==> Acceptable(a + b)
    ensures Acceptable(a + b) ==> Fold(a + [Blank] + b) == Fold(a + b)
  {
    BlankCollectsNothing(CounterOf, a, b);
    BlankCollectsNothing(EntryOf, a, b);
    BlankCollectsNothing(SignatureOf, a, b);
    AcceptedLines(a + [Blank] + b);
    AcceptedLines(a + b);
    var x, y := a + [Blank] + b, a + b;
    assert forall i :: 0 <= i < |x| ==> x[i] == Blank || x[i] in y;
    assert forall i :: 0 <= i < |y| ==> y[i] in x;
  }

  lemma BlankCollectsNothing<U>(f: Line -> Option<U>, a: seq<Line>, b: seq<Line>)
    requires f(Blank) == None
    ensures FilterMap(f, a + [Blank] + b) == FilterMap(f, a + b)
  {
    FilterMapAppend(f, a + [Blank], b);
    FilterMapAppend(f, a, [Blank]);
    FilterMapAppend(f, a, b);
    FilterMapSingle(f, Blank);
  }

  /** The line, or the line with a carriage return behind it. */
  predicate SameButCr(a: string, b: string) {
    b == a || (b == a + "\r" && (a == [] || a[|a| - 1] != '\r'))
  }

  lemma CrClassifies(a: string, b: string)
    requires SameButCr(a, b)
    ensures Classify(b) == Classify(a)
  {
  }

  lemma {:induction false} CrLines(a: seq<string>, b: seq<string>)
    requires |a| == |b| && forall i :: 0 <= i < |a| ==> SameButCr(a[i], b[i])
    ensures Lines(b) == Lines(a)
  {
    if a != [] {
      var k := |a| - 1;
      CrLines(a[..k], b[..k]);
      CrClassifies(a[k], b[k]);
    }
  }

  /** Whichever lines end in a carriage return, it changes neither acceptance, nor error, nor result. */
  lemma CarriageReturnsStripped(text: string, text': string)
    requires |Split(text, '\n')| == |Split(text', '\n')|
    requires forall i :: 0 <= i < |Split(text, '\n')| ==> SameButCr(Split(text, '\n')[i], Split(text', '\n')[i])
    ensures ParseText(text') == ParseText(text)
  {
    CrLines(Split(text, '\n'), Split(text', '\n'));
  }

  // What acceptance guarantees.

  lemma EntryLineValid(raw: string)
    requires Classify(raw).EntryLine?
    ensures ValidEntry(Classify(raw).entry)
  {
    var line := StripCr(raw);
    assert Route(line).EntryLine?;
    RoutedEntryValid(line);
  }

  lemma RoutedEntryValid(line: string)
    requires Route(line).EntryLine? && Utf8Len(line) <= MAX_MANIFEST_LINE_BYTES
    ensures ValidEntry(Route(line).entry)
  {
    var rest := line[|ENTRY_PREFIX|..];
    assert line == ENTRY_PREFIX + rest;
    Utf8LenAppend(ENTRY_PREFIX, rest);
    EntryPrefixLength();
    assert Route(line) == ClassifyEntry(rest);
    BodyValid(rest);
  }

  lemma CutAtIndex<T>(rest: seq<T>, k: nat, c: T)
    requires k < |rest| && rest[k] == c
    ensures rest == rest[..k] + [c] + rest[k + 1..]
  {
  }

  lemma BodyValid(rest: string)
    requires ClassifyEntry(rest).EntryLine?
    requires Utf8Len(rest) + |ENTRY_PREFIX| <= MAX_MANIFEST_LINE_BYTES
    ensures ValidEntry(ClassifyEntry(rest).entry)
  {
    var k := LastIndexOf(rest, ' ');
    var path, hex := rest[..k], rest[k + 1..];
    CutAtIndex(rest, k, ' ');
    HexOfDecode(hex, DIGEST_LEN);
    BodyLength(path, hex);
    DecodedLength(hex);
    assert ClassifyEntry(rest) == EntryLine(Entry(path, DecodeHex(hex, DIGEST_LEN).value));
  }

  lemma DecodedLength(hex: string)
    requires DecodeHex(hex, DIGEST_LEN).Some?
    ensures Utf8Len(hex) == 2 * DIGEST_LEN
  {
  }

  lemma BodyLength(path: string, hex: string)
    ensures Utf8Len(path + " " + hex) == Utf8Len(path) + 1 + Utf8Len(hex)
  {
    Utf8LenAppend(path + " ", hex);
    Utf8LenAppend(path, " ");
    AsciiLen(" ");
  }

  predicate LineValid(line: Line) {
    && (line.EntryLine? ==> ValidEntry(line.entry))
    && (line.CounterLine? ==> line.counter <= U64_MAX)
  }

  lemma RawIsValid(raw: string)
    ensures LineValid(Classify(raw))
  {
    if Classify(raw).EntryLine? {
      EntryLineValid(raw);
    }
  }

  predicate AllLinesValid(lines: seq<Line>) {
    forall i :: 0 <= i < |lines| ==> LineValid(lines[i])
  }

  lemma OneMoreValid(lines: seq<Line>, line: Line)
    requires AllLinesValid(lines) && LineValid(line)
    ensures AllLinesValid(lines + [line])
  {
  }

  lemma {:induction false} LinesValid(raws: seq<string>)
    ensures AllLinesValid(Lines(raws))
  {
    if raws != [] {
      var init, last := raws[..|raws| - 1], raws[|raws| - 1];
      LinesValid(init);
      RawIsValid(last);
      LinesGrow(init, last, Classify(last));
      OneMoreValid(Lines(init), Classify(last));
      assert raws == init + [last];
    }
  }

  lemma {:induction false} CollectedValid(lines: seq<Line>)
    requires AllLinesValid(lines)
    ensures forall i :: 0 <= i < |FilterMap(EntryOf, lines)| ==> ValidEntry(FilterMap(EntryOf, lines)[i])
    ensures forall i :: 0 <= i < |FilterMap(CounterOf, lines)| ==> FilterMap(CounterOf, lines)[i] <= U64_MAX
  {
    if lines != [] {
      CollectedValid(lines[..|lines| - 1]);
      assert LineValid(lines[|lines| - 1]);
    }
  }

  /** Every accepted manifest satisfies what the injectivity of the canonical form needs. */
  lemma AcceptedIsValid(text: string)
    requires ParseText(text).Ok?
    ensures var m := ParseText(text).value;
            ValidManifest(m.counter, m.entries) && DistinctPaths(m.entries)
  {
    var raws := Split(text, '\n');
    AcceptedLines(Lines(raws));
    LinesValid(raws);
    CollectedValid(Lines(raws));
  }
}
