/** The redaction of identity patterns from diagnostic text. */
module PrivacyPatterns {
  import opened Options
  import opened Text
  import opened Sequences
  import opened Utf8

  const BACKSLASH: Byte := 0x5C
  const PERCENT: Byte := 0x25
  const DOT: Byte := 0x2E
  const COLON: Byte := 0x3A
  const AT: Byte := 0x40

  /** `users\`, `COMPUTERNAME` and `users`, all compared without case. */
  const USERS_DIR: seq<Byte> := [0x75, 0x73, 0x65, 0x72, 0x73, 0x5C]
  const COMPUTER: seq<Byte> := [0x63, 0x6F, 0x6D, 0x70, 0x75, 0x74, 0x65, 0x72, 0x6E, 0x61, 0x6D, 0x65]
  const USERS: seq<Byte> := [0x75, 0x73, 0x65, 0x72, 0x73]

  // ---------------------------------------------------------------------------
  // Byte classes.

  predicate IsAlpha(b: Byte) {
    0x41 <= b <= 0x5A || 0x61 <= b <= 0x7A
  }

  predicate IsNumeral(b: Byte) {
    0x30 <= b <= 0x39
  }

  predicate IsSpace(b: Byte) {
    b == 0x20 || b == 0x09 || b == 0x0A || b == 0x0C || b == 0x0D
  }

  /** Neither a blank nor one of `"'<>|?*:;`. */
  predicate IsSegment(b: Byte) {
    !IsSpace(b) && b !in {0x22, 0x27, 0x3C, 0x3E, 0x7C, 0x3F, 0x2A, 0x3A, 0x3B}
  }

  /** Letters, digits and `_-.`. */
  predicate IsIdent(b: Byte) {
    IsAlpha(b) || IsNumeral(b) || b in {0x5F, 0x2D, 0x2E}
  }

  /** Letters, digits and the punctuation allowed before an at sign. */
  predicate IsLocal(b: Byte) {
    IsAlpha(b) || IsNumeral(b)
    || b in {0x2E, 0x5F, 0x25, 0x2B, 0x2D, 0x3D, 0x21, 0x23, 0x24, 0x27, 0x2A, 0x2F, 0x3F, 0x5E, 0x60, 0x7B,
             0x7C, 0x7D, 0x7E, 0x26}
  }

  /** Letters, digits, hyphen and dot. */
  predicate IsDomainOrDot(b: Byte) {
    IsAlpha(b) || IsNumeral(b) || b == 0x2D || b == DOT
  }

  /** What may stand between two percent signs. */
  predicate IsVariable(b: Byte) {
    b != PERCENT && !IsSpace(b)
  }

  /** Trailing `\/.,` is not part of a path. */
  predicate IsPathEdge(b: Byte) {
    b == BACKSLASH || b == 0x2F || b == DOT || b == 0x2C
  }

  function Lower(b: Byte): Byte {
    if 0x41 <= b <= 0x5A then b + 0x20 else b
  }

  /** `eq_ignore_ascii_case` against a lower-case literal. */
  predicate Spells(a: seq<Byte>, word: seq<Byte>) {
    |a| == |word| && forall i :: 0 <= i < |a| ==> Lower(a[i]) == word[i]
  }

  /** The text at `i` spells `word`. */
  predicate SpellsAt(b: seq<Byte>, i: nat, word: seq<Byte>) {
    i + |word| <= |b| && Spells(b[i..i + |word|], word)
  }

  // ---------------------------------------------------------------------------
  // Maximal runs.

  /** Where the run of `p` bytes that ends at `i` starts, looking back no further than `low`. */
  function RunStart(p: Byte -> bool, b: seq<Byte>, low: nat, i: nat): (j: nat)
    requires low <= i <= |b|
    ensures low <= j <= i
    ensures forall k :: j <= k < i ==> p(b[k])
    ensures j > low ==> !p(b[j - 1])
    decreases i
  {
    if i > low && p(b[i - 1]) then RunStart(p, b, low, i - 1) else i
  }

  // ---------------------------------------------------------------------------
  // The six patterns. A step says what a scanner does at one position.

  datatype PiiKind =
    UserProfilePath | MachineName | EnvironmentVariable | IpAddress | EmailAddress | WindowsAccountName

  datatype Step = Skip | Hit(start: nat, end: nat) | OutOfBounds

  predicate Sound(b: seq<Byte>, i: nat, s: Step) {
    s.Hit? ==> s.start <= i < s.end <= |b|
  }

  function PathBase(b: seq<Byte>, i: nat): (n: nat)
    requires i < |b|
    ensures n == 0 || n == 7 || n == 9
    ensures i + n <= |b|
  {
    if i + 9 <= |b| && IsAlpha(b[i]) && b[i + 1] == COLON && b[i + 2] == BACKSLASH && SpellsAt(b, i + 3, USERS_DIR)
    then 9
    else if i + 7 <= |b| && b[i] == BACKSLASH && SpellsAt(b, i + 1, USERS_DIR) then 7
    else 0
  }

  function PathEnd(b: seq<Byte>, i: nat): (e: nat)
    requires i < |b|
    ensures i <= e <= |b|
  {
    RunStart(IsPathEdge, b, i, RunEnd(IsSegment, b, i + PathBase(b, i)))
  }

  function PathAt(b: seq<Byte>, i: nat): (s: Step)
    requires i < |b|
    ensures Sound(b, i, s)
  {
    if PathBase(b, i) == 0 then Skip
    else
      PathIsLong(b, i);
      Hit(i, PathEnd(b, i))
  }

  /** Trimming stops inside the word `users`, so a path is never trimmed away. */
  lemma PathIsLong(b: seq<Byte>, i: nat)
    requires i < |b| && PathBase(b, i) > 0
    ensures PathEnd(b, i) >= i + 6
  {
    var base := i + PathBase(b, i);
    var word := base - 6;
    assert SpellsAt(b, word, USERS_DIR);
    assert b[word..word + 6][4] == b[word + 4];
    assert Lower(b[word + 4]) == USERS_DIR[4];
  }

  function MachineAt(b: seq<Byte>, i: nat): (s: Step)
    requires i < |b|
    ensures Sound(b, i, s)
  {
    if SpellsAt(b, i, COMPUTER) && (i == 0 || b[i - 1] != PERCENT) then
      Hit(i, if i + 12 < |b| && b[i + 12] == PERCENT then i + 13 else i + 12)
    else if i + 2 < |b| && b[i] == BACKSLASH && b[i + 1] == BACKSLASH && IsIdent(b[i + 2]) then
      Hit(i, RunEnd(IsIdent, b, i + 2))
    else Skip
  }

  /** A percent sign, one to sixty-four bytes that are neither blank nor percent, a percent sign. */
  function VariableAt(b: seq<Byte>, i: nat): (s: Step)
    requires i < |b|
    ensures Sound(b, i, s)
  {
    if b[i] != PERCENT then Skip
    else
      var e := RunEnd(IsVariable, b, i + 1);
      if i + 1 < e <= i + 65 && e < |b| && b[e] == PERCENT then Hit(i, e + 1) else Skip
  }

  /** End of `count` dot-separated groups of one to three digits, each a maximal run. */
  function Octets(b: seq<Byte>, i: nat, count: nat): (r: Option<nat>)
    requires i <= |b| && count >= 1
    ensures r.Some? ==> i < r.value <= |b|
    decreases count
  {
    var e := RunEnd(IsNumeral, b, i);
    if e == i || e > i + 3 then None
    else if count == 1 then Some(e)
    else if e < |b| && b[e] == DOT then Octets(b, e + 1, count - 1)
    else None
  }

  const OCTETS: nat := 4

  predicate Joins(b: Byte) {
    IsNumeral(b) || b == DOT
  }

  function AddressAt(b: seq<Byte>, i: nat): (s: Step)
    requires i < |b|
    ensures Sound(b, i, s)
  {
    match Octets(b, i, OCTETS)
    case None => Skip
    case Some(e) =>
      if (i == 0 || !Joins(b[i - 1])) && (e == |b| || !Joins(b[e])) then Hit(i, e) else Skip
  }

  predicate PairAt<T(==)>(s: seq<T>, c: T, i: nat) {
    i + 1 < |s| && s[i] == c && s[i + 1] == c
  }

  predicate Doubled<T(==)>(s: seq<T>, c: T) {
    exists i :: 0 <= i < |s| && PairAt(s, c, i)
  }

  predicate CleanDomain(domain: seq<Byte>) {
    DOT in domain && domain[0] != DOT && domain[|domain| - 1] != DOT && !Doubled(domain, DOT)
  }

  function EmailAt(b: seq<Byte>, i: nat): (s: Step)
    requires i < |b|
    ensures Sound(b, i, s)
  {
    if b[i] != AT then Skip
    else
      var start, end := RunStart(IsLocal, b, 0, i), RunEnd(IsDomainOrDot, b, i + 1);
      if start < i && CleanDomain(b[i + 1..end]) then Hit(start, end) else Skip
  }

  /** An identifier, a backslash and an identifier. The byte before the first identifier is read
      even when there is none. */
  function AccountAt(b: seq<Byte>, i: nat): (s: Step)
    requires i < |b|
    ensures Sound(b, i, s)
  {
    if b[i] != BACKSLASH || (i > 0 && b[i - 1] == BACKSLASH) then Skip
    else
      var start := RunStart(IsIdent, b, 0, i);
      if start == i then Skip
      else if start == 0 then OutOfBounds
      else if b[start - 1] == BACKSLASH || b[start - 1] == COLON then Skip
      else
        var end := RunEnd(IsIdent, b, i + 1);
        if end == i + 1 || Spells(b[start..i], USERS) then Skip else Hit(start, end)
  }

  function StepAt(kind: PiiKind, b: seq<Byte>, i: nat): (s: Step)
    requires i < |b|
    ensures Sound(b, i, s)
  {
    match kind
    case UserProfilePath => PathAt(b, i)
    case MachineName => MachineAt(b, i)
    case EnvironmentVariable => VariableAt(b, i)
    case IpAddress => AddressAt(b, i)
    case EmailAddress => EmailAt(b, i)
    case WindowsAccountName => AccountAt(b, i)
  }

  // ---------------------------------------------------------------------------
  // Edges of a match.

  /** A position next to an ASCII byte, or the end: never inside a character. */
  predicate AsciiEdge(b: seq<Byte>, i: nat) {
    i <= |b| && (i == |b| || b[i] < 0x80 || (0 < i && b[i - 1] < 0x80))
  }

  lemma PathEdges(b: seq<Byte>, i: nat)
    requires i < |b| && PathAt(b, i).Hit?
    ensures b[i] < 0x80 && AsciiEdge(b, PathEnd(b, i))
  {
    var e := PathEnd(b, i);
    var run := RunEnd(IsSegment, b, i + PathBase(b, i));
    assert e < run ==> IsPathEdge(b[e]);
  }

  lemma MachineEdges(b: seq<Byte>, i: nat)
    requires i < |b| && MachineAt(b, i).Hit?
    ensures b[i] < 0x80 && b[MachineAt(b, i).end - 1] < 0x80
  {
    if SpellsAt(b, i, COMPUTER) && (i == 0 || b[i - 1] != PERCENT) {
      SpelledAscii(b, i, COMPUTER, 0);
      SpelledAscii(b, i, COMPUTER, 11);
    } else {
      var e := RunEnd(IsIdent, b, i + 2);
      assert e > i + 2;
      assert IsIdent(b[e - 1]);
    }
  }

  lemma SpelledAscii(b: seq<Byte>, i: nat, word: seq<Byte>, k: nat)
    requires SpellsAt(b, i, word) && k < |word| && word[k] < 0x80
    ensures b[i + k] < 0x80
  {
    assert b[i..i + |word|][k] == b[i + k];
  }

  lemma {:induction false} OctetsEdge(b: seq<Byte>, i: nat, count: nat)
    requires i <= |b| && count >= 1 && Octets(b, i, count).Some?
    ensures i < |b| && IsNumeral(b[i])
    ensures IsNumeral(b[Octets(b, i, count).value - 1])
    decreases count
  {
    var e := RunEnd(IsNumeral, b, i);
    if count > 1 {
      OctetsEdge(b, e + 1, count - 1);
    }
  }

  lemma AddressEdges(b: seq<Byte>, i: nat)
    requires i < |b| && AddressAt(b, i).Hit?
    ensures b[i] < 0x80 && b[AddressAt(b, i).end - 1] < 0x80 && AddressAt(b, i).start == i
  {
    OctetsEdge(b, i, OCTETS);
  }

  lemma VariableEdges(b: seq<Byte>, i: nat)
    requires i < |b| && VariableAt(b, i).Hit?
    ensures b[i] < 0x80 && b[VariableAt(b, i).end - 1] < 0x80 && VariableAt(b, i).start == i
  {
  }

  lemma EmailEdges(b: seq<Byte>, i: nat)
    requires i < |b| && EmailAt(b, i).Hit?
    ensures b[EmailAt(b, i).start] < 0x80 && b[EmailAt(b, i).end - 1] < 0x80
  {
    var start, end := RunStart(IsLocal, b, 0, i), RunEnd(IsDomainOrDot, b, i + 1);
    assert IsLocal(b[start]);
    assert |b[i + 1..end]| == end - (i + 1);
    assert IsDomainOrDot(b[end - 1]);
  }

  lemma AccountEdges(b: seq<Byte>, i: nat)
    requires i < |b| && AccountAt(b, i).Hit?
    ensures b[AccountAt(b, i).start] < 0x80 && b[AccountAt(b, i).end - 1] < 0x80
  {
    var start, end := RunStart(IsIdent, b, 0, i), RunEnd(IsIdent, b, i + 1);
    assert IsIdent(b[start]) && IsIdent(b[end - 1]);
  }

  /** Every match starts at an ASCII byte and ends beside one. */
  lemma StepEdges(kind: PiiKind, b: seq<Byte>, i: nat)
    requires i < |b| && StepAt(kind, b, i).Hit?
    ensures var s := StepAt(kind, b, i); b[s.start] < 0x80 && AsciiEdge(b, s.end)
  {
    match kind
    case UserProfilePath => PathEdges(b, i);
    case MachineName => MachineEdges(b, i);
    case EnvironmentVariable => VariableEdges(b, i);
    case IpAddress => AddressEdges(b, i);
    case EmailAddress => EmailEdges(b, i);
    case WindowsAccountName => AccountEdges(b, i);
  }

  // ---------------------------------------------------------------------------
  // The two patterns with an inner grammar, told without scanning.

  /** One to three digits. */
  predicate Group(b: seq<Byte>, i: nat, j: nat) {
    i < j <= i + 3 && j <= |b| && forall k :: i <= k < j ==> IsNumeral(b[k])
  }

  /** `count` groups separated by single dots fill the text from `i` to `e`. */
  predicate Groups(b: seq<Byte>, i: nat, e: nat, count: nat)
    requires count >= 1
    decreases count
  {
    if count == 1 then Group(b, i, e)
    else exists j: nat | j < |b| :: Group(b, i, j) && b[j] == DOT && Groups(b, j + 1, e, count - 1)
  }

  lemma {:induction false} OctetsAreGroups(b: seq<Byte>, i: nat, count: nat)
    requires i <= |b| && count >= 1 && Octets(b, i, count).Some?
    ensures Groups(b, i, Octets(b, i, count).value, count)
    decreases count
  {
    var run := RunEnd(IsNumeral, b, i);
    assert Group(b, i, run);
    if count > 1 {
      OctetsAreGroups(b, run + 1, count - 1);
    }
  }

  lemma OctetsStep(b: seq<Byte>, i: nat, j: nat, count: nat)
    requires j < |b| && Group(b, i, j) && b[j] == DOT && count > 1
    ensures Octets(b, i, count) == Octets(b, j + 1, count - 1)
  {
    RunEndIs(IsNumeral, b, i, j);
  }

  lemma {:induction false} GroupsAreOctets(b: seq<Byte>, i: nat, e: nat, count: nat)
    requires i <= |b| && count >= 1 && e <= |b| && (e < |b| ==> !IsNumeral(b[e]))
    requires Groups(b, i, e, count)
    ensures Octets(b, i, count) == Some(e)
    decreases count
  {
    if count == 1 {
      RunEndIs(IsNumeral, b, i, e);
    } else {
      var j: nat :| j < |b| && Group(b, i, j) && b[j] == DOT && Groups(b, j + 1, e, count - 1);
      GroupsAreOctets(b, j + 1, e, count - 1);
      OctetsStep(b, i, j, count);
    }
  }

  lemma OctetsExact(b: seq<Byte>, i: nat, e: nat, count: nat)
    requires i <= |b| && count >= 1 && e <= |b| && (e < |b| ==> !IsNumeral(b[e]))
    ensures Octets(b, i, count) == Some(e) <==> Groups(b, i, e, count)
  {
    if Octets(b, i, count).Some? {
      OctetsAreGroups(b, i, count);
    }
    if Groups(b, i, e, count) {
      GroupsAreOctets(b, i, e, count);
    }
  }

  /** An address is reported at `i` exactly when four groups start there that neither a digit nor a
      dot extends on either side. */
  lemma AddressIsDottedQuad(b: seq<Byte>, i: nat, e: nat)
    requires i < |b| && e <= |b|
    ensures AddressAt(b, i) == Hit(i, e)
            <==> Groups(b, i, e, OCTETS) && (i == 0 || !Joins(b[i - 1])) && (e == |b| || !Joins(b[e]))
  {
    if e == |b| || !Joins(b[e]) {
      OctetsExact(b, i, e, OCTETS);
    }
  }

  predicate NoEmptyPiece<T>(pieces: seq<seq<T>>) {
    forall i :: 0 <= i < |pieces| ==> |pieces[i]| > 0
  }

  predicate CleanEdges<T(==)>(s: seq<T>, c: T) {
    s != [] && s[0] != c && s[|s| - 1] != c && !Doubled(s, c)
  }

  lemma DoubledCut<T>(a: seq<T>, c: T, rest: seq<T>)
    requires c !in a
    ensures Doubled(a + [c] + rest, c) <==> (rest != [] && rest[0] == c) || Doubled(rest, c)
  {
    var s, k := a + [c] + rest, |a|;
    assert s[k + 1..] == rest;
    if Doubled(rest, c) {
      var i :| 0 <= i < |rest| && PairAt(rest, c, i);
      assert PairAt(s, c, k + 1 + i);
    }
    if Doubled(s, c) {
      var i :| 0 <= i < |s| && PairAt(s, c, i);
      assert s[..k] == a;
      if i > k {
        assert PairAt(rest, c, i - k - 1);
      }
    }
    if rest != [] && rest[0] == c {
      assert PairAt(s, c, k);
    }
  }

  lemma CleanCut<T>(a: seq<T>, c: T, rest: seq<T>)
    requires c !in a
    ensures CleanEdges(a + [c] + rest, c) <==> a != [] && CleanEdges(rest, c)
  {
    var s := a + [c] + rest;
    DoubledCut(a, c, rest);
    assert s[0] == if a == [] then c else a[0];
    assert s[|s| - 1] == if rest == [] then c else rest[|rest| - 1];
  }

  lemma CleanAlone<T>(s: seq<T>, c: T)
    requires c !in s
    ensures CleanEdges(s, c) <==> s != []
    ensures NoEmptyPiece([s]) <==> s != []
  {
    assert [s][0] == s;
  }

  lemma {:induction false} CleanIsLabels<T>(s: seq<T>, c: T)
    ensures NoEmptyPiece(Split(s, c)) <==> CleanEdges(s, c)
    ensures |Split(s, c)| >= 2 <==> c in s
    decreases |s|
  {
    var k := IndexOf(s, c);
    if k == |s| {
      assert s[..k] == s;
      CleanAlone(s, c);
    } else {
      CleanIsLabels(s[k + 1..], c);
      assert s == s[..k] + [c] + s[k + 1..];
      CleanCut(s[..k], c, s[k + 1..]);
      FirstPiece(s[..k], Split(s[k + 1..], c));
      assert s[k] in s;
    }
  }

  lemma FirstPiece<T>(p: seq<T>, rest: seq<seq<T>>)
    ensures NoEmptyPiece([p] + rest) <==> |p| > 0 && NoEmptyPiece(rest)
  {
    var all := [p] + rest;
    assert all[0] == p && forall i :: 0 <= i < |rest| ==> all[i + 1] == rest[i];
    if NoEmptyPiece(all) {
      forall i | 0 <= i < |rest| ensures |rest[i]| > 0 {
        assert |all[i + 1]| > 0;
      }
    }
  }

  /** A mail domain is accepted exactly when it is two or more non-empty labels joined by dots. */
  lemma DomainIsLabels(domain: seq<Byte>)
    ensures CleanDomain(domain) <==> |Split(domain, DOT)| >= 2 && NoEmptyPiece(Split(domain, DOT))
  {
    CleanIsLabels(domain, DOT);
  }

  // ---------------------------------------------------------------------------
  // The other patterns, told without scanning.

  /** All bytes from `i` to `j` are of the class. */
  predicate Run(p: Byte -> bool, b: seq<Byte>, i: nat, j: nat) {
    i <= j <= |b| && forall k :: i <= k < j ==> p(b[k])
  }

  /** And none follows. */
  predicate FullRun(p: Byte -> bool, b: seq<Byte>, i: nat, j: nat) {
    Run(p, b, i, j) && (j < |b| ==> !p(b[j]))
  }

  lemma RunEndExactly(p: Byte -> bool, b: seq<Byte>, i: nat, j: nat)
    requires i <= |b|
    ensures RunEnd(p, b, i) == j <==> FullRun(p, b, i, j)
  {
    if FullRun(p, b, i, j) {
      RunEndIs(p, b, i, j);
    }
  }

  /** The run that ends at `i` begins at `j`, looking back no further than `low`. */
  predicate FullRunBack(p: Byte -> bool, b: seq<Byte>, low: nat, j: nat, i: nat) {
    low <= j <= i <= |b| && (forall k :: j <= k < i ==> p(b[k])) && (j > low ==> !p(b[j - 1]))
  }

  lemma RunStartExactly(p: Byte -> bool, b: seq<Byte>, low: nat, i: nat, j: nat)
    requires low <= i <= |b|
    ensures RunStart(p, b, low, i) == j <==> FullRunBack(p, b, low, j, i)
  {
    var s := RunStart(p, b, low, i);
    if FullRunBack(p, b, low, j, i) {
      assert !(j < s) && !(s < j);
    }
  }

  /** A percent sign, one to sixty-four bytes that are neither blank nor percent, a percent sign. */
  lemma VariableIsDelimited(b: seq<Byte>, i: nat, e: nat)
    requires i < |b|
    ensures VariableAt(b, i) == Hit(i, e)
            <==> && i + 3 <= e <= i + 66 && e <= |b| && b[i] == 0x25 && b[e - 1] == 0x25
                 && forall k :: i < k < e - 1 ==> b[k] != 0x25 && !IsSpace(b[k])
  {
    var run := RunEnd(IsVariable, b, i + 1);
    if i + 3 <= e <= |b| && b[e - 1] == 0x25 && forall k :: i < k < e - 1 ==> IsVariable(b[k]) {
      RunEndIs(IsVariable, b, i + 1, e - 1);
    }
  }

  /** The literal start of a profile path: a drive letter, a colon and `\users\`, or `\users\` alone. */
  predicate StartsPath(b: seq<Byte>, i: nat, base: nat) {
    || (base == i + 9 <= |b| && IsAlpha(b[i]) && b[i + 1] == 0x3A && b[i + 2] == 0x5C && SpellsAt(b, i + 3, USERS_DIR))
    || (base == i + 7 <= |b| && b[i] == 0x5C && SpellsAt(b, i + 1, USERS_DIR))
  }

  /** A profile path goes on through segment bytes as far as they reach, less the path edges at its end. */
  lemma PathIsTrimmedRun(b: seq<Byte>, i: nat, e: nat)
    requires i < |b|
    ensures PathAt(b, i) == Hit(i, e)
            <==> exists base: nat, run: nat ::
                   StartsPath(b, i, base) && FullRun(IsSegment, b, base, run) && FullRunBack(IsPathEdge, b, i, e, run)
  {
    var n := PathBase(b, i);
    var base, run := i + n, RunEnd(IsSegment, b, i + n);
    if n > 0 {
      RunEndExactly(IsSegment, b, base, run);
      RunStartExactly(IsPathEdge, b, i, run, PathEnd(b, i));
      assert StartsPath(b, i, base);
    }
    if base', run': nat :|
         StartsPath(b, i, base') && FullRun(IsSegment, b, base', run') && FullRunBack(IsPathEdge, b, i, e, run')
    {
      OnePathStart(b, i, base');
      RunEndExactly(IsSegment, b, base', run');
      RunStartExactly(IsPathEdge, b, i, run', e);
    }
  }

  lemma OnePathStart(b: seq<Byte>, i: nat, base: nat)
    requires i < |b| && StartsPath(b, i, base)
    ensures base == i + PathBase(b, i)
  {
  }

  /** The name token, with a percent sign behind it if there is one but none before it; or two backslashes
      and a host name as far as it reaches. */
  lemma MachineIsTokenOrHost(b: seq<Byte>, i: nat, e: nat)
    requires i < |b|
    ensures var token := SpellsAt(b, i, COMPUTER) && (i == 0 || b[i - 1] != 0x25);
            MachineAt(b, i) == Hit(i, e)
            <==> || (token && e == i + 12 + if i + 12 < |b| && b[i + 12] == 0x25 then 1 else 0)
                 || (!token && i + 2 < e && i + 1 < |b| && b[i] == 0x5C && b[i + 1] == 0x5C && FullRun(IsIdent, b, i + 2, e))
  {
    if i + 2 <= |b| {
      RunEndExactly(IsIdent, b, i + 2, e);
    }
  }

  /** A maximal local part, an at sign, and a maximal domain of two or more non-empty labels. */
  lemma EmailIsAddress(b: seq<Byte>, i: nat, s: nat, e: nat)
    requires i < |b|
    ensures EmailAt(b, i) == Hit(s, e)
            <==> && b[i] == 0x40 && s < i && FullRunBack(IsLocal, b, 0, s, i)
                 && i < e && FullRun(IsDomainOrDot, b, i + 1, e)
                 && |Split(b[i + 1..e], DOT)| >= 2 && NoEmptyPiece(Split(b[i + 1..e], DOT))
  {
    RunStartExactly(IsLocal, b, 0, i, s);
    RunEndExactly(IsDomainOrDot, b, i + 1, e);
    if i < e <= |b| {
      DomainIsLabels(b[i + 1..e]);
    }
  }

  /** Two maximal identifiers around a backslash, the first one not at the start of the text, not behind
      a backslash or a colon, and not the word `users`. */
  lemma AccountIsPair(b: seq<Byte>, i: nat, s: nat, e: nat)
    requires i < |b|
    ensures AccountAt(b, i) == Hit(s, e)
            <==> && b[i] == 0x5C && 0 < s < i && FullRunBack(IsIdent, b, 0, s, i)
                 && b[s - 1] != 0x5C && b[s - 1] != 0x3A && !Spells(b[s..i], USERS)
                 && i + 1 < e && FullRun(IsIdent, b, i + 1, e)
  {
    RunStartExactly(IsIdent, b, 0, i, s);
    RunEndExactly(IsIdent, b, i + 1, e);
  }

  /** The literals are the words they stand for. */
  lemma WordsAreSpelled(users: string, usersDir: string, computer: string)
    requires users == "users" && usersDir == "users\\" && computer == "computername"
    ensures Encode(users) == USERS && Encode(usersDir) == USERS_DIR && Encode(computer) == COMPUTER
  {
    AsciiEncodes(users);
    AsciiEncodes(usersDir);
    AsciiEncodes(computer);
  }

  lemma {:induction false} AsciiEncodes(s: string)
    requires forall i :: 0 <= i < |s| ==> s[i] as int < 0x80
    ensures |Encode(s)| == |s| && forall i :: 0 <= i < |s| ==> Encode(s)[i] == s[i] as int
  {
    if s != [] {
      assert forall i :: 0 <= i < |s| - 1 ==> s[1..][i] == s[i + 1];
      AsciiEncodes(s[1..]);
      assert Encode(s) == EncodeChar(s[0]) + Encode(s[1..]);
    }
  }
}

module Privacy {
  import opened Options
  import opened Text
  import opened Sequences
  import opened Utf8
  import opened PrivacyPatterns

  const MAX_PII_FINDINGS: nat := 32

  datatype Span = Span(start: nat, end: nat, kind: PiiKind)

  // ---------------------------------------------------------------------------
  // One scanner: from left to right, resuming after each match.

  /** What a scanner does at each position of a text. */
  function StepTable(kind: PiiKind, b: seq<Byte>): (t: seq<Step>)
    ensures |t| == |b| && SoundTable(t)
  {
    seq(|b|, i requires 0 <= i < |b| => StepAt(kind, b, i))
  }

  predicate SoundTable(t: seq<Step>) {
    forall i :: 0 <= i < |t| && t[i].Hit? ==> t[i].start <= i < t[i].end <= |t|
  }

  /** `None` is the out-of-bounds read of the account scanner, which ends the program. */
  function Scan(kind: PiiKind, t: seq<Step>, i: nat, found: seq<Span>): Option<seq<Span>>
    requires SoundTable(t) && i <= |t|
    decreases |t| - i
  {
    if i == |t| then Some(found)
    else
      match t[i]
      case Skip => Scan(kind, t, i + 1, found)
      case OutOfBounds => None
      case Hit(start, end) =>
        var more := found + [Span(start, end, kind)];
        if |more| >= MAX_PII_FINDINGS then Some(more) else Scan(kind, t, end, more)
  }

  /** Length of the literal start of a profile path, or zero. */
  method MatchPathBase(b: seq<Byte>, index: nat) returns (n: nat)
    requires index < |b|
    ensures n == PathBase(b, index)
  {
    if index + 9 <= |b| && IsAlpha(b[index]) && b[index + 1] == COLON && b[index + 2] == BACKSLASH
       && Spells(b[index + 3..index + 9], USERS_DIR)
    {
      n := 9;
    } else if index + 7 <= |b| && b[index] == BACKSLASH && Spells(b[index + 1..index + 7], USERS_DIR) {
      n := 7;
    } else {
      n := 0;
    }
  }

  /** One position of the user profile scanner. */
  method MatchUserProfilePath(b: seq<Byte>, index: nat) returns (step: Step)
    requires index < |b|
    ensures step == PathAt(b, index)
  {
    var n := MatchPathBase(b, index);
    if n == 0 {
      return Skip;
    }
    var baseEnd := index + n;
    var end := baseEnd;
    while end < |b| && IsSegment(b[end])
      invariant baseEnd <= end <= |b| && RunEnd(IsSegment, b, baseEnd) == RunEnd(IsSegment, b, end)
    {
      end := end + 1;
    }
    ghost var run := end;
    while end > index && IsPathEdge(b[end - 1])
      invariant index <= end <= run
      invariant RunStart(IsPathEdge, b, index, run) == RunStart(IsPathEdge, b, index, end)
    {
      end := end - 1;
    }
    step := Hit(index, end);
  }

  method MatchMachineName(b: seq<Byte>, index: nat) returns (step: Step)
    requires index < |b|
    ensures step == MachineAt(b, index)
  {
    if index + 12 <= |b| && Spells(b[index..index + 12], COMPUTER) && (index == 0 || b[index - 1] != PERCENT) {
      var end := index + 12;
      if end < |b| && b[end] == PERCENT {
        end := end + 1;
      }
      return Hit(index, end);
    }
    if index + 2 < |b| && b[index] == BACKSLASH && b[index + 1] == BACKSLASH && IsIdent(b[index + 2]) {
      var end := index + 2;
      while end < |b| && IsIdent(b[end])
        invariant index + 2 <= end <= |b| && RunEnd(IsIdent, b, index + 2) == RunEnd(IsIdent, b, end)
      {
        end := end + 1;
      }
      return Hit(index, end);
    }
    step := Skip;
  }

  method MatchEnvironmentVariable(b: seq<Byte>, index: nat) returns (step: Step)
    requires index < |b|
    ensures step == VariableAt(b, index)
  {
    if b[index] != PERCENT {
      return Skip;
    }
    var end := index + 1;
    while end < |b| && b[end] != PERCENT
      invariant index + 1 <= end <= |b| && end <= index + 65
      invariant RunEnd(IsVariable, b, index + 1) == RunEnd(IsVariable, b, end)
    {
      if IsSpace(b[end]) || end - index > 64 {
        break;
      }
      end := end + 1;
    }
    if end < |b| && b[end] == PERCENT && end > index + 1 {
      return Hit(index, end + 1);
    }
    step := Skip;
  }

  /** One group of digits: at most three are taken, and a fourth spoils the group. */
  method OneOctet(b: seq<Byte>, start: nat) returns (ok: bool, position: nat)
    requires start <= |b|
    ensures var run := RunEnd(IsNumeral, b, start);
            ok == (start < run <= start + 3) && (ok ==> position == run)
  {
    position := start;
    while position < |b| && IsNumeral(b[position]) && position - start < 3
      invariant start <= position <= |b| && position <= start + 3
      invariant RunEnd(IsNumeral, b, start) == RunEnd(IsNumeral, b, position)
    {
      position := position + 1;
    }
    ok := position > start && !(position < |b| && IsNumeral(b[position]));
  }

  /** The octet loop: `end` is meaningful when all `count` octets were found. */
  method FindOctets(b: seq<Byte>, index: nat, count: nat) returns (ok: bool, end: nat)
    requires index < |b| && count >= 1
    ensures Octets(b, index, count) == if ok then Some(end) else None
    ensures ok ==> index < end <= |b|
  {
    var position, octets := index, 0;
    end := index;
    while octets < count
      invariant octets <= count && position <= |b| && index <= position
      invariant octets < count ==> Octets(b, index, count) == Octets(b, position, count - octets)
      invariant octets == count ==> Octets(b, index, count) == Some(end)
    {
      ok, end := OneOctet(b, position);
      if !ok {
        return;
      }
      octets := octets + 1;
      position := end;
      if octets < count {
        if position < |b| && b[position] == DOT {
          position := position + 1;
        } else {
          return false, end;
        }
      }
    }
    ok := true;
  }

  method MatchIpAddress(b: seq<Byte>, index: nat) returns (step: Step)
    requires index < |b|
    ensures step == AddressAt(b, index)
  {
    if !IsNumeral(b[index]) {
      return Skip;
    }
    var valid, end := FindOctets(b, index, OCTETS);
    if valid {
      var beforeOk := index == 0 || !(IsNumeral(b[index - 1]) || b[index - 1] == DOT);
      var afterOk := end >= |b| || !(IsNumeral(b[end]) || b[end] == DOT);
      if beforeOk && afterOk {
        return Hit(index, end);
      }
    }
    step := Skip;
  }

  method MatchEmailAddress(b: seq<Byte>, index: nat) returns (step: Step)
    requires index < |b|
    ensures step == EmailAt(b, index)
  {
    if b[index] != AT {
      return Skip;
    }
    var start := index;
    while start > 0 && IsLocal(b[start - 1])
      invariant 0 <= start <= index && RunStart(IsLocal, b, 0, index) == RunStart(IsLocal, b, 0, start)
    {
      start := start - 1;
    }
    if start == index {
      return Skip;
    }
    var end := index + 1;
    while end < |b| && IsDomainOrDot(b[end])
      invariant index + 1 <= end <= |b| && RunEnd(IsDomainOrDot, b, index + 1) == RunEnd(IsDomainOrDot, b, end)
    {
      end := end + 1;
    }
    var domain := b[index + 1..end];
    var hasDot := DOT in domain;
    var endsClean := domain != [] && domain[0] != DOT && domain[|domain| - 1] != DOT && !Doubled(domain, DOT);
    if hasDot && endsClean {
      return Hit(start, end);
    }
    step := Skip;
  }

  method MatchWindowsAccountName(b: seq<Byte>, index: nat) returns (step: Step)
    requires index < |b|
    ensures step == AccountAt(b, index)
  {
    if b[index] != BACKSLASH {
      return Skip;
    }
    if index > 0 && b[index - 1] == BACKSLASH {
      return Skip;
    }
    var domainStart := index;
    while domainStart > 0 && IsIdent(b[domainStart - 1])
      invariant 0 <= domainStart <= index
      invariant RunStart(IsIdent, b, 0, index) == RunStart(IsIdent, b, 0, domainStart)
    {
      domainStart := domainStart - 1;
    }
    if domainStart == index {
      return Skip;
    }
    if domainStart == 0 {
      return OutOfBounds;
    }
    if b[domainStart - 1] == BACKSLASH || b[domainStart - 1] == COLON {
      return Skip;
    }
    var end := index + 1;
    while end < |b| && IsIdent(b[end])
      invariant index + 1 <= end <= |b| && RunEnd(IsIdent, b, index + 1) == RunEnd(IsIdent, b, end)
    {
      end := end + 1;
    }
    if end == index + 1 || Spells(b[domainStart..index], USERS) {
      return Skip;
    }
    step := Hit(domainStart, end);
  }

  method MatchAt(kind: PiiKind, b: seq<Byte>, index: nat) returns (step: Step)
    requires index < |b|
    ensures step == StepAt(kind, b, index)
  {
    match kind {
      case UserProfilePath => step := MatchUserProfilePath(b, index);
      case MachineName => step := MatchMachineName(b, index);
      case EnvironmentVariable => step := MatchEnvironmentVariable(b, index);
      case IpAddress => step := MatchIpAddress(b, index);
      case EmailAddress => step := MatchEmailAddress(b, index);
      case WindowsAccountName => step := MatchWindowsAccountName(b, index);
    }
  }

  /** The loop all six scanners share. */
  method RunScanner(kind: PiiKind, b: seq<Byte>, before: seq<Span>) returns (spans: Option<seq<Span>>)
    ensures spans == Scan(kind, StepTable(kind, b), 0, before)
  {
    ghost var t := StepTable(kind, b);
    var found, index := before, 0;
    while index < |b|
      invariant index <= |b|
      invariant Scan(kind, t, 0, before) == Scan(kind, t, index, found)
    {
      var step := MatchAt(kind, b, index);
      assert step == t[index];
      match step {
        case Skip => index := index + 1;
        case OutOfBounds => return None;
        case Hit(start, end) =>
          found := found + [Span(start, end, kind)];
          if |found| >= MAX_PII_FINDINGS {
            return Some(found);
          }
          index := end;
      }
    }
    spans := Some(found);
  }

  // ---------------------------------------------------------------------------
  // All six scanners, in the order the source runs them.

  const KINDS: seq<PiiKind> :=
    [UserProfilePath, MachineName, EnvironmentVariable, IpAddress, EmailAddress, WindowsAccountName]

  function ScanAll(kinds: seq<PiiKind>, b: seq<Byte>, found: seq<Span>): Option<seq<Span>> {
    if kinds == [] then Some(found)
    else
      match Scan(kinds[0], StepTable(kinds[0], b), 0, found)
      case None => None
      case Some(more) => ScanAll(kinds[1..], b, more)
  }

  /** Earlier start first, and of two with one start the longer first. */
  predicate Before(x: Span, y: Span) {
    x.start < y.start || (x.start == y.start && x.end > y.end)
  }

  /** Greedy resolution of overlaps from the left, stopping once `cap` spans are kept. */
  function Merge(s: seq<Span>, kept: seq<Span>, cap: nat): seq<Span> {
    if s == [] then kept
    else if kept != [] && s[0].start < kept[|kept| - 1].end then Merge(s[1..], kept, cap)
    else
      var more := kept + [s[0]];
      if |more| >= cap then more else Merge(s[1..], more, cap)
  }

  function Collected(b: seq<Byte>): Option<seq<Span>> {
    match ScanAll(KINDS, b, [])
    case None => None
    case Some(spans) => Some(Merge(SortBy(Before, spans), [], MAX_PII_FINDINGS))
  }

  method MergeSpans(sorted: seq<Span>) returns (merged: seq<Span>)
    ensures merged == Merge(sorted, [], MAX_PII_FINDINGS)
  {
    merged := [];
    for i := 0 to |sorted|
      invariant Merge(sorted, [], MAX_PII_FINDINGS) == Merge(sorted[i..], merged, MAX_PII_FINDINGS)
    {
      var span := sorted[i];
      assert sorted[i..][1..] == sorted[i + 1..];
      if merged != [] && span.start < merged[|merged| - 1].end {
        continue;
      }
      merged := merged + [span];
      if |merged| >= MAX_PII_FINDINGS {
        return;
      }
    }
  }

  method CollectSpans(b: seq<Byte>) returns (spans: Option<seq<Span>>)
    ensures spans == Collected(b)
  {
    var found: seq<Span> := [];
    for i := 0 to |KINDS|
      invariant ScanAll(KINDS, b, []) == ScanAll(KINDS[i..], b, found)
    {
      assert KINDS[i..][1..] == KINDS[i + 1..];
      var more := RunScanner(KINDS[i], b, found);
      if more.None? {
        return None;
      }
      found := more.value;
    }
    var merged := MergeSpans(SortBy(Before, found));
    spans := Some(merged);
  }

  // ---------------------------------------------------------------------------
  // What the scanners report.

  /** The span is a match of its pattern at some position. */
  ghost predicate Genuine(b: seq<Byte>, s: Span) {
    exists i :: 0 <= i < |b| && StepAt(s.kind, b, i) == Hit(s.start, s.end)
  }

  ghost predicate AllGenuine(b: seq<Byte>, spans: seq<Span>) {
    forall s :: s in spans ==> Genuine(b, s)
  }

  /** The span is an entry of the table. */
  predicate Tabled(t: seq<Step>, s: Span) {
    exists i :: 0 <= i < |t| && t[i] == Hit(s.start, s.end)
  }

  lemma {:induction false} ScanIsTabled(kind: PiiKind, t: seq<Step>, i: nat, found: seq<Span>, s: Span)
    requires SoundTable(t) && i <= |t| && Scan(kind, t, i, found).Some?
    requires s in Scan(kind, t, i, found).value
    ensures s in found || (s.kind == kind && Tabled(t, s))
    decreases |t| - i
  {
    if i < |t| {
      match t[i]
      case Skip => ScanIsTabled(kind, t, i + 1, found, s);
      case Hit(start, end) =>
        var more := found + [Span(start, end, kind)];
        if |more| < MAX_PII_FINDINGS {
          ScanIsTabled(kind, t, end, more, s);
        }
    }
  }

  lemma TabledIsGenuine(kind: PiiKind, b: seq<Byte>, s: Span)
    requires s.kind == kind && Tabled(StepTable(kind, b), s)
    ensures Genuine(b, s)
  {
    var t := StepTable(kind, b);
    var i :| 0 <= i < |t| && t[i] == Hit(s.start, s.end);
    assert t[i] == StepAt(kind, b, i);
  }

  lemma {:induction false} ScanAllIsGenuine(kinds: seq<PiiKind>, b: seq<Byte>, found: seq<Span>)
    requires AllGenuine(b, found) && ScanAll(kinds, b, found).Some?
    ensures AllGenuine(b, ScanAll(kinds, b, found).value)
  {
    if kinds != [] {
      var t := StepTable(kinds[0], b);
      var more := Scan(kinds[0], t, 0, found).value;
      forall s | s in more ensures Genuine(b, s) {
        ScanIsTabled(kinds[0], t, 0, found, s);
        if s !in found {
          TabledIsGenuine(kinds[0], b, s);
        }
      }
      ScanAllIsGenuine(kinds[1..], b, more);
    }
  }

  /** Position `i` lies inside a reported match of this kind. */
  predicate Reported(spans: seq<Span>, kind: PiiKind, i: nat) {
    exists s :: s in spans && s.kind == kind && s.start <= i < s.end
  }

  lemma {:induction false} ScanKeeps(kind: PiiKind, t: seq<Step>, i: nat, found: seq<Span>)
    requires SoundTable(t) && i <= |t| && Scan(kind, t, i, found).Some?
    ensures found <= Scan(kind, t, i, found).value
    decreases |t| - i
  {
    if i < |t| {
      match t[i]
      case Skip => ScanKeeps(kind, t, i + 1, found);
      case Hit(start, end) =>
        var more := found + [Span(start, end, kind)];
        if |more| < MAX_PII_FINDINGS {
          ScanKeeps(kind, t, end, more);
        }
    }
  }

  /** The cap has been reached, and the scanner reported a match of its kind that ends no later than
      position `i`. */
  predicate CutOff(spans: seq<Span>, kind: PiiKind, i: nat) {
    |spans| >= MAX_PII_FINDINGS && exists s :: s in spans && s.kind == kind && s.end <= i
  }

  /** A scanner misses nothing but what lies past the match at which the cap stopped it: a position
      where its pattern matches lies in a span it reports. */
  lemma {:induction false} ScanIsComplete(kind: PiiKind, t: seq<Step>, i: nat, found: seq<Span>, j: nat)
    requires SoundTable(t) && i <= j < |t| && t[j].Hit? && Scan(kind, t, i, found).Some?
    ensures var r := Scan(kind, t, i, found).value; Reported(r, kind, j) || CutOff(r, kind, j)
    decreases |t| - i
  {
    match t[i]
    case Skip => ScanIsComplete(kind, t, i + 1, found, j);
    case Hit(start, end) =>
      var more := found + [Span(start, end, kind)];
      assert more[|found|] == Span(start, end, kind) && more[|found|] in more;
      if |more| < MAX_PII_FINDINGS {
        if j < end {
          ScanKeeps(kind, t, end, more);
          var r := Scan(kind, t, end, more).value;
          assert r[|found|] == Span(start, end, kind);
        } else {
          ScanIsComplete(kind, t, end, more, j);
        }
      }
  }

  lemma {:induction false} ScanAllKeeps(kinds: seq<PiiKind>, b: seq<Byte>, found: seq<Span>)
    requires ScanAll(kinds, b, found).Some?
    ensures found <= ScanAll(kinds, b, found).value
  {
    if kinds != [] {
      var t := StepTable(kinds[0], b);
      ScanKeeps(kinds[0], t, 0, found);
      ScanAllKeeps(kinds[1..], b, Scan(kinds[0], t, 0, found).value);
    }
  }

  lemma SameReports(a: seq<Span>, b: seq<Span>, kind: PiiKind, j: nat)
    requires a <= b && (Reported(a, kind, j) || CutOff(a, kind, j))
    ensures Reported(b, kind, j) || CutOff(b, kind, j)
  {
    if Reported(a, kind, j) {
      var s :| s in a && s.kind == kind && s.start <= j < s.end;
      assert s in b;
    } else {
      var s :| s in a && s.kind == kind && s.end <= j;
      assert s in b;
    }
  }

  lemma {:induction false} ScanAllIsComplete(kinds: seq<PiiKind>, b: seq<Byte>, found: seq<Span>, kind: PiiKind,
                                             j: nat)
    requires j < |b| && kind in kinds && StepTable(kind, b)[j].Hit? && ScanAll(kinds, b, found).Some?
    ensures var r := ScanAll(kinds, b, found).value; Reported(r, kind, j) || CutOff(r, kind, j)
  {
    var t := StepTable(kinds[0], b);
    var more := Scan(kinds[0], t, 0, found).value;
    ScanAllKeeps(kinds[1..], b, more);
    if kind == kinds[0] {
      ScanIsComplete(kind, t, 0, found, j);
      SameReports(more, ScanAll(kinds, b, found).value, kind, j);
    } else {
      ScanAllIsComplete(kinds[1..], b, more, kind, j);
    }
  }

  // ---------------------------------------------------------------------------
  // The out-of-bounds read.

  /** The text opens with an identifier directly followed by a backslash. */
  predicate OpensLikeAccount(b: seq<Byte>) {
    var k := RunEnd(IsIdent, b, 0);
    0 < k < |b| && b[k] == BACKSLASH
  }

  lemma OutOfBoundsAt(b: seq<Byte>, i: nat)
    requires i < |b|
    ensures AccountAt(b, i).OutOfBounds? <==> OpensLikeAccount(b) && i == RunEnd(IsIdent, b, 0)
    ensures i < RunEnd(IsIdent, b, 0) ==> AccountAt(b, i) == Skip
  {
    var k := RunEnd(IsIdent, b, 0);
    if b[i] == BACKSLASH && RunStart(IsIdent, b, 0, i) == 0 {
      RunEndIs(IsIdent, b, 0, i);
    }
  }

  /** The table fails at position `k` only, and every position before it is skipped. */
  predicate FailsAt(t: seq<Step>, k: nat, fails: bool) {
    && (fails ==> k < |t| && t[k] == OutOfBounds)
    && (forall i :: 0 <= i < |t| && t[i] == OutOfBounds ==> fails && i == k)
    && (fails ==> forall i :: 0 <= i < k ==> t[i] == Skip)
  }

  lemma {:induction false} ScanFails(kind: PiiKind, t: seq<Step>, i: nat, found: seq<Span>, k: nat, fails: bool)
    requires SoundTable(t) && i <= |t| && FailsAt(t, k, fails)
    ensures Scan(kind, t, i, found).None? <==> fails && i <= k
    decreases |t| - i
  {
    if i < |t| {
      match t[i]
      case OutOfBounds =>
      case Skip => ScanFails(kind, t, i + 1, found, k, fails);
      case Hit(start, end) =>
        var more := found + [Span(start, end, kind)];
        if |more| < MAX_PII_FINDINGS {
          ScanFails(kind, t, end, more, k, fails);
        }
    }
  }

  lemma AccountTable(b: seq<Byte>)
    ensures FailsAt(StepTable(WindowsAccountName, b), RunEnd(IsIdent, b, 0), OpensLikeAccount(b))
  {
    var t := StepTable(WindowsAccountName, b);
    forall i | 0 <= i < |t| ensures t[i] == AccountAt(b, i) {
    }
    forall i | 0 <= i < |t|
      ensures t[i] == OutOfBounds <==> OpensLikeAccount(b) && i == RunEnd(IsIdent, b, 0)
      ensures i < RunEnd(IsIdent, b, 0) ==> t[i] == Skip
    {
      OutOfBoundsAt(b, i);
    }
  }

  lemma OtherTable(kind: PiiKind, b: seq<Byte>)
    requires kind != WindowsAccountName
    ensures FailsAt(StepTable(kind, b), 0, false)
  {
    var t := StepTable(kind, b);
    forall i | 0 <= i < |t| ensures t[i] != OutOfBounds {
      assert t[i] == StepAt(kind, b, i);
    }
  }

  lemma {:induction false} ScanAllFails(kinds: seq<PiiKind>, b: seq<Byte>, found: seq<Span>)
    ensures ScanAll(kinds, b, found).None? <==> WindowsAccountName in kinds && OpensLikeAccount(b)
  {
    if kinds != [] {
      var t := StepTable(kinds[0], b);
      if kinds[0] == WindowsAccountName {
        AccountTable(b);
        ScanFails(kinds[0], t, 0, found, RunEnd(IsIdent, b, 0), OpensLikeAccount(b));
      } else {
        OtherTable(kinds[0], b);
        ScanFails(kinds[0], t, 0, found, 0, false);
      }
      var r := Scan(kinds[0], t, 0, found);
      if r.Some? {
        ScanAllFails(kinds[1..], b, r.value);
      }
    }
  }

  /** Scanning reads out of bounds exactly on texts that open with an identifier and a backslash. */
  lemma FailsExactly(b: seq<Byte>)
    ensures Collected(b).None? <==> OpensLikeAccount(b)
  {
    ScanAllFails(KINDS, b, []);
    assert KINDS[5] == WindowsAccountName;
  }

  // ---------------------------------------------------------------------------
  // Overlaps.

  /** Non-empty spans inside the text, in order and disjoint. */
  predicate InOrder(b: seq<Byte>, spans: seq<Span>) {
    && (forall i :: 0 <= i < |spans| ==> spans[i].start < spans[i].end <= |b|)
    && (forall i, j :: 0 <= i < j < |spans| ==> spans[i].end <= spans[j].start)
  }

  ghost predicate Fits(b: seq<Byte>, spans: seq<Span>) {
    forall s :: s in spans ==> s.start < s.end <= |b|
  }

  lemma AppendInOrder(b: seq<Byte>, kept: seq<Span>, s: Span)
    requires InOrder(b, kept) && s.start < s.end <= |b|
    requires kept != [] ==> kept[|kept| - 1].end <= s.start
    ensures InOrder(b, kept + [s])
  {
    var more := kept + [s];
    forall i, j | 0 <= i < j < |more| ensures more[i].end <= more[j].start {
      if j == |kept| && i < |kept| - 1 {
        assert kept[i].end <= kept[|kept| - 1].start;
      }
    }
  }

  lemma {:induction false} MergeInOrder(b: seq<Byte>, s: seq<Span>, kept: seq<Span>, cap: nat)
    requires Fits(b, s) && InOrder(b, kept) && |kept| < cap
    ensures InOrder(b, Merge(s, kept, cap)) && |Merge(s, kept, cap)| <= cap
    ensures kept <= Merge(s, kept, cap)
    ensures forall x :: x in Merge(s, kept, cap) ==> x in kept || x in s
  {
    if s != [] {
      assert s[0] in s;
      if kept != [] && s[0].start < kept[|kept| - 1].end {
        MergeInOrder(b, s[1..], kept, cap);
      } else {
        var more := kept + [s[0]];
        AppendInOrder(b, kept, s[0]);
        if |more| < cap {
          MergeInOrder(b, s[1..], more, cap);
        }
      }
    }
  }

  /** A kept span holds the first byte of `x`. */
  predicate Held(kept: seq<Span>, x: Span) {
    exists t :: t in kept && t.start <= x.start < t.end
  }

  /** The cap has been reached before `x`. */
  predicate Beyond(kept: seq<Span>, x: Span, cap: nat) {
    kept != [] && |kept| == cap && kept[|kept| - 1].end <= x.start
  }

  lemma HeldGrows(a: seq<Span>, b: seq<Span>, x: Span)
    requires a <= b && Held(a, x)
    ensures Held(b, x)
  {
    var t :| t in a && t.start <= x.start < t.end;
    assert t in b;
  }

  lemma HeldByLast(kept: seq<Span>, x: Span)
    requires kept != [] && kept[|kept| - 1].start <= x.start < kept[|kept| - 1].end
    ensures Held(kept, x)
  {
    assert kept[|kept| - 1] in kept;
  }

  predicate Follow(s: seq<Span>, kept: seq<Span>) {
    kept != [] ==> forall y :: y in s ==> kept[|kept| - 1].start <= y.start
  }

  lemma RestFollows(s: seq<Span>)
    requires s != [] && SortedBy(Before, s)
    ensures SortedBy(Before, s[1..]) && forall y :: y in s[1..] ==> s[0].start <= y.start
  {
    forall y | y in s[1..] ensures s[0].start <= y.start {
      var j :| 0 <= j < |s[1..]| && s[1..][j] == y;
      assert s[j + 1] == y && !Before(s[j + 1], s[0]);
    }
  }

  /** The first byte of every span is held unless the cap was reached before it. */
  lemma {:induction false} MergeHolds(b: seq<Byte>, s: seq<Span>, kept: seq<Span>, cap: nat, x: Span)
    requires Fits(b, s) && InOrder(b, kept) && |kept| < cap && SortedBy(Before, s) && Follow(s, kept) && x in s
    ensures var r := Merge(s, kept, cap); Held(r, x) || Beyond(r, x, cap)
  {
    assert s[0] in s;
    var rest := s[1..];
    RestFollows(s);
    MergeInOrder(b, s, kept, cap);
    if kept != [] && s[0].start < kept[|kept| - 1].end {
      if x == s[0] {
        HeldByLast(kept, x);
        HeldGrows(kept, Merge(s, kept, cap), x);
      } else {
        MergeHolds(b, rest, kept, cap, x);
      }
    } else {
      var more := kept + [s[0]];
      AppendInOrder(b, kept, s[0]);
      if x.start < s[0].end {
        HeldByLast(more, x);
        if |more| < cap {
          MergeInOrder(b, rest, more, cap);
          HeldGrows(more, Merge(rest, more, cap), x);
        }
      } else if |more| < cap {
        MergeHolds(b, rest, more, cap, x);
      }
    }
  }

  /** A lower cap only cuts the result short. */
  lemma {:induction false} MergeIsCut(s: seq<Span>, kept: seq<Span>, cap: nat, high: nat)
    requires |kept| < cap <= high
    ensures var full := Merge(s, kept, high);
            kept <= full && Merge(s, kept, cap) == if |full| <= cap then full else full[..cap]
  {
    if s != [] {
      if kept != [] && s[0].start < kept[|kept| - 1].end {
        MergeIsCut(s[1..], kept, cap, high);
      } else {
        var more := kept + [s[0]];
        if |more| < cap {
          MergeIsCut(s[1..], more, cap, high);
        } else {
          MergeExtends(s[1..], more, high);
        }
      }
    }
  }

  lemma {:induction false} MergeExtends(s: seq<Span>, kept: seq<Span>, cap: nat)
    ensures kept <= Merge(s, kept, cap)
  {
    if s != [] {
      if kept != [] && s[0].start < kept[|kept| - 1].end {
        MergeExtends(s[1..], kept, cap);
      } else {
        MergeExtends(s[1..], kept + [s[0]], cap);
      }
    }
  }

  /** Nothing that was dropped so far starts where the next kept span may start. */
  predicate Passed(done: seq<Span>, kept: seq<Span>) {
    forall x :: x in done ==> kept != [] && x.start < kept[|kept| - 1].end
  }

  /** No span starts where a kept one does and is longer. */
  predicate Longest(kept: seq<Span>, all: seq<Span>) {
    forall t, z :: t in kept && z in all && z.start == t.start ==> z.end <= t.end
  }

  lemma {:induction false} KeptAreLongest(b: seq<Byte>, done: seq<Span>, s: seq<Span>, kept: seq<Span>, cap: nat)
    requires Fits(b, s) && InOrder(b, kept) && |kept| < cap && SortedBy(Before, s)
    requires Passed(done, kept) && Longest(kept, done + s)
    ensures Longest(Merge(s, kept, cap), done + s)
    decreases |s|
  {
    if s != [] {
      var more, rest := kept + [s[0]], s[1..];
      assert s[0] in s;
      assert (done + [s[0]]) + rest == done + s;
      RestFollows(s);
      if kept != [] && s[0].start < kept[|kept| - 1].end {
        KeptAreLongest(b, done + [s[0]], rest, kept, cap);
      } else {
        AppendInOrder(b, kept, s[0]);
        FirstIsLongest(done, s, kept);
        if |more| < cap {
          KeptAreLongest(b, done + [s[0]], rest, more, cap);
        }
      }
    }
  }

  lemma FirstIsLongest(done: seq<Span>, s: seq<Span>, kept: seq<Span>)
    requires s != [] && SortedBy(Before, s) && Passed(done, kept) && Longest(kept, done + s)
    requires s[0].start < s[0].end && (kept != [] ==> kept[|kept| - 1].end <= s[0].start)
    ensures Passed(done + [s[0]], kept + [s[0]]) && Longest(kept + [s[0]], done + s)
  {
    var first, more := s[0], kept + [s[0]];
    forall t, z | t in more && z in done + s && z.start == t.start ensures z.end <= t.end {
      if t !in kept {
        if z in s {
          var j :| 0 <= j < |s| && s[j] == z;
          assert j > 0 ==> !Before(s[j], s[0]);
        }
      }
    }
  }

  lemma BeforeIsWeakOrder()
    ensures WeakOrder(Before)
  {
  }

  /** The span begins and ends between characters. */
  predicate OnBoundaries(b: seq<Byte>, s: Span) {
    Aligned(b, s.start, s.end)
  }

  lemma EdgeIsBoundary(text: string, i: nat)
    requires AsciiEdge(Encode(text), i)
    ensures IsBoundary(Encode(text), i)
  {
    if 0 < i < |Encode(text)| && Encode(text)[i - 1] < 0x80 {
      AfterAscii(text, i);
    }
  }

  lemma GenuineFits(text: string, s: Span)
    requires Genuine(Encode(text), s)
    ensures s.start < s.end <= |Encode(text)| && OnBoundaries(Encode(text), s)
  {
    var b := Encode(text);
    var i :| 0 <= i < |b| && StepAt(s.kind, b, i) == Hit(s.start, s.end);
    StepEdges(s.kind, b, i);
    EdgeIsBoundary(text, s.start);
    EdgeIsBoundary(text, s.end);
  }

  /** What is kept of any text on which the scan ends: at most 32 non-empty, disjoint spans in
      order, each a real match, each from one character boundary to another. */
  lemma KeptSpansAreSound(text: string)
    requires Collected(Encode(text)).Some?
    ensures var b := Encode(text);
            var kept := Collected(b).value;
            InOrder(b, kept) && |kept| <= MAX_PII_FINDINGS
            && forall s :: s in kept ==> Genuine(b, s) && OnBoundaries(b, s)
  {
    var b := Encode(text);
    var found := ScanAll(KINDS, b, []).value;
    ScanAllIsGenuine(KINDS, b, []);
    SortByPermutes(Before, found);
    BagSize(found, SortBy(Before, found));
    forall s | s in found ensures s.start < s.end <= |b| && OnBoundaries(b, s) {
      GenuineFits(text, s);
    }
    MergeInOrder(b, SortBy(Before, found), [], MAX_PII_FINDINGS);
  }

  lemma SortedReports(text: string, found: seq<Span>)
    requires ScanAll(KINDS, Encode(text), []) == Some(found)
    ensures var sorted := SortBy(Before, found);
            && Fits(Encode(text), sorted) && Fits(Encode(text), found) && SortedBy(Before, sorted)
            && |sorted| == |found| && forall x :: x in sorted <==> x in found
  {
    ScanAllIsGenuine(KINDS, Encode(text), []);
    forall x | x in found ensures x.start < x.end <= |Encode(text)| {
      GenuineFits(text, x);
    }
    SortByPermutes(Before, found);
    BagSize(found, SortBy(Before, found));
    BeforeIsWeakOrder();
    SortBySorted(Before, found);
  }

  /** The first byte of every reported span is redacted, unless 32 others lie before it. */
  lemma ReportedIsHeld(text: string, found: seq<Span>, s: Span)
    requires ScanAll(KINDS, Encode(text), []) == Some(found) && s in found
    ensures var kept := Collected(Encode(text)).value; Held(kept, s) || Beyond(kept, s, MAX_PII_FINDINGS)
  {
    SortedReports(text, found);
    MergeHolds(Encode(text), SortBy(Before, found), [], MAX_PII_FINDINGS, s);
  }

  /** Every match is accounted for: a position where a pattern matches lies in a reported span whose
      first byte is redacted, unless the scanner or the merge reached the cap before it. */
  lemma MatchesAreHeld(text: string, kind: PiiKind, j: nat)
    requires Collected(Encode(text)).Some?
    requires j < |Encode(text)| && StepAt(kind, Encode(text), j).Hit?
    ensures var found, kept := ScanAll(KINDS, Encode(text), []).value, Collected(Encode(text)).value;
            CutOff(found, kind, j)
            || exists s :: s in found && s.kind == kind && s.start <= j < s.end
                           && (Held(kept, s) || Beyond(kept, s, MAX_PII_FINDINGS))
  {
    var b := Encode(text);
    var found := ScanAll(KINDS, b, []).value;
    EveryKind(kind);
    assert StepTable(kind, b)[j] == StepAt(kind, b, j);
    ScanAllIsComplete(KINDS, b, [], kind, j);
    if !CutOff(found, kind, j) {
      var s :| s in found && s.kind == kind && s.start <= j < s.end;
      ReportedIsHeld(text, found, s);
    }
  }

  // --- When every reported span is redacted as a whole.

  predicate Inside(x: Span, t: Span) {
    t.start <= x.start && x.end <= t.end
  }

  predicate Contained(x: Span, kept: seq<Span>) {
    exists t :: t in kept && Inside(x, t)
  }

  predicate AllInside(found: seq<Span>, kept: seq<Span>) {
    forall x {:trigger Contained(x, kept)} :: x in found ==> Contained(x, kept)
  }

  predicate Overlap(x: Span, y: Span) {
    x.start <= y.start < x.end
  }

  predicate Covered(found: seq<Span>, x: Span, y: Span) {
    exists z :: z in found && Inside(x, z) && Inside(y, z)
  }

  /** Whenever two reports overlap, one report contains both. */
  predicate Nested(found: seq<Span>) {
    forall x, y {:trigger Overlap(x, y)} :: x in found && y in found && Overlap(x, y) ==> Covered(found, x, y)
  }

  /** No other report reaches beyond this one. */
  predicate IsMaximal(found: seq<Span>, x: Span) {
    forall z :: z in found && Inside(x, z) ==> Inside(z, x)
  }

  /** Start and end of the reports that no other reaches beyond. */
  function Maximal(found: seq<Span>): set<(nat, nat)> {
    set x | x in found && IsMaximal(found, x) :: (x.start, x.end)
  }

  function Extents(s: seq<Span>): set<(nat, nat)> {
    if s == [] then {} else Extents(s[..|s| - 1]) + {(s[|s| - 1].start, s[|s| - 1].end)}
  }

  lemma {:induction false} ExtentsMember(s: seq<Span>, e: (nat, nat))
    ensures e in Extents(s) <==> exists x :: x in s && (x.start, x.end) == e
  {
    if s != [] {
      var k := |s| - 1;
      ExtentsMember(s[..k], e);
      assert forall x :: x in s <==> x in s[..k] || x == s[k];
    }
  }

  lemma {:induction false} ExtentCount(b: seq<Byte>, s: seq<Span>)
    requires InOrder(b, s)
    ensures |Extents(s)| == |s|
  {
    if s != [] {
      var k := |s| - 1;
      var last := (s[k].start, s[k].end);
      ExtentCount(b, s[..k]);
      ExtentsMember(s[..k], last);
      assert last !in Extents(s[..k]);
    }
  }

  lemma OnlyOneHolds(b: seq<Byte>, kept: seq<Span>, t: Span, u: Span, p: nat)
    requires InOrder(b, kept) && t in kept && u in kept && t.start <= p < t.end && u.start <= p < u.end
    ensures t == u
  {
    var i :| 0 <= i < |kept| && kept[i] == t;
    var j :| 0 <= j < |kept| && kept[j] == u;
  }

  lemma OverlapIsCovered(b: seq<Byte>, found: seq<Span>, kept: seq<Span>, x: Span, y: Span)
    requires InOrder(b, kept) && Contained(x, kept) && Contained(y, kept) && forall t :: t in kept ==> t in found
    requires Overlap(x, y) && y.start < y.end
    ensures Covered(found, x, y)
  {
    var t :| t in kept && Inside(x, t);
    var u :| u in kept && Inside(y, u);
    OnlyOneHolds(b, kept, t, u, y.start);
  }

  lemma InsideIsNested(b: seq<Byte>, found: seq<Span>, kept: seq<Span>)
    requires InOrder(b, kept) && Fits(b, found) && AllInside(found, kept) && forall t :: t in kept ==> t in found
    ensures Nested(found)
  {
    forall x, y | x in found && y in found && Overlap(x, y) ensures Covered(found, x, y) {
      OverlapIsCovered(b, found, kept, x, y);
    }
  }

  /** A span that a kept one holds but does not contain lies in a report that starts before both. */
  lemma NextOut(found: seq<Span>, kept: seq<Span>, t: Span, x: Span) returns (z: Span)
    requires Nested(found) && Longest(kept, found) && x in found && t in kept && t in found
    requires t.start <= x.start < t.end < x.end
    ensures z in found && Inside(x, z) && z.start < x.start
  {
    assert Overlap(t, x);
    z :| z in found && Inside(t, z) && Inside(x, z);
    assert z.start == t.start ==> z.end <= t.end;
  }

  predicate AllHeld(found: seq<Span>, kept: seq<Span>) {
    forall x {:trigger Held(kept, x)} :: x in found ==> Held(kept, x)
  }

  /** With nested reports every held span lies inside a kept one. */
  lemma {:induction false} NestedIsInside(found: seq<Span>, kept: seq<Span>, x: Span)
    requires Nested(found) && Longest(kept, found) && x in found && AllHeld(found, kept)
    requires forall y :: y in kept ==> y in found
    ensures Contained(x, kept)
    decreases x.start
  {
    assert Held(kept, x);
    var t :| t in kept && t.start <= x.start < t.end;
    if x.end > t.end {
      var z := NextOut(found, kept, t, x);
      NestedIsInside(found, kept, z);
      var u :| u in kept && Inside(z, u);
      assert Inside(x, u);
    } else {
      assert Inside(x, t);
    }
  }

  lemma FullMerge(b: seq<Byte>, found: seq<Span>, sorted: seq<Span>, full: seq<Span>, cap: nat)
    requires Fits(b, sorted) && SortedBy(Before, sorted) && |sorted| < cap
    requires forall x :: x in sorted <==> x in found
    requires full == Merge(sorted, [], cap)
    ensures InOrder(b, full) && |full| <= |sorted| && Longest(full, found)
    ensures forall t :: t in full ==> t in found
    ensures AllHeld(found, full)
  {
    MergeInOrder(b, sorted, [], cap);
    MergeIsShort(sorted, [], cap);
    assert [] + sorted == sorted;
    KeptAreLongest(b, [], sorted, [], cap);
    forall x | x in found ensures Held(full, x) {
      MergeHolds(b, sorted, [], cap, x);
    }
  }

  lemma CutLeavesOut(b: seq<Byte>, full: seq<Span>, cap: nat)
    requires InOrder(b, full) && cap < |full|
    ensures !Contained(full[cap], full[..cap])
  {
    var x := full[cap];
    forall t | t in full[..cap] ensures !Inside(x, t) {
      var i :| 0 <= i < cap && full[i] == t;
      assert full[i].end <= x.start < x.end;
    }
  }

  lemma LeftOut(found: seq<Span>, full: seq<Span>, kept: seq<Span>, k: nat)
    requires k < |full| && !Contained(full[k], kept) && forall t :: t in full ==> t in found
    ensures !AllInside(found, kept)
  {
    var x := full[k];
    assert x in full;
    assert AllInside(found, kept) ==> Contained(x, kept);
  }

  lemma CapCuts(sorted: seq<Span>, n: nat, cap: nat, full: seq<Span>)
    requires |sorted| == n && cap > 0 && full == Merge(sorted, [], n + 1)
    ensures Merge(sorted, [], cap) == if |full| <= cap then full else full[..cap]
  {
    MergeIsShort(sorted, [], n + 1);
    if cap <= n + 1 {
      MergeIsCut(sorted, [], cap, n + 1);
    } else {
      MergeIsCut(sorted, [], n + 1, cap);
      MergeIsShort(sorted, [], cap);
    }
  }

  /** The statement below, on any list of reports and what is kept of it. */
  lemma WholeExactly(b: seq<Byte>, found: seq<Span>, full: seq<Span>, kept: seq<Span>, cap: nat)
    requires InOrder(b, full) && Longest(full, found) && AllHeld(found, full) && Fits(b, found)
    requires forall t :: t in full ==> t in found
    requires kept == if |full| <= cap then full else full[..cap]
    ensures AllInside(found, kept) <==> Nested(found) && |full| <= cap
  {
    if AllInside(found, kept) {
      InsideIsNested(b, found, kept);
      if |full| > cap {
        CutLeavesOut(b, full, cap);
        LeftOut(found, full, kept, cap);
      }
    }
    if Nested(found) && |full| <= cap {
      forall x | x in found ensures Contained(x, kept) {
        NestedIsInside(found, full, x);
      }
    }
  }

  lemma KeptIsMaximal(b: seq<Byte>, found: seq<Span>, full: seq<Span>, t: Span)
    requires InOrder(b, full) && AllInside(found, full) && t in full && t.start < t.end
    ensures IsMaximal(found, t)
  {
    forall z | z in found && Inside(t, z) ensures Inside(z, t) {
      assert Contained(z, full);
      var u :| u in full && Inside(z, u);
      OnlyOneHolds(b, full, t, u, t.start);
    }
  }

  lemma MaximalIsKept(found: seq<Span>, full: seq<Span>, x: Span)
    requires AllInside(found, full) && x in found && IsMaximal(found, x) && forall t :: t in full ==> t in found
    ensures (x.start, x.end) in Extents(full)
  {
    assert Contained(x, full);
    var t :| t in full && Inside(x, t);
    assert Inside(t, x);
    ExtentsMember(full, (x.start, x.end));
  }

  /** Nested reports are kept, without a cap, as the maximal ones, one for each extent. */
  lemma GroupsAreMaximal(b: seq<Byte>, found: seq<Span>, full: seq<Span>)
    requires InOrder(b, full) && Longest(full, found) && AllHeld(found, full) && Nested(found)
    requires forall t :: t in full ==> t in found
    ensures |Maximal(found)| == |full|
  {
    forall x | x in found ensures Contained(x, full) {
      NestedIsInside(found, full, x);
    }
    KeptAreMaximal(b, found, full);
  }

  lemma KeptAreMaximal(b: seq<Byte>, found: seq<Span>, full: seq<Span>)
    requires InOrder(b, full) && AllInside(found, full) && forall t :: t in full ==> t in found
    ensures |Maximal(found)| == |full|
  {
    forall e ensures e in Maximal(found) <==> e in Extents(full) {
      ExtentsMember(full, e);
      if t :| t in full && (t.start, t.end) == e {
        KeptIsMaximal(b, found, full, t);
      }
      if x :| x in found && IsMaximal(found, x) && (x.start, x.end) == e {
        MaximalIsKept(found, full, x);
      }
    }
    assert Maximal(found) == Extents(full);
    ExtentCount(b, full);
  }

  /** Every reported span is redacted as a whole if and only if any two reports that overlap lie in
      one report, and at most 32 extents are those of maximal reports. */
  lemma RedactedWholeExactly(text: string, found: seq<Span>, kept: seq<Span>)
    requires ScanAll(KINDS, Encode(text), []) == Some(found) && Collected(Encode(text)) == Some(kept)
    ensures AllInside(found, kept) <==> Nested(found) && |Maximal(found)| <= MAX_PII_FINDINGS
  {
    var sorted := SortBy(Before, found);
    var full := Merge(sorted, [], |found| + 1);
    SortedReports(text, found);
    FullMerge(Encode(text), found, sorted, full, |found| + 1);
    CapCuts(sorted, |found|, MAX_PII_FINDINGS, full);
    WholeExactly(Encode(text), found, full, kept, MAX_PII_FINDINGS);
    if Nested(found) {
      GroupsAreMaximal(Encode(text), found, full);
    }
  }

  lemma EveryKind(kind: PiiKind)
    ensures kind in KINDS
  {
    assert KINDS[0] == UserProfilePath && KINDS[1] == MachineName && KINDS[2] == EnvironmentVariable;
    assert KINDS[3] == IpAddress && KINDS[4] == EmailAddress && KINDS[5] == WindowsAccountName;
  }

  lemma {:induction false} MergeIsShort(s: seq<Span>, kept: seq<Span>, cap: nat)
    ensures |Merge(s, kept, cap)| <= |kept| + |s|
  {
    if s != [] {
      if kept != [] && s[0].start < kept[|kept| - 1].end {
        MergeIsShort(s[1..], kept, cap);
      } else {
        MergeIsShort(s[1..], kept + [s[0]], cap);
      }
    }
  }

  // ---------------------------------------------------------------------------
  // Replacement.

  function Token(): seq<Byte> {
    Encode("[redacted]")
  }

  /** The text with every span replaced, read from left to right: untouched gaps and tokens. */
  function Redacted(b: seq<Byte>, spans: seq<Span>, from: nat): seq<Byte>
    requires InOrder(b, spans) && from <= |b| && (spans != [] ==> from <= spans[0].start)
  {
    if spans == [] then b[from..]
    else b[from..spans[0].start] + Token() + Redacted(b, spans[1..], spans[0].end)
  }

  /** Where the untouched gap before span `i` begins. */
  function GapStart(spans: seq<Span>, i: nat): nat
    requires i <= |spans|
  {
    if i == 0 then 0 else spans[i - 1].end
  }

  lemma SuffixInOrder(b: seq<Byte>, spans: seq<Span>, i: nat)
    requires InOrder(b, spans) && i <= |spans|
    ensures InOrder(b, spans[i..]) && GapStart(spans, i) <= |b|
    ensures i < |spans| ==> GapStart(spans, i) <= spans[i].start
  {
  }

  /** The text once spans `i` onwards have been replaced. */
  function Spliced(b: seq<Byte>, spans: seq<Span>, i: nat): seq<Byte>
    requires InOrder(b, spans) && i <= |spans|
  {
    SuffixInOrder(b, spans, i);
    b[..GapStart(spans, i)] + Redacted(b, spans[i..], GapStart(spans, i))
  }

  lemma SpliceStep(b: seq<Byte>, spans: seq<Span>, i: nat)
    requires InOrder(b, spans) && i < |spans|
    ensures spans[i].end <= |Spliced(b, spans, i + 1)|
    ensures var now := Spliced(b, spans, i + 1);
            Spliced(b, spans, i) == now[..spans[i].start] + Token() + now[spans[i].end..]
  {
    var s := spans[i];
    SuffixInOrder(b, spans, i);
    SuffixInOrder(b, spans, i + 1);
    var tail := Redacted(b, spans[i + 1..], s.end);
    assert spans[i..][1..] == spans[i + 1..];
    SpliceParts(b, GapStart(spans, i), s.start, s.end, Token(), tail);
  }

  lemma SpliceParts<T>(b: seq<T>, gap: nat, start: nat, end: nat, token: seq<T>, tail: seq<T>)
    requires gap <= start <= end <= |b|
    ensures var now := b[..end] + tail;
            b[..gap] + (b[gap..start] + token + tail) == now[..start] + token + now[end..]
  {
    var now := b[..end] + tail;
    assert now[..start] == b[..gap] + b[gap..start];
    assert now[end..] == tail;
  }

  lemma TokenIsAscii()
    ensures Token() != [] && Token()[0] == 0x5B
  {
    var t := "[redacted]";
    assert t[0] == '[';
    assert Encode(t) == EncodeChar(t[0]) + Encode(t[1..]);
  }

  /** The splice points are still character boundaries after the replacements to their right. */
  lemma SpliceIsAligned(b: seq<Byte>, spans: seq<Span>, i: nat)
    requires InOrder(b, spans) && i < |spans| && OnBoundaries(b, spans[i])
    ensures Aligned(Spliced(b, spans, i + 1), spans[i].start, spans[i].end)
  {
    var s, now := spans[i], Spliced(b, spans, i + 1);
    SuffixInOrder(b, spans, i + 1);
    TokenIsAscii();
    var tail := Redacted(b, spans[i + 1..], s.end);
    assert now == b[..s.end] + tail;
    assert now[s.start] == b[s.start];
    if i + 1 < |spans| && spans[i + 1].start == s.end {
      assert tail[0] == 0x5B;
      assert now[s.end] == tail[0];
    } else if s.end < |b| {
      assert tail[0] == b[s.end];
      assert now[s.end] == tail[0];
    }
  }

  lemma NothingSpliced(b: seq<Byte>, spans: seq<Span>)
    requires InOrder(b, spans)
    ensures Spliced(b, spans, |spans|) == b
  {
    var last := GapStart(spans, |spans|);
    SuffixInOrder(b, spans, |spans|);
    assert spans[|spans|..] == [];
    assert b[..last] + b[last..] == b;
  }

  lemma AllSpliced(b: seq<Byte>, spans: seq<Span>)
    requires InOrder(b, spans)
    ensures Spliced(b, spans, 0) == Redacted(b, spans, 0)
  {
    assert spans[0..] == spans;
    var r := Redacted(b, spans, 0);
    assert b[..0] + r == r;
  }

  /** Replacement in place, from the last span to the first. */
  method ReplaceSpans(b: seq<Byte>, spans: seq<Span>) returns (sanitized: seq<Byte>)
    requires InOrder(b, spans) && forall s :: s in spans ==> OnBoundaries(b, s)
    ensures sanitized == Redacted(b, spans, 0)
  {
    NothingSpliced(b, spans);
    AllSpliced(b, spans);
    sanitized := b;
    var i: nat := |spans|;
    while i > 0
      invariant i <= |spans| && sanitized == Spliced(b, spans, i)
    {
      i := i - 1;
      SpliceStep(b, spans, i);
      SpliceIsAligned(b, spans, i);
      sanitized := ReplaceRange(sanitized, spans[i].start, spans[i].end, Token());
    }
  }

  /** `sanitize_pii`: `None` is the out-of-bounds read. */
  method SanitizePii(text: string) returns (r: Option<(seq<Byte>, seq<Span>)>)
    ensures r.None? <==> OpensLikeAccount(Encode(text))
    ensures r.Some? ==> Collected(Encode(text)) == Some(r.value.1) && InOrder(Encode(text), r.value.1)
    ensures r.Some? ==> r.value.0 == Redacted(Encode(text), r.value.1, 0)
    ensures r.Some? ==> exists clean :: r.value.0 == Encode(clean)
  {
    var collected := CollectSpans(Encode(text));
    FailsExactly(Encode(text));
    if collected.None? {
      return None;
    }
    KeptSpansAreSound(text);
    var sanitized := ReplaceSpans(Encode(text), collected.value);
    ghost var clean := RedactedIsText(text, collected.value, 0);
    r := Some((sanitized, collected.value));
  }

  /** `String::replace_range`, which requires its ends to be character boundaries. */
  function ReplaceRange(b: seq<Byte>, start: nat, end: nat, with: seq<Byte>): seq<Byte>
    requires Aligned(b, start, end)
  {
    b[..start] + with + b[end..]
  }

  /** Redaction never cuts a character: the result is again the encoding of some text. */
  lemma {:induction false} RedactedIsText(text: string, spans: seq<Span>, from: nat) returns (t: string)
    requires var b := Encode(text);
             InOrder(b, spans) && from <= |b| && (spans != [] ==> from <= spans[0].start)
    requires IsBoundary(Encode(text), from) && forall s :: s in spans ==> OnBoundaries(Encode(text), s)
    ensures Redacted(Encode(text), spans, from) == Encode(t)
    decreases |spans|
  {
    var b := Encode(text);
    if spans == [] {
      t := SliceIsText(text, from, |b|);
    } else {
      assert spans[0] in spans;
      var gap := SliceIsText(text, from, spans[0].start);
      var rest := RedactedIsText(text, spans[1..], spans[0].end);
      t := gap + "[redacted]" + rest;
      EncodeThree(gap, "[redacted]", rest);
    }
  }

  lemma EncodeThree(a: string, b: string, c: string)
    ensures Encode(a + b + c) == Encode(a) + Encode(b) + Encode(c)
  {
    EncodeAppend(a + b, c);
    EncodeAppend(a, b);
  }

  // ---------------------------------------------------------------------------
  // Overlaps are dropped whole.

  predicate Quiet(t: seq<Step>, i: nat, j: nat) {
    j <= |t| && forall k :: i <= k < j ==> t[k] == Skip
  }

  lemma {:induction false} ScanSkips(kind: PiiKind, t: seq<Step>, i: nat, j: nat, found: seq<Span>)
    requires SoundTable(t) && i <= j && Quiet(t, i, j)
    ensures Scan(kind, t, i, found) == Scan(kind, t, j, found)
    decreases j - i
  {
    if i < j {
      ScanSkips(kind, t, i + 1, j, found);
    }
  }

  /** The bytes of a blank followed by `A\bob@x.y`. */
  const OVERLAP: seq<Byte> := [0x20, 0x41, 0x5C, 0x62, 0x6F, 0x62, 0x40, 0x78, 0x2E, 0x79]

  lemma OverlapMail(b: seq<Byte>)
    requires b == OVERLAP
    ensures StepAt(EmailAddress, b, 6) == Hit(3, 10)
  {
    RunEndIs(IsDomainOrDot, b, 7, 10);
    OverlapLocal(b);
    var domain := b[7..10];
    assert domain[1] == DOT && domain[0] == 0x78 && domain[2] == 0x79;
  }

  lemma OverlapLocal(b: seq<Byte>)
    requires b == OVERLAP
    ensures RunStart(IsLocal, b, 0, 6) == 3
  {
    var j := RunStart(IsLocal, b, 0, 6);
    assert !IsLocal(b[2]) && IsLocal(b[3]) && IsLocal(b[4]) && IsLocal(b[5]);
  }

  lemma OverlapNoMail(b: seq<Byte>, k: nat)
    requires b == OVERLAP && k < |b| && k != 6
    ensures StepAt(EmailAddress, b, k) == Skip
  {
  }

  lemma OverlapAccount(b: seq<Byte>, k: nat)
    requires b == OVERLAP && k < |b|
    ensures StepAt(WindowsAccountName, b, k) == if k == 2 then Hit(1, 6) else Skip
  {
    if k == 2 {
      RunEndIs(IsIdent, b, 3, 6);
      assert RunStart(IsIdent, b, 0, 2) == 1;
      assert |b[1..2]| == 1;
    }
  }

  lemma OverlapOthers(b: seq<Byte>, kind: PiiKind, k: nat)
    requires b == OVERLAP && k < |b| && kind !in {EmailAddress, WindowsAccountName}
    ensures StepAt(kind, b, k) == Skip
  {
    match kind
    case UserProfilePath =>
      if k == 2 {
        assert b[3..9][0] == 0x62;
      }
    case MachineName =>
    case EnvironmentVariable =>
    case IpAddress =>
      assert RunEnd(IsNumeral, b, k) == k;
    case EmailAddress =>
    case WindowsAccountName =>
  }

  lemma ScanOne(kind: PiiKind, t: seq<Step>, found: seq<Span>, k: nat, start: nat, end: nat)
    requires SoundTable(t) && k < end <= |t| && t[k] == Hit(start, end) && |found| < 31
    requires Quiet(t, 0, k) && Quiet(t, end, |t|)
    ensures Scan(kind, t, 0, found) == Some(found + [Span(start, end, kind)])
  {
    ScanSkips(kind, t, 0, k, found);
    ScanSkips(kind, t, end, |t|, found + [Span(start, end, kind)]);
  }

  lemma {:induction false} ScanAllQuiet(kinds: seq<PiiKind>, more: seq<PiiKind>, b: seq<Byte>, found: seq<Span>)
    requires forall kind :: kind in kinds ==> Quiet(StepTable(kind, b), 0, |b|)
    ensures ScanAll(kinds + more, b, found) == ScanAll(more, b, found)
  {
    if kinds == [] {
      assert kinds + more == more;
    } else {
      assert (kinds + more)[1..] == kinds[1..] + more && (kinds + more)[0] == kinds[0];
      ScanSkips(kinds[0], StepTable(kinds[0], b), 0, |b|, found);
      ScanAllQuiet(kinds[1..], more, b, found);
    }
  }

  lemma ScanAllTwo(x: PiiKind, y: PiiKind, b: seq<Byte>, s: Span, t: Span)
    requires Scan(x, StepTable(x, b), 0, []) == Some([s]) && Scan(y, StepTable(y, b), 0, [s]) == Some([s, t])
    ensures ScanAll([x, y], b, []) == Some([s, t])
  {
    assert [x, y][1..] == [y] && [y][1..] == [];
    assert ScanAll([], b, [s, t]) == Some([s, t]);
    assert ScanAll([y], b, [s]) == Some([s, t]);
  }

  lemma MergeTwo(s: Span, t: Span)
    requires Before(t, s) && s.start < t.end
    ensures Merge(SortBy(Before, [s, t]), [], MAX_PII_FINDINGS) == [t]
  {
    assert [s, t][1..] == [t] && [t][1..] == [];
    assert SortBy(Before, []) == [];
    assert SortBy(Before, [t]) == [t];
    assert InsertBy(Before, s, []) == [s];
    assert InsertBy(Before, s, [t]) == [t, s];
    assert SortBy(Before, [s, t]) == [t, s];
    assert [t, s][1..] == [s] && [s][1..] == [];
    assert Merge([], [t], MAX_PII_FINDINGS) == [t];
    assert Merge([s], [t], MAX_PII_FINDINGS) == [t];
    assert [] + [t] == [t];
    assert Merge([t, s], [], MAX_PII_FINDINGS) == Merge([s], [t], MAX_PII_FINDINGS);
  }

  lemma OverlapScans(b: seq<Byte>)
    requires b == OVERLAP
    ensures var mail, account := Span(3, 10, EmailAddress), Span(1, 6, WindowsAccountName);
            Scan(EmailAddress, StepTable(EmailAddress, b), 0, []) == Some([mail])
            && Scan(WindowsAccountName, StepTable(WindowsAccountName, b), 0, [mail]) == Some([mail, account])
  {
    var mail := Span(3, 10, EmailAddress);
    var mails, accounts := StepTable(EmailAddress, b), StepTable(WindowsAccountName, b);
    OverlapMail(b);
    assert mails[6] == Hit(3, 10);
    forall k | 0 <= k < 6 ensures mails[k] == Skip {
      OverlapNoMail(b, k);
    }
    ScanOne(EmailAddress, mails, [], 6, 3, 10);
    forall k | 0 <= k < |b| ensures accounts[k] == if k == 2 then Hit(1, 6) else Skip {
      OverlapAccount(b, k);
    }
    ScanOne(WindowsAccountName, accounts, [mail], 2, 1, 6);
    assert [] + [mail] == [mail] && [mail] + [Span(1, 6, WindowsAccountName)] == [mail, Span(1, 6, WindowsAccountName)];
  }

  lemma OverlapQuiet(b: seq<Byte>, kind: PiiKind)
    requires b == OVERLAP && kind !in {EmailAddress, WindowsAccountName}
    ensures Quiet(StepTable(kind, b), 0, |b|)
  {
    var t := StepTable(kind, b);
    forall k | 0 <= k < |b| ensures t[k] == Skip {
      OverlapOthers(b, kind, k);
      assert t[k] == StepAt(kind, b, k);
    }
  }

  /** A reported match can survive in part: the account in the text hides the address that begins
      inside it, and the address's last four bytes are kept as they are. */
  lemma OverlapLeaks()
    ensures ScanAll(KINDS, OVERLAP, []) == Some([Span(3, 10, EmailAddress), Span(1, 6, WindowsAccountName)])
    ensures Collected(OVERLAP) == Some([Span(1, 6, WindowsAccountName)])
  {
    var b := OVERLAP;
    var mail, account := Span(3, 10, EmailAddress), Span(1, 6, WindowsAccountName);
    var quiet := [UserProfilePath, MachineName, EnvironmentVariable, IpAddress];
    OverlapScans(b);
    assert KINDS == quiet + [EmailAddress, WindowsAccountName];
    forall kind | kind in quiet ensures Quiet(StepTable(kind, b), 0, |b|) {
      OverlapQuiet(b, kind);
    }
    ScanAllQuiet(quiet, [EmailAddress, WindowsAccountName], b, []);
    ScanAllTwo(EmailAddress, WindowsAccountName, b, mail, account);
    MergeTwo(mail, account);
  }
}
