/** The A/B launcher: what one selection does to the disk, as a function of the disk and of how every
    single I/O call of it goes. */
module LaunchSpec {
  import opened Options
  import opened Text

  const BOOT_FAILURE_THRESHOLD: nat := 3
  const MAX_NORMALIZATION_PASSES: nat := 8

  datatype Slot = A | B

  function Alternate(s: Slot): Slot {
    if s == A then B else A
  }

  function Name(s: Slot): string {
    if s == A then "A" else "B"
  }

  // ---------------------------------------------------------------------------
  // The text of active-slot.txt.

  predicate IsNoise(c: char) {
    IsWhitespace(c) || c == '\r' || c == '\n' || c as int == 0 || c as int == 0xFEFF
  }

  /** `trim_matches(is_active_slot_noise)`. */
  function TrimNoise(s: string): string {
    TrimMatches(IsNoise, s)
  }

  method NormalizeActiveSlot(raw: string) returns (value: string)
    ensures value == TrimNoise(raw)
    ensures value != [] ==> !IsNoise(value[0]) && !IsNoise(value[|value| - 1])
  {
    TrimIsIdempotent(IsNoise, raw);
    TrimmedEdges(IsNoise, raw);
    value := raw;
    var pass := 0;
    while pass < MAX_NORMALIZATION_PASSES
      invariant pass <= MAX_NORMALIZATION_PASSES
      invariant value == if pass == 0 then raw else TrimNoise(raw)
    {
      var next := TrimNoise(value);
      if next == value {
        break;
      }
      value := next;
      pass := pass + 1;
    }
  }

  function ParseActiveSlot(raw: string): Option<Slot> {
    if TrimNoise(raw) == "A" then Some(A) else if TrimNoise(raw) == "B" then Some(B) else None
  }

  /** The slot letter is understood through any noise around it. */
  lemma ParsesBetweenNoise(before: string, s: Slot, after: string)
    requires forall i :: 0 <= i < |before| ==> IsNoise(before[i])
    requires forall i :: 0 <= i < |after| ==> IsNoise(after[i])
    ensures ParseActiveSlot(before + Name(s) + after) == Some(s)
  {
    var rest := Name(s) + after;
    assert before + Name(s) + after == before + rest;
    assert !IsNoise(Name(s)[0]);
    LeadingDrops(IsNoise, before, rest);
    TrailingDrops(IsNoise, Name(s), after);
  }

  predicate AllNoise(s: string) {
    forall i :: 0 <= i < |s| ==> IsNoise(s[i])
  }

  /** And nothing else is: a slot is understood exactly when its letter stands between noise. */
  lemma ParsesExactly(raw: string, s: Slot)
    ensures ParseActiveSlot(raw) == Some(s)
            <==> exists before, after :: AllNoise(before) && AllNoise(after) && raw == before + Name(s) + after
  {
    if ParseActiveSlot(raw) == Some(s) {
      var before, after := TrimParts(IsNoise, raw);
      assert AllNoise(before) && AllNoise(after);
    }
    if before, after :| AllNoise(before) && AllNoise(after) && raw == before + Name(s) + after {
      ParsesBetweenNoise(before, s, after);
    }
  }

  // ---------------------------------------------------------------------------
  // What is on disk.

  type Bytes = seq<int>
  /** SHA-256 in lower-case hexadecimal. */
  type Digest = string

  datatype FileNode = Missing | Directory | File(bytes: Bytes)

  /** A state file holding one decimal number. */
  datatype NumberFile = NoFile | Garbage | Number(n: nat)

  datatype Entry = Entry(path: string, digest: Digest)
  datatype SignedManifest = SignedManifest(counter: nat, entries: seq<Entry>, signature: Bytes)
  datatype ManifestFile = NoManifest | Malformed | Signed(manifest: SignedManifest)
  datatype AnchorFile = NoAnchor | BadAnchor | Anchor(key: Bytes)

  /** What an update may replace between launches. */
  datatype Package = Package(
    exeA: FileNode, exeB: FileNode, recovery: FileNode, recoveryConfig: bool,
    sums: Option<string>, manifest: ManifestFile, anchor: AnchorFile)

  datatype RollbackEvent = Rollback(from: Slot, to: Slot) | GoldenRestoration

  /** Everything; apart from the package it is written by the launcher only. */
  datatype Disk = Disk(
    pkg: Package, active: Option<string>, healthA: NumberFile, healthB: NumberFile,
    counter: NumberFile, log: seq<RollbackEvent>)

  datatype SelectionError =
    | MetadataRead
    | InvalidMetadata
    | ExecutableMissing
    | ExecutableNotFile
    | ManifestMissing
    | ManifestHashMissing
    | ManifestRead
    | ChecksumMismatch
    | CrashLoopDetected(slot: Slot, failures: nat)
    | BothSlotsCorrupted(active: SelectionError, standby: SelectionError)
    | HealthTrackingFailure
    | SignedManifestRead
    | TrustAnchorMissing
    | TrustAnchorRead
    | TrustAnchorInvalid
    | SignedManifestMalformed
    | SignatureVerificationFailed
    | ReleaseCounterStateFailure
    | ReleaseCounterRejected
    | SignedDigestMismatch

  datatype Result<+T> = Ok(value: T) | Err(error: SelectionError)

  /** SHA-256 and Ed25519, as the launcher uses them. */
  datatype Crypto = Crypto(sha: Bytes -> Digest, verifies: (SignedManifest, Bytes) -> bool)

  ghost predicate CollisionFree(sha: Bytes -> Digest) {
    forall x, y :: sha(x) == sha(y) ==> x == y
  }

  function Exe(p: Package, s: Slot): FileNode {
    if s == A then p.exeA else p.exeB
  }

  function Health(d: Disk, s: Slot): NumberFile {
    if s == A then d.healthA else d.healthB
  }

  function WithHealth(d: Disk, s: Slot, f: NumberFile): Disk {
    if s == A then d.(healthA := f) else d.(healthB := f)
  }

  function SlotPath(s: Slot): string {
    "Slots/" + Name(s) + "/true-tick.exe"
  }

  const RECOVERY_PATH: string := "Recovery/true-tick.exe"

  /** `replace('/', "\\")`. */
  function Backslashed(path: string): (r: string)
    ensures |r| == |path|
  {
    if path == [] then [] else [if path[0] == '/' then '\\' else path[0]] + Backslashed(path[1..])
  }

  function FindEntry(entries: seq<Entry>, path: string): Option<Digest> {
    if entries == [] then None
    else if entries[0].path == path then Some(entries[0].digest)
    else FindEntry(entries[1..], path)
  }

  /** The lower-case digest that a line of `SHA256SUMS.txt` gives for the path, in either spelling. */
  function SumOf(raw: string, path: string): Option<Digest> {
    var words := Words(Trim(raw));
    if |words| >= 2 && (words[1] == path || words[1] == Backslashed(path)) then Some(Lowercase(words[0])) else None
  }

  /** The first line that names the path decides. */
  function FindSum(lines: seq<string>, path: string): Option<Digest> {
    if lines == [] then None
    else if SumOf(lines[0], path).Some? then SumOf(lines[0], path)
    else FindSum(lines[1..], path)
  }

  predicate Names(line: string, path: string) {
    SumOf(line, path).Some?
  }

  /** The digest of line `i` is taken when no earlier line names the path. */
  lemma {:induction false} FirstLineDecides(lines: seq<string>, path: string, i: nat)
    requires i < |lines| && Names(lines[i], path) && forall j :: 0 <= j < i ==> !Names(lines[j], path)
    ensures FindSum(lines, path) == SumOf(lines[i], path)
  {
    if i > 0 {
      assert !Names(lines[0], path);
      assert forall j :: 0 <= j < i - 1 ==> lines[1..][j] == lines[j + 1];
      FirstLineDecides(lines[1..], path, i - 1);
    }
  }

  lemma {:induction false} NoLineNames(lines: seq<string>, path: string)
    requires forall j :: 0 <= j < |lines| ==> !Names(lines[j], path)
    ensures FindSum(lines, path) == None
  {
    if lines != [] {
      assert !Names(lines[0], path);
      assert forall j :: 0 <= j < |lines| - 1 ==> lines[1..][j] == lines[j + 1];
      NoLineNames(lines[1..], path);
    }
  }

  /** The scan over the lines of the file. */
  method ScanSums(text: string, path: string) returns (r: Option<Digest>)
    ensures r == FindSum(LinesOf(text), path)
  {
    var other := Backslashed(path);
    var lines := LinesOf(text);
    for i := 0 to |lines|
      invariant FindSum(lines, path) == FindSum(lines[i..], path)
    {
      var line := Trim(lines[i]);
      if line == [] {
        continue;
      }
      var words := Words(line);
      if |words| >= 2 {
        if words[1] == path || words[1] == other {
          return Some(Lowercase(words[0]));
        }
      }
    }
    return None;
  }

  predicate Inked(s: string) {
    s != [] && forall i :: 0 <= i < |s| ==> IsInk(s[i])
  }

  predicate Blanks(s: string) {
    s != [] && forall i :: 0 <= i < |s| ==> IsWhitespace(s[i])
  }

  lemma OneWord(word: string)
    requires Inked(word)
    ensures Words(word) == [word]
  {
    assert word + [] == word;
    assert IsInk(word[0]);
    LeadingTakes(IsInk, word, []);
    LeadingDrops(IsInk, word, []);
  }

  /** The usual line, a digest and a path with blanks between and none inside, is found. */
  lemma SumLineReads(digest: Digest, gap: string, path: string)
    requires Inked(digest) && Inked(path) && Blanks(gap)
    ensures SumOf(digest + gap + path, path) == Some(Lowercase(digest))
    ensures SumOf(digest + gap + Backslashed(path), path) == Some(Lowercase(digest))
  {
    BackslashedIsInked(path);
    TwoWords(digest, gap, path);
    TwoWords(digest, gap, Backslashed(path));
  }

  lemma TwoWords(first: string, gap: string, second: string)
    requires Inked(first) && Inked(second) && Blanks(gap)
    ensures Words(Trim(first + gap + second)) == [first, second]
  {
    var line := first + gap + second;
    var rest := gap + second;
    assert line == first + rest;
    assert IsInk(first[0]) && IsInk(second[|second| - 1]) && line[|line| - 1] == second[|second| - 1];
    TrimTight(line);
    assert IsInk(second[0]) && IsWhitespace(gap[0]);
    LeadingTakes(IsInk, first, rest);
    LeadingDrops(IsInk, first, rest);
    LeadingDrops(IsWhitespace, gap, second);
    OneWord(second);
    SkipBlank(gap, second);
  }

  lemma SkipBlank(gap: string, second: string)
    requires Inked(second) && Blanks(gap)
    ensures Words(gap + second) == Words(second)
  {
    assert IsInk(second[0]);
    LeadingDrops(IsWhitespace, gap, second);
    assert DropWhile(IsWhitespace, second) == second;
  }

  lemma {:induction false} BackslashedIsInked(path: string)
    requires Inked(path)
    ensures Inked(Backslashed(path))
  {
    if |path| > 1 {
      assert forall i :: 0 <= i < |path[1..]| ==> path[1..][i] == path[i + 1];
      BackslashedIsInked(path[1..]);
    }
  }

  // ---------------------------------------------------------------------------
  // The calls of one launch. Each is made at most once in each phase: while the active slot is
  // checked, while the standby slot is, and during the restoration of slot A.

  datatype Phase = Active | Standby | Golden

  datatype Step =
    // Existence probes: one that fails reports an absent file.
    | FallbackExe(slot: Slot)
    | HealthThere
    | ExeThere
    | ExeIsFile
    | ManifestThere
    | AnchorThere
    | CounterThere
    | SumsThere
    | CountThere
    | ClearThere(slot: Slot)
    | RecoveryThere
    | RecoveryIsFile
    | RecoverySumsThere
    | ConfigIsFile
    // All others: one that fails is an error.
    | ReadActive
    | ReadHealth
    | ReadManifest
    | ReadAnchor
    | ReadCounter
    | ReadSums
    | ReadExe
    | ReadRecovery
    | ReadCount
    | WriteCount
    | RemoveHealth(slot: Slot)
    | AppendLog
    | WriteActive
    | StageCounter
    | ReplaceCounter
    | ReadRecoverySums
    | HashRecovery
    | CopyRecovery
    | ReplaceExe
    | CopyConfig

  predicate IsProbe(s: Step) {
    s.FallbackExe? || s.HealthThere? || s.ExeThere? || s.ExeIsFile? || s.ManifestThere? || s.AnchorThere?
    || s.CounterThere? || s.SumsThere? || s.CountThere? || s.ClearThere? || s.RecoveryThere? || s.RecoveryIsFile?
    || s.RecoverySumsThere? || s.ConfigIsFile?
  }

  datatype Call = Call(phase: Phase, step: Step)

  /** How the calls of one launch go: which fail, and what a copy of given bytes contains. */
  datatype Env = Env(fails: Call -> bool, copy: Bytes -> Bytes)

  /** Nothing goes wrong. */
  const CALM: Env := Env((call: Call) => false, (b: Bytes) => b)

  // ---------------------------------------------------------------------------
  // The verdict on one slot.

  /** The stored number; an absent file counts as zero. */
  function Stored(f: NumberFile): nat {
    if f.Number? then f.n else 0
  }

  /** A state file, read through its existence probe. */
  function ReadNumber(env: Env, f: NumberFile, e: SelectionError, there: Call, read: Call): Result<nat> {
    if f.NoFile? || env.fails(there) then Ok(0)
    else if env.fails(read) || f.Garbage? then Err(e)
    else Ok(f.n)
  }

  /** The three-way comparison: refuse a downgrade, relaunch silently, or hold the new counter back
      until the slot is committed. */
  function CounterDecision(manifest: nat, seen: nat): Result<Option<nat>> {
    if manifest < seen then Err(ReleaseCounterRejected)
    else if manifest == seen then Ok(None)
    else Ok(Some(manifest))
  }

  function CheckSigned(c: Crypto, env: Env, node: FileNode, entries: seq<Entry>, path: string, read: Call): Result<()> {
    if env.fails(read) || !node.File? then Err(MetadataRead)
    else if FindEntry(entries, path) != Some(c.sha(node.bytes)) then Err(SignedDigestMismatch)
    else Ok(())
  }

  function CheckSum(c: Crypto, env: Env, node: FileNode, sums: Option<string>, path: string, there: Call, read: Call,
                    hash: Call): Result<()>
  {
    if sums.None? || env.fails(there) then Err(ManifestMissing)
    else if env.fails(read) then Err(ManifestRead)
    else
      match FindSum(LinesOf(sums.value), path)
      case None => Err(ManifestHashMissing)
      case Some(expected) =>
        if env.fails(hash) || !node.File? then Err(MetadataRead)
        else if Lowercase(c.sha(node.bytes)) != expected then Err(ChecksumMismatch)
        else Ok(())
  }

  function VerifyDigests(c: Crypto, env: Env, p: Phase, pkg: Package, s: Slot, entries: seq<Entry>): Result<()> {
    var slot := CheckSigned(c, env, Exe(pkg, s), entries, SlotPath(s), Call(p, ReadExe));
    if slot.Err? || FindEntry(entries, RECOVERY_PATH).None? then slot
    else CheckSigned(c, env, pkg.recovery, entries, RECOVERY_PATH, Call(p, ReadRecovery))
  }

  function VerifySigned(c: Crypto, env: Env, p: Phase, d: Disk, s: Slot, m: SignedManifest): Result<Option<nat>> {
    if d.pkg.anchor.NoAnchor? || env.fails(Call(p, AnchorThere)) then Err(TrustAnchorMissing)
    else if env.fails(Call(p, ReadAnchor)) then Err(TrustAnchorRead)
    else if d.pkg.anchor.BadAnchor? then Err(TrustAnchorInvalid)
    else if !c.verifies(m, d.pkg.anchor.key) then Err(SignatureVerificationFailed)
    else
      var seen := ReadNumber(env, d.counter, ReleaseCounterStateFailure, Call(p, CounterThere), Call(p, ReadCounter));
      if seen.Err? then Err(seen.error)
      else
        var pending := CounterDecision(m.counter, seen.value);
        if pending.Err? then pending
        else
          var digests := VerifyDigests(c, env, p, d.pkg, s, m.entries);
          if digests.Err? then Err(digests.error) else pending
  }

  /** The release counter to commit, if any. */
  function Verify(c: Crypto, env: Env, p: Phase, d: Disk, s: Slot): Result<Option<nat>> {
    var node := Exe(d.pkg, s);
    if node.Missing? || env.fails(Call(p, ExeThere)) then Err(ExecutableMissing)
    else if !node.File? || env.fails(Call(p, ExeIsFile)) then Err(ExecutableNotFile)
    else if d.pkg.manifest.NoManifest? || env.fails(Call(p, ManifestThere)) then
      var sum := CheckSum(c, env, node, d.pkg.sums, SlotPath(s), Call(p, SumsThere), Call(p, ReadSums), Call(p, ReadExe));
      if sum.Err? then Err(sum.error) else Ok(None)
    else if env.fails(Call(p, ReadManifest)) then Err(SignedManifestRead)
    else if d.pkg.manifest.Malformed? then Err(SignedManifestMalformed)
    else VerifySigned(c, env, p, d, s, d.pkg.manifest.manifest)
  }

  /** The health gate. */
  function Gate(env: Env, p: Phase, d: Disk, s: Slot): Result<nat> {
    ReadNumber(env, Health(d, s), HealthTrackingFailure, Call(p, HealthThere), Call(p, ReadHealth))
  }

  function Check(c: Crypto, env: Env, p: Phase, d: Disk, s: Slot): Result<Option<nat>> {
    var failures := Gate(env, p, d, s);
    if failures.Err? then Err(failures.error)
    else if failures.value >= BOOT_FAILURE_THRESHOLD then Err(CrashLoopDetected(s, failures.value))
    else Verify(c, env, p, d, s)
  }

  /** The slot to try first. An unreadable value falls back on the executables that are present, slot
      A first. */
  function Chosen(env: Env, d: Disk): Result<Slot> {
    if env.fails(Call(Active, ReadActive)) || d.active.None? then Err(MetadataRead)
    else
      match ParseActiveSlot(d.active.value)
      case Some(s) => Ok(s)
      case None =>
        if !d.pkg.exeA.Missing? && !env.fails(Call(Active, FallbackExe(A))) then Ok(A)
        else if !d.pkg.exeB.Missing? && !env.fails(Call(Active, FallbackExe(B))) then Ok(B)
        else Err(InvalidMetadata)
  }

  // ---------------------------------------------------------------------------
  // What changes the disk. A small file is staged and atomically replaced: all of it, or nothing.

  function OneMore(n: nat): NumberFile {
    Number(if n < U32_MAX then n + 1 else U32_MAX)
  }

  /** One more boot failure of the slot, or nothing when that could not be recorded. */
  function Count(env: Env, p: Phase, d: Disk, s: Slot): Option<Disk> {
    var n := ReadNumber(env, Health(d, s), HealthTrackingFailure, Call(p, CountThere), Call(p, ReadCount));
    if n.Err? || env.fails(Call(p, WriteCount)) then None else Some(WithHealth(d, s, OneMore(n.value)))
  }

  function Clear(env: Env, p: Phase, d: Disk, s: Slot): Option<Disk> {
    if Health(d, s).NoFile? || env.fails(Call(p, ClearThere(s))) then Some(d)
    else if env.fails(Call(p, RemoveHealth(s))) then None
    else Some(WithHealth(d, s, NoFile))
  }

  function SlotText(s: Slot): string {
    Name(s) + "\n"
  }

  function Commit(env: Env, p: Phase, d: Disk, pending: Option<nat>): (Disk, Result<()>) {
    if pending.None? then (d, Ok(()))
    else if env.fails(Call(p, StageCounter)) then (d, Err(ReleaseCounterStateFailure))
    else if env.fails(Call(p, ReplaceCounter)) then (d, Err(MetadataRead))
    else (d.(counter := Number(pending.value)), Ok(()))
  }

  /** The golden executable, verified and copied beside slot A. */
  function Staged(c: Crypto, env: Env, d: Disk): Result<Bytes> {
    var golden := d.pkg.recovery;
    if golden.Missing? || env.fails(Call(Golden, RecoveryThere)) then Err(ExecutableMissing)
    else if !golden.File? || env.fails(Call(Golden, RecoveryIsFile)) then Err(ExecutableNotFile)
    else
      var sum := CheckSum(c, env, golden, d.pkg.sums, RECOVERY_PATH, Call(Golden, RecoverySumsThere),
                          Call(Golden, ReadRecoverySums), Call(Golden, HashRecovery));
      if sum.Err? then Err(sum.error)
      else if !d.pkg.recoveryConfig || env.fails(Call(Golden, ConfigIsFile)) then Err(ExecutableMissing)
      else if env.fails(Call(Golden, CopyRecovery)) then Err(MetadataRead)
      else if c.sha(env.copy(golden.bytes)) != c.sha(golden.bytes) then Err(ChecksumMismatch)
      else Ok(env.copy(golden.bytes))
  }

  /** The staged executable takes the place of slot A: whole or not at all. */
  function Install(c: Crypto, env: Env, d: Disk): (Disk, Result<()>) {
    var staged := Staged(c, env, d);
    if staged.Err? then (d, Err(staged.error))
    else if env.fails(Call(Golden, ReplaceExe)) then (d, Err(MetadataRead))
    else (d.(pkg := d.pkg.(exeA := File(staged.value))), Ok(()))
  }

  /** Golden master recovery into slot A: the disk afterwards and the counter to commit. */
  function Restore(c: Crypto, env: Env, d: Disk): (Disk, Result<Option<nat>>) {
    var (d1, installed) := Install(c, env, d);
    if installed.Err? then (d1, Err(installed.error))
    else if env.fails(Call(Golden, CopyConfig)) then (d1, Err(MetadataRead))
    else Activate(env, d1, Verify(c, env, Golden, d1, A))
  }

  /** The restored slot, once verified, is logged and made the active one. */
  function Activate(env: Env, d: Disk, pending: Result<Option<nat>>): (Disk, Result<Option<nat>>) {
    if pending.Err? then (d, pending)
    else if env.fails(Call(Golden, AppendLog)) then (d, Err(HealthTrackingFailure))
    else
      var d1 := d.(log := d.log + [GoldenRestoration]);
      if env.fails(Call(Golden, WriteActive)) then (d1, Err(MetadataRead))
      else (d1.(active := Some(SlotText(A))), pending)
  }

  // ---------------------------------------------------------------------------
  // One selection.

  /** What happened on the way: the phase and slot that passed, the slots whose failure was counted,
      each with its phase, and the slots whose health counter the launch left without a file. */
  datatype Record = Record(passed: Option<Pass>, counted: map<Slot, Phase>, cleared: set<Slot>)

  datatype Pass = Pass(phase: Phase, slot: Slot)

  datatype Outcome = Outcome(disk: Disk, result: Result<Slot>, record: Record)

  function Failed(d: Disk, e: SelectionError, counted: map<Slot, Phase>): Outcome {
    Outcome(d, Err(e), Record(None, counted, {}))
  }

  /** A slot that passed: its health is cleared, then its counter committed. */
  function Launch(env: Env, p: Phase, d: Disk, s: Slot, pending: Option<nat>, counted: map<Slot, Phase>): Outcome {
    match Clear(env, p, d, s)
    case None => Outcome(d, Err(HealthTrackingFailure), Record(Some(Pass(p, s)), counted, {}))
    case Some(d1) => Finish(env, p, d1, s, pending, Record(Some(Pass(p, s)), counted, Gone(env, p, s)))
  }

  function Gone(env: Env, p: Phase, s: Slot): set<Slot> {
    if env.fails(Call(p, ClearThere(s))) then {} else {s}
  }

  function Finish(env: Env, p: Phase, d: Disk, s: Slot, pending: Option<nat>, record: Record): Outcome {
    var (d1, committed) := Commit(env, p, d, pending);
    Outcome(d1, if committed.Err? then Err(committed.error) else Ok(s), record)
  }

  function Select(c: Crypto, env: Env, d: Disk): Outcome {
    var chosen := Chosen(env, d);
    if chosen.Err? then Failed(d, chosen.error, map[])
    else
      var slot := chosen.value;
      match Check(c, env, Active, d, slot)
      case Ok(pending) => Launch(env, Active, d, slot, pending, map[])
      case Err(activeError) =>
        if activeError.HealthTrackingFailure? then Failed(d, activeError, map[])
        else
          match Count(env, Active, d, slot)
          case None => Failed(d, HealthTrackingFailure, map[])
          case Some(d1) => SelectStandby(c, env, d1, slot, activeError)
  }

  function SelectStandby(c: Crypto, env: Env, d: Disk, slot: Slot, activeError: SelectionError): Outcome {
    var standby, counted := Alternate(slot), map[slot := Active];
    match Check(c, env, Standby, d, standby)
    case Ok(pending) => RollBack(env, d, slot, pending)
    case Err(standbyError) =>
      if standbyError.HealthTrackingFailure? then Failed(d, standbyError, counted)
      else
        match Count(env, Standby, d, standby)
        case None => Failed(d, HealthTrackingFailure, counted)
        case Some(d1) => SelectGolden(c, env, d1, slot, activeError, standbyError)
  }

  function RollBack(env: Env, d: Disk, slot: Slot, pending: Option<nat>): Outcome {
    var standby, counted := Alternate(slot), map[slot := Active];
    var record := Record(Some(Pass(Standby, standby)), counted, {});
    if env.fails(Call(Standby, AppendLog)) then Outcome(d, Err(HealthTrackingFailure), record)
    else
      var d1 := d.(log := d.log + [Rollback(slot, standby)]);
      if env.fails(Call(Standby, WriteActive)) then Outcome(d1, Err(MetadataRead), record)
      else Launch(env, Standby, d1.(active := Some(SlotText(standby))), standby, pending, counted)
  }

  function SelectGolden(c: Crypto, env: Env, d: Disk, slot: Slot, activeError: SelectionError,
                        standbyError: SelectionError): Outcome
  {
    var counted := map[slot := Active, Alternate(slot) := Standby];
    var (d1, pending) := Restore(c, env, d);
    if pending.Err? then Failed(d1, BothSlotsCorrupted(activeError, standbyError), counted)
    else LaunchRestored(env, d1, pending.value, counted)
  }

  /** After a restoration both healths are cleared. */
  function LaunchRestored(env: Env, d: Disk, pending: Option<nat>, counted: map<Slot, Phase>): Outcome {
    var pass := Some(Pass(Golden, A));
    match Clear(env, Golden, d, A)
    case None => Outcome(d, Err(HealthTrackingFailure), Record(pass, counted, {}))
    case Some(d1) =>
      match Clear(env, Golden, d1, B)
      case None => Outcome(d1, Err(HealthTrackingFailure), Record(pass, counted, Gone(env, Golden, A)))
      case Some(d2) =>
        Finish(env, Golden, d2, A, pending, Record(pass, counted, Gone(env, Golden, A) + Gone(env, Golden, B)))
  }
}
