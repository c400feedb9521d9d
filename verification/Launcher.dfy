/** The launcher itself, one I/O call at a time, with any of them failing. */
module Launcher {
  import opened Options
  import opened Text
  import opened LaunchSpec

  class Host {
    const crypto: Crypto
    var disk: Disk

    constructor (crypto: Crypto, disk: Disk)
      ensures this.crypto == crypto && this.disk == disk
    {
      this.crypto, this.disk := crypto, disk;
    }

    /** `exists` and `is_file`: a failed lookup reads as absence. */
    method Probe(env: Env, call: Call, present: bool) returns (seen: bool)
      ensures seen == (present && !env.fails(call))
    {
      seen := present && !env.fails(call);
    }

    method ReadNumberFile(env: Env, f: NumberFile, e: SelectionError, there: Call, read: Call) returns (r: Result<nat>)
      ensures r == ReadNumber(env, f, e, there, read)
    {
      var exists_ := Probe(env, there, !f.NoFile?);
      if !exists_ {
        return Ok(0);
      }
      if env.fails(read) || f.Garbage? {
        return Err(e);
      }
      return Ok(f.n);
    }

    method IncrementSlotHealth(env: Env, p: Phase, s: Slot) returns (r: Result<nat>)
      modifies this
      ensures r.Ok? <==> Count(env, p, old(disk), s).Some?
      ensures disk == if r.Ok? then Count(env, p, old(disk), s).value else old(disk)
      ensures r.Ok? ==> Health(disk, s) == Number(r.value)
      ensures r.Err? ==> r.error == HealthTrackingFailure
    {
      var count := ReadNumberFile(env, Health(disk, s), HealthTrackingFailure, Call(p, CountThere), Call(p, ReadCount));
      if count.Err? {
        return Err(HealthTrackingFailure);
      }
      var n := if count.value < U32_MAX then count.value + 1 else U32_MAX;
      if env.fails(Call(p, WriteCount)) {
        return Err(HealthTrackingFailure);
      }
      disk := WithHealth(disk, s, Number(n));
      return Ok(n);
    }

    method ClearSlotHealth(env: Env, p: Phase, s: Slot) returns (r: Result<()>)
      modifies this
      ensures r.Ok? <==> Clear(env, p, old(disk), s).Some?
      ensures disk == if r.Ok? then Clear(env, p, old(disk), s).value else old(disk)
      ensures r.Err? ==> r.error == HealthTrackingFailure
    {
      var exists_ := Probe(env, Call(p, ClearThere(s)), !Health(disk, s).NoFile?);
      if exists_ {
        if env.fails(Call(p, RemoveHealth(s))) {
          return Err(HealthTrackingFailure);
        }
        disk := WithHealth(disk, s, NoFile);
      }
      return Ok(());
    }

    method WriteActiveSlot(env: Env, p: Phase, s: Slot) returns (r: Result<()>)
      modifies this
      ensures r == if env.fails(Call(p, WriteActive)) then Err(MetadataRead) else Ok(())
      ensures disk == if r.Ok? then old(disk).(active := Some(SlotText(s))) else old(disk)
    {
      if env.fails(Call(p, WriteActive)) {
        return Err(MetadataRead);
      }
      disk := disk.(active := Some(SlotText(s)));
      return Ok(());
    }

    method RecordDecision(env: Env, p: Phase, e: RollbackEvent) returns (r: Result<()>)
      modifies this
      ensures r == if env.fails(Call(p, AppendLog)) then Err(HealthTrackingFailure) else Ok(())
      ensures disk == if r.Ok? then old(disk).(log := old(disk).log + [e]) else old(disk)
    {
      if env.fails(Call(p, AppendLog)) {
        return Err(HealthTrackingFailure);
      }
      disk := disk.(log := disk.log + [e]);
      return Ok(());
    }

    method CommitReleaseCounter(env: Env, p: Phase, pending: Option<nat>) returns (r: Result<()>)
      modifies this
      ensures (disk, r) == Commit(env, p, old(disk), pending)
    {
      if pending.None? {
        return Ok(());
      }
      if env.fails(Call(p, StageCounter)) {
        return Err(ReleaseCounterStateFailure);
      }
      if env.fails(Call(p, ReplaceCounter)) {
        return Err(MetadataRead);
      }
      disk := disk.(counter := Number(pending.value));
      return Ok(());
    }

    method VerifyChecksum(env: Env, node: FileNode, path: string, there: Call, read: Call, hash: Call)
      returns (r: Result<()>)
      ensures r == CheckSum(crypto, env, node, disk.pkg.sums, path, there, read, hash)
    {
      var exists_ := Probe(env, there, disk.pkg.sums.Some?);
      if !exists_ {
        return Err(ManifestMissing);
      }
      if env.fails(read) {
        return Err(ManifestRead);
      }
      var expected := ScanSums(disk.pkg.sums.value, path);
      if expected.None? {
        return Err(ManifestHashMissing);
      }
      if env.fails(hash) || !node.File? {
        return Err(MetadataRead);
      }
      if Lowercase(crypto.sha(node.bytes)) != expected.value {
        return Err(ChecksumMismatch);
      }
      return Ok(());
    }

    method VerifySignedDigests(env: Env, p: Phase, s: Slot, entries: seq<Entry>) returns (r: Result<()>)
      ensures r == VerifyDigests(crypto, env, p, disk.pkg, s, entries)
    {
      var node := Exe(disk.pkg, s);
      if env.fails(Call(p, ReadExe)) || !node.File? {
        return Err(MetadataRead);
      }
      if FindEntry(entries, SlotPath(s)) != Some(crypto.sha(node.bytes)) {
        return Err(SignedDigestMismatch);
      }
      if FindEntry(entries, RECOVERY_PATH).None? {
        return Ok(());
      }
      node := disk.pkg.recovery;
      if env.fails(Call(p, ReadRecovery)) || !node.File? {
        return Err(MetadataRead);
      }
      if FindEntry(entries, RECOVERY_PATH) != Some(crypto.sha(node.bytes)) {
        return Err(SignedDigestMismatch);
      }
      return Ok(());
    }

    method PrepareSignedManifest(env: Env, p: Phase, s: Slot, m: SignedManifest) returns (r: Result<Option<nat>>)
      ensures r == VerifySigned(crypto, env, p, disk, s, m)
    {
      var exists_ := Probe(env, Call(p, AnchorThere), !disk.pkg.anchor.NoAnchor?);
      if !exists_ {
        return Err(TrustAnchorMissing);
      }
      if env.fails(Call(p, ReadAnchor)) {
        return Err(TrustAnchorRead);
      }
      if disk.pkg.anchor.BadAnchor? {
        return Err(TrustAnchorInvalid);
      }
      if !crypto.verifies(m, disk.pkg.anchor.key) {
        return Err(SignatureVerificationFailed);
      }
      var seen := ReadNumberFile(env, disk.counter, ReleaseCounterStateFailure, Call(p, CounterThere), Call(p, ReadCounter));
      if seen.Err? {
        return Err(seen.error);
      }
      if m.counter < seen.value {
        return Err(ReleaseCounterRejected);
      }
      var pending := if m.counter == seen.value then None else Some(m.counter);
      var digests := VerifySignedDigests(env, p, s, m.entries);
      if digests.Err? {
        return Err(digests.error);
      }
      return Ok(pending);
    }

    method VerifySlotExecutable(env: Env, p: Phase, s: Slot) returns (r: Result<Option<nat>>)
      ensures r == Verify(crypto, env, p, disk, s)
    {
      var node := Exe(disk.pkg, s);
      var seen := Probe(env, Call(p, ExeThere), !node.Missing?);
      if !seen {
        return Err(ExecutableMissing);
      }
      seen := Probe(env, Call(p, ExeIsFile), node.File?);
      if !seen {
        return Err(ExecutableNotFile);
      }
      seen := Probe(env, Call(p, ManifestThere), !disk.pkg.manifest.NoManifest?);
      if seen {
        if env.fails(Call(p, ReadManifest)) {
          return Err(SignedManifestRead);
        }
        if disk.pkg.manifest.Malformed? {
          return Err(SignedManifestMalformed);
        }
        r := PrepareSignedManifest(env, p, s, disk.pkg.manifest.manifest);
        return;
      }
      var sum := VerifyChecksum(env, node, SlotPath(s), Call(p, SumsThere), Call(p, ReadSums), Call(p, ReadExe));
      if sum.Err? {
        return Err(sum.error);
      }
      return Ok(None);
    }

    method VerifyAndCheckSlot(env: Env, p: Phase, s: Slot) returns (r: Result<Option<nat>>)
      ensures r == Check(crypto, env, p, disk, s)
    {
      var failures := ReadNumberFile(env, Health(disk, s), HealthTrackingFailure, Call(p, HealthThere), Call(p, ReadHealth));
      if failures.Err? {
        return Err(failures.error);
      }
      if failures.value >= BOOT_FAILURE_THRESHOLD {
        return Err(CrashLoopDetected(s, failures.value));
      }
      r := VerifySlotExecutable(env, p, s);
    }

    method InstallGolden(env: Env) returns (r: Result<()>)
      modifies this
      ensures (disk, r) == Install(crypto, env, old(disk))
    {
      var golden := disk.pkg.recovery;
      var seen := Probe(env, Call(Golden, RecoveryThere), !golden.Missing?);
      if !seen {
        return Err(ExecutableMissing);
      }
      seen := Probe(env, Call(Golden, RecoveryIsFile), golden.File?);
      if !seen {
        return Err(ExecutableNotFile);
      }
      r := VerifyChecksum(env, golden, RECOVERY_PATH, Call(Golden, RecoverySumsThere), Call(Golden, ReadRecoverySums),
                          Call(Golden, HashRecovery));
      if r.Err? {
        return;
      }
      seen := Probe(env, Call(Golden, ConfigIsFile), disk.pkg.recoveryConfig);
      if !seen {
        return Err(ExecutableMissing);
      }
      if env.fails(Call(Golden, CopyRecovery)) {
        return Err(MetadataRead);
      }
      var staged := env.copy(golden.bytes);
      if crypto.sha(staged) != crypto.sha(golden.bytes) {
        return Err(ChecksumMismatch);
      }
      if env.fails(Call(Golden, ReplaceExe)) {
        return Err(MetadataRead);
      }
      disk := disk.(pkg := disk.pkg.(exeA := File(staged)));
      return Ok(());
    }

    method RestoreFromGoldenMaster(env: Env) returns (r: Result<Option<nat>>)
      modifies this
      ensures (disk, r) == Restore(crypto, env, old(disk))
    {
      var installed := InstallGolden(env);
      if installed.Err? {
        return Err(installed.error);
      }
      if env.fails(Call(Golden, CopyConfig)) {
        return Err(MetadataRead);
      }
      r := VerifySlotExecutable(env, Golden, A);
      if r.Err? {
        return;
      }
      var logged := RecordDecision(env, Golden, GoldenRestoration);
      if logged.Err? {
        return Err(logged.error);
      }
      var written := WriteActiveSlot(env, Golden, A);
      if written.Err? {
        return Err(written.error);
      }
    }

    method ChooseSlot(env: Env) returns (r: Result<Slot>)
      ensures r == Chosen(env, disk)
    {
      if env.fails(Call(Active, ReadActive)) || disk.active.None? {
        return Err(MetadataRead);
      }
      match ParseActiveSlot(disk.active.value) {
        case Some(s) => return Ok(s);
        case None =>
          var a := Probe(env, Call(Active, FallbackExe(A)), !disk.pkg.exeA.Missing?);
          if a {
            return Ok(A);
          }
          var b := Probe(env, Call(Active, FallbackExe(B)), !disk.pkg.exeB.Missing?);
          if b {
            return Ok(B);
          }
          return Err(InvalidMetadata);
      }
    }

    method LaunchVerified(env: Env, p: Phase, s: Slot, pending: Option<nat>, ghost counted: map<Slot, Phase>)
      returns (r: Result<Slot>)
      modifies this
      ensures (disk, r) == Seen(Launch(env, p, old(disk), s, pending, counted))
    {
      var cleared := ClearSlotHealth(env, p, s);
      if cleared.Err? {
        return Err(cleared.error);
      }
      var committed := CommitReleaseCounter(env, p, pending);
      if committed.Err? {
        return Err(committed.error);
      }
      return Ok(s);
    }

    /** One selection: exactly the specified one, however its calls go. */
    method SelectSlot(env: Env) returns (r: Result<Slot>)
      modifies this
      ensures (disk, r) == Seen(Select(crypto, env, old(disk)))
    {
      var chosen := ChooseSlot(env);
      if chosen.Err? {
        return Err(chosen.error);
      }
      var slot := chosen.value;
      var active := VerifyAndCheckSlot(env, Active, slot);
      if active.Ok? {
        r := LaunchVerified(env, Active, slot, active.value, map[]);
        return;
      }
      if active.error.HealthTrackingFailure? {
        return Err(active.error);
      }
      var counted := IncrementSlotHealth(env, Active, slot);
      if counted.Err? {
        return Err(counted.error);
      }
      r := SelectAlternate(env, slot, active.error);
    }

    method SelectAlternate(env: Env, slot: Slot, activeError: SelectionError) returns (r: Result<Slot>)
      modifies this
      ensures (disk, r) == Seen(SelectStandby(crypto, env, old(disk), slot, activeError))
    {
      var standby := Alternate(slot);
      var check := VerifyAndCheckSlot(env, Standby, standby);
      if check.Ok? {
        r := RollBackTo(env, slot, standby, check.value);
        return;
      }
      if check.error.HealthTrackingFailure? {
        return Err(check.error);
      }
      var counted := IncrementSlotHealth(env, Standby, standby);
      if counted.Err? {
        return Err(counted.error);
      }
      r := SelectRestored(env, slot, activeError, check.error);
    }

    method RollBackTo(env: Env, slot: Slot, standby: Slot, pending: Option<nat>) returns (r: Result<Slot>)
      requires standby == Alternate(slot)
      modifies this
      ensures (disk, r) == Seen(RollBack(env, old(disk), slot, pending))
    {
      var logged := RecordDecision(env, Standby, Rollback(slot, standby));
      if logged.Err? {
        return Err(logged.error);
      }
      var written := WriteActiveSlot(env, Standby, standby);
      if written.Err? {
        return Err(written.error);
      }
      r := LaunchVerified(env, Standby, standby, pending, map[slot := Active]);
    }

    method SelectRestored(env: Env, slot: Slot, activeError: SelectionError, standbyError: SelectionError)
      returns (r: Result<Slot>)
      modifies this
      ensures (disk, r) == Seen(SelectGolden(crypto, env, old(disk), slot, activeError, standbyError))
    {
      var pending := RestoreFromGoldenMaster(env);
      if pending.Err? {
        return Err(BothSlotsCorrupted(activeError, standbyError));
      }
      var cleared := ClearSlotHealth(env, Golden, A);
      if cleared.Err? {
        return Err(cleared.error);
      }
      cleared := ClearSlotHealth(env, Golden, B);
      if cleared.Err? {
        return Err(cleared.error);
      }
      var committed := CommitReleaseCounter(env, Golden, pending.value);
      if committed.Err? {
        return Err(committed.error);
      }
      return Ok(A);
    }
  }

  /** What a caller sees of an outcome. */
  function Seen(o: Outcome): (Disk, Result<Slot>) {
    (o.disk, o.result)
  }
}
