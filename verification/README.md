# True Tick kernels in Dafny

True Tick holds a Windows timer-resolution request, keeps a bounded diagnostic log of what it did, answers
local IPC requests and starts itself through an A/B launcher. Most of its code is a thin layer over Win32;
what decides correctness is a set of platform-neutral kernels. This project models those kernels and proves
what they keep over every input or every run.

| file | component |
|---|---|
| `Calendar.dfy` | civil dates against day numbers, over all integers, with truncating division |
| `BitMachine.dfy`, `Polynomials.dfy`, `Crc.dfy` | shift registers in general, polynomial division, and the CRC-32 register as both |
| `Frame.dfy` | the IPC frame codec: the layout over any lawful field codec, then the real one |
| `RateLimiter.dfy` | the sliding-window limiter per process, a class |
| `LaunchSpec.dfy` | the A/B launcher: what one selection does, as a function of the disk and of how each of its I/O calls goes |
| `Launcher.dfy` | the launcher as a class, one I/O call at a time, each of which may fail |
| `LaunchHistory.dfy` | what launches keep, one by one and over whole histories |
| `DiagnosticStore.dfy`, `LogFlush.dfy` | the hash-chained event buffer and its synchronous flush, two classes |
| `Coalescing.dfy`, `Recordings.dfy` | what becomes of each row and what it carries, told from the recordings |
| `Manifest.dfy` | the signed release manifest: printer, parser, canonical text |
| `Timer.dfy` | the timer controller over the platform adapter over a kernel that may reply anything |
| `Utf8.dfy`, `Privacy.dfy` | redaction of identity patterns from UTF-8 text |
| `Durations.dfy` | duration texts and preset labels |
| `Configuration.dfy` | the configuration file, its migration and recovery |
| `Retention.dfy` | which daily logs a purge deletes |
| `Options.dfy`, `Text.dfy`, `Sequences.dfy` | the library facts the rest needs |

Conventions. SHA-256 and Ed25519 are function parameters, assumed collision-free only where a statement says
so. Clocks, I/O failures, kernel replies and directory listings are parameters.
Fixed-width arithmetic is written out where the code depends on it: the checked 64-bit products of the duration
parser, the wrapping sort key of the log purge, the saturating counters.

Findings. Where the code does not do what its comments or its design suggest, the model follows the code:

- A failed existence probe reads as an absent file. A missed release counter can let a signed downgrade through
  and lower the counter; a missed `manifest.sig` skips the signature altogether; a missed health counter readmits
  a slot in a crash loop, or starts its count anew, or survives the launch. Each property holds, for any calls
  failing, exactly when the probes of its own condition did not miss (`DowngradeNeedsMissedProbe`,
  `ManifestIsVerified`, `CrashLoopStaysOut`, `RelaunchIsStable`); `SampleLaunches` shows the cases. A successful
  launch in which no probe missed is a fixed point, whatever else failed (`UnmissedIsStable`).
- The limiter compares against the present instant while less than one window has passed since the clock's
  origin. It then accepts everything, and of those early acceptances at most the last is ever counted again,
  while they could still matter up to two windows after the origin (`DecisionExact`, `EarlyBurstAccepted`,
  `EarlyBurstOutlives`).
- Coalescing rewrites a row's details without rehashing, so verification fails at that row; and the hash covers
  neither the stored context nor the border between name and details (`RunVerifies`, `RowChangesExactly`,
  `EditsThatEscape`). A repeat of details that were cut after exactly 160 bytes leaves no trace
  (`CutRepeatsVanish`).
- Raising the interval floor above the selection of an owner leaves a request that `stop` cannot release
  (`ClampRequestedIntervalFloor`, `ClampedOwnerCannotStop`).
- The manifest parser skips blank lines although its comment says that they are rejected (`BlankLinesSkipped`).
- The account scanner reads out of bounds exactly on texts that open with an identifier and a backslash
  (`FailsExactly`), and an overlapping match is dropped whole, so part of it can survive (`OverlapLeaks`,
  `RedactedWholeExactly`).
- A label with a spelled-out unit, such as "30 seconds", is refused by the parser (`LabelRoundTrip`).
- A log dated before 1970 ranks as the newest of all (`KeyOrderExact`, `AncientLogOutlives`).
- A surplus log that cannot be deleted is counted neither as removed nor as retained (`ReportAddsUp`).
- An append that fails part way leaves lines behind that the next flush may write again (`RunRepeats`).

## Model

| member | source | states |
|---|---|---|
| `Calendar.EraOf` | crates/tick-core/src/lib.rs:212-216 | truncating division of the shifted numerator is the floor, for negative years and days too |
| `Calendar.LeapRule` | crates/tick-core/src/lib.rs:176-178 | truncating remainders give the Gregorian leap years for years of any sign |
| `Calendar.RoundTripFromDate` | crates/tick-core/src/lib.rs:208-267 | every valid date of any sign is recovered from its day number |
| `Calendar.RoundTripFromDays` | crates/tick-core/src/lib.rs:208-267 | every integer is the day number of a valid date, the one `civil_from_days` gives |
| `Calendar.NextDayIsOneMore` | crates/tick-core/src/lib.rs:184-224 | the next calendar date, by month lengths and leap years, is always exactly one day number later |
| `Calendar.WalkAgrees` | crates/tick-core/src/lib.rs:243-267 | `civil_from_days` is the naive walk from 1970-01-01, in both directions |
| `Calendar.EveryDateIsWalked` | crates/tick-core/src/lib.rs:208-224 | every valid date lies on the walk at its own day number |
| `Calendar.DayNumberIsMonotone` | crates/tick-core/src/lib.rs:208-224 | day numbers order dates exactly as the calendar does, and are equal only for equal dates |
| `Calendar.TryIsDefinedOnValidDates` | crates/tick-core/src/lib.rs:229-237 | the checked conversion is defined exactly on valid dates and then agrees with the walk |
| `Calendar.ClampedDateIsNearest` | crates/tick-core/src/lib.rs:208-224 | the clamping conversion gives the number of the date with month and day clamped into range |
| `Crc.ComputeCrc32` | crates/tick-ipc/src/lib.rs:62-72 | the nested loops with the arithmetic mask compute the CRC as a fold of one-bit steps |
| `Crc.MaskIsBranch` | crates/tick-ipc/src/lib.rs:66-69 | the branch-free step is the shift-and-conditionally-xor step of the register |
| `Crc.RegisterIsLawful` | crates/tick-ipc/src/lib.rs:62-72 | the register is linear and invertible and takes its input one bit at a time |
| `Polynomials.DivisionIsExact` | crates/tick-ipc/src/lib.rs:62-72 | long division of coefficient sequences: dividend is quotient times divisor plus a remainder of lower degree |
| `Crc.CrcIsRemainder` | crates/tick-ipc/src/lib.rs:62-72 | the checksum of any message is the complemented remainder of the message times x^32, its first 32 bits complemented, by the generator given through its exponents |
| `Crc.CheckValue` | crates/tick-ipc/src/lib.rs:62-72 | the checksum of the nine bytes of "123456789" is 0xCBF43926 |
| `Crc.SealedResidue` | crates/tick-ipc/src/lib.rs:62-72 | a message carries its own checksum exactly when it drives the register to one fixed residue |
| `Crc.BurstDetected` | crates/tick-ipc/src/lib.rs:62-72 | two sealed messages of one length that agree outside any 32 consecutive bits are equal |
| `Crc.ByteBurstDetected` | crates/tick-ipc/src/lib.rs:62-72 | the same for four consecutive bytes at any position |
| `Crc.LeRoundTrip` | crates/tick-ipc/src/lib.rs:441-526 | little-endian words are read back as written |
| `Crc.LeRoundTripBytes` | crates/tick-ipc/src/lib.rs:459-526 | the four bytes of a word are determined by its value |
| `FrameLayout.RoundTrip` | crates/tick-ipc/src/lib.rs:441-526 | over any lawful field codec a frame survives the wire exactly when its payload is within 256 bytes |
| `FrameLayout.AcceptedReserializes` | crates/tick-ipc/src/lib.rs:459-526 | over any lawful field codec every accepted byte string is the serialization of what it decodes to |
| `Frame.Serialize` | crates/tick-ipc/src/lib.rs:441-455 | the buffer grown field by field is the wire form |
| `Frame.VerbFromCode` | crates/tick-ipc/src/lib.rs:196-212 | a code decodes to a verb exactly when it is that verb's code |
| `Frame.NativeIsLawful` | crates/tick-ipc/src/lib.rs:441-526 | magic, version, verb, length and checksum fields are written and read by exact inverses |
| `Frame.WireLayout` | crates/tick-ipc/src/lib.rs:441-455 | the bytes of every frame place by place: magic, version 1, length and verb lowest byte first, token, payload, and the checksum of all that precedes it |
| `Frame.WireRoundTrip` | crates/tick-ipc/src/lib.rs:427-526 | a frame decodes to itself if and only if its payload is within the limit, and is refused otherwise |
| `Frame.WireReserializes` | crates/tick-ipc/src/lib.rs:459-526 | every accepted byte string re-serializes to itself |
| `Frame.WireSealed` | crates/tick-ipc/src/lib.rs:459-526 | every accepted byte string carries its own checksum |
| `Frame.BurstRejected` | crates/tick-ipc/src/lib.rs:62-72 | damage within any 32 consecutive bits of a frame is refused, across body and trailer and in the length field |
| `Frame.ByteBurstRejected` | crates/tick-ipc/src/lib.rs:441-526 | any change within four consecutive bytes is refused |
| `Frame.CutOrExtendedRejected` | crates/tick-ipc/src/lib.rs:459-526 | no proper prefix or extension of a frame is accepted |
| `RateLimiter.PidRateLimiter.FindPid` | crates/tick-ipc/src/lib.rs:717-719 | finds the first record of the process |
| `RateLimiter.PidRateLimiter.EvictLeastRecentlySeen` | crates/tick-ipc/src/lib.rs:747-760 | removes exactly the record least in last-seen time, then process id |
| `RateLimiter.PidRateLimiter.CheckAndRecord` | crates/tick-ipc/src/lib.rs:713-744 | the new table and the verdict are those of the specification |
| `RateLimiter.PidRateLimiter.PruneIdleCallers` | crates/tick-ipc/src/lib.rs:764-770 | drops stamps outside the window and then records without stamps |
| `RateLimiter.PruneKeeps` | crates/tick-ipc/src/lib.rs:764-770 | idle pruning loses no stamp that is still in the window, for any process |
| `RateLimiter.CheckDecides` | crates/tick-ipc/src/lib.rs:713-744 | past the first window the pruned table decides as all the acceptances it accounts for |
| `RateLimiter.StepKeepsTracks` | crates/tick-ipc/src/lib.rs:713-770 | every request and every pruning, early or late, keeps distinct ids, the two bounds and agreement with what is accounted for |
| `RateLimiter.RunTracks` | crates/tick-ipc/src/lib.rs:713-770 | over every run of non-decreasing times, whenever it starts, the table stays bounded and distinct and agrees with what it accounts for |
| `RateLimiter.RunIsSpaced` | crates/tick-ipc/src/lib.rs:713-744 | the (i+10)th acceptance since the last eviction is at least one second after the ith, if the ith came after the first window |
| `RateLimiter.KnownFromRun` | crates/tick-ipc/src/lib.rs:713-770 | what is accounted for after a run, from the run alone: every acceptance since the last eviction past the first window, and of the early ones the last unless an early pruning followed |
| `RateLimiter.RunDecides` | crates/tick-ipc/src/lib.rs:713-744 | the exact decision after every run: all accepted within the first window; then the late acceptances count and, unless a pruning within the first window dropped it, the last early one; from two windows on the full history |
| `RateLimiter.TimelyDecides` | crates/tick-ipc/src/lib.rs:713-744 | in a run that starts after the first window nothing is dropped and every request is decided by the full history |
| `RateLimiter.EvictionNeedsPressure` | crates/tick-ipc/src/lib.rs:720-760 | a process with acceptances still counted in the window is evicted only while 64 processes were all seen within it |
| `RateLimiter.LastSeenIsLastRequest` | crates/tick-ipc/src/lib.rs:713-744 | over every ordered run each record was last seen when its process last made a request, accepted or refused |
| `RateLimiter.EvictionExact` | crates/tick-ipc/src/lib.rs:720-760 | after every ordered run a request costs another process its place if and only if 64 others are tracked, and that is the tracked one whose last request is oldest, ties by process id; nothing else about who is tracked changes |
| `RateLimiter.PrunedExactly` | crates/tick-ipc/src/lib.rs:764-770 | after every ordered run pruning leaves exactly the processes with a counting acceptance in the window |
| `RateLimiter.EarlyCheckAccepts` | crates/tick-ipc/src/lib.rs:714-744 | within one window of the clock's origin every request is accepted and the history dropped |
| `RateLimiter.DecisionExact` | crates/tick-ipc/src/lib.rs:714-744 | after every run the table decides as the full history if and only if the history accepts, or the first window is over and the late acceptances, with the last early one unless a later early pruning dropped it, suffice to refuse |
| `RateLimiter.EarlyBurstAccepted` | crates/tick-ipc/src/lib.rs:714-744 | any number of requests at one early instant is accepted in full |
| `RateLimiter.EarlyBurstOutlives` | crates/tick-ipc/src/lib.rs:714-744 | ten or more requests at one early instant are not held against an eleventh after the first window, though all lie in its window |
| `RateLimiter.ElevenInOneSecond` | crates/tick-ipc/src/lib.rs:714-744 | the input: ten requests at half a second, an eleventh accepted at one and two tenths |
| `LaunchSpec.NormalizeActiveSlot` | apps/launcher/src/main.rs:736-755 | repeated trimming ends with no noise on either edge |
| `LaunchSpec.ParsesBetweenNoise` | apps/launcher/src/main.rs:736-766 | a slot letter is understood through any noise around it |
| `LaunchSpec.ParsesExactly` | apps/launcher/src/main.rs:736-766 | a slot is understood if and only if its letter stands between noise and nothing else |
| `LaunchSpec.ScanSums` | apps/launcher/src/main.rs:404-446 | the first line whose second word is the path in either spelling decides, its first word lower-cased |
| `LaunchSpec.SumLineReads` | apps/launcher/src/main.rs:404-446 | a digest, blanks and a path in either spelling are found as written |
| `LaunchSpec.FirstLineDecides` | apps/launcher/src/main.rs:404-446 | of the lines that name the path the first decides |
| `Launcher.Host.IncrementSlotHealth` | apps/launcher/src/main.rs:472-504 | counts one more boot failure, from zero when the probe missed the file, or leaves the disk as it was |
| `Launcher.Host.ClearSlotHealth` | apps/launcher/src/main.rs:506-523 | removes the slot's counter unless the probe missed it, or leaves the disk as it was |
| `Launcher.Host.CommitReleaseCounter` | apps/launcher/src/main.rs:284-312 | stores the pending counter whole or not at all, with the error of the failed step |
| `Launcher.Host.PrepareSignedManifest` | apps/launcher/src/main.rs:319-402 | the signed verdict with its error order, for every pattern of failing calls |
| `Launcher.Host.VerifySlotExecutable` | apps/launcher/src/main.rs:171-197 | the verdict on a slot, signed or by checksum, for every pattern of failing calls |
| `Launcher.Host.VerifyAndCheckSlot` | apps/launcher/src/main.rs:808-821 | the health gate and then that verdict, for every pattern of failing calls |
| `Launcher.Host.InstallGolden` | apps/launcher/src/main.rs:525-625 | slot A is replaced whole by the staged copy, after the checksum, the configuration and the copy have been checked, or nothing changes |
| `Launcher.Host.RestoreFromGoldenMaster` | apps/launcher/src/main.rs:605-639 | the specified restoration, whichever of its calls fail |
| `Launcher.Host.LaunchVerified` | apps/launcher/src/main.rs:823-828 | clears health and commits the counter of a slot that passed, each call failing or not |
| `Launcher.Host.RollBackTo` | apps/launcher/src/main.rs:836-842 | records, switches and commits to the standby slot, each call failing or not |
| `Launcher.Host.SelectSlot` | apps/launcher/src/main.rs:787-864 | disk and result of a selection are exactly the specified ones for every pattern of failing calls |
| `LaunchHistory.HealthIsExact` | apps/launcher/src/main.rs:448-521 | each health file after a selection is what its slot's fate says: cleared, counted up by one, counted from zero past a missed counter, or untouched; only a slot that passed is cleared |
| `LaunchHistory.SelectInOrder` | apps/launcher/src/main.rs:787-864 | a launched slot passed the verification on the package it is launched from, its counter is the only change to the counter file, an error leaves that file alone, only slot A is ever replaced and only by golden bytes, and after a pass the calls alone decide what is cleared and whether the launch succeeds |
| `LaunchHistory.RunLaunches` | apps/launcher/src/main.rs:787-864 | a host launched again and again with changing packages and any failures produces a history as the statements below assume it, and its counter rises unless a counter was missed |
| `LaunchHistory.DowngradeNeedsMissedProbe` | apps/launcher/src/main.rs:263-306 | a launch lowers the stored counter, whatever fails, if and only if the deciding probe missed the counter file and the verified manifest's counter lies strictly between zero and the stored one |
| `LaunchHistory.CounterNeverDecreases` | apps/launcher/src/main.rs:284-360 | over any stretch of launches with any failures and package changes the stored counter never decreases if and only if none of them is a downgrade past a missed counter |
| `LaunchHistory.SignedLaunchesAscend` | apps/launcher/src/main.rs:319-360 | every launch whose manifest was verified has a counter no lower than earlier ones and leaves its own behind, unless a larger stored counter was missed on the way |
| `LaunchHistory.ManifestIsVerified` | apps/launcher/src/main.rs:199-213 | with a manifest on disk the signature and digests were verified if its probe reported it; past a missed one only checksums held and the counter stays |
| `LaunchHistory.CounterIsLeft` | apps/launcher/src/main.rs:319-360 | a launch with a verified manifest leaves its counter behind if and only if it did not go below the stored one with a counter of zero, and goes below only past a missed counter |
| `LaunchHistory.LoopingExactly` | apps/launcher/src/main.rs:448-521 | a slot at the failure threshold is launched, or falls below it, if and only if a count missed its counter, or the gate missed it and nothing failed before it was cleared or launched, or a restoration cleared or launched it |
| `LaunchHistory.CrashLoopStaysOut` | apps/launcher/src/main.rs:448-521 | over any stretch of launches such a slot stays out and at the threshold if and only if none of these happened in it |
| `LaunchHistory.RestorationIsGolden` | apps/launcher/src/main.rs:605-639 | whenever slot A was replaced or restored it holds the recovery bytes, and nothing else of the package changed |
| `LaunchHistory.RestorationIsVerified` | apps/launcher/src/main.rs:525-639 | whatever fails, slot A is replaced or launched as restored only if the golden master has the checksum listed for it and its configuration is there |
| `LaunchHistory.GoldenReplaces` | apps/launcher/src/main.rs:836-864 | with nothing failing and both slots refused, slot A is replaced by the golden master if and only if that is so, and launched if and only if it then passes the verification |
| `LaunchHistory.AcceptedExactly` | apps/launcher/src/main.rs:171-402 | with nothing failing a slot is accepted if and only if the manifest vouches for it with a counter not below the stored one, or without a manifest its listed checksum matches |
| `LaunchHistory.ChoiceExactly` | apps/launcher/src/main.rs:775-805 | an understood letter decides; otherwise an installed executable that its probe reports, slot A first, and the choice fails only when there is none |
| `LaunchHistory.UnreadableHealthStops` | apps/launcher/src/main.rs:448-470 | a health counter that is there but cannot be read ends the launch and nothing changes |
| `LaunchHistory.RelaunchIsStable` | apps/launcher/src/main.rs:787-864 | a successful selection, whichever calls failed, gives the same slot and changes nothing when repeated without failures, if and only if the probe for slot A's executable did not divert an unreadable choice, the clearing missed no health counter, a missed manifest verifies with exactly the stored counter, and a counter missed under a signed counter of zero was absent or zero |
| `LaunchHistory.UnmissedIsStable` | apps/launcher/src/main.rs:787-864 | a successful selection in which no probe missed is a fixed point, whatever else failed |
| `LaunchHistory.SelectIsIdempotent` | apps/launcher/src/main.rs:787-864 | with nothing failing, selecting twice is selecting once |
| `LaunchHistory.GoldenMasterHeals` | apps/launcher/src/main.rs:787-864 | while the state files can be read and written, whatever probe or reading of the package fails, a launch succeeds if and only if the chosen slot, the other one or the golden master passes, and launches the first that does |
| `LaunchHistory.LaunchPastCounter` | apps/launcher/src/main.rs:263-266 | with only the counter missed, a signed downgrade is launched and lowers the counter |
| `LaunchHistory.LaunchPastManifest` | apps/launcher/src/main.rs:199-203 | with only the manifest missed, a package whose signature does not verify is launched on its checksums |
| `LaunchHistory.LaunchPastHealth` | apps/launcher/src/main.rs:448-455 | with only the health counter missed, a slot in a crash loop is launched again |
| `LaunchHistory.SampleLaunches` | apps/launcher/src/main.rs:787-864 | three concrete disks on which these happen |
| `DiagnosticStore.VerifyEventChain` | crates/tick-diagnostics/src/lib.rs:253-281 | the loop finds the first row that breaks its hash or its link |
| `DiagnosticStore.DiagnosticLog.CoalesceRepeated` | crates/tick-diagnostics/src/lib.rs:1149-1179 | rewrites the last row's details exactly for a genuine repeat, and nothing else |
| `DiagnosticStore.DiagnosticLog.RecordWithContext` | crates/tick-diagnostics/src/lib.rs:1032-1128 | the new state, with eviction, marker and chaining, is that of the specification |
| `DiagnosticStore.RecordRepresents` | crates/tick-diagnostics/src/lib.rs:1032-1128 | one recording keeps the buffer a function of the full history |
| `DiagnosticStore.RunRepresents` | crates/tick-diagnostics/src/lib.rs:1032-1128 | after any recordings the snapshot is the whole history, or the marker and the newest max-1 events |
| `DiagnosticStore.RowsIncrease` | crates/tick-diagnostics/src/lib.rs:1069-1128 | rows after index 0 strictly increase in sequence, the last is the newest of all, and the bound holds |
| `Recordings.SnapshotShows` | crates/tick-diagnostics/src/lib.rs:1032-1128 | over every run each row of the snapshot carries time, name and context of the recording that appended it, and its details unless the next recording repeated it, in order and without a gap; the marker carries marker time, operation and the retained count of the recording that overflowed |
| `Recordings.RepeatsAreCounted` | crates/tick-diagnostics/src/lib.rs:1149-1179 | a layout error repeated n times leaves one row that ends in the number n+1, up to 999999, when its details leave room for it |
| `DiagnosticStore.VerifyFindsFirst` | crates/tick-diagnostics/src/lib.rs:253-281 | under a collision-free hash verification from any row reports exactly the first changed row |
| `DiagnosticStore.RunVerifies` | crates/tick-diagnostics/src/lib.rs:230-281 | after any recordings it accepts, or fails at exactly the first row that coalescing changed |
| `DiagnosticStore.UntouchedAccepted` | crates/tick-diagnostics/src/lib.rs:230-281 | with no row changed it accepts, whatever the hash |
| `DiagnosticStore.EditsThatEscape` | crates/tick-diagnostics/src/lib.rs:230-250 | an edit of one row escapes its hash if and only if sequence, time and the joined text stay |
| `DiagnosticStore.RunChangesLayoutOnly` | crates/tick-diagnostics/src/lib.rs:1149-1179 | only rows of repeated layout errors ever differ from what was hashed |
| `DiagnosticStore.CutRepeatsVanish` | crates/tick-diagnostics/src/lib.rs:1149-1179 | a repeat leaves no trace, whatever was last coalesced, if and only if its details carry no repeat count and were cut after exactly 160 bytes |
| `Coalescing.RowChangesExactly` | crates/tick-diagnostics/src/lib.rs:1149-1179 | over every run a row differs from what was hashed if and only if the very next recording repeated the layout error that made it, its details plain and not cut after exactly 160 bytes |
| `Coalescing.GrownDiffers` | crates/tick-diagnostics/src/lib.rs:97-112 | details grown by coalescing equal the original ones only when those were cut after exactly the limit |
| `LogFlush.BuildLogLines` | apps/true-tick/src/logging/mod.rs:389-410 | collects exactly the rows above the baseline, and the last of their sequences |
| `LogFlush.DailyLog.FlushSync` | apps/true-tick/src/logging/mod.rs:412-436 | appends the pending rows and moves the cursor only when all were written |
| `LogFlush.CursorIsNewest` | apps/true-tick/src/logging/mod.rs:389-436 | despite the out-of-order marker the cursor always moves to the newest event |
| `LogFlush.RunConserves` | apps/true-tick/src/logging/mod.rs:389-436 | over every interleaving, with appends that fail at any point, exactly those of the passed sequences are missing on disk that were evicted before any append reached them |
| `LogFlush.RunRepeats` | apps/true-tick/src/logging/mod.rs:412-436 | over every interleaving some sequence is on disk twice if and only if a flush writes a line that a failed append left behind, with no complete flush in between |
| `LogFlush.CompleteRewrites` | apps/true-tick/src/logging/mod.rs:412-436 | of the lines left behind a complete flush writes exactly those again that are still in the buffer |
| `LogFlush.CleanRun` | apps/true-tick/src/logging/mod.rs:412-436 | when no failed append leaves lines behind, no sequence is ever on disk twice or above the cursor |
| `LogFlush.FlushPersistsRetained` | apps/true-tick/src/logging/mod.rs:412-436 | every event retained at a complete flush is on disk after it |
| `LogFlush.RetryDuplicates` | apps/true-tick/src/logging/mod.rs:412-436 | a failed append retried after any recordings repeats a sequence if and only if a line it left behind is still in the buffer then |
| `LogFlush.ImmediateRetry` | apps/true-tick/src/logging/mod.rs:412-436 | retried at once it repeats a sequence if and only if it had left a line behind |
| `Manifest.DecodeOfHex` | crates/tick-crypto/src/lib.rs:148-170 | lower-case hexadecimal decodes to the bytes it spells |
| `Manifest.HexOfDecode` | crates/tick-crypto/src/lib.rs:148-170 | nothing but the canonical spelling of that many bytes decodes |
| `Manifest.ParseSignedManifest` | crates/tick-crypto/src/lib.rs:181-238 | the loop over the lines is the fold of the line classifier, first error included |
| `Manifest.AcceptedLines` | crates/tick-crypto/src/lib.rs:181-238 | lines are accepted if and only if all are readable, with at most one counter and signature, 256 entries and no path twice, in any order |
| `Manifest.CanonicalBytes` | crates/tick-crypto/src/lib.rs:245-259 | counter line and entry lines in path order, each terminated |
| `Manifest.SignManifest` | crates/tick-crypto/src/lib.rs:61-87 | prints the sorted entries with the first of each path kept, signed over the canonical text |
| `Manifest.PrintedParses` | crates/tick-crypto/src/lib.rs:181-238 | printed lines, in any path order, parse back to exactly what was printed |
| `Manifest.LinesAsWritten` | crates/tick-crypto/src/lib.rs:181-238 | the three kinds of lines, spelled in full, are read as what they say |
| `Manifest.CarriageReturnsStripped` | crates/tick-crypto/src/lib.rs:187-189 | whichever lines end in a carriage return, acceptance, error and result stay the same |
| `Manifest.CanonicalAscends` | crates/tick-crypto/src/lib.rs:245-259 | canonical entries stand in ascending order of their paths, by the first code point that differs |
| `Manifest.SignedRoundTrip` | crates/tick-crypto/src/lib.rs:61-87 | parsing the signed text yields the counter, the sorted and deduplicated entries and the exact signature |
| `Manifest.CanonicalInjective` | crates/tick-crypto/src/lib.rs:245-259 | equal signed bytes mean the same counter and the same digest for every path |
| `Manifest.AcceptedIsValid` | crates/tick-crypto/src/lib.rs:181-238 | every accepted manifest meets what injectivity needs |
| `Manifest.ReorderedText` | crates/tick-crypto/src/lib.rs:181-259 | any reordering of the lines is accepted with the same counter, signature, entries and canonical bytes |
| `Manifest.SortOfPermutation` | crates/tick-crypto/src/lib.rs:245-259 | the canonical order does not depend on the order of the entries |
| `Manifest.StrictlySortedUnique` | crates/tick-crypto/src/lib.rs:61-87 | a path-to-digest map has one strictly sorted spelling |
| `Manifest.SortFinds` | crates/tick-crypto/src/lib.rs:61-87 | the stable sort keeps which digest a path finds first |
| `Manifest.DedupFinds` | crates/tick-crypto/src/lib.rs:61-87 | deduplication keeps which digest a path finds first |
| `Manifest.BlankLinesSkipped` | crates/tick-crypto/src/lib.rs:178-195 | blank lines change neither acceptance nor result |
| `TimerPlatform.ResolveRequest` | crates/tick-platform-windows/src/lib.rs:67-89 | zero selects the smallest valid interval, anything else itself, and it succeeds exactly when that is valid |
| `TimerPlatform.MedianIsMiddle` | crates/tick-platform-windows/src/lib.rs:171-187 | the median is a sample with at most one sample on either side |
| `TimerPlatform.MedianIsMajority` | crates/tick-platform-windows/src/lib.rs:171-200 | the median passes the tolerance if and only if two of the three samples do |
| `TimerPlatform.SampledPasses` | crates/tick-platform-windows/src/lib.rs:191-233 | that answer is within tolerance if and only if two of three readings are, or one of exactly two, and it is one of the readings |
| `TimerPlatform.WindowsTimerPlatform.SampleIntervalMedian` | crates/tick-platform-windows/src/lib.rs:202-233 | makes three queries and answers with the specified function of their three replies |
| `TimerPlatform.WindowsTimerPlatform.Request` | crates/tick-platform-windows/src/lib.rs:420-517 | succeeds if and only if the preflight reply admits the interval, the set succeeds and the samples pass; the error, the native calls made, what is held and what is tracked are given for all replies |
| `TimerPlatform.WindowsTimerPlatform.Release` | crates/tick-platform-windows/src/lib.rs:519-557 | one native call whose reply decides: success clears the request, failure leaves everything |
| `TimerPlatform.WindowsTimerPlatform.AttemptKernelSettleProbe` | crates/tick-platform-windows/src/lib.rs:559-635 | the outcome and the native calls for all replies: at most one release, never a set, restored exactly when the second reading is coarser |
| `TimerController.TimerController.Query` | crates/tick-ownership/src/lib.rs:221-245 | succeeds if and only if an interval is at hand or resolved and the reply is a success; observation, snapshot and selection are given for all replies |
| `TimerController.TimerController.ObserveCurrent` | crates/tick-ownership/src/lib.rs:247-263 | for the release boundary the reply decides and is recorded; for anything else nothing changes |
| `TimerController.TimerController.Start` | crates/tick-ownership/src/lib.rs:265-318 | unless released a no-op; otherwise the specified start for all replies, keeping the invariant |
| `TimerController.StartsExactly` | crates/tick-ownership/src/lib.rs:265-318 | a start succeeds and ends owned if and only if three queries admit its interval, the set succeeds and of the three samples two are good, or one of exactly two; then that interval is selected and held with a good sample on record |
| `TimerController.FailedStart` | crates/tick-ownership/src/lib.rs:265-318 | it ends uncertain if and only if the request was set and its samples do not pass, held exactly when the rollback failed; any other failure leaves it released with nothing held |
| `TimerController.TimerController.Stop` | crates/tick-ownership/src/lib.rs:320-345 | an anchored owner makes the one native release and is released if and only if the reply is a success; everything else is given for both replies |
| `TimerController.TimerController.ClampRequestedIntervalFloor` | crates/tick-ownership/src/lib.rs:374-381 | keeps an anchored controller anchored if and only if it is released or its selection reaches the floor |
| `TimerController.TimerController.AttemptStartupKernelSettleProbe` | crates/tick-ownership/src/lib.rs:410-457 | acts only when due and within budget; then step, native calls and record are given for all replies |
| `TimerController.TimerController.DriveSettleProbe` | crates/tick-ownership/src/lib.rs:29-31 | at most three native releases; the first attempt of which no call fails decides, and it is exhausted exactly when all three fail |
| `TimerController.RunOperations` | crates/tick-ownership/src/lib.rs:168-457 | over every run and all statuses: held implies not released, owned implies held, no set on top of a set, and with clamping only while released every owner stays stoppable |
| `TimerController.ClampedOwnerCannotStop` | crates/tick-ownership/src/lib.rs:320-381 | an owner clamped above its selection stays held and `stop` makes no native call |
| `Utf8.BoundarySplits` | crates/tick-diagnostics/src/privacy.rs:433-451 | a character boundary of encoded text is the border between two encoded texts |
| `Utf8.AfterAscii` | crates/tick-diagnostics/src/privacy.rs:433-451 | the position after an ASCII byte is a character boundary |
| `PrivacyPatterns.StepEdges` | crates/tick-diagnostics/src/privacy.rs:105-381 | every match of all six patterns starts at an ASCII byte and ends beside one or at the end |
| `PrivacyPatterns.PathIsLong` | crates/tick-diagnostics/src/privacy.rs:125-131 | trimming a path never reaches back past the word `users` |
| `PrivacyPatterns.AddressIsDottedQuad` | crates/tick-diagnostics/src/privacy.rs:227-286 | an address is reported if and only if four groups of one to three digits stand there that no digit or dot extends |
| `PrivacyPatterns.DomainIsLabels` | crates/tick-diagnostics/src/privacy.rs:306-315 | a mail domain is accepted if and only if it is two or more non-empty labels joined by dots |
| `PrivacyPatterns.PathIsTrimmedRun` | crates/tick-diagnostics/src/privacy.rs:105-141 | a profile path is reported if and only if it begins with one of the two literals and is the maximal run of segment bytes less its trailing path edges |
| `PrivacyPatterns.MachineIsTokenOrHost` | crates/tick-diagnostics/src/privacy.rs:148-192 | a machine name if and only if it is the name token, with one percent sign behind but none before, or two backslashes and a maximal host name |
| `PrivacyPatterns.VariableIsDelimited` | crates/tick-diagnostics/src/privacy.rs:195-223 | a variable if and only if one to sixty-four bytes, neither blank nor percent, stand between percent signs |
| `PrivacyPatterns.EmailIsAddress` | crates/tick-diagnostics/src/privacy.rs:290-329 | a mail address if and only if a maximal local part and a maximal domain of two or more non-empty labels stand around an at sign |
| `PrivacyPatterns.AccountIsPair` | crates/tick-diagnostics/src/privacy.rs:335-381 | an account if and only if two maximal identifiers stand around a backslash, the first one not the word users and not behind a backslash or a colon |
| `Privacy.MatchUserProfilePath` | crates/tick-diagnostics/src/privacy.rs:105-141 | the two run loops find the profile path at a position |
| `Privacy.MatchMachineName` | crates/tick-diagnostics/src/privacy.rs:148-192 | the loop finds the machine name at a position |
| `Privacy.MatchEnvironmentVariable` | crates/tick-diagnostics/src/privacy.rs:195-223 | the early exits amount to a name of one to sixty-four bytes between percent signs |
| `Privacy.FindOctets` | crates/tick-diagnostics/src/privacy.rs:238-268 | taking at most three digits and refusing a fourth amounts to maximal runs of one to three digits |
| `Privacy.MatchIpAddress` | crates/tick-diagnostics/src/privacy.rs:227-286 | the octet loop with its neighbour checks finds the address at a position |
| `Privacy.MatchEmailAddress` | crates/tick-diagnostics/src/privacy.rs:290-329 | the loops to both sides of the at sign find the address |
| `Privacy.MatchWindowsAccountName` | crates/tick-diagnostics/src/privacy.rs:335-381 | the loops to both sides of the backslash find the account, or the out-of-bounds read |
| `Privacy.RunScanner` | crates/tick-diagnostics/src/privacy.rs:105-381 | the loop of a scanner reports its matches from the left, resuming after each, up to the cap |
| `Privacy.ScanIsComplete` | crates/tick-diagnostics/src/privacy.rs:105-381 | a position where the pattern matches lies in a reported span, or past the match at which the cap stopped the scanner |
| `Privacy.FailsExactly` | crates/tick-diagnostics/src/privacy.rs:335-381 | scanning reads out of bounds if and only if the text opens with an identifier and a backslash |
| `Privacy.MergeSpans` | crates/tick-diagnostics/src/privacy.rs:396-408 | the merge loop is the greedy resolution from the left |
| `Privacy.CollectSpans` | crates/tick-diagnostics/src/privacy.rs:385-410 | the six scanners in turn, the sort and the merge |
| `Privacy.KeptSpansAreSound` | crates/tick-diagnostics/src/privacy.rs:385-410 | kept spans are real matches, non-empty, in bounds, in order, disjoint, at most 32 and on character boundaries |
| `Privacy.MatchesAreHeld` | crates/tick-diagnostics/src/privacy.rs:385-410 | every match is reported and the first byte of its report redacted, unless scanner or merge reached the cap before it |
| `Privacy.RedactedWholeExactly` | crates/tick-diagnostics/src/privacy.rs:396-408 | every reported span is redacted whole if and only if any two overlapping reports lie in one report and the reports that no other contains have at most 32 extents |
| `Privacy.OverlapLeaks` | crates/tick-diagnostics/src/privacy.rs:399-401 | a text in which a reported mail address is kept in part |
| `Privacy.ReplaceSpans` | crates/tick-diagnostics/src/privacy.rs:446-449 | replacing from right to left gives the gaps and tokens in order from left to right, every splice on a boundary |
| `Privacy.SanitizePii` | crates/tick-diagnostics/src/privacy.rs:433-451 | fails exactly as above, and otherwise returns the redacted text, which is valid UTF-8 again |
| `Privacy.RedactedIsText` | crates/tick-diagnostics/src/privacy.rs:433-451 | redaction on boundaries never cuts a character |
| `Durations.ParseDecimalMicros` | apps/true-tick/src/pause.rs:231-272 | the exact value in millionths, or a refusal exactly when the text is no such number or exceeds 64 bits |
| `Durations.PadFraction` | apps/true-tick/src/pause.rs:254-263 | padding with zeros scales the decimals to millionths |
| `Durations.NumberOfText` | apps/true-tick/src/pause.rs:231-272 | every number with at most six decimals is read as written |
| `Durations.TextOfNumber` | apps/true-tick/src/pause.rs:231-272 | a text read as a number is the spelling of that number |
| `Durations.CheckedSegment` | apps/true-tick/src/pause.rs:184-199 | the 64-bit arithmetic is exact, and every overflow is truly above 24 hours |
| `Durations.TakeNumber` | apps/true-tick/src/pause.rs:150-168 | the flag-driven loop takes digits, at most one dot and more digits |
| `Durations.ParseSegments` | apps/true-tick/src/pause.rs:140-216 | accepts exactly the texts made of segments whose rounded sum is in range, early exits included |
| `Durations.FromMicrosRounded` | apps/true-tick/src/pause.rs:219-228 | rounds half up and accepts exactly the range |
| `Durations.HalfUpIsNearest` | apps/true-tick/src/pause.rs:219-228 | rounding gives exactly the nearest second, the upper one of two |
| `Durations.ParseDuration` | apps/true-tick/src/pause.rs:126-217 | accepts exactly the texts that denote a duration in range over unbounded integers, and returns it |
| `Durations.ParsedCovers` | apps/true-tick/src/pause.rs:140-207 | a text that is read is made of valid segments and trailing blanks |
| `Durations.TextParses` | apps/true-tick/src/pause.rs:140-207 | valid segments and trailing blanks are read as exactly those segments, so the grammar is unambiguous |
| `Durations.LabelRoundTrip` | apps/true-tick/src/pause.rs:99-124 | a preset's label reads back as the preset if and only if it is compound, and is refused otherwise |
| `Configuration.ParseSchedulePresets` | apps/true-tick/src/config.rs:371-401 | the loop over the elements collects the presets or refuses |
| `Configuration.PresetsReadBack` | apps/true-tick/src/config.rs:371-401 | one to twelve presets in range read back from their printed list |
| `Configuration.PresetsOfValid` | apps/true-tick/src/config.rs:371-401 | whatever the text, accepted presets are one to twelve and in range |
| `Configuration.RawReads` | apps/true-tick/src/config.rs:277-306 | a printed line splits into the key and value it was printed from |
| `Configuration.ParseWithMigration` | apps/true-tick/src/config.rs:269-368 | the loop over the lines with its seen-key set is the fold of the settings |
| `Configuration.ParsedExactly` | apps/true-tick/src/config.rs:269-368 | a text is accepted if and only if it is short enough, every line is blank, a comment or a known key with a value of its kind, and no key comes twice; then it sets what its lines say over the defaults, whatever their order |
| `Configuration.ParseSettles` | apps/true-tick/src/config.rs:269-368 | whatever text is accepted, the result is in bounds and never the legacy interval |
| `Configuration.SavedConfigLoads` | apps/true-tick/src/config.rs:198-214 | a saved configuration loads as itself unmigrated, except that interval 10000 loads as 0 and is flagged |
| `Configuration.ConfigFile.Load` | apps/true-tick/src/config.rs:105-173 | a success is the failure-free load; after any failure the old content is in place or backed up, and an oversized file is refused and left alone |
| `Configuration.ConfigFile.RecoverCorrupted` | apps/true-tick/src/config.rs:137-173 | the damaged file is backed up before the defaults are written, and is never lost whatever fails |
| `Configuration.LoadIsStable` | apps/true-tick/src/config.rs:105-135 | after one load of any file the next loads give the same configuration, never migrate or recover, and change nothing |
| `Retention.StemRoundTrip` | crates/tick-diagnostics/src/retention.rs:26-52 | the zero-padded spelling of a date is read as that date |
| `Retention.StemSpelling` | crates/tick-diagnostics/src/retention.rs:26-52 | only the zero-padded spelling of its date is read |
| `Retention.NameIsUnique` | crates/tick-diagnostics/src/retention.rs:26-52 | two file names with one date are one name |
| `Retention.KeyOrderExact` | crates/tick-diagnostics/src/retention.rs:57-62 | sort keys order two dates as the calendar does if and only if both or neither lie before 1970, and never collide |
| `Retention.AncientLogOutlives` | crates/tick-diagnostics/src/retention.rs:57-62 | a log dated before 1970 is not expired and ranks as newer than every later one |
| `Retention.LogDirectory.Candidates` | crates/tick-diagnostics/src/retention.rs:73-91 | collects exactly the files with a well-formed, possible date |
| `Retention.LogDirectory.Expire` | crates/tick-diagnostics/src/retention.rs:93-105 | deletes what is below the cutoff; what resists stays in the list |
| `Retention.LogDirectory.Expel` | crates/tick-diagnostics/src/retention.rs:106-113 | deletes the surplus and counts what succeeded |
| `Retention.LogDirectory.PurgeExpiredLogs` | crates/tick-diagnostics/src/retention.rs:67-118 | report and directory are those of the specification for every pattern of failed deletions; a failed listing changes nothing |
| `Retention.SortedIsStrict` | crates/tick-diagnostics/src/retention.rs:92 | sorting a directory's candidates never meets two equal keys |
| `Retention.ForeignFilesUntouched` | crates/tick-diagnostics/src/retention.rs:73-91 | directories, foreign names and impossible dates survive every pass, whatever fails |
| `Retention.PurgeByKeys` | crates/tick-diagnostics/src/retention.rs:92-118 | with deletions succeeding a log stays if and only if its key reaches the cutoff and fewer than 64 keys are greater |
| `Retention.PurgeExactly` | crates/tick-diagnostics/src/retention.rs:67-118 | whatever deletions fail, a log stays if and only if it was not due or resisted, and was not surplus or resisted that too |
| `Retention.PurgeKeepsNewest` | crates/tick-diagnostics/src/retention.rs:67-118 | for dates 1970 to 9999 it stays if and only if its day started no more than thirty days ago and fewer than 64 logs have later dates |
| `Retention.ReportAddsUp` | crates/tick-diagnostics/src/retention.rs:67-118 | every log is examined once, the logs left in the directory are those not reported as removed, and they are as many as reported retained if and only if every surplus deletion succeeded |

## Left out

- Ed25519, SHA-256, operating-system entropy and constant-time comparison: library or foreign code, kept as function parameters.
- Named pipes, overlapped I/O, registry, message boxes, icons, menus and the tray controller: foreign calls and user interface.
- IPC responses, schedule payloads, error-code tables and session-token text: one-branch facts beside the request frame.
- The asynchronous log writer: it reads its baseline before the single-writer gate, so at-most-once writing is not its contract.
- The text of a CSV log line and of the diagnostic grid: a flushed row stands for its line.
- Calendar arithmetic at the ends of the 64-bit range: day numbers and years are unbounded integers.
- DiagnosticStore.RunRepresents: stated up to the point where the 64-bit sequence counter saturates, after which sequences repeat.
- DiagnosticStore.RunVerifies: stated up to the same saturation.
- DiagnosticStore.RunChangesLayoutOnly: stated up to the same saturation.
- Coalescing.RowChangesExactly: stated up to the same saturation.
- LogFlush.RunConserves: stated for the synchronous flush, up to the same saturation.
- LogFlush.RunRepeats: stated for the synchronous flush, up to the same saturation.
- Recordings.SnapshotShows: stated up to the same saturation.
- Sanitizing, redacting and cutting a recorded field before it reaches the store: a recording carries the field's final text, and redaction is proved on its own in `Privacy.dfy`.
- Launcher file contents: health and counter files are absent, unreadable or a number, and the signed manifest is its parsed form, whose text is proved in `Manifest.dfy`. Lower-casing a digest of `SHA256SUMS.txt` is ASCII lower-casing, which decides the same for hexadecimal.
- Launcher process start, exit codes, path resolution, staging names, the restored configuration file (only the failure of its copy) and the development trust-anchor override.
- Manifest.SignManifest: entries and counter are assumed within the producer's limits only where the result is parsed back.
- Manifest paths are compared as sequences of code points, which is the order of their UTF-8 bytes.
- The native labels, context plumbing and log entries of the timer adapter: they do not influence its state.
- Findings of a scan carry kind and span; the constant field name that is copied into them is not modelled.
- The six scanners share one loop over positions here, where the source writes it out six times.
- Error message texts of the duration and configuration parsers: refusals are told apart by kind or not at all.
- Configuration.ConfigFile.Load: the naming of backups is not modelled; running out of names is one of the failures of the rename.
- Directory entries that fail while listing are a failed listing, which deletes nothing in the source either.
- Preset lists as a menu, scheduled pauses, power policy, tiers and decision tables: easy members.
