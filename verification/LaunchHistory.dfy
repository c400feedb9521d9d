/** What launches keep, one by one and over whole histories, however their calls go. */
module LaunchHistory {
  import opened Options
  import opened Text
  import opened LaunchSpec
  import opened Launcher

  // ---------------------------------------------------------------------------
  // What one selection does to each part of the disk.

  /** The number that counting a failure starts from. */
  function CountedFrom(env: Env, p: Phase, f: NumberFile): nat {
    if env.fails(Call(p, CountThere)) then 0 else Stored(f)
  }

  /** The health file of a slot after a selection with the given record. */
  function HealthAfter(env: Env, d: Disk, r: Record, s: Slot): NumberFile {
    if s in r.cleared then NoFile
    else if s in r.counted then OneMore(CountedFrom(env, r.counted[s], Health(d, s)))
    else Health(d, s)
  }

  predicate HealthExact(env: Env, d: Disk, o: Outcome) {
    forall s: Slot :: Health(o.disk, s) == HealthAfter(env, d, o.record, s)
  }

  /** Only a slot that passed is cleared, or both after a restoration, for which both were counted. */
  predicate RecordInOrder(env: Env, d: Disk, o: Outcome) {
    && (forall s :: s in o.record.cleared ==>
          o.record.passed.Some? && (o.record.passed.value.phase.Golden? || o.record.passed.value.slot == s))
    && (o.record.passed.Some? ==>
          var p, s := o.record.passed.value.phase, o.record.passed.value.slot;
          if p.Golden? then s == A && A in o.record.counted && B in o.record.counted
          else s !in o.record.counted && Gate(env, p, d, s).Ok? && Gate(env, p, d, s).value < BOOT_FAILURE_THRESHOLD)
  }

  lemma LaunchHealth(env: Env, p: Phase, d: Disk, s: Slot, pending: Option<nat>, counted: map<Slot, Phase>)
    ensures var o := Launch(env, p, d, s, pending, counted);
            && Health(o.disk, s) == (if s in o.record.cleared then NoFile else Health(d, s))
            && Health(o.disk, Alternate(s)) == Health(d, Alternate(s))
            && o.record.passed == Some(Pass(p, s)) && o.record.counted == counted
            && o.record.cleared <= {s}
  {
  }

  lemma StagedIsGolden(c: Crypto, env: Env, d: Disk)
    ensures Staged(c, env, d).Ok? ==>
              GoldenListed(c, d.pkg) && c.sha(Staged(c, env, d).value) == c.sha(d.pkg.recovery.bytes)
  {
  }

  lemma ActivateKeeps(c: Crypto, env: Env, d: Disk, pending: Result<Option<nat>>)
    requires pending == Verify(c, env, Golden, d, A)
    ensures var (d1, r) := Activate(env, d, pending);
            && d1 == d.(active := d1.active, log := d1.log)
            && (if r.Ok? then
                  && d1.active == Some(SlotText(A)) && d1.log == d.log + [GoldenRestoration]
                  && r == pending == Verify(c, env, Golden, d1, A)
                else d1.active == d.active)
  {
    VerdictOf(c, env, Golden, d, Activate(env, d, pending).0, A);
  }

  lemma InstallKeeps(c: Crypto, env: Env, d: Disk)
    ensures var (d1, r) := Install(c, env, d);
            && d1 == d.(pkg := d1.pkg) && d1.pkg == d.pkg.(exeA := d1.pkg.exeA)
            && (if r.Ok? then GoldenCopy(c, d, d1) else d1 == d)
  {
    StagedIsGolden(c, env, d);
  }

  lemma RestoreKeeps(c: Crypto, env: Env, d: Disk)
    ensures var (d1, r) := Restore(c, env, d);
            && d1.healthA == d.healthA && d1.healthB == d.healthB && d1.counter == d.counter
            && d1.pkg == d.pkg.(exeA := d1.pkg.exeA)
            && (d1.pkg != d.pkg ==> GoldenCopy(c, d, d1))
            && (r.Ok? ==>
                  && GoldenCopy(c, d, d1) && d1.active == Some(SlotText(A)) && d1.log == d.log + [GoldenRestoration]
                  && r == Verify(c, env, Golden, d1, A))
            && (r.Err? ==> d1.active == d.active)
  {
    InstallKeeps(c, env, d);
    var d1 := Install(c, env, d).0;
    ActivateKeeps(c, env, d1, Verify(c, env, Golden, d1, A));
  }

  /** The golden master is in place, with its configuration, and has the checksum listed for it. */
  predicate GoldenListed(c: Crypto, pkg: Package) {
    && pkg.recovery.File? && pkg.recoveryConfig && pkg.sums.Some?
    && FindSum(LinesOf(pkg.sums.value), RECOVERY_PATH) == Some(Lowercase(c.sha(pkg.recovery.bytes)))
  }

  /** Slot A holds bytes with the golden master's digest, which is the listed one. */
  predicate GoldenCopy(c: Crypto, before: Disk, after: Disk) {
    && GoldenListed(c, before.pkg) && after.pkg.exeA.File?
    && c.sha(after.pkg.exeA.bytes) == c.sha(before.pkg.recovery.bytes)
  }

  /** A verdict depends on the package and the counter file alone. */
  lemma VerdictOf(c: Crypto, env: Env, p: Phase, d: Disk, d': Disk, s: Slot)
    requires d.pkg == d'.pkg && d.counter == d'.counter
    ensures Verify(c, env, p, d, s) == Verify(c, env, p, d', s)
  {
  }

  lemma RestoredHealth(env: Env, d: Disk, pending: Option<nat>, counted: map<Slot, Phase>)
    ensures var o := LaunchRestored(env, d, pending, counted);
            && (forall s: Slot :: Health(o.disk, s) == if s in o.record.cleared then NoFile else Health(d, s))
            && o.record.passed == Some(Pass(Golden, A)) && o.record.counted == counted
  {
  }

  lemma CountIs(env: Env, p: Phase, d: Disk, s: Slot)
    ensures Count(env, p, d, s).Some? ==>
              Count(env, p, d, s).value == WithHealth(d, s, OneMore(CountedFrom(env, p, Health(d, s))))
  {
  }

  /** The health files after a selection are exactly those of its record. */
  lemma HealthIsExact(c: Crypto, env: Env, d: Disk)
    ensures HealthExact(env, d, Select(c, env, d)) && RecordInOrder(env, d, Select(c, env, d))
  {
    var chosen := Chosen(env, d);
    if chosen.Ok? {
      var slot := chosen.value;
      match Check(c, env, Active, d, slot)
      case Ok(pending) => LaunchHealth(env, Active, d, slot, pending, map[]);
      case Err(e) =>
        CountIs(env, Active, d, slot);
        if !e.HealthTrackingFailure? && Count(env, Active, d, slot).Some? {
          StandbyHealth(c, env, d, Count(env, Active, d, slot).value, slot, e);
        }
    }
  }

  lemma StandbyHealth(c: Crypto, env: Env, d: Disk, d1: Disk, slot: Slot, e: SelectionError)
    requires d1 == WithHealth(d, slot, OneMore(CountedFrom(env, Active, Health(d, slot))))
    ensures var o := SelectStandby(c, env, d1, slot, e); HealthExact(env, d, o) && RecordInOrder(env, d, o)
  {
    var standby := Alternate(slot);
    match Check(c, env, Standby, d1, standby)
    case Ok(pending) =>
      var d2 := d1.(log := d1.log + [Rollback(slot, standby)], active := Some(SlotText(standby)));
      LaunchHealth(env, Standby, d2, standby, pending, map[slot := Active]);
    case Err(e2) =>
      CountIs(env, Standby, d1, standby);
      if !e2.HealthTrackingFailure? && Count(env, Standby, d1, standby).Some? {
        GoldenHealth(c, env, d, Count(env, Standby, d1, standby).value, slot, e, e2);
      }
  }

  lemma GoldenHealth(c: Crypto, env: Env, d: Disk, d2: Disk, slot: Slot, e: SelectionError, e2: SelectionError)
    requires Health(d2, slot) == OneMore(CountedFrom(env, Active, Health(d, slot)))
    requires Health(d2, Alternate(slot)) == OneMore(CountedFrom(env, Standby, Health(d, Alternate(slot))))
    ensures var o := SelectGolden(c, env, d2, slot, e, e2); HealthExact(env, d, o) && RecordInOrder(env, d, o)
  {
    RestoreKeeps(c, env, d2);
    var (d3, pending) := Restore(c, env, d2);
    if pending.Ok? {
      RestoredHealth(env, d3, pending.value, map[slot := Active, Alternate(slot) := Standby]);
    }
  }

  // ---------------------------------------------------------------------------
  // What authorizes a launch.

  /** The counter file once a verdict's counter is committed. */
  function Committed(f: NumberFile, verdict: Result<Option<nat>>): NumberFile {
    if verdict.Ok? && verdict.value.Some? then Number(verdict.value.value) else f
  }

  /** A launched slot passed the verification, on the package it is launched from, and the counter
      that this verification asked for is the only change to the counter file. */
  predicate Authorized(c: Crypto, env: Env, d: Disk, o: Outcome) {
    && (o.result.Err? ==> o.disk.counter == d.counter)
    && (o.result.Ok? ==>
          && o.record.passed.Some? && o.record.passed.value.slot == o.result.value
          && var verdict := Verify(c, env, o.record.passed.value.phase, d.(pkg := o.disk.pkg), o.result.value);
            verdict.Ok? && o.disk.counter == Committed(d.counter, verdict))
  }

  /** What a successful launch adds to the log. */
  function Logged(pass: Pass): seq<RollbackEvent> {
    match pass.phase
    case Active => []
    case Standby => [Rollback(Alternate(pass.slot), pass.slot)]
    case Golden => [GoldenRestoration]
  }

  /** Only a restoration touches the package, and only slot A; only a pass off the chosen slot
      switches the active slot. */
  predicate Directed(c: Crypto, env: Env, d: Disk, o: Outcome) {
    && o.disk.pkg == d.pkg.(exeA := o.disk.pkg.exeA)
    && (o.disk.pkg != d.pkg ==> GoldenCopy(c, d, o.disk))
    && (o.record.passed.Some? ==>
          && (if o.record.passed.value.phase.Golden? then GoldenCopy(c, d, o.disk) else o.disk.pkg == d.pkg)
          && (o.record.passed.value.phase.Active? ==>
                o.disk.active == d.active && Chosen(env, d) == Ok(o.record.passed.value.slot))
          && (!o.record.passed.value.phase.Active? && o.result.Ok? ==>
                o.disk.active == Some(SlotText(o.record.passed.value.slot)))
          && (o.result.Ok? ==> o.disk.log == d.log + Logged(o.record.passed.value)))
  }

  /** The calls between a pass and the clearing succeed. */
  predicate Reaches(env: Env, p: Phase) {
    p.Standby? ==> !env.fails(Call(p, AppendLog)) && !env.fails(Call(p, WriteActive))
  }

  /** Clearing the slot's health does not fail: there is none, or it is missed, or removed. */
  predicate Removes(env: Env, p: Phase, f: NumberFile, s: Slot) {
    f.NoFile? || env.fails(Call(p, ClearThere(s))) || !env.fails(Call(p, RemoveHealth(s)))
  }

  predicate Commits(env: Env, p: Phase, verdict: Result<Option<nat>>) {
    verdict == Ok(None) || (!env.fails(Call(p, StageCounter)) && !env.fails(Call(p, ReplaceCounter)))
  }

  /** After a pass the calls alone decide which counters are cleared and whether the launch succeeds. */
  predicate Settled(c: Crypto, env: Env, d: Disk, o: Outcome) {
    o.record.passed.Some? ==>
      var p, s := o.record.passed.value.phase, o.record.passed.value.slot;
      var commits := Commits(env, p, Verify(c, env, p, d.(pkg := o.disk.pkg), s));
      if p.Golden? then
        && (o.result.Ok? <==> Removes(env, p, Number(1), A) && Removes(env, p, Number(1), B) && commits)
        && (A in o.record.cleared <==> Removes(env, p, Number(1), A) && !env.fails(Call(p, ClearThere(A))))
        && (B in o.record.cleared <==>
              Removes(env, p, Number(1), A) && Removes(env, p, Number(1), B) && !env.fails(Call(p, ClearThere(B))))
      else
        && (o.result.Ok? <==> Reaches(env, p) && Removes(env, p, Health(d, s), s) && commits)
        && (s in o.record.cleared <==>
              Reaches(env, p) && Removes(env, p, Health(d, s), s) && !env.fails(Call(p, ClearThere(s))))
  }

  predicate InOrder(c: Crypto, env: Env, d: Disk, o: Outcome) {
    Authorized(c, env, d, o) && Directed(c, env, d, o) && Settled(c, env, d, o)
  }

  lemma LaunchKeeps(env: Env, p: Phase, d: Disk, s: Slot, pending: Option<nat>, counted: map<Slot, Phase>)
    requires !p.Golden?
    ensures var o := Launch(env, p, d, s, pending, counted);
            && o.disk.pkg == d.pkg && o.disk.active == d.active && o.disk.log == d.log
            && o.disk.counter == (if o.result.Ok? then Committed(d.counter, Ok(pending)) else d.counter)
            && o.record.passed == Some(Pass(p, s)) && (o.result.Ok? ==> o.result.value == s)
            && (o.result.Ok? <==> Removes(env, p, Health(d, s), s) && Commits(env, p, Ok(pending)))
            && (s in o.record.cleared <==> Removes(env, p, Health(d, s), s) && !env.fails(Call(p, ClearThere(s))))
  {
  }

  /** A launch after a pass, from a disk that differs from the first one in what is not verified. */
  lemma LaunchInOrder(c: Crypto, env: Env, p: Phase, d: Disk, d1: Disk, s: Slot, pending: Option<nat>,
                      counted: map<Slot, Phase>)
    requires d1.counter == d.counter && d1.pkg == d.pkg && Health(d1, s) == Health(d, s)
    requires !p.Golden? && Reaches(env, p) && Verify(c, env, p, d1, s) == Ok(pending)
    requires if p.Active? then d1.active == d.active && Chosen(env, d) == Ok(s) else d1.active == Some(SlotText(s))
    requires d1.log == d.log + Logged(Pass(p, s))
    ensures InOrder(c, env, d, Launch(env, p, d1, s, pending, counted))
  {
    var o := Launch(env, p, d1, s, pending, counted);
    LaunchKeeps(env, p, d1, s, pending, counted);
    VerdictOf(c, env, p, d1, d.(pkg := o.disk.pkg), s);
  }

  lemma RestoredKeeps(env: Env, d: Disk, pending: Option<nat>, counted: map<Slot, Phase>)
    requires d.healthA.Number? && d.healthB.Number?
    ensures var o := LaunchRestored(env, d, pending, counted);
            && o.disk.pkg == d.pkg && o.disk.active == d.active && o.disk.log == d.log
            && o.disk.counter == (if o.result.Ok? then Committed(d.counter, Ok(pending)) else d.counter)
            && o.record.passed == Some(Pass(Golden, A)) && (o.result.Ok? ==> o.result.value == A)
            && (o.result.Ok? <==>
                  Removes(env, Golden, Number(1), A) && Removes(env, Golden, Number(1), B)
                  && Commits(env, Golden, Ok(pending)))
            && (A in o.record.cleared <==>
                  Removes(env, Golden, Number(1), A) && !env.fails(Call(Golden, ClearThere(A))))
            && (B in o.record.cleared <==>
                  Removes(env, Golden, Number(1), A) && Removes(env, Golden, Number(1), B)
                  && !env.fails(Call(Golden, ClearThere(B))))
  {
  }

  lemma RestoredInOrder(c: Crypto, env: Env, d: Disk, d1: Disk, pending: Option<nat>, counted: map<Slot, Phase>)
    requires d1.counter == d.counter && d1.pkg == d.pkg.(exeA := d1.pkg.exeA) && GoldenCopy(c, d, d1)
    requires d1.healthA.Number? && d1.healthB.Number? && d1.log == d.log + [GoldenRestoration]
    requires Verify(c, env, Golden, d1, A) == Ok(pending) && d1.active == Some(SlotText(A))
    ensures InOrder(c, env, d, LaunchRestored(env, d1, pending, counted))
  {
    var o := LaunchRestored(env, d1, pending, counted);
    RestoredKeeps(env, d1, pending, counted);
    VerdictOf(c, env, Golden, d1, d.(pkg := o.disk.pkg), A);
  }

  lemma SelectInOrder(c: Crypto, env: Env, d: Disk)
    ensures InOrder(c, env, d, Select(c, env, d))
  {
    var chosen := Chosen(env, d);
    if chosen.Ok? {
      var slot := chosen.value;
      match Check(c, env, Active, d, slot)
      case Ok(pending) => LaunchInOrder(c, env, Active, d, d, slot, pending, map[]);
      case Err(e) =>
        CountIs(env, Active, d, slot);
        if !e.HealthTrackingFailure? && Count(env, Active, d, slot).Some? {
          StandbyInOrder(c, env, d, Count(env, Active, d, slot).value, slot, e);
        }
    }
  }

  lemma StandbyInOrder(c: Crypto, env: Env, d: Disk, d1: Disk, slot: Slot, e: SelectionError)
    requires d1.counter == d.counter && d1.pkg == d.pkg && d1.active == d.active && d1.log == d.log
    requires Health(d1, slot).Number? && Health(d1, Alternate(slot)) == Health(d, Alternate(slot))
    ensures InOrder(c, env, d, SelectStandby(c, env, d1, slot, e))
  {
    var standby := Alternate(slot);
    match Check(c, env, Standby, d1, standby)
    case Ok(pending) =>
      var d2 := d1.(log := d1.log + [Rollback(slot, standby)], active := Some(SlotText(standby)));
      VerdictOf(c, env, Standby, d1, d2, standby);
      if Reaches(env, Standby) {
        LaunchInOrder(c, env, Standby, d, d2, standby, pending, map[slot := Active]);
      }
    case Err(e2) =>
      CountIs(env, Standby, d1, standby);
      if !e2.HealthTrackingFailure? && Count(env, Standby, d1, standby).Some? {
        GoldenInOrder(c, env, d, Count(env, Standby, d1, standby).value, slot, e, e2);
      }
  }

  lemma GoldenInOrder(c: Crypto, env: Env, d: Disk, d1: Disk, slot: Slot, e: SelectionError, e2: SelectionError)
    requires d1.counter == d.counter && d1.pkg == d.pkg && d1.active == d.active && d1.log == d.log
    requires d1.healthA.Number? && d1.healthB.Number?
    ensures InOrder(c, env, d, SelectGolden(c, env, d1, slot, e, e2))
  {
    RestoreKeeps(c, env, d1);
    var (d2, pending) := Restore(c, env, d1);
    if pending.Ok? {
      RestoredInOrder(c, env, d, d2, pending.value, map[slot := Active, Alternate(slot) := Standby]);
    }
  }

  // ---------------------------------------------------------------------------
  // Histories: launches one after the other, with the package changing freely in between.

  /** One start of the launcher. */
  datatype Boot = Boot(env: Env, before: Disk, outcome: Outcome)

  ghost predicate Faithful(c: Crypto, b: Boot) {
    b.outcome == Select(c, b.env, b.before)
  }

  ghost predicate History(c: Crypto, bs: seq<Boot>) {
    && (forall i :: 0 <= i < |bs| ==> Faithful(c, bs[i]))
    && (forall i :: 0 < i < |bs| ==> bs[i].before == bs[i - 1].outcome.disk.(pkg := bs[i].before.pkg))
  }

  /** Starts a host again and again, with a new package in place and other calls failing each time.
      What happens is a history in the sense of the statements below. */
  method RunLaunches(h: Host, packages: seq<Package>, envs: seq<Env>) returns (ghost bs: seq<Boot>)
    requires |packages| == |envs|
    modifies h
    ensures Driven(h.crypto, bs, packages, envs, old(h.disk), h.disk)
    ensures (forall i :: 0 <= i < |bs| ==> !Downgrades(bs[i])) ==>
      Stored(old(h.disk).counter) <= Stored(h.disk.counter)
  {
    bs := [];
    for i := 0 to |packages|
      invariant Driven(h.crypto, bs, packages[..i], envs[..i], old(h.disk), h.disk)
    {
      ghost var from := h.disk;
      h.disk := h.disk.(pkg := packages[i]);
      ghost var b := Boot(envs[i], h.disk, Select(h.crypto, envs[i], h.disk));
      var r := h.SelectSlot(envs[i]);
      DrivenGrows(h.crypto, bs, packages[..i], envs[..i], old(h.disk), from, b, packages[i], envs[i]);
      bs := bs + [b];
      assert packages[..i + 1] == packages[..i] + [packages[i]] && envs[..i + 1] == envs[..i] + [envs[i]];
    }
    assert packages[..|packages|] == packages && envs[..|envs|] == envs;
    DrivenRises(h.crypto, bs, packages, envs, old(h.disk), h.disk);
  }

  /** The starts of a host so far: one for each package and each way the calls go, from the first
      disk to the present one. */
  ghost predicate Driven(c: Crypto, bs: seq<Boot>, packages: seq<Package>, envs: seq<Env>, first: Disk, now: Disk) {
    && |bs| == |packages| == |envs| && History(c, bs)
    && (forall k :: 0 <= k < |bs| ==> bs[k].before.pkg == packages[k] && bs[k].env == envs[k])
    && (bs == [] ==> now == first)
    && (bs != [] ==> bs[0].before == first.(pkg := packages[0]) && now == bs[|bs| - 1].outcome.disk)
  }

  lemma DrivenGrows(c: Crypto, bs: seq<Boot>, packages: seq<Package>, envs: seq<Env>, first: Disk, now: Disk, b: Boot,
                    pkg: Package, env: Env)
    requires Driven(c, bs, packages, envs, first, now) && Faithful(c, b) && b.before == now.(pkg := pkg) && b.env == env
    ensures Driven(c, bs + [b], packages + [pkg], envs + [env], first, b.outcome.disk)
  {
    HistoryGrows(c, bs, b);
  }

  lemma HistoryGrows(c: Crypto, bs: seq<Boot>, b: Boot)
    requires History(c, bs) && Faithful(c, b)
    requires bs != [] ==> b.before == bs[|bs| - 1].outcome.disk.(pkg := b.before.pkg)
    ensures History(c, bs + [b])
  {
  }

  lemma DrivenRises(c: Crypto, bs: seq<Boot>, packages: seq<Package>, envs: seq<Env>, first: Disk, now: Disk)
    requires Driven(c, bs, packages, envs, first, now)
    ensures (forall i :: 0 <= i < |bs| ==> !Downgrades(bs[i])) ==> Stored(first.counter) <= Stored(now.counter)
  {
    if bs != [] {
      CounterNeverDecreases(c, bs, 0, |bs| - 1);
    }
  }

  // ---------------------------------------------------------------------------
  // The release counter.

  /** The deciding check missed this step. */
  predicate Missed(b: Boot, step: Step) {
    b.outcome.record.passed.Some? && b.env.fails(Call(b.outcome.record.passed.value.phase, step))
  }

  /** A launch on the strength of the signed manifest: its probe reported the file. */
  predicate SignedLaunch(b: Boot) {
    b.outcome.result.Ok? && b.before.pkg.manifest.Signed? && !Missed(b, ManifestThere)
  }

  function CounterOf(b: Boot): nat
    requires SignedLaunch(b)
  {
    b.before.pkg.manifest.manifest.counter
  }

  /** The deciding probe missed the counter file, and the manifest's counter lies strictly between
      zero and the stored one. */
  predicate Downgrades(b: Boot) {
    SignedLaunch(b) && Missed(b, CounterThere) && 0 < CounterOf(b) < Stored(b.before.counter)
  }

  /** A file of the right kind with the digest that the entries give for the path. */
  predicate Matches(c: Crypto, node: FileNode, entries: seq<Entry>, path: string) {
    node.File? && FindEntry(entries, path) == Some(c.sha(node.bytes))
  }

  /** What a verified manifest vouches for. */
  predicate Vouched(c: Crypto, pkg: Package, s: Slot) {
    && pkg.manifest.Signed? && pkg.anchor.Anchor? && c.verifies(pkg.manifest.manifest, pkg.anchor.key)
    && Matches(c, Exe(pkg, s), pkg.manifest.manifest.entries, SlotPath(s))
    && (FindEntry(pkg.manifest.manifest.entries, RECOVERY_PATH).Some? ==>
          Matches(c, pkg.recovery, pkg.manifest.manifest.entries, RECOVERY_PATH))
  }

  /** The slot's executable has the checksum that is listed for it. */
  predicate Summed(c: Crypto, pkg: Package, s: Slot) {
    pkg.sums.Some? && Exe(pkg, s).File?
    && FindSum(LinesOf(pkg.sums.value), SlotPath(s)) == Some(Lowercase(c.sha(Exe(pkg, s).bytes)))
  }

  /** What a successful verification has established. */
  lemma VerdictMeans(c: Crypto, env: Env, p: Phase, d: Disk, s: Slot)
    requires Verify(c, env, p, d, s).Ok?
    ensures var v, m := Verify(c, env, p, d, s).value, d.pkg.manifest;
            if m.NoManifest? || env.fails(Call(p, ManifestThere)) then v.None? && Summed(c, d.pkg, s)
            else
              var seen := if env.fails(Call(p, CounterThere)) then NoFile else d.counter;
              && Vouched(c, d.pkg, s) && !seen.Garbage? && Stored(seen) <= m.manifest.counter
              && v == if m.manifest.counter == Stored(seen) then None else Some(m.manifest.counter)
  {
  }

  /** A launch has signature and digests verified exactly when the probe of the manifest reported
      the file; a package whose manifest was missed is held to its checksums only. */
  lemma ManifestIsVerified(c: Crypto, b: Boot)
    requires Faithful(c, b) && b.outcome.result.Ok? && !b.before.pkg.manifest.NoManifest?
    ensures !Missed(b, ManifestThere) ==> Vouched(c, b.outcome.disk.pkg, b.outcome.result.value)
    ensures Missed(b, ManifestThere) ==>
              b.outcome.disk.counter == b.before.counter && Summed(c, b.outcome.disk.pkg, b.outcome.result.value)
  {
    SelectInOrder(c, b.env, b.before);
    var d := b.before.(pkg := b.outcome.disk.pkg);
    VerdictMeans(c, b.env, b.outcome.record.passed.value.phase, d, b.outcome.result.value);
  }

  lemma CounterMoves(c: Crypto, b: Boot)
    requires Faithful(c, b)
    ensures !SignedLaunch(b) ==> b.outcome.disk.counter == b.before.counter
    ensures SignedLaunch(b) ==>
              var seen := if Missed(b, CounterThere) then NoFile else b.before.counter;
              && !seen.Garbage? && Stored(seen) <= CounterOf(b)
              && b.outcome.disk.counter == if CounterOf(b) == Stored(seen) then b.before.counter else Number(CounterOf(b))
  {
    SelectInOrder(c, b.env, b.before);
    if b.outcome.result.Ok? {
      var d := b.before.(pkg := b.outcome.disk.pkg);
      VerdictMeans(c, b.env, b.outcome.record.passed.value.phase, d, b.outcome.result.value);
    }
  }

  /** The stored counter falls over a launch, whatever fails, exactly when the deciding probe missed
      the counter file and the manifest's counter lies strictly between zero and the stored one. */
  lemma DowngradeNeedsMissedProbe(c: Crypto, b: Boot)
    requires Faithful(c, b)
    ensures Stored(b.outcome.disk.counter) < Stored(b.before.counter) <==> Downgrades(b)
  {
    CounterMoves(c, b);
  }

  /** A signed launch whose counter lies below the stored one. */
  predicate Overlooks(b: Boot) {
    SignedLaunch(b) && CounterOf(b) < Stored(b.before.counter)
  }

  /** A signed launch leaves its manifest's counter behind unless that counter is zero and a larger
      stored one was missed; it is below the stored one only if the stored one was missed. */
  lemma CounterIsLeft(c: Crypto, b: Boot)
    requires Faithful(c, b) && SignedLaunch(b)
    ensures Stored(b.outcome.disk.counter) == CounterOf(b) <==> !(Overlooks(b) && CounterOf(b) == 0)
    ensures Overlooks(b) ==> Missed(b, CounterThere)
  {
    CounterMoves(c, b);
  }

  lemma {:induction false} CounterGrows(c: Crypto, bs: seq<Boot>, i: nat, j: nat)
    requires History(c, bs) && i <= j < |bs| && forall k :: i <= k <= j ==> !Downgrades(bs[k])
    ensures Stored(bs[i].before.counter) <= Stored(bs[j].before.counter) <= Stored(bs[j].outcome.disk.counter)
    decreases j - i
  {
    DowngradeNeedsMissedProbe(c, bs[j]);
    if i < j {
      CounterGrows(c, bs, i, j - 1);
    }
  }

  predicate CountersRise(bs: seq<Boot>, i: nat, j: nat)
    requires j < |bs|
  {
    forall a, b :: i <= a <= b <= j ==> Stored(bs[a].before.counter) <= Stored(bs[b].outcome.disk.counter)
  }

  /** Over any stretch of launches, whatever fails and whatever packages come, the stored counter
      never decreases if and only if none of them is such a downgrade. */
  lemma CounterNeverDecreases(c: Crypto, bs: seq<Boot>, i: nat, j: nat)
    requires History(c, bs) && i <= j < |bs|
    ensures (forall k :: i <= k <= j ==> !Downgrades(bs[k])) <==> CountersRise(bs, i, j)
    ensures CountersRise(bs, i, j) ==> Stored(bs[i].before.counter) <= Stored(bs[j].outcome.disk.counter)
  {
    if forall k :: i <= k <= j ==> !Downgrades(bs[k]) {
      forall a, b | i <= a <= b <= j ensures Stored(bs[a].before.counter) <= Stored(bs[b].outcome.disk.counter) {
        CounterGrows(c, bs, a, b);
      }
    }
    if CountersRise(bs, i, j) {
      forall k | i <= k <= j ensures !Downgrades(bs[k]) {
        DowngradeNeedsMissedProbe(c, bs[k]);
        assert Stored(bs[k].before.counter) <= Stored(bs[k].outcome.disk.counter);
      }
    }
  }

  /** No signed launch goes below an earlier one, and each leaves its own counter behind, unless a
      stored counter was missed on the way. */
  lemma SignedLaunchesAscend(c: Crypto, bs: seq<Boot>, i: nat, j: nat)
    requires History(c, bs) && i < j < |bs| && SignedLaunch(bs[i]) && SignedLaunch(bs[j])
    requires forall k :: i <= k <= j ==> !Overlooks(bs[k])
    ensures CounterOf(bs[i]) <= CounterOf(bs[j])
    ensures Stored(bs[i].outcome.disk.counter) == CounterOf(bs[i])
    ensures Stored(bs[j].outcome.disk.counter) == CounterOf(bs[j])
  {
    assert Faithful(c, bs[i]) && Faithful(c, bs[j]);
    CounterIsLeft(c, bs[i]);
    CounterIsLeft(c, bs[j]);
    CounterGrows(c, bs, i + 1, j);
  }

  // ---------------------------------------------------------------------------
  // Crash loops and restorations.

  predicate Looping(d: Disk, s: Slot) {
    Stored(Health(d, s)) >= BOOT_FAILURE_THRESHOLD
  }

  /** One more failure was counted from zero, because the probe missed the counter. */
  predicate Recounted(b: Boot, s: Slot) {
    s in b.outcome.record.counted && b.env.fails(Call(b.outcome.record.counted[s], CountThere))
  }

  /** The health gate missed the counter and the slot passed; then nothing failed before its counter
      was cleared, or the clearing missed the counter as well and the launch succeeded. */
  predicate Readmitted(c: Crypto, b: Boot, s: Slot) {
    && b.outcome.record.passed.Some? && b.outcome.record.passed.value.slot == s
    && var p := b.outcome.record.passed.value.phase;
      && !p.Golden? && b.env.fails(Call(p, HealthThere)) && Reaches(b.env, p)
      && (if b.env.fails(Call(p, ClearThere(s))) then Commits(b.env, p, Verify(c, b.env, p, b.before, s))
          else !b.env.fails(Call(p, RemoveHealth(s))))
  }

  /** A restoration succeeded and no removal failed before the counter was cleared, or the clearing
      missed it and slot A was launched past it. */
  predicate Restored(b: Boot, s: Slot) {
    && b.outcome.record.passed == Some(Pass(Golden, A))
    && (if b.env.fails(Call(Golden, ClearThere(s))) then b.outcome.result == Ok(s)
        else Removes(b.env, Golden, Number(1), A) && Removes(b.env, Golden, Number(1), s))
  }

  predicate Slips(c: Crypto, b: Boot, s: Slot) {
    Recounted(b, s) || Readmitted(c, b, s) || Restored(b, s)
  }

  /** A slot at the failure threshold is launched, or falls below it, exactly when its counter was
      missed in one of two ways or the slot was restored. */
  lemma LoopingExactly(c: Crypto, b: Boot, s: Slot)
    requires Faithful(c, b) && Looping(b.before, s)
    ensures b.outcome.result == Ok(s) || !Looping(b.outcome.disk, s) <==> Slips(c, b, s)
  {
    HealthIsExact(c, b.env, b.before);
    SelectInOrder(c, b.env, b.before);
    assert Health(b.outcome.disk, s) == HealthAfter(b.env, b.before, b.outcome.record, s);
    if b.outcome.record.passed.Some? && !b.outcome.record.passed.value.phase.Golden? {
      assert b.before.(pkg := b.outcome.disk.pkg) == b.before;
    }
  }

  /** The slot is at the threshold before the launch and after it, and is not the one launched. */
  predicate Out(b: Boot, s: Slot) {
    Looping(b.before, s) && Looping(b.outcome.disk, s) && b.outcome.result != Ok(s)
  }

  predicate StaysOut(bs: seq<Boot>, s: Slot, i: nat, j: nat)
    requires j < |bs|
  {
    forall k :: i <= k <= j ==> Out(bs[k], s)
  }

  /** Over any stretch of launches a slot that reached the threshold stays out if and only if its
      counter was never missed in one of the two ways and it was not restored. */
  lemma CrashLoopStaysOut(c: Crypto, bs: seq<Boot>, s: Slot, i: nat, j: nat)
    requires History(c, bs) && i <= j < |bs| && Looping(bs[i].before, s)
    ensures StaysOut(bs, s, i, j) <==> forall k :: i <= k <= j ==> !Slips(c, bs[k], s)
  {
    var slips := (b: Boot) => Slips(c, b, s);
    forall k | i <= k <= j && Looping(bs[k].before, s) ensures Out(bs[k], s) <==> !slips(bs[k]) {
      assert Faithful(c, bs[k]);
      LoopingExactly(c, bs[k], s);
    }
    StaysByStep(bs, s, i, j, slips);
    assert forall k :: i <= k <= j ==> (slips(bs[k]) <==> Slips(c, bs[k], s));
  }

  lemma {:induction false} StaysByStep(bs: seq<Boot>, s: Slot, i: nat, j: nat, slips: Boot -> bool)
    requires i <= j < |bs| && Looping(bs[i].before, s)
    requires forall k :: i < k <= j ==> bs[k].before == bs[k - 1].outcome.disk.(pkg := bs[k].before.pkg)
    requires forall k :: i <= k <= j && Looping(bs[k].before, s) ==> (Out(bs[k], s) <==> !slips(bs[k]))
    ensures StaysOut(bs, s, i, j) <==> forall k :: i <= k <= j ==> !slips(bs[k])
    decreases j - i
  {
    if i < j {
      StaysByStep(bs, s, i, j - 1, slips);
      assert Health(bs[j].before, s) == Health(bs[j - 1].outcome.disk, s);
      assert StaysOut(bs, s, i, j) <==> StaysOut(bs, s, i, j - 1) && Out(bs[j], s);
    }
  }

  /** A restoration leaves slot A with the bytes of the golden master. */
  lemma RestorationIsGolden(c: Crypto, b: Boot)
    requires Faithful(c, b) && CollisionFree(c.sha)
    requires b.outcome.disk.pkg != b.before.pkg || b.outcome.record.passed == Some(Pass(Golden, A))
    ensures b.outcome.disk.pkg == b.before.pkg.(exeA := b.before.pkg.recovery)
  {
    SelectInOrder(c, b.env, b.before);
  }

  /** Whatever fails, slot A is replaced, or launched as restored, only when the golden master has the
      checksum listed for it. */
  lemma RestorationIsVerified(c: Crypto, b: Boot)
    requires Faithful(c, b)
    requires b.outcome.disk.pkg != b.before.pkg || b.outcome.record.passed == Some(Pass(Golden, A))
    ensures GoldenListed(c, b.before.pkg)
    ensures b.outcome.disk.pkg.exeA.File?
    ensures c.sha(b.outcome.disk.pkg.exeA.bytes) == c.sha(b.before.pkg.recovery.bytes)
  {
    SelectInOrder(c, b.env, b.before);
  }

  /** And with nothing failing, when both slots fail their checks it is replaced by the golden master
      exactly then, and launched exactly when it passes the verification after that. */
  lemma GoldenReplaces(c: Crypto, d: Disk)
    requires !d.healthA.Garbage? && !d.healthB.Garbage? && Chosen(CALM, d).Ok?
    requires Check(c, CALM, Active, d, A).Err? && Check(c, CALM, Active, d, B).Err?
    ensures var o, pkg := Select(c, CALM, d), d.pkg.(exeA := d.pkg.recovery);
            if GoldenListed(c, d.pkg) then
              o.disk.pkg == pkg && (o.result.Ok? <==> Verify(c, CALM, Active, d.(pkg := pkg), A).Ok?)
            else o.disk.pkg == d.pkg && o.result.Err?
  {
    var slot := Chosen(CALM, d).value;
    CheckError(c, CALM, Active, d, slot);
    CountIs(CALM, Active, d, slot);
    var d1 := Count(CALM, Active, d, slot).value;
    CheckError(c, CALM, Standby, d1, Alternate(slot));
    CountIs(CALM, Standby, d1, Alternate(slot));
    var d2 := Count(CALM, Standby, d1, Alternate(slot)).value;
    CalmPhases(c, d, slot, Active);
    CalmPhases(c, d, Alternate(slot), Standby);
    SameCheck(c, CALM, d, d1, Alternate(slot));
    var e, e' := Check(c, CALM, Active, d, slot).error, Check(c, CALM, Standby, d1, Alternate(slot)).error;
    GoldenHeals(c, CALM, d2, slot, e, e');
    GoldenOutcome(c, d2, slot, e, e');
    if GoldenListed(c, d.pkg) {
      var pkg := d.pkg.(exeA := d.pkg.recovery);
      CalmPhases(c, d2.(pkg := pkg), A, Golden);
      VerdictOf(c, CALM, Active, d.(pkg := pkg), d2.(pkg := pkg), A);
    }
  }

  /** With nothing failing the phase does not matter. */
  lemma CalmPhases(c: Crypto, d: Disk, s: Slot, p: Phase)
    ensures Verify(c, CALM, p, d, s) == Verify(c, CALM, Active, d, s)
    ensures Check(c, CALM, p, d, s) == Check(c, CALM, Active, d, s)
  {
    if d.pkg.manifest.Signed? {
      CalmSigned(c, d, s, d.pkg.manifest.manifest, p);
    }
    CalmGates(d, s, p);
  }

  lemma CalmSigned(c: Crypto, d: Disk, s: Slot, m: SignedManifest, p: Phase)
    ensures VerifySigned(c, CALM, p, d, s, m) == VerifySigned(c, CALM, Active, d, s, m)
  {
    assert VerifyDigests(c, CALM, p, d.pkg, s, m.entries) == VerifyDigests(c, CALM, Active, d.pkg, s, m.entries);
  }

  lemma CalmGates(d: Disk, s: Slot, p: Phase)
    ensures Gate(CALM, p, d, s) == Gate(CALM, Active, d, s)
  {
  }

  lemma CalmSum(c: Crypto, node: FileNode, sums: Option<string>, path: string, there: Call, read: Call, hash: Call)
    ensures CheckSum(c, CALM, node, sums, path, there, read, hash).Ok?
            <==> sums.Some? && node.File? && FindSum(LinesOf(sums.value), path) == Some(Lowercase(c.sha(node.bytes)))
  {
  }

  lemma CalmStaging(c: Crypto, d: Disk)
    ensures Staged(c, CALM, d).Ok? <==> GoldenListed(c, d.pkg)
    ensures Staged(c, CALM, d).Ok? ==> Staged(c, CALM, d).value == d.pkg.recovery.bytes
  {
    StagedIsGolden(c, CALM, d);
    if GoldenListed(c, d.pkg) {
      ListedIsStaged(c, d);
    }
  }

  lemma ListedIsStaged(c: Crypto, d: Disk)
    requires GoldenListed(c, d.pkg)
    ensures Staged(c, CALM, d) == Ok(d.pkg.recovery.bytes)
  {
    CalmSum(c, d.pkg.recovery, d.pkg.sums, RECOVERY_PATH, Call(Golden, RecoverySumsThere),
            Call(Golden, ReadRecoverySums), Call(Golden, HashRecovery));
    assert CALM.copy(d.pkg.recovery.bytes) == d.pkg.recovery.bytes;
  }

  lemma GoldenOutcome(c: Crypto, d: Disk, slot: Slot, e: SelectionError, e': SelectionError)
    ensures var o, pkg := SelectGolden(c, CALM, d, slot, e, e'), d.pkg.(exeA := d.pkg.recovery);
            if GoldenListed(c, d.pkg) then
              o.disk.pkg == pkg && Restore(c, CALM, d).1 == Verify(c, CALM, Golden, d.(pkg := pkg), A)
            else o.disk.pkg == d.pkg && Restore(c, CALM, d).1.Err?
  {
    CalmStaging(c, d);
    InstallKeeps(c, CALM, d);
    var d1 := Install(c, CALM, d).0;
    ActivateKeeps(c, CALM, d1, Verify(c, CALM, Golden, d1, A));
    var (d2, pending) := Restore(c, CALM, d);
    if pending.Ok? {
      RestoredPackage(CALM, d2, pending.value, map[slot := Active, Alternate(slot) := Standby]);
    }
  }

  lemma RestoredPackage(env: Env, d: Disk, pending: Option<nat>, counted: map<Slot, Phase>)
    ensures LaunchRestored(env, d, pending, counted).disk.pkg == d.pkg
  {
  }

  /** With nothing failing a slot is accepted exactly when it is what the manifest vouches for, with a
      counter not below the stored one, or without a manifest has its listed checksum. */
  lemma AcceptedExactly(c: Crypto, d: Disk, s: Slot)
    ensures Verify(c, CALM, Active, d, s).Ok?
            <==> if d.pkg.manifest.NoManifest? then Summed(c, d.pkg, s)
                 else
                   && Vouched(c, d.pkg, s) && !d.counter.Garbage?
                   && Stored(d.counter) <= d.pkg.manifest.manifest.counter
  {
    if d.pkg.manifest.Signed? {
      SignedExactly(c, d, s, d.pkg.manifest.manifest);
    }
  }

  lemma SignedExactly(c: Crypto, d: Disk, s: Slot, m: SignedManifest)
    requires d.pkg.manifest == Signed(m)
    ensures VerifySigned(c, CALM, Active, d, s, m).Ok? && Exe(d.pkg, s).File?
            <==> Vouched(c, d.pkg, s) && !d.counter.Garbage? && Stored(d.counter) <= m.counter
  {
  }

  // ---------------------------------------------------------------------------
  // The choice.

  predicate Spotted(env: Env, d: Disk, s: Slot) {
    !Exe(d.pkg, s).Missing? && !env.fails(Call(Active, FallbackExe(s)))
  }

  /** An understood slot letter decides. Otherwise an installed executable does, A's before B's, unless
      its probe missed it; only when none was seen does the choice fail. */
  lemma ChoiceExactly(env: Env, d: Disk)
    requires d.active.Some? && !env.fails(Call(Active, ReadActive))
    ensures match ParseActiveSlot(d.active.value)
            case Some(s) => Chosen(env, d) == Ok(s)
            case None =>
              && (Chosen(env, d) == Err(InvalidMetadata) <==> !Spotted(env, d, A) && !Spotted(env, d, B))
              && (Chosen(env, d).Err? <==> Chosen(env, d) == Err(InvalidMetadata))
              && (Chosen(env, d).Ok? ==> Spotted(env, d, Chosen(env, d).value))
              && (Chosen(env, d) == Ok(B) ==> !Spotted(env, d, A))
  {
  }

  // ---------------------------------------------------------------------------
  // Fixed points.

  /** What makes a disk a fixed point of the failure-free selection. */
  lemma StableExactly(c: Crypto, d: Disk, s: Slot)
    ensures Seen(Select(c, CALM, d)) == (d, Ok(s))
            <==> Chosen(CALM, d) == Ok(s) && Health(d, s) == NoFile && Verify(c, CALM, Active, d, s) == Ok(None)
  {
    if Seen(Select(c, CALM, d)) == (d, Ok(s)) {
      FixedIsStable(c, d, s);
    } else {
      StableIsFixed(c, d, s);
    }
  }

  lemma FixedIsStable(c: Crypto, d: Disk, s: Slot)
    requires Seen(Select(c, CALM, d)) == (d, Ok(s))
    ensures Chosen(CALM, d) == Ok(s) && Health(d, s) == NoFile && Verify(c, CALM, Active, d, s) == Ok(None)
  {
    var o := Select(c, CALM, d);
    SelectInOrder(c, CALM, d);
    HealthIsExact(c, CALM, d);
    var pass := o.record.passed.value;
    assert d.log == d.log + Logged(pass);
    assert |Logged(pass)| == 0;
    assert Health(o.disk, s) == HealthAfter(CALM, d, o.record, s);
    assert d.(pkg := o.disk.pkg) == d;
    VerdictMeans(c, CALM, Active, d, s);
  }

  lemma StableIsFixed(c: Crypto, d: Disk, s: Slot)
    ensures Chosen(CALM, d) == Ok(s) && Health(d, s) == NoFile && Verify(c, CALM, Active, d, s) == Ok(None) ==>
              Seen(Select(c, CALM, d)) == (d, Ok(s))
  {
  }

  /** The disk names no slot and the probe for the executable of slot A missed it. */
  predicate Strays(b: Boot, s: Slot) {
    && b.outcome.record.passed == Some(Pass(Active, s)) && s == B
    && b.before.active.Some? && ParseActiveSlot(b.before.active.value).None?
    && !b.before.pkg.exeA.Missing? && b.env.fails(Call(Active, FallbackExe(A)))
  }

  /** The clearing missed the slot's health counter, which was there or had just been counted up. */
  predicate Leaves(b: Boot, s: Slot) {
    && Missed(b, ClearThere(s))
    && (Health(b.before, s) != NoFile || b.outcome.record.passed.value.phase.Golden?)
  }

  /** A missed manifest is in order after all, for exactly the counter that is stored. */
  predicate InOrderUnseen(c: Crypto, b: Boot, s: Slot) {
    Vouched(c, b.outcome.disk.pkg, s) && !b.before.counter.Garbage?
    && b.outcome.disk.pkg.manifest.manifest.counter == Stored(b.before.counter)
  }

  /** What the check missed of manifest and counter does not matter later on. */
  predicate VerdictStays(c: Crypto, b: Boot, s: Slot) {
    if b.before.pkg.manifest.NoManifest? then true
    else if Missed(b, ManifestThere) then InOrderUnseen(c, b, s)
    else
      Missed(b, CounterThere) && b.before.pkg.manifest.Signed? && b.before.pkg.manifest.manifest.counter == 0 ==>
        b.before.counter in {NoFile, Number(0)}
  }

  /** A successful selection, however its calls went, is a fixed point exactly when no probe missed
      what would have mattered: repeated with nothing failing and the package left alone, it gives
      the same slot and changes nothing. */
  lemma RelaunchIsStable(c: Crypto, b: Boot, s: Slot)
    requires Faithful(c, b) && b.outcome.result == Ok(s)
    ensures Seen(Select(c, CALM, b.outcome.disk)) == Seen(b.outcome)
            <==> !Strays(b, s) && !Leaves(b, s) && VerdictStays(c, b, s)
  {
    StableExactly(c, b.outcome.disk, s);
    SelectInOrder(c, b.env, b.before);
    ChoiceStays(c, b, s);
    HealthGone(c, b, s);
    VerdictRepeats(c, b, s);
  }

  lemma SlotTextParses(s: Slot)
    ensures ParseActiveSlot(SlotText(s)) == Some(s)
  {
    assert SlotText(s) == [] + Name(s) + "\n";
    ParsesBetweenNoise([], s, "\n");
  }

  lemma ChoiceStays(c: Crypto, b: Boot, s: Slot)
    requires Faithful(c, b) && b.outcome.result == Ok(s) && InOrder(c, b.env, b.before, b.outcome)
    ensures Chosen(CALM, b.outcome.disk) == Ok(s) <==> !Strays(b, s)
  {
    SlotTextParses(s);
  }

  lemma HealthGone(c: Crypto, b: Boot, s: Slot)
    requires Faithful(c, b) && b.outcome.result == Ok(s) && InOrder(c, b.env, b.before, b.outcome)
    ensures Health(b.outcome.disk, s) == NoFile <==> !Leaves(b, s)
  {
    HealthIsExact(c, b.env, b.before);
    assert Health(b.outcome.disk, s) == HealthAfter(b.env, b.before, b.outcome.record, s);
  }

  lemma VerdictRepeats(c: Crypto, b: Boot, s: Slot)
    requires Faithful(c, b) && b.outcome.result == Ok(s) && InOrder(c, b.env, b.before, b.outcome)
    ensures Verify(c, CALM, Active, b.outcome.disk, s) == Ok(None) <==> VerdictStays(c, b, s)
  {
    var d := b.before.(pkg := b.outcome.disk.pkg);
    VerdictMeans(c, b.env, b.outcome.record.passed.value.phase, d, s);
    CalmVerdict(c, b.outcome.disk, s);
  }

  /** The failure-free verdict that leaves the counter alone. */
  lemma CalmVerdict(c: Crypto, d: Disk, s: Slot)
    ensures Verify(c, CALM, Active, d, s) == Ok(None)
            <==> if d.pkg.manifest.NoManifest? then Summed(c, d.pkg, s)
                 else Vouched(c, d.pkg, s) && !d.counter.Garbage? && d.pkg.manifest.manifest.counter == Stored(d.counter)
  {
  }

  /** A successful selection in which no probe missed is a fixed point, whatever else failed. */
  lemma UnmissedIsStable(c: Crypto, env: Env, d: Disk)
    requires forall call: Call :: IsProbe(call.step) ==> !env.fails(call)
    requires Select(c, env, d).result.Ok?
    ensures var o := Select(c, env, d); Seen(Select(c, CALM, o.disk)) == Seen(o)
  {
    var b := Boot(env, d, Select(c, env, d));
    RelaunchIsStable(c, b, b.outcome.result.value);
    SelectInOrder(c, env, d);
  }

  /** With nothing failing, selecting twice is selecting once. */
  lemma SelectIsIdempotent(c: Crypto, d: Disk)
    requires Select(c, CALM, d).result.Ok?
    ensures var o := Select(c, CALM, d); Seen(Select(c, CALM, o.disk)) == Seen(o)
  {
    UnmissedIsStable(c, CALM, d);
  }

  /** A health counter that is there but cannot be read stops the launch at once. */
  lemma UnreadableHealthStops(c: Crypto, env: Env, d: Disk)
    requires Chosen(env, d).Ok?
    requires var f := Health(d, Chosen(env, d).value);
             f != NoFile && !env.fails(Call(Active, HealthThere)) && (env.fails(Call(Active, ReadHealth)) || f == Garbage)
    ensures Seen(Select(c, env, d)) == (d, Err(HealthTrackingFailure))
  {
  }

  // ---------------------------------------------------------------------------
  // When a launch succeeds.

  /** The launcher's own state can be written, and the health files be read. Any probe may still
      fail, and any reading or copying of the package. */
  ghost predicate StateHolds(env: Env, d: Disk) {
    && !d.healthA.Garbage? && !d.healthB.Garbage?
    && forall call: Call :: !env.fails(call) || IsProbe(call.step) || OfPackage(call.step)
  }

  predicate OfPackage(step: Step) {
    step in {ReadActive, ReadManifest, ReadAnchor, ReadCounter, ReadSums, ReadExe, ReadRecovery, ReadRecoverySums,
             HashRecovery, CopyRecovery, ReplaceExe, CopyConfig}
  }

  /** While the launcher can write its state, a launch succeeds exactly when one of the three
      passes: the chosen slot, the other one, or the golden master. */
  lemma GoldenMasterHeals(c: Crypto, env: Env, d: Disk)
    requires StateHolds(env, d) && Chosen(env, d).Ok?
    ensures var slot := Chosen(env, d).value;
            var active, standby := Check(c, env, Active, d, slot).Ok?, Check(c, env, Standby, d, Alternate(slot)).Ok?;
            && (Select(c, env, d).result.Ok? <==> active || standby || Restore(c, env, d).1.Ok?)
            && (active ==> Select(c, env, d).result == Ok(slot))
            && (!active && standby ==> Select(c, env, d).result == Ok(Alternate(slot)))
            && (!active && !standby && Restore(c, env, d).1.Ok? ==> Select(c, env, d).result == Ok(A))
  {
    var slot := Chosen(env, d).value;
    CheckError(c, env, Active, d, slot);
    if Check(c, env, Active, d, slot).Ok? {
      LaunchHeals(env, Active, d, slot, Check(c, env, Active, d, slot).value, map[]);
    } else {
      CountIs(env, Active, d, slot);
      StandbyHeals(c, env, d, Count(env, Active, d, slot).value, slot, Check(c, env, Active, d, slot).error);
    }
  }

  lemma LaunchHeals(env: Env, p: Phase, d: Disk, s: Slot, pending: Option<nat>, counted: map<Slot, Phase>)
    requires !env.fails(Call(p, RemoveHealth(s))) && !env.fails(Call(p, StageCounter)) && !env.fails(Call(p, ReplaceCounter))
    ensures Launch(env, p, d, s, pending, counted).result == Ok(s)
  {
  }

  lemma StandbyHeals(c: Crypto, env: Env, d: Disk, d1: Disk, slot: Slot, e: SelectionError)
    requires StateHolds(env, d) && d1 == WithHealth(d, slot, Health(d1, slot)) && Health(d1, slot).Number?
    ensures var r := SelectStandby(c, env, d1, slot, e).result;
            if Check(c, env, Standby, d, Alternate(slot)).Ok? then r == Ok(Alternate(slot))
            else if Restore(c, env, d).1.Ok? then r == Ok(A) else r.Err?
  {
    var standby := Alternate(slot);
    CheckError(c, env, Standby, d1, standby);
    SameCheck(c, env, d, d1, standby);
    var check := Check(c, env, Standby, d1, standby);
    if check.Ok? {
      RollBackHeals(env, d1, slot, check.value);
    } else {
      CountIs(env, Standby, d1, standby);
      var d2 := Count(env, Standby, d1, standby).value;
      RestoreIgnoresHealth(c, env, d, d2);
      GoldenHeals(c, env, d2, slot, e, check.error);
    }
  }

  lemma SameCheck(c: Crypto, env: Env, d: Disk, d1: Disk, s: Slot)
    requires d1.pkg == d.pkg && d1.counter == d.counter && Health(d1, s) == Health(d, s)
    ensures Check(c, env, Standby, d1, s) == Check(c, env, Standby, d, s)
  {
    VerdictOf(c, env, Standby, d, d1, s);
  }

  lemma RollBackHeals(env: Env, d: Disk, slot: Slot, pending: Option<nat>)
    requires StateHolds(env, d)
    ensures RollBack(env, d, slot, pending).result == Ok(Alternate(slot))
  {
  }

  lemma GoldenHeals(c: Crypto, env: Env, d: Disk, slot: Slot, e: SelectionError, e2: SelectionError)
    requires StateHolds(env, d)
    ensures var r := SelectGolden(c, env, d, slot, e, e2).result; if Restore(c, env, d).1.Ok? then r == Ok(A) else r.Err?
  {
    var (d1, pending) := Restore(c, env, d);
    if pending.Ok? {
      RestoredHeals(env, d, d1, pending.value, map[slot := Active, Alternate(slot) := Standby]);
    }
  }

  lemma RestoredHeals(env: Env, d: Disk, d1: Disk, pending: Option<nat>, counted: map<Slot, Phase>)
    requires StateHolds(env, d)
    ensures LaunchRestored(env, d1, pending, counted).result == Ok(A)
  {
  }

  lemma CheckError(c: Crypto, env: Env, p: Phase, d: Disk, s: Slot)
    requires StateHolds(env, d)
    ensures Check(c, env, p, d, s) != Err(HealthTrackingFailure)
    ensures Count(env, p, d, s).Some?
  {
    VerifyError(c, env, p, d, s);
    assert !env.fails(Call(p, ReadHealth)) && !env.fails(Call(p, ReadCount)) && !env.fails(Call(p, WriteCount));
  }

  lemma VerifyError(c: Crypto, env: Env, p: Phase, d: Disk, s: Slot)
    ensures Verify(c, env, p, d, s) != Err(HealthTrackingFailure)
  {
    if d.pkg.manifest.Signed? {
      SignedError(c, env, p, d, s, d.pkg.manifest.manifest);
    }
  }

  lemma SignedError(c: Crypto, env: Env, p: Phase, d: Disk, s: Slot, m: SignedManifest)
    ensures VerifySigned(c, env, p, d, s, m) != Err(HealthTrackingFailure)
  {
  }

  lemma InstallIgnoresState(c: Crypto, env: Env, d: Disk, d1: Disk)
    requires d1.pkg == d.pkg
    ensures Install(c, env, d1) == (d1.(pkg := Install(c, env, d).0.pkg), Install(c, env, d).1)
  {
  }

  lemma RestoreIgnoresHealth(c: Crypto, env: Env, d: Disk, d1: Disk)
    requires d1.pkg == d.pkg && d1.counter == d.counter
    ensures Restore(c, env, d1).1 == Restore(c, env, d).1
  {
    InstallIgnoresState(c, env, d, d1);
    InstallIgnoresState(c, env, d, d);
    var e, e1 := Install(c, env, d).0, Install(c, env, d1).0;
    assert e.pkg == e1.pkg && e.counter == d.counter && e1.counter == d1.counter;
    VerdictOf(c, env, Golden, e, e1, A);
  }

  // ---------------------------------------------------------------------------
  // What one missed file does while every other call succeeds.

  /** Nothing goes wrong but this probe of the active slot. */
  function CalmBut(step: Step): Env {
    Env((call: Call) => call == Call(Active, step), (b: Bytes) => b)
  }

  /** The chosen slot passes every check but the ones that the missed file would have failed. */
  predicate PassesAsSeen(c: Crypto, env: Env, d: Disk) {
    Chosen(env, d).Ok? && Check(c, env, Active, d, Chosen(env, d).value).Ok?
  }

  /** One launch with one probe missing: the chosen slot is launched. */
  lemma LaunchesAsSeen(c: Crypto, step: Step, d: Disk)
    requires IsProbe(step) && PassesAsSeen(c, CalmBut(step), d)
    ensures var o := Select(c, CalmBut(step), d);
            o.result == Chosen(CalmBut(step), d) && o.record.passed == Some(Pass(Active, o.result.value))
    ensures d == Select(c, CalmBut(step), d).disk.(healthA := d.healthA, healthB := d.healthB, counter := d.counter)
  {
  }

  /** A missed release counter: the signed downgrade is launched and lowers the stored counter. */
  method LaunchPastCounter(h: Host) returns (r: Result<Slot>)
    requires PassesAsSeen(h.crypto, CalmBut(CounterThere), h.disk) && h.disk.pkg.manifest.Signed?
    requires 0 < h.disk.pkg.manifest.manifest.counter < Stored(h.disk.counter)
    modifies h
    ensures r.Ok? && Stored(h.disk.counter) == old(h.disk.pkg.manifest.manifest.counter) < Stored(old(h.disk.counter))
  {
    LaunchesAsSeen(h.crypto, CounterThere, h.disk);
    ghost var b := Boot(CalmBut(CounterThere), h.disk, Select(h.crypto, CalmBut(CounterThere), h.disk));
    CounterMoves(h.crypto, b);
    r := h.SelectSlot(CalmBut(CounterThere));
  }

  /** A missed manifest: a package whose signature does not verify is launched on its checksums. */
  method LaunchPastManifest(h: Host) returns (r: Result<Slot>)
    requires PassesAsSeen(h.crypto, CalmBut(ManifestThere), h.disk) && h.disk.pkg.manifest.Signed?
    requires h.disk.pkg.anchor.Anchor? && !h.crypto.verifies(h.disk.pkg.manifest.manifest, h.disk.pkg.anchor.key)
    modifies h
    ensures r == Chosen(CALM, old(h.disk)) && h.disk.counter == old(h.disk.counter)
    ensures Verify(h.crypto, CALM, Active, h.disk, r.value) == Err(SignatureVerificationFailed)
  {
    LaunchesAsSeen(h.crypto, ManifestThere, h.disk);
    ghost var b := Boot(CalmBut(ManifestThere), h.disk, Select(h.crypto, CalmBut(ManifestThere), h.disk));
    CounterMoves(h.crypto, b);
    r := h.SelectSlot(CalmBut(ManifestThere));
    Unsigned(h.crypto, b, h.disk, r.value);
  }

  /** The slot was launched all the same, so its executable is in place. */
  lemma Unsigned(c: Crypto, b: Boot, d: Disk, s: Slot)
    requires b.env == CalmBut(ManifestThere) && PassesAsSeen(c, b.env, b.before) && Chosen(b.env, b.before) == Ok(s)
    requires d.pkg == b.before.pkg && d.pkg.manifest.Signed? && d.pkg.anchor.Anchor?
    requires !c.verifies(d.pkg.manifest.manifest, d.pkg.anchor.key)
    ensures Verify(c, CALM, Active, d, s) == Err(SignatureVerificationFailed)
  {
    VerdictMeans(c, b.env, Active, b.before, s);
    SignatureRefuses(c, d, s);
  }

  lemma SignatureRefuses(c: Crypto, d: Disk, s: Slot)
    requires Exe(d.pkg, s).File? && d.pkg.manifest.Signed? && d.pkg.anchor.Anchor?
    requires !c.verifies(d.pkg.manifest.manifest, d.pkg.anchor.key)
    ensures Verify(c, CALM, Active, d, s) == Err(SignatureVerificationFailed)
  {
  }

  /** A missed health counter: a slot in a crash loop is launched again. */
  method LaunchPastHealth(h: Host) returns (r: Result<Slot>)
    requires PassesAsSeen(h.crypto, CalmBut(HealthThere), h.disk)
    requires Looping(h.disk, Chosen(CALM, h.disk).value)
    modifies h
    ensures r == Chosen(CALM, old(h.disk))
  {
    LaunchesAsSeen(h.crypto, HealthThere, h.disk);
    r := h.SelectSlot(CalmBut(HealthThere));
  }

  // --- They happen.

  const SAMPLE_DIGEST: Digest := "0"

  function SampleCrypto(genuine: bool): Crypto {
    Crypto((b: Bytes) => SAMPLE_DIGEST, (m: SignedManifest, k: Bytes) => genuine)
  }

  function SampleDisk(counter: nat, stored: nat, failures: nat, path: string): Disk {
    var manifest := SignedManifest(counter, [Entry(path, SAMPLE_DIGEST)], []);
    Disk(Package(File([]), Missing, Missing, false, Some(SAMPLE_DIGEST + " " + path), Signed(manifest),
                 Anchor([])),
         Some(SlotText(A)), Number(failures), NoFile, Number(stored), [])
  }

  lemma SamplePath(path: string)
    requires path == SlotPath(A)
    ensures Inked(path) && path[0] == 'S'
  {
  }

  lemma InkHasNoNewline(s: string)
    requires Inked(s)
    ensures '\n' !in s
  {
  }

  lemma SampleSums(path: string, line: string)
    requires Inked(path) && line == SAMPLE_DIGEST + " " + path
    ensures FindSum(LinesOf(line), path) == Some(SAMPLE_DIGEST)
  {
    InkHasNoNewline(path);
    SplitNone(line, '\n');
    assert LinesOf(line) == [line];
    SumLineReads(SAMPLE_DIGEST, " ", path);
    assert Lowercase(SAMPLE_DIGEST) == SAMPLE_DIGEST;
  }

  lemma SampleVerifies(c: Crypto, counter: nat, stored: nat, failures: nat, step: Step, path: string)
    requires path == SlotPath(A) && (step.CounterThere? || counter >= stored)
    requires c == SampleCrypto(true) && step in {CounterThere, HealthThere}
    ensures Verify(c, CalmBut(step), Active, SampleDisk(counter, stored, failures, path), A).Ok?
  {
    var d := SampleDisk(counter, stored, failures, path);
    var m := d.pkg.manifest.manifest;
    SamplePath(path);
    assert c.sha([]) == SAMPLE_DIGEST && c.verifies(m, []);
    assert RECOVERY_PATH[0] == 'R';
    assert m.entries[0].path == path && m.entries[1..] == [];
    assert FindEntry(m.entries, path) == Some(SAMPLE_DIGEST) && FindEntry(m.entries, RECOVERY_PATH) == None;
    assert VerifyDigests(c, CalmBut(step), Active, d.pkg, A, m.entries).Ok?;
    assert VerifySigned(c, CalmBut(step), Active, d, A, m).Ok?;
  }

  lemma SampleSumsUp(c: Crypto, counter: nat, stored: nat, failures: nat, path: string)
    requires path == SlotPath(A) && c.sha([]) == SAMPLE_DIGEST
    ensures Verify(c, CalmBut(ManifestThere), Active, SampleDisk(counter, stored, failures, path), A).Ok?
  {
    SamplePath(path);
    SampleSums(path, SAMPLE_DIGEST + " " + path);
    assert Lowercase(SAMPLE_DIGEST) == SAMPLE_DIGEST;
    var d, env := SampleDisk(counter, stored, failures, path), CalmBut(ManifestThere);
    assert CheckSum(c, env, File([]), d.pkg.sums, path, Call(Active, SumsThere), Call(Active, ReadSums),
                    Call(Active, ReadExe)) == Ok(());
  }

  lemma SamplePasses(c: Crypto, d: Disk, step: Step)
    requires d.active == Some(SlotText(A)) && d.healthA.Number? && IsProbe(step)
    requires step.HealthThere? || d.healthA.n < BOOT_FAILURE_THRESHOLD
    requires Verify(c, CalmBut(step), Active, d, A).Ok?
    ensures Chosen(CALM, d) == Ok(A) && Chosen(CalmBut(step), d) == Ok(A) && PassesAsSeen(c, CalmBut(step), d)
  {
    SlotTextParses(A);
    GatePasses(c, CalmBut(step), d);
  }

  lemma GatePasses(c: Crypto, env: Env, d: Disk)
    requires Gate(env, Active, d, A).Ok? && Gate(env, Active, d, A).value < BOOT_FAILURE_THRESHOLD
    requires Verify(c, env, Active, d, A).Ok?
    ensures Check(c, env, Active, d, A).Ok?
  {
  }

  /** All three happen. */
  method SampleLaunches() returns (counter: nat, unsigned: Result<Slot>, looping: Result<Slot>)
    ensures counter == 1 && unsigned == Ok(A) && looping == Ok(A)
  {
    var path, c := SlotPath(A), SampleCrypto(true);
    SampleVerifies(c, 1, 5, 0, CounterThere, path);
    SamplePasses(c, SampleDisk(1, 5, 0, path), CounterThere);
    var h := new Host(c, SampleDisk(1, 5, 0, path));
    var r := LaunchPastCounter(h);
    counter := Stored(h.disk.counter);
    SampleVerifies(c, 5, 5, 3, HealthThere, path);
    SamplePasses(c, SampleDisk(5, 5, 3, path), HealthThere);
    h := new Host(c, SampleDisk(5, 5, 3, path));
    looping := LaunchPastHealth(h);
    c := SampleCrypto(false);
    SampleSumsUp(c, 1, 5, 0, path);
    SamplePasses(c, SampleDisk(1, 5, 0, path), ManifestThere);
    h := new Host(c, SampleDisk(1, 5, 0, path));
    unsigned := LaunchPastManifest(h);
  }
}
