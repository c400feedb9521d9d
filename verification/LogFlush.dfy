/** The synchronous flush of the diagnostic store to the daily log, and its persistence cursor. */
module LogFlush {
  import opened Text
  import opened Sequences
  import opened DiagnosticStore

  // ---------------------------------------------------------------------------
  // One flush.

  function Pending(rows: seq<Event>, baseline: nat): seq<Event> {
    if rows == [] then []
    else
      var rest := Pending(rows[..|rows| - 1], baseline);
      if rows[|rows| - 1].sequence <= baseline then rest else rest + [rows[|rows| - 1]]
  }

  /** The sequence of the last row taken, in snapshot order, or the baseline when none was. */
  function LastTaken(rows: seq<Event>, baseline: nat): nat {
    var lines := Pending(rows, baseline);
    if lines == [] then baseline else lines[|lines| - 1].sequence
  }

  method BuildLogLines(rows: seq<Event>, baseline: nat) returns (lines: seq<Event>, last: nat)
    ensures lines == Pending(rows, baseline) && last == LastTaken(rows, baseline)
  {
    lines, last := [], baseline;
    for i := 0 to |rows|
      invariant lines == Pending(rows[..i], baseline) && last == LastTaken(rows[..i], baseline)
    {
      assert rows[..i + 1][..i] == rows[..i];
      if rows[i].sequence <= baseline {
        continue;
      }
      lines := lines + [rows[i]];
      last := rows[i].sequence;
    }
    assert rows[..|rows|] == rows;
  }

  /** How the append to the file ended: complete, or failed after some of the lines. */
  datatype Write = Complete | FailedAfter(written: nat)

  function Written(lines: seq<Event>, write: Write): seq<Event> {
    match write
    case Complete => lines
    case FailedAfter(k) => if k < |lines| then lines[..k] else lines
  }

  function RecordAll(hash: HashFunction, s: Store, rs: seq<Record>): Store {
    if rs == [] then s else RecordEvent(hash, RecordAll(hash, s, rs[..|rs| - 1]), rs[|rs| - 1])
  }

  /** The daily file and the atomic cursor beside it. */
  class DailyLog {
    var persisted: nat
    var disk: seq<Event>

    constructor ()
      ensures persisted == 0 && disk == []
    {
      persisted, disk := 0, [];
    }

    /** `during` are the events recorded while the append was in progress: the flush itself records
        retention and failure diagnostics. */
    method FlushSync(store: DiagnosticLog, write: Write, during: seq<Record>)
      modifies this, store
      ensures Pending(old(store.events), old(persisted)) == [] ==>
                store.State() == old(store.State()) && persisted == old(persisted) && disk == old(disk)
      ensures Pending(old(store.events), old(persisted)) != [] ==>
                && store.State() == RecordAll(store.hash, old(store.State()), during)
                && disk == old(disk) + Written(Pending(old(store.events), old(persisted)), write)
                && persisted == (if write.Complete? then LastTaken(old(store.events), old(persisted))
                                 else old(persisted))
    {
      var baseline := persisted;
      var rows := store.Snapshot();
      var lines, last := BuildLogLines(rows, baseline);
      if lines == [] {
        return;
      }
      disk := disk + Written(lines, write);
      for i := 0 to |during|
        invariant store.State() == RecordAll(store.hash, old(store.State()), during[..i])
        invariant persisted == old(persisted) && disk == old(disk) + Written(lines, write)
      {
        assert during[..i + 1][..i] == during[..i];
        store.RecordWithContext(during[i]);
      }
      assert during[..|during|] == during;
      if write.Complete? {
        persisted := last;
      }
    }
  }

  // ---------------------------------------------------------------------------
  // Rows and sequences.

  /** Whether the event at index `k` of a history of `n` events is still in the buffer. */
  predicate StillRetained(n: nat, maximum: nat, k: nat) {
    && k < n
    && (n <= maximum || k == maximum || (if k < maximum then k else k - 1) >= n - maximum)
  }

  /** The same for a sequence number; the first event has sequence one. */
  predicate InBuffer(n: nat, maximum: nat, q: nat) {
    q >= 1 && StillRetained(n, maximum, q - 1)
  }

  /** The sequences of a snapshot are exactly those of the retained events. */
  lemma RowSequence(hash: HashFunction, genesis: Digest, s: Store, h: History, i: nat)
    requires Represents(hash, genesis, s, h) && i < |s.events|
    ensures 1 <= s.events[i].sequence <= |h.chain|
    ensures StillRetained(|h.chain|, s.maximum, s.events[i].sequence - 1)
  {
    RowAt(h.chain, s.maximum, i);
    assert Link(hash, genesis, h, RowIndex(|h.chain|, s.maximum, i));
  }

  lemma RetainedRow(hash: HashFunction, genesis: Digest, s: Store, h: History, k: nat) returns (i: nat)
    requires Represents(hash, genesis, s, h) && StillRetained(|h.chain|, s.maximum, k)
    ensures i < |s.events| && s.events[i].sequence == k + 1
  {
    var n := |h.chain|;
    i := if n <= s.maximum then k
         else if k == s.maximum then 0
         else (if k < s.maximum then k else k - 1) - (n - s.maximum) + 1;
    RowAt(h.chain, s.maximum, i);
    assert RowIndex(n, s.maximum, i) == k;
    assert Link(hash, genesis, h, k);
  }

  predicate OnDisk(disk: seq<Event>, q: nat) {
    exists i :: 0 <= i < |disk| && disk[i].sequence == q
  }

  predicate Once(disk: seq<Event>) {
    forall i, j :: 0 <= i < j < |disk| ==> disk[i].sequence != disk[j].sequence
  }

  lemma {:induction false} PendingMembers(rows: seq<Event>, baseline: nat)
    ensures forall i :: 0 <= i < |Pending(rows, baseline)| ==>
              Pending(rows, baseline)[i] in rows && Pending(rows, baseline)[i].sequence > baseline
    ensures forall i :: 0 <= i < |rows| && rows[i].sequence > baseline ==> rows[i] in Pending(rows, baseline)
  {
    if rows != [] {
      PendingMembers(rows[..|rows| - 1], baseline);
    }
  }

  lemma {:induction false} PendingOnce(rows: seq<Event>, baseline: nat)
    requires Once(rows)
    ensures Once(Pending(rows, baseline))
  {
    if rows != [] {
      var init := rows[..|rows| - 1];
      PendingOnce(init, baseline);
      PendingMembers(init, baseline);
    }
  }

  lemma RowsOnce(hash: HashFunction, genesis: Digest, s: Store, h: History)
    requires Represents(hash, genesis, s, h)
    ensures Once(s.events)
  {
    forall i, j | 0 <= i < j < |s.events| ensures s.events[i].sequence != s.events[j].sequence {
      RowAt(h.chain, s.maximum, i);
      RowAt(h.chain, s.maximum, j);
      assert Link(hash, genesis, h, RowIndex(|h.chain|, s.maximum, i));
      assert Link(hash, genesis, h, RowIndex(|h.chain|, s.maximum, j));
    }
  }

  /** Although the marker row is out of order, the cursor always moves to the newest event. */
  lemma CursorIsNewest(hash: HashFunction, genesis: Digest, s: Store, h: History, baseline: nat)
    requires Represents(hash, genesis, s, h) && baseline <= |h.chain|
    ensures LastTaken(s.events, baseline) == |h.chain|
    ensures Pending(s.events, baseline) == [] <==> baseline == |h.chain|
  {
    var lines := Pending(s.events, baseline);
    PendingMembers(s.events, baseline);
    if h.chain != [] {
      RetainedLast(h.chain, s.maximum);
      assert Link(hash, genesis, h, |h.chain| - 1);
      if baseline < |h.chain| {
        assert lines[|lines| - 1] == s.events[|s.events| - 1];
      } else if lines != [] {
        var i :| 0 <= i < |s.events| && s.events[i] == lines[0];
        RowSequence(hash, genesis, s, h, i);
      }
    }
  }

  // ---------------------------------------------------------------------------
  // Runs of recordings and flushes.

  datatype Op = Append(record: Record) | Flush(write: Write, during: seq<Record>)

  /** `lost` collects the sequences that were neither in the buffer nor left on disk by a failed append
      when a flush passed them. */
  datatype Log = Log(traced: Traced, persisted: nat, disk: seq<Event>, lost: set<nat>)

  function TracedAll(hash: HashFunction, t: Traced, rs: seq<Record>): Traced {
    if rs == [] then t else TracedRecord(hash, TracedAll(hash, t, rs[..|rs| - 1]), rs[|rs| - 1])
  }

  function Step(hash: HashFunction, log: Log, op: Op): Log {
    match op
    case Append(r) => log.(traced := TracedRecord(hash, log.traced, r))
    case Flush(write, during) =>
      var rows := log.traced.store.events;
      var lines := Pending(rows, log.persisted);
      if lines == [] then log
      else
        Log(TracedAll(hash, log.traced, during),
            if write.Complete? then LastTaken(rows, log.persisted) else log.persisted,
            log.disk + Wrote(log, write),
            if write.Complete? then
              log.lost + Unreached(log)
            else log.lost)
  }

  /** What a complete flush passes without any copy of it. */
  function Unreached(log: Log): set<nat> {
    var n := |log.traced.history.chain|;
    set q: nat | log.persisted < q <= n && !InBuffer(n, log.traced.store.maximum, q) && !OnDisk(log.disk, q)
  }

  /** The lines that a flush brings to the file. */
  function Wrote(log: Log, write: Write): seq<Event> {
    Written(Pending(log.traced.store.events, log.persisted), write)
  }

  function RunLog(hash: HashFunction, genesis: Digest, maximum: nat, ops: seq<Op>): Log {
    if ops == [] then Log(Traced(NewStore(maximum, genesis), History([], [])), 0, [], {})
    else Step(hash, RunLog(hash, genesis, maximum, ops[..|ops| - 1]), ops[|ops| - 1])
  }

  ghost predicate Conserved(hash: HashFunction, genesis: Digest, log: Log) {
    var s, h := log.traced.store, log.traced.history;
    && Represents(hash, genesis, s, h)
    && log.persisted <= |h.chain|
    && (forall i :: 0 <= i < |log.disk| ==> 1 <= log.disk[i].sequence <= |h.chain|)
    && (forall q :: 1 <= q <= log.persisted ==> (OnDisk(log.disk, q) <==> q !in log.lost))
    && (forall q :: q in log.lost ==> 1 <= q <= log.persisted && !InBuffer(|h.chain|, s.maximum, q))
  }

  lemma {:induction false} RecordsKeepRepresentation(hash: HashFunction, genesis: Digest, t: Traced, rs: seq<Record>)
    requires Represents(hash, genesis, t.store, t.history)
    requires TracedAll(hash, t, rs).store.nextSequence < U64_MAX
    ensures var t' := TracedAll(hash, t, rs);
            && Represents(hash, genesis, t'.store, t'.history)
            && t'.store.maximum == t.store.maximum && |t.history.chain| <= |t'.history.chain|
  {
    if rs != [] {
      var mid := TracedAll(hash, t, rs[..|rs| - 1]);
      SequenceGrows(hash, mid, rs[|rs| - 1]);
      RecordsKeepRepresentation(hash, genesis, t, rs[..|rs| - 1]);
      RecordRepresents(hash, genesis, mid, rs[|rs| - 1]);
    }
  }

  lemma GrowthConserves(hash: HashFunction, genesis: Digest, log: Log, t: Traced)
    requires Conserved(hash, genesis, log) && Represents(hash, genesis, t.store, t.history)
    requires t.store.maximum == log.traced.store.maximum
    requires |log.traced.history.chain| <= |t.history.chain|
    ensures Conserved(hash, genesis, log.(traced := t))
  {
    var n, n' := |log.traced.history.chain|, |t.history.chain|;
    forall q | q in log.lost ensures !InBuffer(n', t.store.maximum, q) {
      assert 1 <= q <= n && !InBuffer(n, t.store.maximum, q);
    }
  }

  /** The state right after a complete append, before anything recorded meanwhile. */
  function Flushed(log: Log): Log {
    var rows := log.traced.store.events;
    Log(log.traced, LastTaken(rows, log.persisted), log.disk + Pending(rows, log.persisted), log.lost + Unreached(log))
  }

  lemma PendingInRange(hash: HashFunction, genesis: Digest, log: Log)
    requires Conserved(hash, genesis, log)
    ensures var lines := Pending(log.traced.store.events, log.persisted);
            Once(lines)
            && forall i :: 0 <= i < |lines| ==> log.persisted < lines[i].sequence <= |log.traced.history.chain|
  {
    var s, h := log.traced.store, log.traced.history;
    var lines := Pending(s.events, log.persisted);
    RowsOnce(hash, genesis, s, h);
    PendingOnce(s.events, log.persisted);
    PendingMembers(s.events, log.persisted);
    forall i | 0 <= i < |lines| ensures log.persisted < lines[i].sequence <= |h.chain| {
      var j :| 0 <= j < |s.events| && s.events[j] == lines[i];
      RowSequence(hash, genesis, s, h, j);
    }
  }

  lemma WroteInRange(hash: HashFunction, genesis: Digest, log: Log, write: Write)
    requires Conserved(hash, genesis, log)
    ensures Once(Wrote(log, write))
    ensures forall i :: 0 <= i < |Wrote(log, write)| ==>
              log.persisted < Wrote(log, write)[i].sequence <= |log.traced.history.chain|
  {
    PendingInRange(hash, genesis, log);
  }

  lemma DiskOf(a: seq<Event>, b: seq<Event>, q: nat)
    ensures OnDisk(a + b, q) <==> OnDisk(a, q) || OnDisk(b, q)
  {
    if OnDisk(a, q) {
      var i :| 0 <= i < |a| && a[i].sequence == q;
      assert (a + b)[i].sequence == q;
    }
    if OnDisk(b, q) {
      var i :| 0 <= i < |b| && b[i].sequence == q;
      assert (a + b)[|a| + i].sequence == q;
    }
  }

  /** A flush takes a sequence exactly when it is newer than the cursor and still in the buffer. */
  lemma PendingSequences(hash: HashFunction, genesis: Digest, s: Store, h: History, baseline: nat, q: nat)
    requires Represents(hash, genesis, s, h)
    ensures OnDisk(Pending(s.events, baseline), q) <==>
              baseline < q && InBuffer(|h.chain|, s.maximum, q)
  {
    var lines := Pending(s.events, baseline);
    PendingMembers(s.events, baseline);
    if OnDisk(lines, q) {
      var i :| 0 <= i < |lines| && lines[i].sequence == q;
      var j :| 0 <= j < |s.events| && s.events[j] == lines[i];
      RowSequence(hash, genesis, s, h, j);
    }
    if baseline < q && InBuffer(|h.chain|, s.maximum, q) {
      var i := RetainedRow(hash, genesis, s, h, q - 1);
      assert s.events[i] in lines;
      var j :| 0 <= j < |lines| && lines[j] == s.events[i];
    }
  }

  lemma FlushConserves(hash: HashFunction, genesis: Digest, log: Log)
    requires Conserved(hash, genesis, log)
    ensures Conserved(hash, genesis, Flushed(log))
  {
    var s, h, log' := log.traced.store, log.traced.history, Flushed(log);
    CursorIsNewest(hash, genesis, s, h, log.persisted);
    PendingInRange(hash, genesis, log);
    forall q | 1 <= q <= log'.persisted ensures OnDisk(log'.disk, q) <==> q !in log'.lost {
      PendingSequences(hash, genesis, s, h, log.persisted, q);
      DiskOf(log.disk, Pending(s.events, log.persisted), q);
    }
  }

  /** What a failed append leaves behind lies above the cursor. */
  lemma FailureConserves(hash: HashFunction, genesis: Digest, log: Log, write: Write)
    requires Conserved(hash, genesis, log)
    ensures Conserved(hash, genesis, log.(disk := log.disk + Wrote(log, write)))
  {
    WroteInRange(hash, genesis, log, write);
    forall q | 1 <= q <= log.persisted ensures OnDisk(log.disk + Wrote(log, write), q) <==> q !in log.lost {
      DiskOf(log.disk, Wrote(log, write), q);
    }
  }

  lemma StepConserves(hash: HashFunction, genesis: Digest, log: Log, op: Op)
    requires Conserved(hash, genesis, log)
    requires Step(hash, log, op).traced.store.nextSequence < U64_MAX
    ensures Conserved(hash, genesis, Step(hash, log, op))
  {
    match op
    case Append(r) =>
      RecordRepresents(hash, genesis, log.traced, r);
      GrowthConserves(hash, genesis, log, TracedRecord(hash, log.traced, r));
    case Flush(write, during) =>
      if Pending(log.traced.store.events, log.persisted) != [] {
        RecordsKeepRepresentation(hash, genesis, log.traced, during);
        var t := TracedAll(hash, log.traced, during);
        if write.Complete? {
          FlushConserves(hash, genesis, log);
          GrowthConserves(hash, genesis, Flushed(log), t);
        } else {
          FailureConserves(hash, genesis, log, write);
          GrowthConserves(hash, genesis, log.(disk := log.disk + Wrote(log, write)), t);
        }
      }
  }

  lemma {:induction false} RecordsSaturate(hash: HashFunction, t: Traced, rs: seq<Record>)
    ensures t.store.nextSequence < U64_MAX || TracedAll(hash, t, rs).store.nextSequence >= U64_MAX
  {
    if rs != [] {
      RecordsSaturate(hash, t, rs[..|rs| - 1]);
      SequenceGrows(hash, TracedAll(hash, t, rs[..|rs| - 1]), rs[|rs| - 1]);
    }
  }

  lemma StepSaturates(hash: HashFunction, log: Log, op: Op)
    ensures log.traced.store.nextSequence < U64_MAX || Step(hash, log, op).traced.store.nextSequence >= U64_MAX
  {
    match op
    case Append(r) => SequenceGrows(hash, log.traced, r);
    case Flush(write, during) => RecordsSaturate(hash, log.traced, during);
  }

  /** For every interleaving of recordings and flushes, whatever failed appends leave behind: of the
      sequences the cursor has passed, exactly those are missing on disk that were gone before any
      flush reached them. */
  lemma {:induction false} RunConserves(hash: HashFunction, genesis: Digest, maximum: nat, ops: seq<Op>)
    requires RunLog(hash, genesis, maximum, ops).traced.store.nextSequence < U64_MAX
    ensures Conserved(hash, genesis, RunLog(hash, genesis, maximum, ops))
  {
    if ops != [] {
      var before := ops[..|ops| - 1];
      StepSaturates(hash, RunLog(hash, genesis, maximum, before), ops[|ops| - 1]);
      RunConserves(hash, genesis, maximum, before);
      StepConserves(hash, genesis, RunLog(hash, genesis, maximum, before), ops[|ops| - 1]);
    }
  }

  /** Every event retained when a complete flush takes its snapshot is on disk after it. */
  lemma FlushPersistsRetained(hash: HashFunction, genesis: Digest, log: Log, during: seq<Record>, i: nat)
    requires Conserved(hash, genesis, log) && i < |log.traced.store.events|
    ensures OnDisk(Step(hash, log, Flush(Complete, during)).disk, log.traced.store.events[i].sequence)
  {
    var s, h := log.traced.store, log.traced.history;
    var q := s.events[i].sequence;
    RowSequence(hash, genesis, s, h, i);
    CursorIsNewest(hash, genesis, s, h, log.persisted);
    PendingSequences(hash, genesis, s, h, log.persisted, q);
    DiskOf(log.disk, Pending(s.events, log.persisted), q);
  }

  lemma OnceAppend(a: seq<Event>, b: seq<Event>)
    ensures Once(a + b) <==> Once(a) && Once(b) && forall i :: 0 <= i < |a| ==> !OnDisk(b, a[i].sequence)
  {
    var all := a + b;
    assert forall i :: 0 <= i < |a| ==> all[i] == a[i];
    assert forall i :: 0 <= i < |b| ==> all[|a| + i] == b[i];
    if Once(all) {
      forall i, j | 0 <= i < j < |b| ensures b[i].sequence != b[j].sequence {
        assert all[|a| + i].sequence != all[|a| + j].sequence;
      }
      forall i, j | 0 <= i < |a| && 0 <= j < |b| ensures a[i].sequence != b[j].sequence {
        assert all[i].sequence != all[|a| + j].sequence;
      }
    }
    if Once(a) && Once(b) && forall i :: 0 <= i < |a| ==> !OnDisk(b, a[i].sequence) {
      forall i, j | 0 <= i < j < |all| ensures all[i].sequence != all[j].sequence {
        if i < |a| <= j {
          assert !OnDisk(b, a[i].sequence);
        } else if |a| <= i {
          assert b[i - |a|].sequence != b[j - |a|].sequence;
        }
      }
    }
  }

  // ---------------------------------------------------------------------------
  // When a sequence is on disk twice.

  predicate FailedFlush(op: Op) {
    op.Flush? && op.write.FailedAfter?
  }

  predicate CompleteFlush(op: Op) {
    op.Flush? && op.write.Complete?
  }

  /** The append at `i` failed after writing sequence `q`, and no flush has been completed since. */
  predicate LeftAt(hash: HashFunction, genesis: Digest, maximum: nat, ops: seq<Op>, i: nat, q: nat) {
    && i < |ops| && FailedFlush(ops[i])
    && (forall j :: i < j < |ops| ==> !CompleteFlush(ops[j]))
    && OnDisk(Wrote(RunLog(hash, genesis, maximum, ops[..i]), ops[i].write), q)
  }

  ghost predicate IsLeft(hash: HashFunction, genesis: Digest, maximum: nat, ops: seq<Op>, q: nat) {
    exists i: nat :: LeftAt(hash, genesis, maximum, ops, i, q)
  }

  /** The flush `op`, made after `ops`, writes a sequence that a failed append has left behind. */
  ghost predicate Rewrites(hash: HashFunction, genesis: Digest, maximum: nat, ops: seq<Op>, op: Op) {
    op.Flush? && exists q ::
      IsLeft(hash, genesis, maximum, ops, q) && OnDisk(Wrote(RunLog(hash, genesis, maximum, ops), op.write), q)
  }

  ghost predicate Repeats(hash: HashFunction, genesis: Digest, maximum: nat, ops: seq<Op>) {
    exists j :: 0 <= j < |ops| && Rewrites(hash, genesis, maximum, ops[..j], ops[j])
  }

  lemma LeftEarlier(hash: HashFunction, genesis: Digest, maximum: nat, ops: seq<Op>, op: Op, i: nat, q: nat)
    requires i < |ops|
    ensures LeftAt(hash, genesis, maximum, ops + [op], i, q)
            <==> !CompleteFlush(op) && LeftAt(hash, genesis, maximum, ops, i, q)
  {
    var all := ops + [op];
    assert all[|ops|] == op && forall j :: 0 <= j < |ops| ==> all[j] == ops[j];
    assert all[..i] == ops[..i];
  }

  lemma LeftLast(hash: HashFunction, genesis: Digest, maximum: nat, ops: seq<Op>, op: Op, q: nat)
    ensures LeftAt(hash, genesis, maximum, ops + [op], |ops|, q)
            <==> FailedFlush(op) && OnDisk(Wrote(RunLog(hash, genesis, maximum, ops), op.write), q)
  {
    assert (ops + [op])[..|ops|] == ops;
  }

  lemma LeftStep(hash: HashFunction, genesis: Digest, maximum: nat, ops: seq<Op>, op: Op, q: nat)
    ensures IsLeft(hash, genesis, maximum, ops + [op], q)
            <==> !CompleteFlush(op)
                 && (IsLeft(hash, genesis, maximum, ops, q)
                     || (FailedFlush(op) && OnDisk(Wrote(RunLog(hash, genesis, maximum, ops), op.write), q)))
  {
    LeftLast(hash, genesis, maximum, ops, op, q);
    if IsLeft(hash, genesis, maximum, ops, q) {
      var i: nat :| LeftAt(hash, genesis, maximum, ops, i, q);
      LeftEarlier(hash, genesis, maximum, ops, op, i, q);
    }
    if IsLeft(hash, genesis, maximum, ops + [op], q) {
      var i: nat :| LeftAt(hash, genesis, maximum, ops + [op], i, q);
      if i < |ops| {
        LeftEarlier(hash, genesis, maximum, ops, op, i, q);
      }
    }
  }

  lemma AboveCursorStep(hash: HashFunction, genesis: Digest, maximum: nat, log: Log, op: Op, q: nat)
    requires Conserved(hash, genesis, log) && !CompleteFlush(op)
    requires q > log.persisted || (FailedFlush(op) && OnDisk(Wrote(log, op.write), q))
    ensures q > Step(hash, log, op).persisted
  {
    if FailedFlush(op) {
      WroteInRange(hash, genesis, log, op.write);
    }
  }

  lemma RunStep(hash: HashFunction, genesis: Digest, maximum: nat, ops: seq<Op>, op: Op)
    ensures RunLog(hash, genesis, maximum, ops + [op]) == Step(hash, RunLog(hash, genesis, maximum, ops), op)
  {
    assert (ops + [op])[..|ops|] == ops;
  }

  /** The run before an operation is no nearer to saturation, and conserves. */
  lemma RunBefore(hash: HashFunction, genesis: Digest, maximum: nat, ops: seq<Op>, op: Op)
    requires RunLog(hash, genesis, maximum, ops + [op]).traced.store.nextSequence < U64_MAX
    ensures RunLog(hash, genesis, maximum, ops).traced.store.nextSequence < U64_MAX
    ensures Conserved(hash, genesis, RunLog(hash, genesis, maximum, ops))
  {
    RunStep(hash, genesis, maximum, ops, op);
    StepSaturates(hash, RunLog(hash, genesis, maximum, ops), op);
    RunConserves(hash, genesis, maximum, ops);
  }

  ghost predicate Unsaturated(hash: HashFunction, genesis: Digest, maximum: nat, ops: seq<Op>) {
    RunLog(hash, genesis, maximum, ops).traced.store.nextSequence < U64_MAX
  }

  ghost predicate NotPast(hash: HashFunction, genesis: Digest, maximum: nat, ops: seq<Op>, q: nat) {
    Unsaturated(hash, genesis, maximum, ops) && IsLeft(hash, genesis, maximum, ops, q) ==>
      q > RunLog(hash, genesis, maximum, ops).persisted
  }

  lemma NotPastStep(hash: HashFunction, genesis: Digest, maximum: nat, ops: seq<Op>, op: Op, q: nat)
    requires NotPast(hash, genesis, maximum, ops, q)
    ensures NotPast(hash, genesis, maximum, ops + [op], q)
  {
    if Unsaturated(hash, genesis, maximum, ops + [op]) {
      RunBefore(hash, genesis, maximum, ops, op);
      LeftStep(hash, genesis, maximum, ops, op, q);
      RunStep(hash, genesis, maximum, ops, op);
      if IsLeft(hash, genesis, maximum, ops + [op], q) {
        AboveCursorStep(hash, genesis, maximum, RunLog(hash, genesis, maximum, ops), op, q);
      }
    }
  }

  /** The cursor has not passed what is left behind. */
  lemma CursorNotPast(hash: HashFunction, genesis: Digest, maximum: nat, ops: seq<Op>, q: nat)
    ensures NotPast(hash, genesis, maximum, ops, q)
  {
    var keeps := (os: seq<Op>) => NotPast(hash, genesis, maximum, os, q);
    forall before, op | keeps(before) ensures keeps(before + [op]) {
      NotPastStep(hash, genesis, maximum, before, op, q);
    }
    SnocInduction(keeps, ops);
  }

  lemma BelowNewest(hash: HashFunction, genesis: Digest, log: Log, q: nat)
    requires Conserved(hash, genesis, log) && q > |log.traced.history.chain|
    ensures !OnDisk(log.disk, q)
  {
  }

  lemma DiskStep(hash: HashFunction, genesis: Digest, log: Log, op: Op, q: nat)
    requires Conserved(hash, genesis, log) && q > Step(hash, log, op).persisted
    ensures OnDisk(Step(hash, log, op).disk, q)
            <==> !CompleteFlush(op)
                 && (OnDisk(log.disk, q) || (FailedFlush(op) && OnDisk(Wrote(log, op.write), q)))
    ensures q > log.persisted
  {
    if op.Flush? {
      CursorIsNewest(hash, genesis, log.traced.store, log.traced.history, log.persisted);
      DiskOf(log.disk, Wrote(log, op.write), q);
      if op.write.Complete? {
        FlushConserves(hash, genesis, log);
        BelowNewest(hash, genesis, Flushed(log), q);
        BelowNewest(hash, genesis, log, q);
      }
    }
  }

  /** Above the cursor the file holds exactly what failed appends left there since the last complete
      one. */
  ghost predicate HoldsLeft(hash: HashFunction, genesis: Digest, maximum: nat, ops: seq<Op>, q: nat) {
    Unsaturated(hash, genesis, maximum, ops) && q > RunLog(hash, genesis, maximum, ops).persisted ==>
      (OnDisk(RunLog(hash, genesis, maximum, ops).disk, q) <==> IsLeft(hash, genesis, maximum, ops, q))
  }

  lemma HoldsLeftStep(hash: HashFunction, genesis: Digest, maximum: nat, ops: seq<Op>, op: Op, q: nat)
    requires HoldsLeft(hash, genesis, maximum, ops, q)
    ensures HoldsLeft(hash, genesis, maximum, ops + [op], q)
  {
    if Unsaturated(hash, genesis, maximum, ops + [op]) && q > RunLog(hash, genesis, maximum, ops + [op]).persisted {
      RunBefore(hash, genesis, maximum, ops, op);
      RunStep(hash, genesis, maximum, ops, op);
      LeftStep(hash, genesis, maximum, ops, op, q);
      DiskStep(hash, genesis, RunLog(hash, genesis, maximum, ops), op, q);
    }
  }

  lemma LeftIsOnDisk(hash: HashFunction, genesis: Digest, maximum: nat, ops: seq<Op>, q: nat)
    ensures HoldsLeft(hash, genesis, maximum, ops, q)
  {
    var keeps := (os: seq<Op>) => HoldsLeft(hash, genesis, maximum, os, q);
    forall before, op | keeps(before) ensures keeps(before + [op]) {
      HoldsLeftStep(hash, genesis, maximum, before, op, q);
    }
    SnocInduction(keeps, ops);
  }

  lemma OnceStep(hash: HashFunction, genesis: Digest, log: Log, op: Op)
    requires Conserved(hash, genesis, log)
    ensures Once(Step(hash, log, op).disk)
            <==> Once(log.disk) && (op.Flush? ==> forall q :: OnDisk(Wrote(log, op.write), q) ==> !OnDisk(log.disk, q))
  {
    if op.Flush? {
      var wrote := Wrote(log, op.write);
      WroteInRange(hash, genesis, log, op.write);
      assert wrote == [] ==> log.disk + wrote == log.disk;
      OnceAppend(log.disk, wrote);
      if forall i :: 0 <= i < |log.disk| ==> !OnDisk(wrote, log.disk[i].sequence) {
        forall q | OnDisk(wrote, q) ensures !OnDisk(log.disk, q) {
        }
      }
    }
  }

  lemma RepeatsStep(hash: HashFunction, genesis: Digest, maximum: nat, ops: seq<Op>, op: Op)
    ensures Repeats(hash, genesis, maximum, ops + [op])
            <==> Repeats(hash, genesis, maximum, ops) || Rewrites(hash, genesis, maximum, ops, op)
  {
    var all := ops + [op];
    assert all[..|ops|] == ops && all[|ops|] == op;
    forall j: nat | j < |ops| ensures all[..j] == ops[..j] && all[j] == ops[j] {
    }
    if Repeats(hash, genesis, maximum, ops) {
      var j :| 0 <= j < |ops| && Rewrites(hash, genesis, maximum, ops[..j], ops[j]);
      assert Rewrites(hash, genesis, maximum, all[..j], all[j]);
    }
    if Rewrites(hash, genesis, maximum, ops, op) {
      assert Rewrites(hash, genesis, maximum, all[..|ops|], all[|ops|]);
    }
    if Repeats(hash, genesis, maximum, all) {
      var j :| 0 <= j < |all| && Rewrites(hash, genesis, maximum, all[..j], all[j]);
      assert j < |ops| ==> Rewrites(hash, genesis, maximum, ops[..j], ops[j]);
    }
  }

  lemma RewritesIsClash(hash: HashFunction, genesis: Digest, maximum: nat, ops: seq<Op>, op: Op)
    requires RunLog(hash, genesis, maximum, ops).traced.store.nextSequence < U64_MAX
    ensures var log := RunLog(hash, genesis, maximum, ops);
            Rewrites(hash, genesis, maximum, ops, op)
            <==> op.Flush? && exists q :: OnDisk(Wrote(log, op.write), q) && OnDisk(log.disk, q)
  {
    var log := RunLog(hash, genesis, maximum, ops);
    if op.Flush? {
      RunConserves(hash, genesis, maximum, ops);
      WroteInRange(hash, genesis, log, op.write);
      forall q | OnDisk(Wrote(log, op.write), q)
        ensures OnDisk(log.disk, q) <==> IsLeft(hash, genesis, maximum, ops, q)
      {
        LeftIsOnDisk(hash, genesis, maximum, ops, q);
      }
    }
  }

  ghost predicate OnceExactly(hash: HashFunction, genesis: Digest, maximum: nat, ops: seq<Op>) {
    Unsaturated(hash, genesis, maximum, ops) ==>
      (Once(RunLog(hash, genesis, maximum, ops).disk) <==> !Repeats(hash, genesis, maximum, ops))
  }

  lemma OnceExactlyStep(hash: HashFunction, genesis: Digest, maximum: nat, ops: seq<Op>, op: Op)
    requires OnceExactly(hash, genesis, maximum, ops)
    ensures OnceExactly(hash, genesis, maximum, ops + [op])
  {
    if Unsaturated(hash, genesis, maximum, ops + [op]) {
      RunBefore(hash, genesis, maximum, ops, op);
      RunStep(hash, genesis, maximum, ops, op);
      RepeatsStep(hash, genesis, maximum, ops, op);
      RewritesIsClash(hash, genesis, maximum, ops, op);
      OnceStep(hash, genesis, RunLog(hash, genesis, maximum, ops), op);
    }
  }

  /** Over every run some sequence is on disk twice if and only if some flush writes a sequence that
      an earlier append left behind when it failed, with no complete flush in between. */
  lemma RunRepeats(hash: HashFunction, genesis: Digest, maximum: nat, ops: seq<Op>)
    requires RunLog(hash, genesis, maximum, ops).traced.store.nextSequence < U64_MAX
    ensures Once(RunLog(hash, genesis, maximum, ops).disk) <==> !Repeats(hash, genesis, maximum, ops)
  {
    var keeps := (os: seq<Op>) => OnceExactly(hash, genesis, maximum, os);
    forall before, op | keeps(before) ensures keeps(before + [op]) {
      OnceExactlyStep(hash, genesis, maximum, before, op);
    }
    SnocInduction(keeps, ops);
  }

  /** What a complete flush writes again: of the lines left behind, those still in the buffer. */
  lemma CompleteRewrites(hash: HashFunction, genesis: Digest, maximum: nat, ops: seq<Op>, q: nat)
    requires RunLog(hash, genesis, maximum, ops).traced.store.nextSequence < U64_MAX
    requires IsLeft(hash, genesis, maximum, ops, q)
    ensures var log := RunLog(hash, genesis, maximum, ops);
            OnDisk(Wrote(log, Complete), q) <==> InBuffer(|log.traced.history.chain|, log.traced.store.maximum, q)
  {
    var log := RunLog(hash, genesis, maximum, ops);
    RunConserves(hash, genesis, maximum, ops);
    CursorNotPast(hash, genesis, maximum, ops, q);
    PendingSequences(hash, genesis, log.traced.store, log.traced.history, log.persisted, q);
  }

  /** No failed append left lines behind. */
  predicate CleanFailures(ops: seq<Op>) {
    forall i :: 0 <= i < |ops| && FailedFlush(ops[i]) ==> ops[i].write.written == 0
  }

  /** No sequence is on disk twice, and none above the cursor. */
  predicate Clean(log: Log) {
    Once(log.disk) && forall i :: 0 <= i < |log.disk| ==> log.disk[i].sequence <= log.persisted
  }

  lemma NothingLeft(hash: HashFunction, genesis: Digest, maximum: nat, ops: seq<Op>, q: nat)
    requires CleanFailures(ops)
    ensures !IsLeft(hash, genesis, maximum, ops, q)
  {
  }

  /** When no failed append leaves lines behind, no sequence is ever written twice. */
  lemma CleanRun(hash: HashFunction, genesis: Digest, maximum: nat, ops: seq<Op>)
    requires CleanFailures(ops)
    requires RunLog(hash, genesis, maximum, ops).traced.store.nextSequence < U64_MAX
    ensures Clean(RunLog(hash, genesis, maximum, ops))
  {
    var log := RunLog(hash, genesis, maximum, ops);
    RunRepeats(hash, genesis, maximum, ops);
    forall j, q: nat | 0 <= j < |ops| ensures !IsLeft(hash, genesis, maximum, ops[..j], q) {
      NothingLeft(hash, genesis, maximum, ops[..j], q);
    }
    forall i | 0 <= i < |log.disk| ensures log.disk[i].sequence <= log.persisted {
      NothingLeft(hash, genesis, maximum, ops, log.disk[i].sequence);
      if log.disk[i].sequence > log.persisted {
        LeftIsOnDisk(hash, genesis, maximum, ops, log.disk[i].sequence);
      }
    }
  }

  /** Lines taken above a cursor never repeat what lies below it. */
  lemma AboveCursor(disk: seq<Event>, lines: seq<Event>, persisted: nat)
    requires Once(disk) && Once(lines)
    requires forall i :: 0 <= i < |disk| ==> disk[i].sequence <= persisted
    requires forall i :: 0 <= i < |lines| ==> lines[i].sequence > persisted
    ensures Once(disk + lines)
  {
    OnceAppend(disk, lines);
  }

  lemma DiskWith(disk: seq<Event>, part: seq<Event>, lines: seq<Event>, persisted: nat)
    requires Once(disk) && Once(part) && Once(lines)
    requires forall i :: 0 <= i < |disk| ==> disk[i].sequence <= persisted
    requires forall i :: 0 <= i < |part| ==> part[i].sequence > persisted
    requires forall i :: 0 <= i < |lines| ==> lines[i].sequence > persisted
    ensures Once(disk + part + lines) <==> forall i :: 0 <= i < |part| ==> !OnDisk(lines, part[i].sequence)
  {
    AboveCursor(disk, part, persisted);
    OnceAppend(disk + part, lines);
    assert forall i :: 0 <= i < |disk| ==> (disk + part)[i] == disk[i] && !OnDisk(lines, disk[i].sequence);
    assert forall i :: 0 <= i < |part| ==> (disk + part)[|disk| + i] == part[i];
  }

  /** An append that fails part way and is retried after any number of further recordings writes some
      sequence twice exactly when a line that it left behind is still in the buffer at the retry. */
  lemma RetryDuplicates(hash: HashFunction, genesis: Digest, log: Log, k: nat, between: seq<Record>, during: seq<Record>)
    requires Conserved(hash, genesis, log) && Clean(log) && Pending(log.traced.store.events, log.persisted) != []
    requires TracedAll(hash, log.traced, between).store.nextSequence < U64_MAX
    ensures var failed := Step(hash, log, Flush(FailedAfter(k), between));
            var left, t := Wrote(log, FailedAfter(k)), failed.traced;
            Once(Step(hash, failed, Flush(Complete, during)).disk)
            <==> forall i :: 0 <= i < |left| ==> !InBuffer(|t.history.chain|, t.store.maximum, left[i].sequence)
  {
    var failed := Step(hash, log, Flush(FailedAfter(k), between));
    var left, t := Wrote(log, FailedAfter(k)), failed.traced;
    RecordsKeepRepresentation(hash, genesis, log.traced, between);
    CursorIsNewest(hash, genesis, log.traced.store, log.traced.history, log.persisted);
    CursorIsNewest(hash, genesis, t.store, t.history, log.persisted);
    var lines := Pending(t.store.events, log.persisted);
    WroteInRange(hash, genesis, log, FailedAfter(k));
    RowsOnce(hash, genesis, t.store, t.history);
    PendingOnce(t.store.events, log.persisted);
    PendingMembers(t.store.events, log.persisted);
    DiskWith(log.disk, left, lines, log.persisted);
    forall i | 0 <= i < |left|
      ensures OnDisk(lines, left[i].sequence) <==> InBuffer(|t.history.chain|, t.store.maximum, left[i].sequence)
    {
      PendingSequences(hash, genesis, t.store, t.history, log.persisted, left[i].sequence);
    }
  }

  /** Retried at once it repeats a sequence exactly when it had left at least one line behind. */
  lemma ImmediateRetry(hash: HashFunction, genesis: Digest, log: Log, k: nat)
    requires Conserved(hash, genesis, log) && Clean(log) && Pending(log.traced.store.events, log.persisted) != []
    requires log.traced.store.nextSequence < U64_MAX
    ensures var failed := Step(hash, log, Flush(FailedAfter(k), []));
            Once(Step(hash, failed, Flush(Complete, [])).disk) <==> k == 0
  {
    RetryDuplicates(hash, genesis, log, k, [], []);
    var left, t := Wrote(log, FailedAfter(k)), log.traced;
    if k > 0 {
      var rows := t.store.events;
      PendingMembers(rows, log.persisted);
      assert left[0] == Pending(rows, log.persisted)[0];
      PendingSequences(hash, genesis, t.store, t.history, log.persisted, left[0].sequence);
      assert OnDisk(Pending(rows, log.persisted), left[0].sequence);
    }
  }
}
