/** The bounded, hash-chained diagnostic event buffer with its truncation marker and its in-place
    coalescing of repeated layout errors. */
module DiagnosticStore {
  import opened Options
  import opened Text

  const HARD_MAX_EVENTS: nat := 512
  const MAX_FIELD_LENGTH: nat := 160
  const LAYOUT_ERROR: string := "diagnostic.layout.error"
  const LOG_TRUNCATED: string := "diagnostic.log_truncated"
  const REPEAT: string := " repeat_count="

  type Digest = nat

  /** SHA-256 over previous digest, sequence, nanoseconds, and the name followed by the details with
      nothing in between. The three leading fields have fixed widths. */
  type HashFunction = (Digest, nat, nat, string) -> Digest

  ghost predicate CollisionFree(hash: HashFunction) {
    forall p, s, t, x, p', s', t', x' ::
      hash(p, s, t, x) == hash(p', s', t', x') ==> p == p' && s == s' && t == t' && x == x'
  }

  datatype Outcome =
    InProgress | Completed | Degraded | Failed | Cancelled | Suppressed | TimedOut | Unverified

  /** What a native call reported, as far as it was one. */
  datatype NativeOutcome = NativeOutcome(ntstatus: Option<int>, win32LastError: Option<nat>, requested: Option<nat>,
                                         selected: Option<nat>, effective: Option<nat>)

  const NO_NATIVE: NativeOutcome := NativeOutcome(None, None, None, None, None)

  /** The fields of an event that are stored beside the hashed ones. */
  datatype Context = Context(operationId: nat, parentOperationId: Option<nat>, correlationId: nat,
                             phase: string, source: string, outcome: Outcome, native: NativeOutcome)

  datatype Event = Event(sequence: nat, elapsed: nat, name: string, details: string,
                         prevHash: Digest, entryHash: Digest, context: Context)

  function SatSucc(n: nat): nat {
    if n < U64_MAX then n + 1 else n
  }

  function EntryHash(hash: HashFunction, prev: Digest, sequence: nat, elapsed: nat,
                     name: string, details: string): Digest {
    hash(prev, sequence, elapsed, name + details)
  }

  // ---------------------------------------------------------------------------
  // Verification of a snapshot.

  datatype Verdict = Accepted | EntryMismatch(index: nat) | LinkMismatch(index: nat)

  predicate EntryOk(hash: HashFunction, e: Event) {
    e.entryHash == EntryHash(hash, e.prevHash, e.sequence, e.elapsed, e.name, e.details)
  }

  predicate LinkOk(events: seq<Event>, i: nat)
    requires i < |events|
  {
    (i > 0 && events[i].sequence == SatSucc(events[i - 1].sequence)) ==>
      events[i - 1].entryHash == events[i].prevHash
  }

  function VerifyFrom(hash: HashFunction, events: seq<Event>, i: nat): Verdict
    requires i <= |events|
    decreases |events| - i
  {
    if i == |events| then Accepted
    else if !EntryOk(hash, events[i]) then EntryMismatch(i)
    else if !LinkOk(events, i) then LinkMismatch(i)
    else VerifyFrom(hash, events, i + 1)
  }

  method VerifyEventChain(hash: HashFunction, events: seq<Event>) returns (v: Verdict)
    ensures v == VerifyFrom(hash, events, 0)
  {
    for i := 0 to |events|
      invariant VerifyFrom(hash, events, 0) == VerifyFrom(hash, events, i)
    {
      var event := events[i];
      var expected := EntryHash(hash, event.prevHash, event.sequence, event.elapsed, event.name, event.details);
      if event.entryHash != expected {
        return EntryMismatch(i);
      }
      if i > 0 {
        var previous := events[i - 1];
        if event.sequence == SatSucc(previous.sequence) && previous.entryHash != event.prevHash {
          return LinkMismatch(i);
        }
      }
    }
    v := Accepted;
  }

  // ---------------------------------------------------------------------------
  // The store.

  datatype Store = Store(maximum: nat, events: seq<Event>, nextSequence: nat, truncated: bool,
                         lastHash: Digest, coalesced: Option<string>)

  function NewStore(maximum: nat, genesis: Digest): (s: Store)
    ensures 2 <= s.maximum <= HARD_MAX_EVENTS
  {
    var m := if maximum < 2 then 2 else if maximum > HARD_MAX_EVENTS then HARD_MAX_EVENTS else maximum;
    Store(m, [], 1, false, genesis, None)
  }

  /** The capacity is the wanted one, brought into the range from 2 to 512. */
  lemma CapacityIsNearest(maximum: nat, genesis: Digest)
    ensures var m := NewStore(maximum, genesis).maximum;
            (2 <= maximum <= 512 ==> m == maximum) && (maximum < 2 ==> m == 2) && (maximum > 512 ==> m == 512)
  {
  }

  /** Cuts at the last character boundary within the limit and marks the cut. */
  function TruncateUtf8(s: string, limit: nat): string {
    if Utf8Len(s) <= limit then s else Prefix(s, limit) + "..."
  }

  function Prefix(s: string, limit: nat): string {
    if s == [] || Utf8Width(s[0]) > limit then [] else [s[0]] + Prefix(s[1..], limit - Utf8Width(s[0]))
  }

  /** Position of the last occurrence of `pattern`, or the length when there is none. */
  function LastOccurrence(s: string, pattern: string): (k: nat)
    ensures k <= |s|
    ensures k < |s| ==> k + |pattern| <= |s| && s[k..k + |pattern|] == pattern
    decreases |s|
  {
    LastOccurrenceBefore(s, pattern, |s|)
  }

  function LastOccurrenceBefore(s: string, pattern: string, k: nat): (r: nat)
    requires k <= |s|
    ensures r <= |s|
    ensures r < |s| ==> r + |pattern| <= |s| && s[r..r + |pattern|] == pattern
  {
    if k == 0 then |s|
    else if k - 1 + |pattern| <= |s| && s[k - 1..k - 1 + |pattern|] == pattern then k - 1
    else LastOccurrenceBefore(s, pattern, k - 1)
  }

  /** The coalescer's new details for `existing`, when the event is a genuine repeat. */
  function Coalesced(marker: Option<string>, existing: string, details: string): Option<string> {
    var k := LastOccurrence(existing, REPEAT);
    var suffixed := k < |existing|;
    var base := existing[..k];
    var parsed := if suffixed then ParseUnsigned(existing[k + |REPEAT|..], U32_MAX) else None;
    var count := if parsed.Some? then parsed.value else 1;
    if base != details || (suffixed && marker != Some(existing)) then None
    else
      var next := if count < 999_999 then count + 1 else 999_999;
      Some(TruncateUtf8(base + REPEAT + Decimal(next), MAX_FIELD_LENGTH))
  }

  /** One recording: sanitized name and details, the two clock readings, and the stored context. */
  datatype Record = Record(name: string, details: string, markerElapsed: nat, elapsed: nat, context: Context)

  function Coalesce(s: Store, r: Record): Option<string> {
    if r.name == LAYOUT_ERROR && s.events != [] && s.events[|s.events| - 1].name == r.name then
      Coalesced(s.coalesced, s.events[|s.events| - 1].details, r.details)
    else None
  }

  function Rewritten(s: Store, details: string): Store
    requires s.events != []
  {
    var k := |s.events| - 1;
    s.(events := s.events[k := s.events[k].(details := details)], coalesced := Some(details))
  }

  function MakeEvent(hash: HashFunction, s: Store, elapsed: nat, name: string, details: string,
                     context: Context): Event {
    Event(s.nextSequence, elapsed, name, details, s.lastHash,
          EntryHash(hash, s.lastHash, s.nextSequence, elapsed, name, details), context)
  }

  function MarkerDetails(maximum: nat): string {
    "retaining newest " + Decimal(if maximum > 0 then maximum - 1 else 0) + " events"
  }

  /** The operation is that of the recording; the rest says that the store completed something. */
  function MarkerContext(c: Context): Context {
    c.(phase := "Complete", source := "Diagnostic", outcome := Completed, native := NO_NATIVE)
  }

  function MarkerOf(hash: HashFunction, s: Store, r: Record): Event {
    MakeEvent(hash, s, r.markerElapsed, LOG_TRUNCATED, MarkerDetails(s.maximum),
              MarkerContext(r.context))
  }

  function RemoveAt(events: seq<Event>, k: nat): seq<Event> {
    if k < |events| then events[..k] + events[k + 1..] else events
  }

  /** Room for one more event: the oldest row goes, and the first time the marker takes its place. */
  function MakeRoom(hash: HashFunction, s: Store, r: Record): Store {
    if |s.events| < s.maximum then s
    else
      var events := RemoveAt(s.events, if s.truncated then 1 else 0);
      var s1 := if s.truncated then s.(events := events)
                else
                  var marker := MarkerOf(hash, s, r);
                  s.(events := [marker] + events, lastHash := marker.entryHash,
                     nextSequence := SatSucc(s.nextSequence), truncated := true);
      if |s1.events| >= s1.maximum then s1.(events := RemoveAt(s1.events, 1)) else s1
  }

  function Push(hash: HashFunction, s: Store, r: Record): Store {
    var event := MakeEvent(hash, s, r.elapsed, r.name, r.details, r.context);
    s.(events := s.events + [event], lastHash := event.entryHash, nextSequence := SatSucc(s.nextSequence))
  }

  function RecordEvent(hash: HashFunction, s: Store, r: Record): Store {
    match Coalesce(s, r)
    case Some(details) => Rewritten(s, details)
    case None => Push(hash, MakeRoom(hash, s.(coalesced := None), r), r)
  }

  /** The source's object: the state behind the store's lock, updated in place. */
  class DiagnosticLog {
    const hash: HashFunction
    const maximum: nat
    var events: seq<Event>
    var nextSequence: nat
    var truncationRecorded: bool
    var lastEntryHash: Digest
    var coalescedDetails: Option<string>

    ghost function State(): Store
      reads this
    {
      Store(maximum, events, nextSequence, truncationRecorded, lastEntryHash, coalescedDetails)
    }

    constructor (hash: HashFunction, maximum: nat, genesis: Digest)
      ensures this.hash == hash && State() == NewStore(maximum, genesis)
    {
      this.hash := hash;
      this.maximum := if maximum < 2 then 2 else if maximum > HARD_MAX_EVENTS then HARD_MAX_EVENTS else maximum;
      events, nextSequence, truncationRecorded, lastEntryHash, coalescedDetails := [], 1, false, genesis, None;
    }

    method CoalesceRepeated(name: string, details: string) returns (done: bool)
      modifies this
      ensures done <==> old(events != [] && events[|events| - 1].name == name
                            && Coalesced(coalescedDetails, events[|events| - 1].details, details).Some?)
      ensures done ==> State() == Rewritten(old(State()),
                old(Coalesced(coalescedDetails, events[|events| - 1].details, details)).value)
      ensures !done ==> State() == old(State())
    {
      if events == [] || events[|events| - 1].name != name {
        return false;
      }
      var k := |events| - 1;
      match Coalesced(coalescedDetails, events[k].details, details) {
        case None => return false;
        case Some(next) =>
          events := events[k := events[k].(details := next)];
          coalescedDetails := Some(next);
          return true;
      }
    }

    method RecordWithContext(r: Record)
      modifies this
      ensures State() == RecordEvent(hash, old(State()), r)
    {
      if r.name == LAYOUT_ERROR {
        var done := CoalesceRepeated(r.name, r.details);
        if done {
          return;
        }
      }
      coalescedDetails := None;
      EvictOldest(r);
      var entryHash := EntryHash(hash, lastEntryHash, nextSequence, r.elapsed, r.name, r.details);
      var event := Event(nextSequence, r.elapsed, r.name, r.details, lastEntryHash, entryHash, r.context);
      lastEntryHash := entryHash;
      nextSequence := SatSucc(nextSequence);
      events := events + [event];
    }

    /** Makes room in a full buffer, with the marker in front the first time. */
    method EvictOldest(r: Record)
      modifies this`events, this`lastEntryHash, this`nextSequence, this`truncationRecorded
      ensures State() == MakeRoom(hash, old(State()), r)
    {
      if |events| >= maximum {
        var oldest := if truncationRecorded then 1 else 0;
        events := RemoveAt(events, oldest);
        if !truncationRecorded {
          var details := MarkerDetails(maximum);
          var entryHash := EntryHash(hash, lastEntryHash, nextSequence, r.markerElapsed, LOG_TRUNCATED, details);
          var marker := Event(nextSequence, r.markerElapsed, LOG_TRUNCATED, details, lastEntryHash, entryHash,
                              MarkerContext(r.context));
          events := [marker] + events;
          lastEntryHash := entryHash;
          nextSequence := SatSucc(nextSequence);
          truncationRecorded := true;
        }
        if |events| >= maximum {
          events := RemoveAt(events, 1);
        }
      }
    }

    method Snapshot() returns (rows: seq<Event>)
      ensures rows == State().events
    {
      rows := events;
    }
  }

  // ---------------------------------------------------------------------------
  // The ghost history: every event ever created, in order, with the marker where it was created.

  /** `chain` holds the events with their present details, `hashed` the details they were created
      with. Once the buffer has overflowed, the marker is the event at index `maximum`. */
  datatype History = History(chain: seq<Event>, hashed: seq<string>)

  /** The recorded events of an overflowed history, without the marker. */
  function Recorded<T>(chain: seq<T>, maximum: nat): (r: seq<T>)
    requires maximum < |chain|
    ensures |r| == |chain| - 1
  {
    chain[..maximum] + chain[maximum + 1..]
  }

  function Last<T>(s: seq<T>, k: nat): (r: seq<T>)
    requires k <= |s|
    ensures |r| == k
  {
    s[|s| - k..]
  }

  /** What the snapshot should show: everything, or the marker and then the newest `maximum - 1`
      events. */
  function Retained<T>(chain: seq<T>, maximum: nat): seq<T>
    requires 2 <= maximum && |chain| != maximum + 1
  {
    if |chain| <= maximum then chain else [chain[maximum]] + Last(Recorded(chain, maximum), maximum - 1)
  }

  ghost predicate Link(hash: HashFunction, genesis: Digest, h: History, i: nat)
    requires i < |h.chain| == |h.hashed|
  {
    var e := h.chain[i];
    && e.sequence == i + 1
    && e.prevHash == (if i == 0 then genesis else h.chain[i - 1].entryHash)
    && e.entryHash == EntryHash(hash, e.prevHash, e.sequence, e.elapsed, e.name, h.hashed[i])
  }

  ghost predicate Chained(hash: HashFunction, genesis: Digest, h: History) {
    |h.chain| == |h.hashed| && forall i :: 0 <= i < |h.chain| ==> Link(hash, genesis, h, i)
  }

  ghost predicate Represents(hash: HashFunction, genesis: Digest, s: Store, h: History) {
    && 2 <= s.maximum && |h.chain| != s.maximum + 1
    && Chained(hash, genesis, h)
    && s.events == Retained(h.chain, s.maximum)
    && (s.truncated <==> |h.chain| > s.maximum)
    && s.nextSequence == |h.chain| + 1
    && s.lastHash == (if h.chain == [] then genesis else h.chain[|h.chain| - 1].entryHash)
  }

  function Extend(h: History, e: Event): History {
    History(h.chain + [e], h.hashed + [e.details])
  }

  function RewriteLast(h: History, details: string): History {
    if h.chain == [] then h
    else
      var k := |h.chain| - 1;
      h.(chain := h.chain[k := h.chain[k].(details := details)])
  }

  /** The history after one recording, told apart by what the history alone shows. */
  function RecordHistory(hash: HashFunction, s: Store, h: History, r: Record): History {
    match Coalesce(s, r)
    case Some(details) => RewriteLast(h, details)
    case None =>
      var room := MakeRoom(hash, s.(coalesced := None), r);
      var event := MakeEvent(hash, room, r.elapsed, r.name, r.details, r.context);
      if |h.chain| == s.maximum then Extend(Extend(h, MarkerOf(hash, s.(coalesced := None), r)), event)
      else Extend(h, event)
  }

  lemma RetainedLast<T>(chain: seq<T>, maximum: nat)
    requires 2 <= maximum && |chain| != maximum + 1 && chain != []
    ensures var rows := Retained(chain, maximum);
            rows != [] && rows[|rows| - 1] == chain[|chain| - 1]
  {
  }

  lemma RecordedUpdate<T>(chain: seq<T>, maximum: nat, e: T)
    requires maximum + 2 <= |chain|
    ensures Recorded(chain[|chain| - 1 := e], maximum) == Recorded(chain, maximum)[|chain| - 2 := e]
  {
  }

  lemma RetainedUpdate<T>(chain: seq<T>, maximum: nat, e: T)
    requires 2 <= maximum && |chain| != maximum + 1 && chain != []
    ensures var rows := Retained(chain, maximum);
            rows != [] &&
            Retained(chain[|chain| - 1 := e], maximum) == rows[|rows| - 1 := e]
  {
    if |chain| > maximum {
      RecordedUpdate(chain, maximum, e);
      LastUpdate(Recorded(chain, maximum), maximum - 1, e);
    }
  }

  lemma LastUpdate<T>(s: seq<T>, k: nat, e: T)
    requires 1 <= k <= |s|
    ensures Last(s[|s| - 1 := e], k) == Last(s, k)[k - 1 := e]
  {
  }

  lemma LastGrows<T>(s: seq<T>, e: T, k: nat)
    requires 1 <= k <= |s|
    ensures Last(s + [e], k) == Last(s, k)[1..] + [e]
  {
  }

  lemma RecordedGrows<T>(chain: seq<T>, maximum: nat, e: T)
    requires maximum < |chain|
    ensures Recorded(chain + [e], maximum) == Recorded(chain, maximum) + [e]
  {
    var chain' := chain + [e];
    assert chain'[..maximum] == chain[..maximum];
    assert chain'[maximum + 1..] == chain[maximum + 1..] + [e];
  }

  lemma RetainedGrows<T>(chain: seq<T>, maximum: nat, e: T)
    requires 2 <= maximum && maximum + 2 <= |chain|
    ensures var rows := Retained(chain, maximum);
            |rows| == maximum && Retained(chain + [e], maximum) == [rows[0]] + rows[2..] + [e]
  {
    RecordedGrows(chain, maximum, e);
    LastGrows(Recorded(chain, maximum), e, maximum - 1);
    var newest := Last(Recorded(chain, maximum), maximum - 1);
    assert ([chain[maximum]] + newest)[2..] == newest[1..];
  }

  lemma RetainedOverflows<T>(chain: seq<T>, maximum: nat, marker: T, e: T)
    requires 2 <= maximum == |chain|
    ensures Retained(chain + [marker] + [e], maximum) == [marker] + chain[2..] + [e]
  {
    RecordedGrows(chain + [marker], maximum, e);
    assert Recorded(chain + [marker], maximum) == chain;
    LastGrows(chain, e, maximum - 1);
    assert Last(chain, maximum - 1)[1..] == chain[2..];
  }

  lemma {:induction false} ExtendChained(hash: HashFunction, genesis: Digest, h: History, e: Event)
    requires Chained(hash, genesis, h)
    requires e.sequence == |h.chain| + 1
    requires e.prevHash == (if h.chain == [] then genesis else h.chain[|h.chain| - 1].entryHash)
    requires e.entryHash == EntryHash(hash, e.prevHash, e.sequence, e.elapsed, e.name, e.details)
    ensures Chained(hash, genesis, Extend(h, e))
  {
    var h' := Extend(h, e);
    forall i | 0 <= i < |h'.chain| ensures Link(hash, genesis, h', i) {
      if i < |h.chain| {
        assert Link(hash, genesis, h, i);
      }
    }
  }

  lemma RewriteChained(hash: HashFunction, genesis: Digest, h: History, details: string)
    requires Chained(hash, genesis, h) && h.chain != []
    ensures Chained(hash, genesis, RewriteLast(h, details))
  {
    var h' := RewriteLast(h, details);
    forall i | 0 <= i < |h'.chain| ensures Link(hash, genesis, h', i) {
      assert Link(hash, genesis, h, i);
    }
  }

  lemma RewriteRepresents(hash: HashFunction, genesis: Digest, s: Store, h: History, details: string)
    requires Represents(hash, genesis, s, h) && h.chain != []
    ensures s.events != [] && s.events[|s.events| - 1] == h.chain[|h.chain| - 1]
    ensures Represents(hash, genesis, Rewritten(s, details), RewriteLast(h, details))
  {
    var k := |h.chain| - 1;
    RetainedLast(h.chain, s.maximum);
    RewriteChained(hash, genesis, h, details);
    RetainedUpdate(h.chain, s.maximum, h.chain[k].(details := details));
  }

  lemma CoalesceRepresents(hash: HashFunction, genesis: Digest, s: Store, h: History, r: Record)
    requires Represents(hash, genesis, s, h) && Coalesce(s, r).Some?
    ensures Represents(hash, genesis, RecordEvent(hash, s, r), RecordHistory(hash, s, h, r))
  {
    RewriteRepresents(hash, genesis, s, h, Coalesce(s, r).value);
  }

  lemma PushRepresents(hash: HashFunction, genesis: Digest, s: Store, h: History, r: Record)
    requires Represents(hash, genesis, s, h) && Coalesce(s, r).None? && |h.chain| < s.maximum
    requires s.nextSequence < U64_MAX
    ensures Represents(hash, genesis, RecordEvent(hash, s, r), RecordHistory(hash, s, h, r))
  {
    var event := MakeEvent(hash, s, r.elapsed, r.name, r.details, r.context);
    ExtendChained(hash, genesis, h, event);
  }

  lemma RollRepresents(hash: HashFunction, genesis: Digest, s: Store, h: History, r: Record)
    requires Represents(hash, genesis, s, h) && Coalesce(s, r).None? && |h.chain| > s.maximum
    requires s.nextSequence < U64_MAX
    ensures Represents(hash, genesis, RecordEvent(hash, s, r), RecordHistory(hash, s, h, r))
  {
    var event := MakeEvent(hash, s, r.elapsed, r.name, r.details, r.context);
    ExtendChained(hash, genesis, h, event);
    RetainedGrows(h.chain, s.maximum, event);
    assert RemoveAt(s.events, 1) == [s.events[0]] + s.events[2..];
  }

  lemma OverflowRepresents(hash: HashFunction, genesis: Digest, s: Store, h: History, r: Record)
    requires Represents(hash, genesis, s, h) && Coalesce(s, r).None? && |h.chain| == s.maximum
    requires s.nextSequence + 1 < U64_MAX
    ensures Represents(hash, genesis, RecordEvent(hash, s, r), RecordHistory(hash, s, h, r))
  {
    var s0 := s.(coalesced := None);
    var marker, room := MarkerOf(hash, s0, r), MakeRoom(hash, s0, r);
    var event := MakeEvent(hash, room, r.elapsed, r.name, r.details, r.context);
    ExtendChained(hash, genesis, h, marker);
    assert room.events == [marker] + s.events[2..];
    assert room.lastHash == marker.entryHash && room.nextSequence == |h.chain| + 2;
    ExtendChained(hash, genesis, Extend(h, marker), event);
    RetainedOverflows(h.chain, s.maximum, marker, event);
  }

  // ---------------------------------------------------------------------------
  // Runs.

  datatype Traced = Traced(store: Store, history: History)

  function Run(hash: HashFunction, genesis: Digest, maximum: nat, rs: seq<Record>): Traced {
    if rs == [] then Traced(NewStore(maximum, genesis), History([], []))
    else
      var t := Run(hash, genesis, maximum, rs[..|rs| - 1]);
      TracedRecord(hash, t, rs[|rs| - 1])
  }

  function TracedRecord(hash: HashFunction, t: Traced, r: Record): Traced {
    Traced(RecordEvent(hash, t.store, r), RecordHistory(hash, t.store, t.history, r))
  }

  /** One recording keeps the representation, until the sequence counter saturates. */
  lemma RecordRepresents(hash: HashFunction, genesis: Digest, t: Traced, r: Record)
    requires Represents(hash, genesis, t.store, t.history)
    requires TracedRecord(hash, t, r).store.nextSequence < U64_MAX
    ensures var t' := TracedRecord(hash, t, r);
            && Represents(hash, genesis, t'.store, t'.history)
            && t'.store.maximum == t.store.maximum && t.store.nextSequence <= t'.store.nextSequence
            && |t.history.chain| <= |t'.history.chain|
  {
    if Coalesce(t.store, r).Some? {
      CoalesceRepresents(hash, genesis, t.store, t.history, r);
    } else if |t.history.chain| < t.store.maximum {
      PushRepresents(hash, genesis, t.store, t.history, r);
    } else if |t.history.chain| == t.store.maximum {
      OverflowRepresents(hash, genesis, t.store, t.history, r);
    } else {
      RollRepresents(hash, genesis, t.store, t.history, r);
    }
  }

  lemma SequenceGrows(hash: HashFunction, t: Traced, r: Record)
    ensures t.store.nextSequence < U64_MAX || TracedRecord(hash, t, r).store.nextSequence >= U64_MAX
  {
  }

  /** For every run of recordings the snapshot is the whole history, or the marker followed by the
      newest `maximum - 1` events of it. */
  lemma {:induction false} RunRepresents(hash: HashFunction, genesis: Digest, maximum: nat, rs: seq<Record>)
    requires Run(hash, genesis, maximum, rs).store.nextSequence < U64_MAX
    ensures var t := Run(hash, genesis, maximum, rs);
            && Represents(hash, genesis, t.store, t.history)
            && t.store.maximum == NewStore(maximum, genesis).maximum
  {
    if rs != [] {
      var t := Run(hash, genesis, maximum, rs[..|rs| - 1]);
      SequenceGrows(hash, t, rs[|rs| - 1]);
      RunRepresents(hash, genesis, maximum, rs[..|rs| - 1]);
      RecordRepresents(hash, genesis, t, rs[|rs| - 1]);
    }
  }

  // ---------------------------------------------------------------------------
  // Rows of a snapshot.

  /** The place in the history of row `i` of a snapshot taken after `n` events. */
  function RowIndex(n: nat, maximum: nat, i: nat): nat {
    if n <= maximum then i
    else if i == 0 then maximum
    else
      var k := n - maximum + i - 1;
      if k < maximum then k else k + 1
  }

  lemma RecordedAt<T>(chain: seq<T>, maximum: nat, k: nat)
    requires maximum < |chain| && k < |chain| - 1
    ensures Recorded(chain, maximum)[k] == chain[if k < maximum then k else k + 1]
  {
  }

  lemma RowAt<T>(chain: seq<T>, maximum: nat, i: nat)
    requires 2 <= maximum && |chain| != maximum + 1 && i < |Retained(chain, maximum)|
    ensures RowIndex(|chain|, maximum, i) < |chain|
    ensures Retained(chain, maximum)[i] == chain[RowIndex(|chain|, maximum, i)]
  {
    if |chain| > maximum && i > 0 {
      RecordedAt(chain, maximum, |chain| - maximum + i - 1);
    }
  }

  /** Apart from the marker in front, rows are in strictly increasing sequence, and every row's
      sequence is at most that of the last. */
  lemma RowsIncrease(hash: HashFunction, genesis: Digest, s: Store, h: History, i: nat, j: nat)
    requires Represents(hash, genesis, s, h) && i < j < |s.events|
    ensures 1 <= i ==> s.events[i].sequence < s.events[j].sequence
    ensures s.events[i].sequence <= s.events[|s.events| - 1].sequence == |h.chain|
    ensures |s.events| <= s.maximum
  {
    RowAt(h.chain, s.maximum, i);
    RowAt(h.chain, s.maximum, j);
    RetainedLast(h.chain, s.maximum);
    assert Link(hash, genesis, h, RowIndex(|h.chain|, s.maximum, i));
    assert Link(hash, genesis, h, RowIndex(|h.chain|, s.maximum, j));
    assert Link(hash, genesis, h, |h.chain| - 1);
  }

  /** Whether coalescing left row `i` with details other than the hashed ones. */
  predicate RowChanged(s: Store, h: History, i: nat)
    requires |h.chain| == |h.hashed| && RowIndex(|h.chain|, s.maximum, i) < |h.chain|
  {
    var k := RowIndex(|h.chain|, s.maximum, i);
    h.chain[k].details != h.hashed[k]
  }

  lemma RowEntry(hash: HashFunction, genesis: Digest, s: Store, h: History, i: nat)
    requires Represents(hash, genesis, s, h) && i < |s.events|
    ensures RowIndex(|h.chain|, s.maximum, i) < |h.chain|
    ensures !RowChanged(s, h, i) ==> EntryOk(hash, s.events[i])
    ensures CollisionFree(hash) && RowChanged(s, h, i) ==> !EntryOk(hash, s.events[i])
  {
    var k := RowIndex(|h.chain|, s.maximum, i);
    RowAt(h.chain, s.maximum, i);
    assert Link(hash, genesis, h, k);
    var e := h.chain[k];
    TextDiffers(e.name, e.details, h.hashed[k]);
  }

  lemma RowLinked(hash: HashFunction, genesis: Digest, s: Store, h: History, i: nat)
    requires Represents(hash, genesis, s, h) && i < |s.events|
    ensures LinkOk(s.events, i)
  {
    if i > 0 {
      var a, b := RowIndex(|h.chain|, s.maximum, i - 1), RowIndex(|h.chain|, s.maximum, i);
      RowAt(h.chain, s.maximum, i - 1);
      RowAt(h.chain, s.maximum, i);
      assert Link(hash, genesis, h, a);
      assert Link(hash, genesis, h, b);
    }
  }

  lemma RowVerifies(hash: HashFunction, genesis: Digest, s: Store, h: History, i: nat)
    requires Represents(hash, genesis, s, h) && i < |s.events|
    ensures RowIndex(|h.chain|, s.maximum, i) < |h.chain|
    ensures LinkOk(s.events, i)
    ensures !RowChanged(s, h, i) ==> EntryOk(hash, s.events[i])
    ensures CollisionFree(hash) && RowChanged(s, h, i) ==> !EntryOk(hash, s.events[i])
  {
    RowEntry(hash, genesis, s, h, i);
    RowLinked(hash, genesis, s, h, i);
  }

  lemma TextDiffers(name: string, a: string, b: string)
    ensures a != b ==> name + a != name + b
  {
    assert a == (name + a)[|name|..] && b == (name + b)[|name|..];
  }

  ghost predicate FirstChanged(s: Store, h: History, from: nat, v: Verdict)
    requires |h.chain| == |h.hashed|
    requires forall i :: 0 <= i < |s.events| ==> RowIndex(|h.chain|, s.maximum, i) < |h.chain|
  {
    match v
    case Accepted => forall i :: from <= i < |s.events| ==> !RowChanged(s, h, i)
    case EntryMismatch(k) =>
      from <= k < |s.events| && RowChanged(s, h, k) && forall i :: from <= i < k ==> !RowChanged(s, h, i)
    case LinkMismatch(_) => false
  }

  lemma {:induction false} VerifyFindsFirst(hash: HashFunction, genesis: Digest, s: Store, h: History, from: nat)
    requires Represents(hash, genesis, s, h) && CollisionFree(hash) && from <= |s.events|
    requires forall i :: 0 <= i < |s.events| ==> RowIndex(|h.chain|, s.maximum, i) < |h.chain|
    ensures FirstChanged(s, h, from, VerifyFrom(hash, s.events, from))
    decreases |s.events| - from
  {
    if from < |s.events| {
      RowVerifies(hash, genesis, s, h, from);
      if !RowChanged(s, h, from) {
        VerifyFindsFirst(hash, genesis, s, h, from + 1);
      }
    }
  }

  /** Verification of a snapshot taken after any run fails at exactly the first row that coalescing
      changed, and accepts when there is none. */
  lemma RunVerifies(hash: HashFunction, genesis: Digest, maximum: nat, rs: seq<Record>)
    requires Run(hash, genesis, maximum, rs).store.nextSequence < U64_MAX && CollisionFree(hash)
    ensures var t := Run(hash, genesis, maximum, rs);
            && |t.history.chain| == |t.history.hashed|
            && (forall i :: 0 <= i < |t.store.events| ==>
                  RowIndex(|t.history.chain|, t.store.maximum, i) < |t.history.chain|)
            && FirstChanged(t.store, t.history, 0, VerifyFrom(hash, t.store.events, 0))
  {
    var t := Run(hash, genesis, maximum, rs);
    RunRepresents(hash, genesis, maximum, rs);
    forall i | 0 <= i < |t.store.events|
      ensures RowIndex(|t.history.chain|, t.store.maximum, i) < |t.history.chain|
    {
      RowAt(t.history.chain, t.store.maximum, i);
    }
    VerifyFindsFirst(hash, genesis, t.store, t.history, 0);
  }

  /** Without any assumption on the hash, an untouched snapshot is always accepted. */
  lemma {:induction false} UntouchedAccepted(hash: HashFunction, genesis: Digest, s: Store, h: History, from: nat)
    requires Represents(hash, genesis, s, h) && from <= |s.events|
    requires forall k :: 0 <= k < |h.chain| ==> h.chain[k].details == h.hashed[k]
    ensures VerifyFrom(hash, s.events, from) == Accepted
    decreases |s.events| - from
  {
    if from < |s.events| {
      RowVerifies(hash, genesis, s, h, from);
      UntouchedAccepted(hash, genesis, s, h, from + 1);
    }
  }

  /** Exactly which edits of one row escape the row's own hash: those that keep sequence, time and
      the joined text of name and details. The stored context is never covered. */
  lemma EditsThatEscape(hash: HashFunction, e: Event, f: Event)
    requires CollisionFree(hash) && EntryOk(hash, e)
    requires f.prevHash == e.prevHash && f.entryHash == e.entryHash
    ensures EntryOk(hash, f) <==>
              f.sequence == e.sequence && f.elapsed == e.elapsed && f.name + f.details == e.name + e.details
  {
  }

  // ---------------------------------------------------------------------------
  // What coalescing does.

  /** Only layout errors are ever rewritten. */
  ghost predicate OnlyLayoutChanged(h: History) {
    && |h.chain| == |h.hashed|
    && forall k :: 0 <= k < |h.chain| && h.chain[k].details != h.hashed[k] ==> h.chain[k].name == LAYOUT_ERROR
  }

  lemma ExtendChangesNothing(h: History, e: Event)
    requires OnlyLayoutChanged(h)
    ensures OnlyLayoutChanged(Extend(h, e))
  {
  }

  lemma RewriteChangesLast(h: History, details: string)
    requires OnlyLayoutChanged(h) && h.chain != [] && h.chain[|h.chain| - 1].name == LAYOUT_ERROR
    ensures OnlyLayoutChanged(RewriteLast(h, details))
  {
  }

  /** The event has time, name and context of the recording. */
  predicate Carries(e: Event, r: Record) {
    e.elapsed == r.elapsed && e.name == r.name && e.context == r.context
  }

  /** The truncation marker, put in place while `r` was recorded: its operation, the rest replaced. */
  predicate IsMarker(e: Event, r: Record, maximum: nat) {
    && e.elapsed == r.markerElapsed && e.name == "diagnostic.log_truncated"
    && (maximum > 0 ==> e.details == "retaining newest " + Decimal(maximum - 1) + " events")
    && e.context == Context(r.context.operationId, r.context.parentOperationId, r.context.correlationId,
                            "Complete", "Diagnostic", Completed, NativeOutcome(None, None, None, None, None))
  }

  /** What a recording that does not coalesce appends: the marker when the buffer overflows for the
      first time, and then its own event. */
  lemma PushHistory(hash: HashFunction, s: Store, h: History, r: Record) returns (marker: Event, event: Event)
    requires Coalesce(s, r).None?
    ensures RecordHistory(hash, s, h, r)
            == (if |h.chain| == s.maximum then Extend(Extend(h, marker), event) else Extend(h, event))
    ensures Carries(event, r) && event.details == r.details
    ensures IsMarker(marker, r, s.maximum)
    ensures RecordEvent(hash, s, r).coalesced == None
  {
    var plain := s.(coalesced := None);
    marker := MarkerOf(hash, plain, r);
    event := MakeEvent(hash, MakeRoom(hash, plain, r), r.elapsed, r.name, r.details, r.context);
  }

  lemma CoalesceChangesLayout(hash: HashFunction, genesis: Digest, t: Traced, r: Record)
    requires Represents(hash, genesis, t.store, t.history) && OnlyLayoutChanged(t.history)
    requires Coalesce(t.store, r).Some?
    ensures OnlyLayoutChanged(TracedRecord(hash, t, r).history)
  {
    RetainedLast(t.history.chain, t.store.maximum);
    RewriteChangesLast(t.history, Coalesce(t.store, r).value);
  }

  lemma RecordChangesLayoutOnly(hash: HashFunction, genesis: Digest, t: Traced, r: Record)
    requires Represents(hash, genesis, t.store, t.history) && OnlyLayoutChanged(t.history)
    ensures OnlyLayoutChanged(TracedRecord(hash, t, r).history)
  {
    if Coalesce(t.store, r).Some? {
      CoalesceChangesLayout(hash, genesis, t, r);
    } else {
      var marker, event := PushHistory(hash, t.store, t.history, r);
      ExtendChangesNothing(t.history, marker);
      ExtendChangesNothing(Extend(t.history, marker), event);
      ExtendChangesNothing(t.history, event);
    }
  }

  lemma {:induction false} RunChangesLayoutOnly(hash: HashFunction, genesis: Digest, maximum: nat, rs: seq<Record>)
    requires Run(hash, genesis, maximum, rs).store.nextSequence < U64_MAX
    ensures OnlyLayoutChanged(Run(hash, genesis, maximum, rs).history)
  {
    if rs != [] {
      var before := rs[..|rs| - 1];
      SequenceGrows(hash, Run(hash, genesis, maximum, before), rs[|rs| - 1]);
      RunChangesLayoutOnly(hash, genesis, maximum, before);
      RunRepresents(hash, genesis, maximum, before);
      RecordChangesLayoutOnly(hash, genesis, Run(hash, genesis, maximum, before), rs[|rs| - 1]);
    }
  }

  /** The separator does not occur. */
  predicate Without(d: string, sep: string) {
    LastOccurrence(d, sep) == |d|
  }

  /** Details that were cut after exactly as many bytes as the limit allows. */
  predicate CutAt(d: string, limit: nat) {
    |d| >= 3 && d[|d| - 3..] == "..." && Utf8Len(d[..|d| - 3]) == limit
  }

  /** The cut never stops before the next character would have exceeded the limit. */
  lemma {:induction false} PrefixIsMaximal(s: string, limit: nat)
    ensures var p := Prefix(s, limit);
            p <= s && Utf8Len(p) <= limit && (|p| < |s| ==> Utf8Len(p) + Utf8Width(s[|p|]) > limit)
  {
    if s != [] && Utf8Width(s[0]) <= limit {
      PrefixIsMaximal(s[1..], limit - Utf8Width(s[0]));
      var rest := Prefix(s[1..], limit - Utf8Width(s[0]));
      assert ([s[0]] + rest)[1..] == rest;
      assert |rest| < |s[1..]| ==> s[1..][|rest|] == s[|rest| + 1];
    }
  }

  lemma CutAddsNothing(d: string, tail: string, limit: nat)
    requires CutAt(d, limit)
    ensures TruncateUtf8(d + tail, limit) == d
  {
    var p := d[..|d| - 3];
    assert d == p + "...";
    assert d + tail == p + ("..." + tail);
    Utf8LenAppend(p, "..." + tail);
    PrefixIs(p, "..." + tail, limit);
  }

  lemma CutChanges(d: string, tail: string, limit: nat)
    requires tail != [] && TruncateUtf8(d + tail, limit) == d
    ensures CutAt(d, limit)
  {
    var full := d + tail;
    var p := Prefix(full, limit);
    PrefixIsMaximal(full, limit);
    assert d == p + "...";
    assert full[|p|] == d[|p|] == '.';
    assert d[..|p|] == p;
  }

  /** A repeat leaves no trace, whatever was last coalesced, if and only if its details carry no
      repeat count and were cut after exactly the limit's 160 bytes. */
  lemma CutRepeatsVanish(marker: Option<string>, d: string)
    ensures Coalesced(marker, d, d) == Some(d) <==> Without(d, REPEAT) && CutAt(d, MAX_FIELD_LENGTH)
  {
    var k := LastOccurrence(d, REPEAT);
    if k == |d| {
      var tail := REPEAT + Decimal(2);
      assert d[..k] == d && d + REPEAT + Decimal(2) == d + tail;
      if CutAt(d, MAX_FIELD_LENGTH) {
        CutAddsNothing(d, tail, MAX_FIELD_LENGTH);
      }
      if TruncateUtf8(d + tail, MAX_FIELD_LENGTH) == d {
        CutChanges(d, tail, MAX_FIELD_LENGTH);
      }
    } else {
      assert |d[..k]| < |d|;
    }
  }

  lemma {:induction false} PrefixIs(p: string, rest: string, limit: nat)
    requires Utf8Len(p) == limit
    ensures Prefix(p + rest, limit) == p
  {
    if p == [] {
      assert p + rest == rest;
    } else {
      PrefixIs(p[1..], rest, limit - Utf8Width(p[0]));
      assert (p + rest)[1..] == p[1..] + rest;
      assert p == [p[0]] + p[1..];
    }
  }
}
