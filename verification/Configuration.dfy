/** The configuration file: its printer, its parser, and the migration of a legacy value. */
module Configuration {
  import opened Options
  import opened Text
  import Durations

  const MAX_CONFIG_FILE_BYTES: nat := 65536
  const MAX_CONFIG_LINE_BYTES: nat := 4096
  const MAX_CONFIG_KEY_BYTES: nat := 64
  const MAX_CONFIG_VALUE_BYTES: nat := 1024
  const MIN_PRESET_SECONDS: nat := Durations.MIN_PRESET_SECONDS
  const MAX_PRESET_SECONDS: nat := Durations.MAX_PRESET_SECONDS
  const MAX_PRESETS: nat := 12

  const AUTOMATIC_INTERVAL: nat := 0
  const LEGACY_INTERVAL: nat := 10_000

  datatype Config = Config(
    automatic: bool,
    startupEnabled: bool,
    autoResumeOnAc: bool,
    batteryLockout: bool,
    requestInterval: nat,
    presets: seq<nat>)

  const DEFAULT: Config := Config(false, true, true, false, AUTOMATIC_INTERVAL, [60, 300, 900, 1800, 3600])

  predicate ValidPresets(presets: seq<nat>) {
    |presets| <= MAX_PRESETS && forall i :: 0 <= i < |presets| ==> MIN_PRESET_SECONDS <= presets[i] <= MAX_PRESET_SECONDS
  }

  /** What the settings screens can produce: one to twelve presets in range, a 64-bit interval. */
  predicate ValidConfig(c: Config) {
    c.requestInterval <= U64_MAX && c.presets != [] && ValidPresets(c.presets)
  }

  /** The legacy interval becomes the automatic one; everything else stays. */
  function Migrate(c: Config): Config {
    if c.requestInterval == LEGACY_INTERVAL then c.(requestInterval := AUTOMATIC_INTERVAL) else c
  }

  // ---------------------------------------------------------------------------
  // Keys.

  datatype Key =
    Automatic | StartupEnabled | AutoResumeOnAc | BatteryLockout | RequestInterval | SchedulePresets

  function NameOf(k: Key): string {
    match k
    case Automatic => "automatic"
    case StartupEnabled => "startup_enabled"
    case AutoResumeOnAc => "auto_resume_on_ac"
    case BatteryLockout => "battery_lockout"
    case RequestInterval => "request_interval_hns"
    case SchedulePresets => "schedule_presets_seconds"
  }

  function KeyOf(name: string): Option<Key> {
    if name == "automatic" then Some(Automatic)
    else if name == "startup_enabled" then Some(StartupEnabled)
    else if name == "auto_resume_on_ac" then Some(AutoResumeOnAc)
    else if name == "battery_lockout" then Some(BatteryLockout)
    else if name == "request_interval_hns" then Some(RequestInterval)
    else if name == "schedule_presets_seconds" then Some(SchedulePresets)
    else None
  }

  lemma KeyOfName(k: Key)
    ensures KeyOf(NameOf(k)) == Some(k)
  {
  }

  // ---------------------------------------------------------------------------
  // Values.

  function BoolText(b: bool): string {
    if b then "true" else "false"
  }

  function ParseBool(s: string): Option<bool> {
    if s == "true" then Some(true) else if s == "false" then Some(false) else None
  }

  /** `presets.join(", ")`. */
  function PresetsText(presets: seq<nat>): string {
    if presets == [] then []
    else if |presets| == 1 then Decimal(presets[0])
    else Decimal(presets[0]) + "," + (" " + PresetsText(presets[1..]))
  }

  function StripBrackets(s: string): Option<string> {
    if s == [] || s[0] != '[' then None
    else if s[1..] == [] || s[|s| - 1] != ']' then None
    else Some(s[1..|s| - 1])
  }

  /** What one element adds to the list, or nothing when it is refused. */
  function AddPreset(presets: seq<nat>, element: string): Option<seq<nat>> {
    var trimmed := Trim(element);
    if trimmed == [] then Some(presets)
    else
      match ParseUnsigned(trimmed, U32_MAX)
      case None => None
      case Some(n) =>
        if !(MIN_PRESET_SECONDS <= n <= MAX_PRESET_SECONDS) || |presets| >= MAX_PRESETS then None
        else Some(presets + [n])
  }

  function AddPresets(presets: seq<nat>, elements: seq<string>): Option<seq<nat>>
    decreases |elements|
  {
    if elements == [] then Some(presets)
    else
      match AddPreset(presets, elements[0])
      case None => None
      case Some(more) => AddPresets(more, elements[1..])
  }

  function PresetsOf(value: string): Option<seq<nat>> {
    match StripBrackets(value)
    case None => None
    case Some(inner) =>
      match AddPresets([], Split(inner, ','))
      case None => None
      case Some(presets) => if presets == [] then None else Some(presets)
  }

  method ParseSchedulePresets(value: string) returns (r: Option<seq<nat>>)
    ensures r == PresetsOf(value)
  {
    var inner := StripBrackets(value);
    if inner.None? {
      return None;
    }
    var elements := Split(inner.value, ',');
    var presets: seq<nat> := [];
    for i := 0 to |elements|
      invariant AddPresets([], elements) == AddPresets(presets, elements[i..])
    {
      assert elements[i..][1..] == elements[i + 1..];
      var trimmed := Trim(elements[i]);
      if trimmed == [] {
        continue;
      }
      var seconds := ParseUnsigned(trimmed, U32_MAX);
      if seconds.None? {
        return None;
      }
      if !(MIN_PRESET_SECONDS <= seconds.value <= MAX_PRESET_SECONDS) {
        return None;
      }
      if |presets| >= MAX_PRESETS {
        return None;
      }
      presets := presets + [seconds.value];
    }
    r := if presets == [] then None else Some(presets);
  }

  // --- Printed presets read back.

  predicate Blank(s: string) {
    forall i :: 0 <= i < |s| ==> IsWhitespace(s[i])
  }

  lemma TrimAround(before: string, s: string, after: string)
    requires Blank(before) && Blank(after) && Tight(s) && s != []
    ensures Trim(before + s + after) == s
  {
    assert before + s + after == before + (s + after);
    LeadingDrops(IsWhitespace, before, s + after);
    TrailingDrops(IsWhitespace, s, after);
  }

  lemma TrimBefore(before: string, s: string)
    requires Blank(before) && Tight(s) && s != []
    ensures Trim(before + s) == s
  {
    TrimAround(before, s, []);
    assert before + s + [] == before + s;
  }

  lemma DigitIsNotBlank(c: char)
    requires IsDigit(c)
    ensures !IsWhitespace(c)
  {
  }

  lemma DecimalIsTight(n: nat)
    ensures Tight(Decimal(n))
  {
    var d := Decimal(n);
    DigitIsNotBlank(d[0]);
    DigitIsNotBlank(d[|d| - 1]);
  }

  lemma PrintedElement(presets: seq<nat>, gap: string, n: nat)
    requires Blank(gap) && MIN_PRESET_SECONDS <= n <= MAX_PRESET_SECONDS && |presets| < MAX_PRESETS
    ensures AddPreset(presets, gap + Decimal(n)) == Some(presets + [n])
  {
    DecimalIsTight(n);
    TrimBefore(gap, Decimal(n));
    DecimalParses(n, U32_MAX);
  }

  lemma NoComma(gap: string, n: nat)
    requires Blank(gap)
    ensures ',' !in gap + Decimal(n)
  {
    var s := gap + Decimal(n);
    forall i | 0 <= i < |s| ensures s[i] != ',' {
      assert i < |gap| ==> IsWhitespace(s[i]);
      assert i >= |gap| ==> IsDigit(s[i]);
    }
  }

  /** The elements after the first of a printed list. */
  function Others(presets: seq<nat>): seq<string>
    requires presets != []
  {
    if presets[1..] == [] then [] else Split(" " + PresetsText(presets[1..]), ',')
  }

  lemma SplitPrinted(gap: string, presets: seq<nat>)
    requires Blank(gap) && presets != []
    ensures Split(gap + PresetsText(presets), ',') == [gap + Decimal(presets[0])] + Others(presets)
  {
    var first, rest := gap + Decimal(presets[0]), presets[1..];
    NoComma(gap, presets[0]);
    if rest == [] {
      SplitNone(first, ',');
    } else {
      var more := " " + PresetsText(rest);
      Regroup(gap, Decimal(presets[0]), ",", more);
      SplitFirst(first, ',', more);
    }
  }

  lemma Regroup<T>(a: seq<T>, b: seq<T>, c: seq<T>, d: seq<T>)
    ensures a + (b + c + d) == a + b + c + d
  {
  }

  lemma {:induction false} PrintedElements(done: seq<nat>, gap: string, presets: seq<nat>)
    requires Blank(gap) && presets != [] && ValidPresets(done + presets)
    ensures AddPresets(done, Split(gap + PresetsText(presets), ',')) == Some(done + presets)
    decreases |presets|
  {
    var n, rest := presets[0], presets[1..];
    assert (done + presets)[|done|] == n;
    PrintedElement(done, gap, n);
    SplitPrinted(gap, presets);
    HeadTail(done, n, presets);
    FirstElement(done, gap + Decimal(n), done + [n], Others(presets));
    if rest != [] {
      PrintedElements(done + [n], " ", rest);
    }
  }

  lemma HeadTail<T>(done: seq<T>, n: T, presets: seq<T>)
    requires presets != [] && n == presets[0]
    ensures (done + [n]) + presets[1..] == done + presets
    ensures presets[1..] == [] ==> done + [n] == done + presets
  {
    assert presets == [n] + presets[1..];
  }

  lemma FirstElement(done: seq<nat>, element: string, more: seq<nat>, rest: seq<string>)
    requires AddPreset(done, element) == Some(more)
    ensures AddPresets(done, [element] + rest) == AddPresets(more, rest)
  {
    assert ([element] + rest)[1..] == rest;
  }

  lemma StripPrinted(inner: string)
    ensures StripBrackets("[" + inner + "]") == Some(inner)
  {
    var value := "[" + inner + "]";
    assert value[0] == '[' && value[|value| - 1] == ']' && |value[1..]| == |inner| + 1;
    assert value[1..|value| - 1] == inner;
  }

  lemma PresetsReadBack(presets: seq<nat>)
    requires presets != [] && ValidPresets(presets)
    ensures PresetsOf("[" + PresetsText(presets) + "]") == Some(presets)
  {
    var inner := PresetsText(presets);
    StripPrinted(inner);
    assert [] + presets == presets && "" + inner == inner;
    PrintedElements([], "", presets);
  }

  /** Whatever the array text, the accepted presets are within their bounds. */
  lemma {:induction false} AddPresetsValid(presets: seq<nat>, elements: seq<string>)
    requires ValidPresets(presets) && AddPresets(presets, elements).Some?
    ensures ValidPresets(AddPresets(presets, elements).value)
    decreases |elements|
  {
    if elements != [] {
      AddPresetsValid(AddPreset(presets, elements[0]).value, elements[1..]);
    }
  }

  lemma PresetsOfValid(value: string)
    requires PresetsOf(value).Some?
    ensures PresetsOf(value).value != [] && ValidPresets(PresetsOf(value).value)
  {
    AddPresetsValid([], Split(StripBrackets(value).value, ','));
  }

  // ---------------------------------------------------------------------------
  // Lines.

  datatype Line = Empty | Malformed | Setting(name: string, value: string)

  /** One raw line: the comment is cut off, then key and value are split at the first equals sign. */
  function LineOf(raw: string): Line {
    if Utf8Len(raw) > MAX_CONFIG_LINE_BYTES then Malformed
    else
      SettingOf(Trim(Split(raw, '#')[0]))
  }

  function SettingOf(line: string): Line {
    if line == [] then Empty
    else
      var k := IndexOf(line, '=');
      if k == |line| then Malformed
      else
        var name, value := Trim(line[..k]), Trim(line[k + 1..]);
        if Utf8Len(name) > MAX_CONFIG_KEY_BYTES || Utf8Len(value) > MAX_CONFIG_VALUE_BYTES then Malformed
        else Setting(name, value)
  }

  /** A setting applied to the configuration so far; the flag reports a migrated value. */
  function Apply(c: Config, key: Key, value: string): Option<(Config, bool)> {
    match key
    case RequestInterval =>
      (match ParseUnsigned(value, U64_MAX)
       case None => None
       case Some(n) =>
         if n == LEGACY_INTERVAL then Some((c.(requestInterval := AUTOMATIC_INTERVAL), true))
         else Some((c.(requestInterval := n), false)))
    case SchedulePresets =>
      (match PresetsOf(value)
       case None => None
       case Some(presets) => Some((c.(presets := presets), false)))
    case _ =>
      match ParseBool(value)
      case None => None
      case Some(b) => Some((SetFlag(c, key, b), false))
  }

  function SetFlag(c: Config, key: Key, b: bool): Config {
    match key
    case Automatic => c.(automatic := b)
    case StartupEnabled => c.(startupEnabled := b)
    case AutoResumeOnAc => c.(autoResumeOnAc := b)
    case BatteryLockout => c.(batteryLockout := b)
    case _ => c
  }

  datatype State = State(config: Config, migrated: bool, seen: set<string>)

  /** `None` is any of the parser's refusals. */
  function Step(p: State, line: Line): Option<State> {
    match line
    case Empty => Some(p)
    case Malformed => None
    case Setting(name, value) =>
      if name in p.seen then None
      else
        match KeyOf(name)
        case None => None
        case Some(key) =>
          match Apply(p.config, key, value)
          case None => None
          case Some(r) => Some(State(r.0, p.migrated || r.1, p.seen + {name}))
  }

  function ParseLines(raws: seq<string>, p: State): Option<State> {
    if raws == [] then Some(p)
    else
      match Step(p, LineOf(raws[0]))
      case None => None
      case Some(q) => ParseLines(raws[1..], q)
  }

  const START: State := State(DEFAULT, false, {})

  function ParseConfig(text: string): Option<(Config, bool)> {
    if Utf8Len(text) > MAX_CONFIG_FILE_BYTES then None
    else
      match ParseLines(LinesOf(text), START)
      case None => None
      case Some(p) => Some((p.config, p.migrated))
  }

  method ParseWithMigration(text: string) returns (r: Option<(Config, bool)>)
    ensures r == ParseConfig(text)
  {
    if Utf8Len(text) > MAX_CONFIG_FILE_BYTES {
      return None;
    }
    var raws := LinesOf(text);
    var config, migrated, seen := DEFAULT, false, {};
    for i := 0 to |raws|
      invariant ParseLines(raws, START) == ParseLines(raws[i..], State(config, migrated, seen))
    {
      assert raws[i..][1..] == raws[i + 1..];
      var line := LineOf(raws[i]);
      match line {
        case Empty =>
        case Malformed => return None;
        case Setting(name, value) =>
          if name in seen {
            return None;
          }
          seen := seen + {name};
          var key := KeyOf(name);
          if key.None? {
            return None;
          }
          var applied := Apply(config, key.value, value);
          if applied.None? {
            return None;
          }
          config, migrated := applied.value.0, migrated || applied.value.1;
      }
    }
    r := Some((config, migrated));
  }

  // ---------------------------------------------------------------------------
  // Every accepted text.

  /** What the parser can return: never the legacy interval. */
  predicate Settled(c: Config) {
    ValidConfig(c) && c.requestInterval != LEGACY_INTERVAL
  }

  lemma ApplySettles(c: Config, key: Key, value: string)
    requires Settled(c) && Apply(c, key, value).Some?
    ensures Settled(Apply(c, key, value).value.0)
  {
    if key == SchedulePresets {
      PresetsOfValid(value);
    }
  }

  lemma {:induction false} ParseLinesSettles(raws: seq<string>, p: State)
    requires Settled(p.config) && ParseLines(raws, p).Some?
    ensures Settled(ParseLines(raws, p).value.config)
    decreases |raws|
  {
    if raws != [] {
      var line := LineOf(raws[0]);
      if line.Setting? {
        ApplySettles(p.config, KeyOf(line.name).value, line.value);
      }
      ParseLinesSettles(raws[1..], Step(p, line).value);
    }
  }

  lemma DefaultIsSettled()
    ensures Settled(START.config) && !START.migrated && START.seen == {}
  {
  }

  /** Whatever text is accepted, the result is in bounds and free of the legacy value. */
  lemma ParseSettles(text: string)
    requires ParseConfig(text).Some?
    ensures Settled(ParseConfig(text).value.0)
  {
    var raws := LinesOf(text);
    DefaultIsSettled();
    ParseLinesSettles(raws, START);
  }

  // ---------------------------------------------------------------------------
  // Exactly which texts are accepted, and as what.

  function LinesRead(raws: seq<string>): (lines: seq<Line>)
    ensures |lines| == |raws| && forall i :: 0 <= i < |raws| ==> lines[i] == LineOf(raws[i])
  {
    seq(|raws|, i requires 0 <= i < |raws| => LineOf(raws[i]))
  }

  /** A known key with a value of its kind. */
  predicate Understood(name: string, value: string) {
    match KeyOf(name)
    case None => false
    case Some(key) =>
      match key
      case RequestInterval => ParseUnsigned(value, U64_MAX).Some?
      case SchedulePresets => PresetsOf(value).Some?
      case _ => value == "true" || value == "false"
  }

  predicate LineUnderstood(line: Line) {
    !line.Malformed? && (line.Setting? ==> Understood(line.name, line.value))
  }

  predicate SameName(a: Line, b: Line) {
    a.Setting? && b.Setting? && a.name == b.name
  }

  /** Every line is blank, a comment or a known key with a value of its kind, and no key comes twice. */
  predicate Admissible(lines: seq<Line>) {
    && (forall i :: 0 <= i < |lines| ==> LineUnderstood(lines[i]))
    && (forall i, j :: 0 <= i < j < |lines| ==> !SameName(lines[i], lines[j]))
  }

  predicate NoneSeen(lines: seq<Line>, seen: set<string>) {
    forall i :: 0 <= i < |lines| && lines[i].Setting? ==> lines[i].name !in seen
  }

  predicate Sets(line: Line, key: Key) {
    line.Setting? && KeyOf(line.name) == Some(key)
  }

  /** The value that the lines give for a key. */
  function Lookup(lines: seq<Line>, key: Key): Option<string> {
    if lines == [] then None
    else if Sets(lines[0], key) then Some(lines[0].value)
    else Lookup(lines[1..], key)
  }

  function Flag(lines: seq<Line>, key: Key, otherwise: bool): bool {
    match Lookup(lines, key)
    case None => otherwise
    case Some(value) => value == "true"
  }

  /** An interval of 10000 stands for the automatic one. */
  function Interval(lines: seq<Line>, otherwise: nat): nat {
    match Lookup(lines, RequestInterval)
    case None => otherwise
    case Some(value) =>
      match ParseUnsigned(value, U64_MAX)
      case None => otherwise
      case Some(n) => if n == 10_000 then 0 else n
  }

  function Presets(lines: seq<Line>, otherwise: seq<nat>): seq<nat> {
    match Lookup(lines, SchedulePresets)
    case None => otherwise
    case Some(value) => match PresetsOf(value) case None => otherwise case Some(presets) => presets
  }

  predicate Legacy(lines: seq<Line>) {
    Lookup(lines, RequestInterval).Some? && ParseUnsigned(Lookup(lines, RequestInterval).value, U64_MAX) == Some(10_000)
  }

  /** The configuration with what the lines set. */
  function Overridden(lines: seq<Line>, c: Config): Config {
    Config(Flag(lines, Automatic, c.automatic), Flag(lines, StartupEnabled, c.startupEnabled),
           Flag(lines, AutoResumeOnAc, c.autoResumeOnAc), Flag(lines, BatteryLockout, c.batteryLockout),
           Interval(lines, c.requestInterval), Presets(lines, c.presets))
  }

  lemma StepExactly(p: State, line: Line)
    ensures Step(p, line).Some? <==> LineUnderstood(line) && (line.Setting? ==> line.name !in p.seen)
    ensures Step(p, line).Some? ==>
              Step(p, line).value.seen == if line.Setting? then p.seen + {line.name} else p.seen
  {
  }

  lemma KeyIsName(name: string)
    ensures KeyOf(name).Some? ==> NameOf(KeyOf(name).value) == name
  {
  }

  lemma {:induction false} NotSet(lines: seq<Line>, name: string, key: Key)
    requires KeyOf(name) == Some(key) && NoneSeen(lines, {name})
    ensures Lookup(lines, key) == None
  {
    if lines != [] {
      KeyIsName(name);
      if Sets(lines[0], key) {
        KeyIsName(lines[0].name);
      }
      assert forall i :: 0 <= i < |lines[1..]| ==> lines[1..][i] == lines[i + 1];
      NotSet(lines[1..], name, key);
    }
  }

  lemma LookupCons(line: Line, rest: seq<Line>, key: Key)
    ensures Lookup([line] + rest, key) == if Sets(line, key) then Some(line.value) else Lookup(rest, key)
  {
    assert ([line] + rest)[1..] == rest;
  }

  lemma OverriddenCons(line: Line, rest: seq<Line>, c: Config, key: Key, next: (Config, bool))
    requires line.Setting? && KeyOf(line.name) == Some(key) && Understood(line.name, line.value)
    requires NoneSeen(rest, {line.name}) && Apply(c, key, line.value) == Some(next)
    ensures Overridden([line] + rest, c) == Overridden(rest, next.0)
    ensures Legacy([line] + rest) <==> next.1 || Legacy(rest)
  {
    NotSet(rest, line.name, key);
    LookupCons(line, rest, Automatic);
    LookupCons(line, rest, StartupEnabled);
    LookupCons(line, rest, AutoResumeOnAc);
    LookupCons(line, rest, BatteryLockout);
    LookupCons(line, rest, RequestInterval);
    LookupCons(line, rest, SchedulePresets);
  }

  lemma OverriddenEmpty(rest: seq<Line>, c: Config)
    ensures Overridden([Empty] + rest, c) == Overridden(rest, c) && (Legacy([Empty] + rest) <==> Legacy(rest))
  {
    LookupCons(Empty, rest, Automatic);
    LookupCons(Empty, rest, StartupEnabled);
    LookupCons(Empty, rest, AutoResumeOnAc);
    LookupCons(Empty, rest, BatteryLockout);
    LookupCons(Empty, rest, RequestInterval);
    LookupCons(Empty, rest, SchedulePresets);
  }

  lemma AdmissibleCons(line: Line, rest: seq<Line>, seen: set<string>)
    ensures Admissible([line] + rest) && NoneSeen([line] + rest, seen)
            <==> && LineUnderstood(line) && (line.Setting? ==> line.name !in seen)
                 && Admissible(rest) && NoneSeen(rest, if line.Setting? then seen + {line.name} else seen)
  {
    var all := [line] + rest;
    assert all[0] == line && forall i :: 0 <= i < |rest| ==> all[i + 1] == rest[i];
    if Admissible(all) && NoneSeen(all, seen) {
      forall i | 0 <= i < |rest| ensures LineUnderstood(rest[i]) && !SameName(line, rest[i]) {
        assert LineUnderstood(all[i + 1]) && !SameName(all[0], all[i + 1]);
      }
      forall i, j | 0 <= i < j < |rest| ensures !SameName(rest[i], rest[j]) {
        assert !SameName(all[i + 1], all[j + 1]);
      }
    }
  }

  lemma {:induction false} ParseLinesExactly(raws: seq<string>, p: State)
    ensures var lines := LinesRead(raws);
            && (ParseLines(raws, p).Some? <==> Admissible(lines) && NoneSeen(lines, p.seen))
            && (ParseLines(raws, p).Some? ==>
                  && ParseLines(raws, p).value.config == Overridden(lines, p.config)
                  && (ParseLines(raws, p).value.migrated <==> p.migrated || Legacy(lines)))
    decreases |raws|
  {
    if raws != [] {
      var line, rest := LineOf(raws[0]), LinesRead(raws[1..]);
      assert LinesRead(raws) == [line] + rest;
      StepExactly(p, line);
      AdmissibleCons(line, rest, p.seen);
      if Step(p, line).Some? {
        ParseLinesExactly(raws[1..], Step(p, line).value);
        if ParseLines(raws, p).Some? {
          if line.Setting? {
            var key := KeyOf(line.name).value;
            assert NoneSeen(rest, {line.name});
            OverriddenCons(line, rest, p.config, key, Apply(p.config, key, line.value).value);
          } else {
            OverriddenEmpty(rest, p.config);
          }
        }
      }
    }
  }

  /** A text is accepted if and only if it is short enough, every line is blank, a comment or a known key
      with a value of its kind, and no key comes twice. Then it sets what its lines say over the
      defaults, whatever their order, and is migrated exactly when it says an interval of 10000. */
  lemma ParsedExactly(text: string)
    ensures var lines := LinesRead(LinesOf(text));
            && (ParseConfig(text).Some? <==> Utf8Len(text) <= MAX_CONFIG_FILE_BYTES && Admissible(lines))
            && (ParseConfig(text).Some? ==>
                  ParseConfig(text).value
                  == (Overridden(lines, Config(false, true, true, false, 0, [60, 300, 900, 1800, 3600])), Legacy(lines)))
  {
    ParseLinesExactly(LinesOf(text), START);
  }

  // ---------------------------------------------------------------------------
  // The saved text.

  const KEYS: seq<Key> :=
    [Automatic, StartupEnabled, AutoResumeOnAc, BatteryLockout, RequestInterval, SchedulePresets]

  function ValueText(c: Config, k: Key): string {
    match k
    case Automatic => BoolText(c.automatic)
    case StartupEnabled => BoolText(c.startupEnabled)
    case AutoResumeOnAc => BoolText(c.autoResumeOnAc)
    case BatteryLockout => BoolText(c.batteryLockout)
    case RequestInterval => Decimal(c.requestInterval)
    case SchedulePresets => "[" + PresetsText(c.presets) + "]"
  }

  function Raw(c: Config, k: Key): string {
    NameOf(k) + " " + "=" + (" " + ValueText(c, k))
  }

  function Raws(c: Config, keys: seq<Key>): (r: seq<string>)
    ensures |r| == |keys| && forall i :: 0 <= i < |keys| ==> r[i] == Raw(c, keys[i])
  {
    seq(|keys|, i requires 0 <= i < |keys| => Raw(c, keys[i]))
  }

  /** The text `save_atomic` writes: one terminated line for each key. */
  function SavedText(c: Config): string {
    Joined(Raws(c, KEYS), '\n')
  }

  // --- One printed line reads back.

  predicate Safe(c: char) {
    ' ' <= c <= '~' && c != '#'
  }

  predicate SafeText(s: string) {
    forall i :: 0 <= i < |s| ==> Safe(s[i])
  }

  predicate SafeName(s: string) {
    s != [] && SafeText(s) && Tight(s) && '=' !in s && |s| <= MAX_CONFIG_KEY_BYTES
  }

  predicate SafeValue(s: string) {
    s != [] && SafeText(s) && Tight(s) && |s| <= MAX_CONFIG_VALUE_BYTES
  }

  lemma SafeLength(s: string)
    requires SafeText(s)
    ensures Utf8Len(s) == |s| && '#' !in s
  {
    AsciiLen(s);
  }

  lemma RawIsSafe(name: string, value: string, raw: string)
    requires SafeName(name) && SafeValue(value) && raw == name + " " + "=" + (" " + value)
    ensures SafeText(raw) && Tight(raw) && raw != [] && |raw| <= 1091
  {
    assert raw[0] == name[0] && raw[|raw| - 1] == value[|value| - 1];
  }

  lemma RawSlices<T>(name: seq<T>, blank: seq<T>, eq: seq<T>, value: seq<T>)
    requires |blank| == 1 && |eq| == 1
    ensures var raw := name + blank + eq + (blank + value);
            raw[..|name| + 1] == name + blank && raw[|name| + 2..] == blank + value
  {
  }

  lemma SplitRaw(name: string, value: string, raw: string)
    requires SafeName(name) && SafeValue(value) && raw == name + " " + "=" + (" " + value)
    ensures IndexOf(raw, '=') == |name| + 1 && |name| + 1 < |raw|
    ensures raw[..|name| + 1] == name + " " && raw[|name| + 2..] == " " + value
  {
    FirstIndex(name + " ", '=', " " + value);
    RawSlices(name, " ", "=", value);
  }

  lemma TrimAfter(s: string, after: string)
    requires Blank(after) && Tight(s) && s != []
    ensures Trim(s + after) == s
  {
    TrimAround([], s, after);
    assert [] + s + after == s + after;
  }

  /** A line without comment and blanks at its ends splits at its first equals sign. */
  lemma LineSplits(raw: string, k: nat, name: string, value: string)
    requires Utf8Len(raw) <= MAX_CONFIG_LINE_BYTES && '#' !in raw && Tight(raw) && raw != []
    requires k == IndexOf(raw, '=') && k < |raw| && Trim(raw[..k]) == name && Trim(raw[k + 1..]) == value
    requires Utf8Len(name) <= MAX_CONFIG_KEY_BYTES && Utf8Len(value) <= MAX_CONFIG_VALUE_BYTES
    ensures LineOf(raw) == Setting(name, value)
  {
    Uncommented(raw);
    LineIs(raw, raw);
    SettingIs(raw, k, name, value);
  }

  lemma LineIs(raw: string, line: string)
    requires Utf8Len(raw) <= MAX_CONFIG_LINE_BYTES && Trim(Split(raw, '#')[0]) == line
    ensures LineOf(raw) == SettingOf(line)
  {
  }

  lemma SettingIs(line: string, k: nat, name: string, value: string)
    requires line != [] && k == IndexOf(line, '=') && k < |line|
    requires Trim(line[..k]) == name && Trim(line[k + 1..]) == value
    requires Utf8Len(name) <= MAX_CONFIG_KEY_BYTES && Utf8Len(value) <= MAX_CONFIG_VALUE_BYTES
    ensures SettingOf(line) == Setting(name, value)
  {
  }

  lemma Uncommented(raw: string)
    requires '#' !in raw && Tight(raw)
    ensures Trim(Split(raw, '#')[0]) == raw
  {
    SplitNone(raw, '#');
    TrimTight(raw);
  }

  lemma RawReads(name: string, value: string)
    requires SafeName(name) && SafeValue(value)
    ensures LineOf(name + " " + "=" + (" " + value)) == Setting(name, value)
  {
    var raw := name + " " + "=" + (" " + value);
    RawIsSafe(name, value, raw);
    SafeLength(raw);
    SplitRaw(name, value, raw);
    TrimAfter(name, " ");
    TrimBefore(" ", value);
    SafeLength(name);
    SafeLength(value);
    LineSplits(raw, |name| + 1, name, value);
  }

  predicate Word(s: string) {
    s != [] && |s| <= MAX_CONFIG_KEY_BYTES && forall i :: 0 <= i < |s| ==> 'a' <= s[i] <= 'z' || s[i] == '_'
  }

  lemma NameIsWord(k: Key)
    ensures Word(NameOf(k))
  {
    match k
    case RequestInterval => IntervalIsWord(NameOf(k));
    case SchedulePresets => PresetsIsWord(NameOf(k));
    case AutoResumeOnAc => ResumeIsWord(NameOf(k));
    case _ =>
  }

  lemma IntervalIsWord(s: string)
    requires s == "request_interval_hns"
    ensures Word(s)
  {
  }

  lemma PresetsIsWord(s: string)
    requires s == "schedule_presets_seconds"
    ensures Word(s)
  {
  }

  lemma ResumeIsWord(s: string)
    requires s == "auto_resume_on_ac"
    ensures Word(s)
  {
  }

  lemma WordIsSafe(s: string)
    requires Word(s)
    ensures SafeName(s)
  {
  }

  lemma NameIsSafe(k: Key)
    ensures SafeName(NameOf(k))
  {
    NameIsWord(k);
    WordIsSafe(NameOf(k));
  }

  // --- Printed values are safe.

  lemma DigitsAreSafe(s: string)
    requires AllDigits(s) && s != []
    ensures SafeText(s) && Tight(s)
  {
    DigitIsNotBlank(s[0]);
    DigitIsNotBlank(s[|s| - 1]);
  }

  lemma PresetIsShort(n: nat)
    requires n <= MAX_PRESET_SECONDS
    ensures |Decimal(n)| <= 5
  {
    assert Pow10(2) == 100;
    DecimalLength(n, 5);
  }

  lemma {:induction false} PresetsTextIsSafe(presets: seq<nat>)
    requires ValidPresets(presets)
    ensures SafeText(PresetsText(presets)) && |PresetsText(presets)| <= 7 * |presets|
  {
    if presets != [] {
      DigitsAreSafe(Decimal(presets[0]));
      PresetIsShort(presets[0]);
      PresetsTextIsSafe(presets[1..]);
    }
  }

  lemma IntervalIsShort(n: nat)
    requires n <= U64_MAX
    ensures |Decimal(n)| <= 20
  {
    assert Pow10(5) == 100_000;
    assert Pow10(10) == 10_000_000_000;
    assert Pow10(15) == 1_000_000_000_000_000;
    assert Pow10(20) == 100_000_000_000_000_000_000;
    DecimalLength(n, 20);
  }

  lemma ValueIsSafe(c: Config, k: Key)
    requires ValidConfig(c)
    ensures SafeValue(ValueText(c, k))
  {
    match k
    case RequestInterval =>
      DigitsAreSafe(Decimal(c.requestInterval));
      IntervalIsShort(c.requestInterval);
    case SchedulePresets => PresetsTextIsSafe(c.presets);
    case _ =>
  }

  // --- The lines of the saved text.

  lemma {:induction false} StripSafe(raws: seq<string>)
    requires AllSafe(raws)
    ensures StripAll(raws) == raws
  {
    if raws != [] {
      assert SafeText(raws[0]);
      StripSafe(raws[1..]);
    }
  }

  lemma SafeHasNoNewline(s: string)
    requires SafeText(s)
    ensures '\n' !in s
  {
  }

  predicate AllSafe(raws: seq<string>) {
    forall i :: 0 <= i < |raws| ==> SafeText(raws[i])
  }

  lemma SafeIsFree(raws: seq<string>)
    requires AllSafe(raws)
    ensures Free(raws, '\n')
  {
    forall i | 0 <= i < |raws| ensures '\n' !in raws[i] {
      SafeHasNoNewline(raws[i]);
    }
  }

  lemma WithoutLast<T>(raws: seq<T>, last: T)
    ensures var all := raws + [last]; all[..|all| - 1] == raws && all[|all| - 1] == last
  {
  }

  lemma LinesOfJoined(raws: seq<string>)
    requires AllSafe(raws)
    ensures LinesOf(Joined(raws, '\n')) == raws
  {
    SafeIsFree(raws);
    SplitJoined(raws, '\n');
    WithoutLast(raws, []);
    StripSafe(raws);
    assert raws + [] == raws;
  }

  lemma {:induction false} JoinedLength(raws: seq<string>, bound: nat)
    requires forall i :: 0 <= i < |raws| ==> |raws[i]| <= bound
    ensures |Joined(raws, '\n')| <= |raws| * (bound + 1)
  {
    if raws != [] {
      JoinedLength(raws[1..], bound);
      MoreLines(|raws| - 1, bound + 1);
    }
  }

  lemma MoreLines(n: nat, size: nat)
    ensures n * size + size == (n + 1) * size
  {
  }

  // --- All settings of a saved text.

  /** The setting `k` taken over from `c`, migrated. */
  function Put(base: Config, c: Config, k: Key): Config {
    match k
    case Automatic => base.(automatic := c.automatic)
    case StartupEnabled => base.(startupEnabled := c.startupEnabled)
    case AutoResumeOnAc => base.(autoResumeOnAc := c.autoResumeOnAc)
    case BatteryLockout => base.(batteryLockout := c.batteryLockout)
    case RequestInterval => base.(requestInterval := Migrate(c).requestInterval)
    case SchedulePresets => base.(presets := c.presets)
  }

  function PutAll(base: Config, c: Config, keys: seq<Key>): Config
    decreases |keys|
  {
    if keys == [] then base else PutAll(Put(base, c, keys[0]), c, keys[1..])
  }

  predicate Flags(c: Config, k: Key) {
    k == RequestInterval && c.requestInterval == LEGACY_INTERVAL
  }

  lemma BoolReadsBack(b: bool)
    ensures ParseBool(BoolText(b)) == Some(b)
  {
  }

  lemma ApplyPrinted(base: Config, c: Config, k: Key)
    requires ValidConfig(c)
    ensures Apply(base, k, ValueText(c, k)) == Some((Put(base, c, k), Flags(c, k)))
  {
    match k
    case Automatic => BoolReadsBack(c.automatic);
    case StartupEnabled => BoolReadsBack(c.startupEnabled);
    case AutoResumeOnAc => BoolReadsBack(c.autoResumeOnAc);
    case BatteryLockout => BoolReadsBack(c.batteryLockout);
    case RequestInterval => DecimalParses(c.requestInterval, U64_MAX);
    case SchedulePresets => PresetsReadBack(c.presets);
  }

  lemma StepPrinted(p: State, c: Config, k: Key)
    requires ValidConfig(c) && NameOf(k) !in p.seen
    ensures Step(p, LineOf(Raw(c, k)))
            == Some(State(Put(p.config, c, k), p.migrated || Flags(c, k), p.seen + {NameOf(k)}))
  {
    NameIsSafe(k);
    ValueIsSafe(c, k);
    RawReads(NameOf(k), ValueText(c, k));
    KeyOfName(k);
    ApplyPrinted(p.config, c, k);
  }

  predicate Fresh(keys: seq<Key>, seen: set<string>) {
    && (forall i :: 0 <= i < |keys| ==> NameOf(keys[i]) !in seen)
    && (forall i, j :: 0 <= i < j < |keys| ==> keys[i] != keys[j])
  }

  lemma FreshNext(keys: seq<Key>, seen: set<string>)
    requires keys != [] && Fresh(keys, seen)
    ensures Fresh(keys[1..], seen + {NameOf(keys[0])})
  {
    forall i | 0 <= i < |keys[1..]| ensures NameOf(keys[1..][i]) !in seen + {NameOf(keys[0])} {
      KeyOfName(keys[0]);
      KeyOfName(keys[i + 1]);
    }
  }

  lemma {:induction false} PrintedLinesParse(p: State, c: Config, keys: seq<Key>)
    requires ValidConfig(c) && Fresh(keys, p.seen)
    ensures var r := ParseLines(Raws(c, keys), p);
            r.Some? && r.value.config == PutAll(p.config, c, keys)
            && (r.value.migrated <==> p.migrated || AnyFlags(c, keys))
    decreases |keys|
  {
    if keys != [] {
      var q := State(Put(p.config, c, keys[0]), p.migrated || Flags(c, keys[0]), p.seen + {NameOf(keys[0])});
      FirstPrinted(p, c, keys, q);
      FreshNext(keys, p.seen);
      PrintedLinesParse(q, c, keys[1..]);
      FlagsOf(c, keys);
    }
  }

  lemma FirstPrinted(p: State, c: Config, keys: seq<Key>, q: State)
    requires ValidConfig(c) && keys != [] && NameOf(keys[0]) !in p.seen
    requires q == State(Put(p.config, c, keys[0]), p.migrated || Flags(c, keys[0]), p.seen + {NameOf(keys[0])})
    ensures ParseLines(Raws(c, keys), p) == ParseLines(Raws(c, keys[1..]), q)
  {
    StepPrinted(p, c, keys[0]);
    assert Raws(c, keys)[1..] == Raws(c, keys[1..]);
  }

  predicate AnyFlags(c: Config, keys: seq<Key>) {
    exists k :: k in keys && Flags(c, k)
  }

  lemma FlagsOf(c: Config, keys: seq<Key>)
    requires keys != []
    ensures AnyFlags(c, keys) <==> Flags(c, keys[0]) || AnyFlags(c, keys[1..])
  {
    assert forall k :: k in keys <==> k == keys[0] || k in keys[1..];
  }

  lemma PutEverything(base: Config, c: Config)
    ensures PutAll(base, c, KEYS) == Migrate(c)
  {
    var a := Put(Put(base, c, Automatic), c, StartupEnabled);
    var b := Put(Put(a, c, AutoResumeOnAc), c, BatteryLockout);
    assert KEYS[1..][1..] == KEYS[2..] && KEYS[2..][1..] == KEYS[3..] && KEYS[3..][1..] == KEYS[4..];
    assert KEYS[4..][1..] == KEYS[5..] && KEYS[5..][1..] == [];
    var d := Put(Put(b, c, RequestInterval), c, SchedulePresets);
    assert PutAll(base, c, KEYS) == PutAll(a, c, KEYS[2..]);
    assert PutAll(a, c, KEYS[2..]) == PutAll(b, c, KEYS[4..]);
    assert PutAll(b, c, KEYS[4..]) == PutAll(d, c, []);
  }

  lemma KeysAreFresh()
    ensures Fresh(KEYS, {})
  {
  }

  lemma IntervalIsSaved(c: Config)
    ensures AnyFlags(c, KEYS) <==> c.requestInterval == LEGACY_INTERVAL
  {
    if c.requestInterval == LEGACY_INTERVAL {
      assert KEYS[4] == RequestInterval;
      assert RequestInterval in KEYS && Flags(c, RequestInterval);
    }
  }

  lemma SavedTextIsShort(c: Config)
    requires ValidConfig(c)
    ensures Utf8Len(SavedText(c)) <= MAX_CONFIG_FILE_BYTES && LinesOf(SavedText(c)) == Raws(c, KEYS)
  {
    var raws := Raws(c, KEYS);
    forall i | 0 <= i < |raws| ensures SafeText(raws[i]) && |raws[i]| <= 1091 {
      NameIsSafe(KEYS[i]);
      ValueIsSafe(c, KEYS[i]);
      RawIsSafe(NameOf(KEYS[i]), ValueText(c, KEYS[i]), raws[i]);
    }
    LinesOfJoined(raws);
    JoinedLength(raws, 1091);
    Utf8LenBound(SavedText(c));
  }

  /** A saved configuration loads as itself, except that the legacy interval loads as the automatic
      one and is reported as migrated. */
  lemma SavedConfigLoads(c: Config)
    requires ValidConfig(c)
    ensures ParseConfig(SavedText(c)) == Some((Migrate(c), c.requestInterval == LEGACY_INTERVAL))
  {
    SavedTextIsShort(c);
    KeysAreFresh();
    PrintedLinesParse(START, c, KEYS);
    PutEverything(DEFAULT, c);
    IntervalIsSaved(c);
  }

  // ---------------------------------------------------------------------------
  // The file.

  datatype Content = Utf8(text: string) | Binary(size: nat)

  datatype Loaded = Loaded(config: Config, migrated: bool, recovered: bool)

  function Size(file: Content): nat {
    match file
    case Utf8(text) => Utf8Len(text)
    case Binary(size) => size
  }

  datatype LoadError = ReadError | Oversized | WriteError

  datatype Result<+T> = Ok(value: T) | Err(error: LoadError)

  /** The configuration file and the backups of damaged ones. Every call may fail. */
  class ConfigFile {
    const reliable: bool
    var file: Option<Content>
    var backups: seq<Content>

    method Fails() returns (failed: bool)
      ensures reliable ==> !failed
    {
      failed := *;
      if reliable {
        failed := false;
      }
    }

    /** `save_atomic`: the whole text, or nothing. */
    method SaveAtomic(c: Config) returns (ok: bool)
      modifies this`file
      ensures file == if ok then Some(Utf8(SavedText(c))) else old(file)
      ensures reliable ==> ok
    {
      var failed := Fails();
      if !failed {
        file := Some(Utf8(SavedText(c)));
      }
      ok := !failed;
    }

    /** `recover_corrupted`: the damaged file is renamed to a backup before the defaults are written. */
    method RecoverCorrupted() returns (r: Result<Loaded>)
      requires file.Some?
      modifies this
      ensures r.Ok? ==> r.value == Loaded(DEFAULT, false, true) && file == Some(Utf8(SavedText(DEFAULT)))
      ensures r.Ok? ==> backups == old(backups) + [old(file).value]
      ensures r.Err? ==>
        (file == old(file) && backups == old(backups))
        || (file == None && backups == old(backups) + [old(file).value])
      ensures r.Err? ==> r.error == WriteError
      ensures reliable ==> r.Ok?
    {
      var failed := Fails();
      if failed {
        return Err(WriteError);
      }
      file, backups := None, backups + [file.value];
      var ok := SaveAtomic(DEFAULT);
      if !ok {
        return Err(WriteError);
      }
      return Ok(Loaded(DEFAULT, false, true));
    }

    /** `load_with_migration`: a migrated value is saved back, an unreadable file is kept as a backup
        and replaced by the defaults, and an oversized one is refused and left alone. Whatever fails,
        the old content is in place, or backed up, or was understood and saved in migrated form. */
    method Load() returns (r: Result<Loaded>)
      modifies this
      ensures r.Ok? ==>
        && old(file).Some? && Size(old(file).value) <= MAX_CONFIG_FILE_BYTES
        && (r.value, file) == (LoadOf(old(file).value).0, Some(LoadOf(old(file).value).1))
        && backups == old(backups) + (if r.value.recovered then [old(file).value] else [])
      ensures reliable && old(file).Some? && Size(old(file).value) <= MAX_CONFIG_FILE_BYTES ==> r.Ok?
      ensures r.Err? ==>
        (file == old(file) && backups == old(backups))
        || (old(file).Some? && file == None && backups == old(backups) + [old(file).value]
            && LoadOf(old(file).value).0.recovered)
      ensures r == Err(Oversized) ==> old(file).Some? && Size(old(file).value) > MAX_CONFIG_FILE_BYTES
    {
      var failed := Fails();
      if failed || file.None? {
        return Err(ReadError);
      }
      var content := file.value;
      if Size(content) > MAX_CONFIG_FILE_BYTES {
        return Err(Oversized);
      }
      failed := Fails();
      if failed {
        return Err(ReadError);
      }
      if content.Utf8? && content.text != [] {
        var parsed := ParseWithMigration(content.text);
        if parsed.Some? {
          var (config, migrated) := parsed.value;
          if migrated {
            var ok := SaveAtomic(config);
            if !ok {
              return Err(WriteError);
            }
          }
          return Ok(Loaded(config, migrated, false));
        }
      }
      r := RecoverCorrupted();
    }
  }

  function LoadOf(file: Content): (Loaded, Content) {
    if file.Utf8? && file.text != [] && ParseConfig(file.text).Some? then
      var (config, migrated) := ParseConfig(file.text).value;
      (Loaded(config, migrated, false), if migrated then Utf8(SavedText(config)) else file)
    else (Loaded(DEFAULT, false, true), Utf8(SavedText(DEFAULT)))
  }

  lemma SavedLoadsAgain(c: Config)
    requires Settled(c)
    ensures LoadOf(Utf8(SavedText(c))) == (Loaded(c, false, false), Utf8(SavedText(c)))
    ensures Size(Utf8(SavedText(c))) <= MAX_CONFIG_FILE_BYTES
  {
    SavedConfigLoads(c);
    SavedTextIsShort(c);
    assert Raws(c, KEYS)[0] == Raw(c, Automatic);
  }

  /** Loading any file of admissible size leaves one that loads as the same configuration, neither
      migrated nor recovered, and is left alone from then on. */
  lemma LoadIsStable(file: Content)
    requires Size(file) <= MAX_CONFIG_FILE_BYTES
    ensures var (first, after) := LoadOf(file);
            Size(after) <= MAX_CONFIG_FILE_BYTES
            && LoadOf(after) == (Loaded(first.config, false, false), after)
  {
    assert Settled(DEFAULT);
    SavedLoadsAgain(DEFAULT);
    if file.Utf8? && file.text != [] && ParseConfig(file.text).Some? {
      ParseSettles(file.text);
      SavedLoadsAgain(ParseConfig(file.text).value.0);
    }
  }
}
