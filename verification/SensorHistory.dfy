// Sensor samples and threshold overrides: capped series and a state file rewritten after every change.
// Their meaning is an unbounded log that a restart rolls back to the last point the file could hold.
module SensorHistory {
  import opened Wrappers
  import opened Text
  import opened Decimal

  const CAP: nat := 240

  const SECOND: int := 1_000_000_000

  /** A sample; `at` counts nanoseconds since 1970. */
  datatype Point = Point(at: int, value: Float)

  /** A sample as the file and the API show it: whole seconds. */
  datatype Stamped = Stamped(seconds: int, value: Float)

  datatype Memory = Memory(history: map<string, seq<Point>>, thresholds: map<string, Float>)

  /** The decoded JSON document; a part it does not have is None. */
  datatype Document = Document(history: Option<map<string, seq<Stamped>>>, thresholds: Option<map<string, Float>>)

  datatype File = Absent | Unreadable | Holds(document: Document)

  datatype Reading = Reading(name: string, value: string, threshold: string, critical: bool)
  datatype Chip = Chip(name: string, readings: seq<Reading>)

  function HistoryKey(chip: string, reading: string): string {
    chip + "::" + reading
  }

  // ----- keys -----

  /** The longer name is the shorter one with ":" alone or with text that starts with "::" behind it. */
  predicate Extends(shorter: string, longer: string) {
    && shorter < longer
    && (longer[|shorter|..] == ":" || HasPrefix(longer[|shorter|..], "::"))
  }

  /** Two chips that can share a key: something a caller can read off their names. */
  predicate CanClash(a: string, b: string) {
    Extends(a, b) || Extends(b, a)
  }

  lemma LongerExtends(a: string, r: string, b: string, q: string)
    requires HistoryKey(a, r) == HistoryKey(b, q) && |a| < |b|
    ensures Extends(a, b)
  {
    var key := HistoryKey(a, r);
    assert a == key[..|a|] && b == key[..|b|];
    assert a == b[..|a|];
    var tail := b[|a|..];
    assert tail == key[|a|..|b|];
    assert key[|a|] == ':' && key[|a| + 1] == ':';
    if |tail| == 1 {
      assert tail == [key[|a|]];
    } else {
      assert tail[..2] == [key[|a|], key[|a| + 1]];
    }
  }

  lemma ReadingOf(chip: string, reading: string)
    ensures HistoryKey(chip, reading)[..|chip|] == chip && HistoryKey(chip, reading)[|chip| + 2..] == reading
  {
  }

  /** Unless two chips can clash the key determines chip and reading. */
  lemma KeyDetermines(chip: string, reading: string, chip': string, reading': string)
    requires !CanClash(chip, chip') && HistoryKey(chip, reading) == HistoryKey(chip', reading')
    ensures chip == chip' && reading == reading'
  {
    if |chip| < |chip'| {
      LongerExtends(chip, reading, chip', reading');
    } else if |chip'| < |chip| {
      LongerExtends(chip', reading', chip, reading);
    }
    ReadingOf(chip, reading);
    ReadingOf(chip', reading');
  }

  /** If they can clash, two of their readings do. */
  lemma ClashingReadings(a: string, b: string) returns (r: string, q: string)
    requires Extends(a, b)
    ensures HistoryKey(a, r) == HistoryKey(b, q)
  {
    q := "";
    var tail := b[|a|..];
    assert b == a + tail;
    if tail == ":" {
      r := ":";
      assert a + "::" + ":" == a + ":" + "::" + "";
    } else {
      r := tail[2..] + "::";
      assert tail == "::" + tail[2..];
    }
  }

  /** Two different chips have readings that share a series if and only if their names can clash. */
  lemma KeyClash(a: string, b: string)
    requires a != b
    ensures (exists r, q :: HistoryKey(a, r) == HistoryKey(b, q)) <==> CanClash(a, b)
  {
    if Extends(a, b) {
      var r, q := ClashingReadings(a, b);
      assert HistoryKey(a, r) == HistoryKey(b, q);
    } else if Extends(b, a) {
      var q, r := ClashingReadings(b, a);
      assert HistoryKey(a, r) == HistoryKey(b, q);
    } else {
      forall r, q ensures HistoryKey(a, r) != HistoryKey(b, q) {
        if HistoryKey(a, r) == HistoryKey(b, q) {
          KeyDetermines(a, r, b, q);
        }
      }
    }
  }

  // ----- saving and loading -----

  function Stamp(p: Point): Stamped {
    Stamped(p.at / SECOND, p.value)
  }

  function Stamps(series: seq<Point>): (r: seq<Stamped>)
    ensures |r| == |series| && forall i | 0 <= i < |series| :: r[i] == Stamp(series[i])
  {
    seq(|series|, i requires 0 <= i < |series| => Stamp(series[i]))
  }

  function Unstamps(series: seq<Stamped>): (r: seq<Point>)
    ensures |r| == |series|
    ensures forall i | 0 <= i < |series| :: r[i] == Point(series[i].seconds * SECOND, series[i].value)
  {
    seq(|series|, i requires 0 <= i < |series| => Point(series[i].seconds * SECOND, series[i].value))
  }

  function Saved(m: Memory): Document {
    Document(Some(map key | key in m.history :: Stamps(m.history[key])), Some(m.thresholds))
  }

  /** `json.Marshal` succeeds: every number is finite. */
  predicate FiniteAll(m: Memory) {
    FiniteThresholds(m.thresholds) && forall key | key in m.history :: FiniteSeries(m.history[key])
  }

  predicate FiniteThresholds(thresholds: map<string, Float>) {
    forall key | key in thresholds :: thresholds[key].Finite?
  }

  predicate FiniteSeries(series: seq<Point>) {
    forall i | 0 <= i < |series| :: series[i].value.Finite?
  }

  const EMPTY: Memory := Memory(map[], map[])

  function Loaded(file: File): Memory {
    match file
    case Absent => EMPTY
    case Unreadable => EMPTY
    case Holds(d) =>
      Memory(if d.history.Some? then map key | key in d.history.value :: Unstamps(d.history.value[key]) else map[],
             if d.thresholds.Some? then d.thresholds.value else map[])
  }

  /** How a write to the disk goes. */
  datatype Fate = Succeeds | NoDirectory | BreaksOff

  /** The file after `saveStateLocked`: a number JSON cannot hold leaves it alone. */
  function FileAfter(path: string, m: Memory, file: File, fate: Fate): File {
    if TrimSpace(path) == "" || !FiniteAll(m) || fate.NoDirectory? then file
    else if fate.BreaksOff? then Unreadable
    else Holds(Saved(m))
  }

  function Written(m: Memory, file: File): File {
    if FiniteAll(m) then Holds(Saved(m)) else file
  }

  lemma StampsOfUnstamps(series: seq<Stamped>)
    ensures Stamps(Unstamps(series)) == series
  {
    assert forall i | 0 <= i < |series| :: Stamps(Unstamps(series))[i] == series[i];
  }

  /** Loading what was saved gives equal thresholds and, sample by sample, the same second and value. */
  lemma LoadOfSave(m: Memory)
    ensures var r := Loaded(Holds(Saved(m)));
            && r.thresholds == m.thresholds && r.history.Keys == m.history.Keys
            && forall key | key in m.history :: Stamps(r.history[key]) == Stamps(m.history[key])
  {
    forall key | key in m.history
      ensures Stamps(Loaded(Holds(Saved(m))).history[key]) == Stamps(m.history[key])
    {
      StampsOfUnstamps(Stamps(m.history[key]));
    }
  }

  /** Saving what was loaded writes the same file again. */
  lemma SaveOfLoad(m: Memory)
    ensures Saved(Loaded(Holds(Saved(m)))) == Saved(m)
  {
    LoadOfSave(m);
    assert Saved(Loaded(Holds(Saved(m)))).history.value == Saved(m).history.value;
  }

  // ----- reading the history -----

  function SeriesIn(history: map<string, seq<Point>>, key: string): seq<Point> {
    if key in history then history[key] else []
  }

  function Series(m: Memory, key: string): seq<Point> {
    SeriesIn(m.history, key)
  }

  /** `History`: the newest samples of one reading, oldest first, with times shown in whole seconds. */
  function History(m: Memory, chip: string, reading: string, limit: int): seq<Stamped> {
    Stamps(Last(Series(m, HistoryKey(chip, reading)), if limit <= 0 then 30 else limit))
  }

  /** The limit the API passes on: the one asked for if it is from 1 to 240. */
  function ApiLimit(raw: Option<int>): (limit: nat)
    ensures raw.Some? && 1 <= raw.value <= 240 ==> limit == raw.value
    ensures raw.None? || raw.value < 1 || raw.value > 240 ==> limit == 30
  {
    match raw
    case Some(n) => if 0 < n <= 240 then n else 30
    case None => 30
  }

  lemma StampsOfLast(series: seq<Point>, n: nat)
    ensures Stamps(Last(series, n)) == Last(Stamps(series), n)
  {
    assert |Stamps(Last(series, n))| == |Last(Stamps(series), n)|;
  }

  /** A restart is invisible to readers when everything is finite. */
  lemma RestartIsInvisible(m: Memory, chip: string, reading: string, limit: int)
    ensures History(Loaded(Holds(Saved(m))), chip, reading, limit) == History(m, chip, reading, limit)
  {
    LoadOfSave(m);
    var key := HistoryKey(chip, reading);
    var n := if limit <= 0 then 30 else limit;
    var r := Loaded(Holds(Saved(m)));
    StampsOfLast(Series(m, key), n);
    StampsOfLast(Series(r, key), n);
  }

  // ----- a snapshot -----

  /** One sensor feature as `sensors -j` reports it; JSON numbers are finite. */
  datatype Feature = Feature(name: string, input: Float, crit: Option<Float>)
  datatype Source = Source(name: string, features: seq<Feature>)

  predicate FiniteFeature(f: Feature) {
    f.input.Finite? && f.input.Valid() && (f.crit.Some? ==> f.crit.value.Finite? && f.crit.value.Valid())
  }

  predicate FiniteFeatures(fs: seq<Feature>) {
    forall i | 0 <= i < |fs| :: FiniteFeature(fs[i])
  }

  predicate FiniteSources(sources: seq<Source>) {
    forall i | 0 <= i < |sources| :: FiniteFeatures(sources[i].features)
  }

  /** What `readSensorsJSON` makes of a feature. */
  function Emit(f: Feature): Reading
    requires FiniteFeature(f)
  {
    Reading(f.name, FormatValue(f.input),
            if f.crit.Some? then FormatValue(f.crit.value) else "",
            f.crit.Some? && AtLeast(f.input, f.crit.value))
  }

  function EmitAll(sources: seq<Source>): (chips: seq<Chip>)
    requires FiniteSources(sources)
    ensures |chips| == |sources|
  {
    seq(|sources|, i requires 0 <= i < |sources| =>
      Chip(sources[i].name, EmitFeatures(sources[i].features)))
  }

  function EmitFeatures(features: seq<Feature>): (r: seq<Reading>)
    requires FiniteFeatures(features)
    ensures |r| == |features| && forall i | 0 <= i < |r| :: r[i] == Emit(features[i])
  {
    seq(|features|, i requires 0 <= i < |features| => Emit(features[i]))
  }

  /** Every reading that is emitted parses, to its rounded value. */
  lemma EmittedParses(f: Feature)
    requires FiniteFeature(f)
    ensures Sampled(Emit(f)) == Some(Rounded(f.input))
  {
    ParseOfFormat(f.input);
  }

  function Append(history: map<string, seq<Point>>, key: string, p: Point): map<string, seq<Point>> {
    history[key := Last(SeriesIn(history, key) + [p], CAP)]
  }

  /** The sample a reading gives, if its text is a number. */
  function Sampled(r: Reading): Option<Float> {
    ParseFloat(r.value)
  }

  /** The history after one reading. */
  function AddReading(history: map<string, seq<Point>>, now: int, chip: string, r: Reading): map<string, seq<Point>> {
    match Sampled(r)
    case None => history
    case Some(v) => Append(history, HistoryKey(chip, r.name), Point(now, v))
  }

  function AddReadings(history: map<string, seq<Point>>, now: int, chip: string, rs: seq<Reading>)
    : map<string, seq<Point>>
  {
    if rs == [] then history
    else AddReading(AddReadings(history, now, chip, rs[..|rs| - 1]), now, chip, rs[|rs| - 1])
  }

  function AddChips(history: map<string, seq<Point>>, now: int, chips: seq<Chip>): map<string, seq<Point>> {
    if chips == [] then history
    else
      var last := chips[|chips| - 1];
      AddReadings(AddChips(history, now, chips[..|chips| - 1]), now, last.name, last.readings)
  }

  /** The reading as shown: a threshold override replaces the sensor's own. */
  function Marked(thresholds: map<string, Float>, chip: string, r: Reading): Reading
    requires forall key | key in thresholds :: thresholds[key].Valid()
  {
    var key := HistoryKey(chip, r.name);
    match Sampled(r)
    case None => r
    case Some(v) =>
      if key in thresholds then
        r.(threshold := FormatValue(thresholds[key]), critical := AtLeast(v, thresholds[key]))
      else r
  }

  function MarkedReadings(thresholds: map<string, Float>, chip: string, rs: seq<Reading>): (r: seq<Reading>)
    requires forall key | key in thresholds :: thresholds[key].Valid()
    ensures |r| == |rs|
  {
    if rs == [] then []
    else MarkedReadings(thresholds, chip, rs[..|rs| - 1]) + [Marked(thresholds, chip, rs[|rs| - 1])]
  }

  function MarkedChip(thresholds: map<string, Float>, chip: Chip): Chip
    requires forall key | key in thresholds :: thresholds[key].Valid()
  {
    Chip(chip.name, MarkedReadings(thresholds, chip.name, chip.readings))
  }

  function MarkedChips(thresholds: map<string, Float>, chips: seq<Chip>): (r: seq<Chip>)
    requires forall key | key in thresholds :: thresholds[key].Valid()
    ensures |r| == |chips|
  {
    if chips == [] then []
    else MarkedChips(thresholds, chips[..|chips| - 1]) + [MarkedChip(thresholds, chips[|chips| - 1])]
  }

  // ----- operations -----

  datatype Op =
    | Snapshot(now: int, sources: seq<Source>)
    | SetThreshold(chip: string, reading: string, parsed: Option<Float>)
    | ClearThreshold(chip: string, reading: string)
    | Restart

  predicate OpOk(op: Op) {
    match op
    case Snapshot(_, sources) => FiniteSources(sources)
    case SetThreshold(_, _, parsed) => parsed.Some? ==> parsed.value.Valid()
    case _ => true
  }

  datatype World = World(memory: Memory, file: File)

  /** `SetThreshold` refuses blank names and texts that are no number, and then touches nothing. */
  predicate SetAccepted(chip: string, reading: string, parsed: Option<Float>) {
    TrimSpace(chip) != "" && TrimSpace(reading) != "" && parsed.Some?
  }

  function Changed(m: Memory, op: Op): Memory
    requires OpOk(op) && !op.Restart?
  {
    match op
    case Snapshot(now, sources) => m.(history := AddChips(m.history, now, EmitAll(sources)))
    case SetThreshold(chip, reading, parsed) =>
      if SetAccepted(chip, reading, parsed) then
        m.(thresholds := m.thresholds[HistoryKey(TrimSpace(chip), TrimSpace(reading)) := parsed.value])
      else m
    case ClearThreshold(chip, reading) => m.(thresholds := m.thresholds - {HistoryKey(chip, reading)})
  }

  function Step(w: World, op: Op): World
    requires OpOk(op)
  {
    if op.Restart? then World(Loaded(w.file), w.file)
    else
      var m := Changed(w.memory, op);
      if op.SetThreshold? && !SetAccepted(op.chip, op.reading, op.parsed) then w
      else World(m, Written(m, w.file))
  }

  predicate OpsOk(ops: seq<Op>) {
    forall i | 0 <= i < |ops| :: OpOk(ops[i])
  }

  function Run(w: World, ops: seq<Op>): World
    requires OpsOk(ops)
  {
    if ops == [] then w else Step(Run(w, ops[..|ops| - 1]), ops[|ops| - 1])
  }

  const FRESH: World := World(EMPTY, Absent)

  // ----- the unbounded log -----

  /** Every sample ever taken, in whole seconds, and the overrides. */
  datatype Log = Log(samples: map<string, seq<Stamped>>, thresholds: map<string, Float>)

  /** What readers should see now, and what a restart would bring back. */
  datatype Ideal = Ideal(live: Log, kept: Log)

  function SamplesOf(samples: map<string, seq<Stamped>>, key: string): seq<Stamped> {
    if key in samples then samples[key] else []
  }

  function LogFeatures(samples: map<string, seq<Stamped>>, now: int, chip: string, fs: seq<Feature>)
    : map<string, seq<Stamped>>
    requires FiniteFeatures(fs)
  {
    if fs == [] then samples
    else
      var before := LogFeatures(samples, now, chip, fs[..|fs| - 1]);
      var f := fs[|fs| - 1];
      var key := HistoryKey(chip, f.name);
      before[key := SamplesOf(before, key) + [Stamped(now / SECOND, Rounded(f.input))]]
  }

  function LogSources(samples: map<string, seq<Stamped>>, now: int, sources: seq<Source>): map<string, seq<Stamped>>
    requires FiniteSources(sources)
  {
    if sources == [] then samples
    else
      var last := sources[|sources| - 1];
      LogFeatures(LogSources(samples, now, sources[..|sources| - 1]), now, last.name, last.features)
  }

  function IdealChange(l: Log, op: Op): Log
    requires OpOk(op) && !op.Restart?
  {
    match op
    case Snapshot(now, sources) => l.(samples := LogSources(l.samples, now, sources))
    case SetThreshold(chip, reading, parsed) =>
      if SetAccepted(chip, reading, parsed) then
        l.(thresholds := l.thresholds[HistoryKey(TrimSpace(chip), TrimSpace(reading)) := parsed.value])
      else l
    case ClearThreshold(chip, reading) => l.(thresholds := l.thresholds - {HistoryKey(chip, reading)})
  }

  /** A restart brings back what was live when all overrides were last finite. */
  function IdealStep(i: Ideal, op: Op): Ideal
    requires OpOk(op)
  {
    var live := if op.Restart? then i.kept else IdealChange(i.live, op);
    Ideal(live, if FiniteThresholds(live.thresholds) then live else i.kept)
  }

  function IdealRun(ops: seq<Op>): Ideal
    requires OpsOk(ops)
  {
    if ops == [] then Ideal(Log(map[], map[]), Log(map[], map[]))
    else IdealStep(IdealRun(ops[..|ops| - 1]), ops[|ops| - 1])
  }

  // ----- the capped memory refines the log -----

  /** Each series is the last 240 samples of its key. */
  ghost predicate Tails(history: map<string, seq<Point>>, samples: map<string, seq<Stamped>>) {
    && history.Keys == samples.Keys
    && forall key | key in history :: Stamps(history[key]) == Last(samples[key], CAP)
  }

  ghost predicate FiniteHistory(history: map<string, seq<Point>>) {
    forall key | key in history :: FiniteSeries(history[key])
  }

  ghost predicate Shows(m: Memory, l: Log) {
    m.thresholds == l.thresholds && Tails(m.history, l.samples) && FiniteHistory(m.history)
  }

  lemma SeriesAppend(series: seq<Point>, samples: seq<Stamped>, p: Point)
    requires Stamps(series) == Last(samples, CAP)
    ensures Stamps(Last(series + [p], CAP)) == Last(samples + [Stamp(p)], CAP)
  {
    StampsOfLast(series + [p], CAP);
    assert Stamps(series + [p]) == Stamps(series) + [Stamp(p)];
    LastOfAppend(samples, Stamp(p), CAP);
  }

  lemma TailOf(history: map<string, seq<Point>>, samples: map<string, seq<Stamped>>, key: string)
    requires Tails(history, samples)
    ensures Stamps(SeriesIn(history, key)) == Last(SamplesOf(samples, key), CAP)
  {
  }

  lemma AppendTails(history: map<string, seq<Point>>, samples: map<string, seq<Stamped>>, key: string, p: Point)
    requires Tails(history, samples)
    ensures Tails(Append(history, key, p), samples[key := SamplesOf(samples, key) + [Stamp(p)]])
  {
    TailOf(history, samples, key);
    var before := SeriesIn(history, key);
    var after, after' := Append(history, key, p), samples[key := SamplesOf(samples, key) + [Stamp(p)]];
    assert after.Keys == history.Keys + {key} && after'.Keys == samples.Keys + {key};
    SeriesAppend(before, SamplesOf(samples, key), p);
    forall k | k in after ensures Stamps(after[k]) == Last(after'[k], CAP) {
      if k != key {
        assert after[k] == history[k] && after'[k] == samples[k];
      }
    }
  }

  lemma AppendFinite(history: map<string, seq<Point>>, key: string, p: Point)
    requires FiniteHistory(history) && p.value.Finite?
    ensures FiniteHistory(Append(history, key, p))
  {
    var before := SeriesIn(history, key);
    assert FiniteSeries(before + [p]);
    var after := Append(history, key, p);
    forall k | k in after ensures FiniteSeries(after[k]) {
      if k != key {
        assert after[k] == history[k];
      }
    }
  }

  /** The readings print and parse as the features they come from. */
  ghost predicate Parses(fs: seq<Feature>, rs: seq<Reading>)
    requires FiniteFeatures(fs)
  {
    && |fs| == |rs|
    && forall i | 0 <= i < |fs| :: rs[i].name == fs[i].name && Sampled(rs[i]) == Some(Rounded(fs[i].input))
  }

  lemma EmittedReadingsParse(fs: seq<Feature>)
    requires FiniteFeatures(fs)
    ensures Parses(fs, EmitFeatures(fs))
  {
    forall i | 0 <= i < |fs|
      ensures EmitFeatures(fs)[i].name == fs[i].name && Sampled(EmitFeatures(fs)[i]) == Some(Rounded(fs[i].input))
    {
      EmittedParses(fs[i]);
    }
  }

  lemma {:induction false} FeaturesRefine(history: map<string, seq<Point>>, samples: map<string, seq<Stamped>>,
                                          now: int, chip: string, fs: seq<Feature>, rs: seq<Reading>)
    requires Tails(history, samples) && FiniteHistory(history)
    requires FiniteFeatures(fs)
    requires Parses(fs, rs)
    ensures Tails(AddReadings(history, now, chip, rs), LogFeatures(samples, now, chip, fs))
    ensures FiniteHistory(AddReadings(history, now, chip, rs))
    decreases |fs|
  {
    if fs != [] {
      var n := |fs| - 1;
      FeaturesRefine(history, samples, now, chip, fs[..n], rs[..n]);
      var p := Point(now, Rounded(fs[n].input));
      var key := HistoryKey(chip, fs[n].name);
      AppendTails(AddReadings(history, now, chip, rs[..n]), LogFeatures(samples, now, chip, fs[..n]), key, p);
      AppendFinite(AddReadings(history, now, chip, rs[..n]), key, p);
    }
  }

  lemma {:induction false} SourcesRefine(history: map<string, seq<Point>>, samples: map<string, seq<Stamped>>,
                                         now: int, sources: seq<Source>)
    requires Tails(history, samples) && FiniteHistory(history) && FiniteSources(sources)
    ensures Tails(AddChips(history, now, EmitAll(sources)), LogSources(samples, now, sources))
    ensures FiniteHistory(AddChips(history, now, EmitAll(sources)))
    decreases |sources|
  {
    if sources != [] {
      var front, s := sources[..|sources| - 1], sources[|sources| - 1];
      var chips := EmitAll(sources);
      SourcesRefine(history, samples, now, front);
      assert chips[..|chips| - 1] == EmitAll(front);
      EmittedReadingsParse(s.features);
      FeaturesRefine(AddChips(history, now, EmitAll(front)), LogSources(samples, now, front), now, s.name, s.features,
                     EmitFeatures(s.features));
    }
  }

  lemma ChangeRefines(m: Memory, l: Log, op: Op)
    requires Shows(m, l) && OpOk(op) && !op.Restart?
    ensures Shows(Changed(m, op), IdealChange(l, op))
  {
    if op.Snapshot? {
      SourcesRefine(m.history, l.samples, op.now, op.sources);
    }
  }

  /** Saving and loading keeps what is shown. */
  lemma ReloadShows(m: Memory, l: Log)
    requires Shows(m, l)
    ensures Shows(Loaded(Holds(Saved(m))), l)
  {
    LoadOfSave(m);
  }

  lemma StepRefines(w: World, i: Ideal, op: Op)
    requires Shows(w.memory, i.live) && Shows(Loaded(w.file), i.kept) && OpOk(op)
    requires FiniteThresholds(i.live.thresholds) ==> i.kept == i.live
    requires FiniteThresholds(i.kept.thresholds)
    ensures var w', i' := Step(w, op), IdealStep(i, op);
            && Shows(w'.memory, i'.live) && Shows(Loaded(w'.file), i'.kept)
            && (FiniteThresholds(i'.live.thresholds) ==> i'.kept == i'.live)
            && FiniteThresholds(i'.kept.thresholds)
  {
    if !op.Restart? {
      ChangeRefines(w.memory, i.live, op);
      ReloadShows(Changed(w.memory, op), IdealChange(i.live, op));
    }
  }

  /** In every run, with snapshots, overrides, clears and restarts in any order, the memory shows the live log
      and the file would bring back the kept one. */
  lemma {:induction false} RunRefines(ops: seq<Op>)
    requires OpsOk(ops)
    ensures var w, i := Run(FRESH, ops), IdealRun(ops);
            && Shows(w.memory, i.live) && Shows(Loaded(w.file), i.kept)
            && (FiniteThresholds(i.live.thresholds) ==> i.kept == i.live)
            && FiniteThresholds(i.kept.thresholds)
    decreases |ops|
  {
    if ops != [] {
      RunRefines(ops[..|ops| - 1]);
      StepRefines(Run(FRESH, ops[..|ops| - 1]), IdealRun(ops[..|ops| - 1]), ops[|ops| - 1]);
    }
  }

  /** For every limit up to 240 the history shown is the answer from keeping every sample; without a limit it is the
      answer for 30, and beyond 240 the one for 240. */
  lemma HistoryIsComplete(ops: seq<Op>, chip: string, reading: string, limit: int)
    requires OpsOk(ops)
    ensures History(Run(FRESH, ops).memory, chip, reading, limit)
         == Last(SamplesOf(IdealRun(ops).live.samples, HistoryKey(chip, reading)),
                 if limit <= 0 then 30 else if limit <= 240 then limit else 240)
  {
    RunRefines(ops);
    var n := if limit <= 0 then 30 else limit;
    var key := HistoryKey(chip, reading);
    var m := Run(FRESH, ops).memory;
    var samples := SamplesOf(IdealRun(ops).live.samples, key);
    StampsOfLast(Series(m, key), n);
    TailOf(m.history, IdealRun(ops).live.samples, key);
    if n <= 240 {
      LastOfLast(samples, n, 240);
    }
  }

  /** A request for `n` samples with `n` from 1 to 240 is answered with the last `n` of all, any other with the last
      30. */
  lemma RequestIsAnswered(ops: seq<Op>, chip: string, reading: string, raw: Option<int>)
    requires OpsOk(ops)
    ensures History(Run(FRESH, ops).memory, chip, reading, ApiLimit(raw))
         == Last(SamplesOf(IdealRun(ops).live.samples, HistoryKey(chip, reading)),
                 if raw.Some? && 1 <= raw.value <= 240 then raw.value else 30)
  {
    HistoryIsComplete(ops, chip, reading, ApiLimit(raw));
  }

  /** A restart goes unnoticed in every run whose overrides are all finite at that moment. */
  lemma RestartInRun(ops: seq<Op>, chip: string, reading: string, limit: int)
    requires OpsOk(ops) && FiniteThresholds(Run(FRESH, ops).memory.thresholds)
    ensures OpsOk(ops + [Restart])
    ensures History(Run(FRESH, ops + [Restart]).memory, chip, reading, limit)
         == History(Run(FRESH, ops).memory, chip, reading, limit)
    ensures Run(FRESH, ops + [Restart]).memory.thresholds == Run(FRESH, ops).memory.thresholds
  {
    var all := ops + [Restart];
    assert all[..|all| - 1] == ops;
    RunRefines(ops);
    RunRefines(all);
    HistoryIsComplete(ops, chip, reading, limit);
    HistoryIsComplete(all, chip, reading, limit);
  }

  // ----- the file follows the memory -----

  /** The last point up to `n` at which everything was finite, or 0. */
  ghost function LastFinite(w: World, ops: seq<Op>): (k: nat)
    requires OpsOk(ops)
    ensures k <= |ops|
    ensures k == 0 || FiniteAll(Run(w, ops[..k]).memory)
    ensures forall j | k < j <= |ops| :: !FiniteAll(Run(w, ops[..j]).memory)
  {
    assert ops[..|ops|] == ops;
    if ops == [] || FiniteAll(Run(w, ops).memory) then |ops|
    else
      var front := ops[..|ops| - 1];
      var k := LastFinite(w, front);
      assert forall j | 0 <= j <= |front| :: front[..j] == ops[..j];
      k
  }

  ghost predicate InStep(w: World) {
    FiniteAll(w.memory) && w.file == Holds(Saved(w.memory))
  }

  /** What a restart would load is what is in memory, up to whole seconds. */
  ghost predicate Reloadable(w: World) {
    FiniteAll(w.memory) && Saved(Loaded(w.file)) == Saved(w.memory)
  }

  /** Every start is of this kind: over no file, over one that cannot be read, and over any saved one. */
  lemma StartIsReloadable(file: File)
    requires FiniteAll(Loaded(file))
    ensures Reloadable(World(Loaded(file), file))
    ensures Reloadable(FRESH)
  {
  }

  lemma SavedTellsFinite(m: Memory, r: Memory)
    requires Saved(m) == Saved(r) && FiniteAll(m)
    ensures FiniteAll(r)
  {
    var d, e := Saved(m).history.value, Saved(r).history.value;
    forall key | key in r.history ensures FiniteSeries(r.history[key]) {
      assert key in e && d[key] == e[key];
      assert FiniteSeries(m.history[key]);
      forall i | 0 <= i < |r.history[key]| ensures r.history[key][i].value.Finite? {
        assert e[key][i].value == r.history[key][i].value && d[key][i].value == m.history[key][i].value;
      }
    }
  }

  lemma StepFile(w: World, op: Op)
    requires OpOk(op) && FiniteAll(Loaded(w.file))
    requires FiniteAll(w.memory) ==> Reloadable(w)
    ensures var r := Step(w, op);
            && FiniteAll(Loaded(r.file)) && (FiniteAll(r.memory) ==> Reloadable(r))
            && (!FiniteAll(r.memory) ==> r.file == w.file)
            && (r.file == w.file || r.file == Holds(Saved(r.memory)))
  {
    var r := Step(w, op);
    if r.file != w.file {
      SaveOfLoad(r.memory);
      SavedTellsFinite(r.memory, Loaded(r.file));
    } else if !op.Restart? && FiniteAll(r.memory) && r.memory != w.memory {
      SaveOfLoad(r.memory);
    }
  }

  /** With every write succeeding, from any start: what the file would bring back is the memory at the last operation
      that left everything finite, and once something has been saved the file is the saved form of that memory. A
      held NaN or infinity freezes it, and replacing or clearing that catches up at once. */
  lemma {:induction false} FileTracksMemory(w: World, ops: seq<Op>)
    requires Reloadable(w) && OpsOk(ops)
    ensures var k := LastFinite(w, ops);
            && FiniteAll(Run(w, ops[..k]).memory) && FiniteAll(Loaded(Run(w, ops).file))
            && Saved(Loaded(Run(w, ops).file)) == Saved(Run(w, ops[..k]).memory)
            && (Run(w, ops).file == w.file || Run(w, ops).file == Holds(Saved(Run(w, ops[..k]).memory)))
            && (InStep(w) ==> Run(w, ops).file == Holds(Saved(Run(w, ops[..k]).memory)))
    decreases |ops|
  {
    if ops != [] {
      var front, op := ops[..|ops| - 1], ops[|ops| - 1];
      FileTracksMemory(w, front);
      var before := Run(w, front);
      var k := LastFinite(w, front);
      assert front[..k] == ops[..k] && front[..|front|] == front && ops[..|ops|] == ops;
      StepFile(before, op);
      SaveOfLoad(Step(before, op).memory);
    } else {
      assert ops[..0] == [];
      SavedTellsFinite(w.memory, Loaded(w.file));
    }
    SaveOfLoad(w.memory);
  }

  /** Any operation that saves brings the file in step, whatever the file held before. */
  lemma SavingCatchesUp(w: World, op: Op)
    requires OpOk(op) && !op.Restart? && (op.SetThreshold? ==> SetAccepted(op.chip, op.reading, op.parsed))
    ensures InStep(Step(w, op)) <==> FiniteAll(Step(w, op).memory)
  {
  }

  /** The operation leaves the override of this key alone and does not restart. */
  predicate KeepsOverride(op: Op, key: string) {
    match op
    case Snapshot(_, _) => true
    case SetThreshold(chip, reading, _) => HistoryKey(TrimSpace(chip), TrimSpace(reading)) != key
    case ClearThreshold(chip, reading) => HistoryKey(chip, reading) != key
    case Restart => false
  }

  lemma FreezeStep(w: World, op: Op, key: string)
    requires OpOk(op) && KeepsOverride(op, key) && key in w.memory.thresholds && !w.memory.thresholds[key].Finite?
    ensures var r := Step(w, op);
            r.file == w.file && key in r.memory.thresholds && r.memory.thresholds[key] == w.memory.thresholds[key]
  {
    var m := Changed(w.memory, op);
    assert key in m.thresholds && m.thresholds[key] == w.memory.thresholds[key];
  }

  /** A held override that is not finite stops everything after it from reaching the file, for as long as it is
      neither replaced nor cleared, whatever is sampled, set and cleared meanwhile. */
  lemma {:induction false} NaNFreezes(w: World, ops: seq<Op>, key: string)
    requires OpsOk(ops) && key in w.memory.thresholds && !w.memory.thresholds[key].Finite?
    requires forall i | 0 <= i < |ops| :: KeepsOverride(ops[i], key)
    ensures var r := Run(w, ops);
            && r.file == w.file
            && key in r.memory.thresholds && r.memory.thresholds[key] == w.memory.thresholds[key]
    decreases |ops|
  {
    if ops != [] {
      NaNFreezes(w, ops[..|ops| - 1], key);
      FreezeStep(Run(w, ops[..|ops| - 1]), ops[|ops| - 1], key);
    }
  }

  /** And setting one does not reach the file either. */
  lemma NaNIsNotSaved(w: World, chip: string, reading: string, v: Float)
    requires v.Valid() && !v.Finite? && SetAccepted(chip, reading, Some(v))
    ensures var r := Step(w, SetThreshold(chip, reading, Some(v)));
            var key := HistoryKey(TrimSpace(chip), TrimSpace(reading));
            r.file == w.file && key in r.memory.thresholds && r.memory.thresholds[key] == v
  {
    var r := Step(w, SetThreshold(chip, reading, Some(v)));
    assert r.memory.thresholds[HistoryKey(TrimSpace(chip), TrimSpace(reading))] == v;
  }

  // ----- one sample per reading -----

  /** The samples a snapshot takes for one key, in order. */
  function PointsIn(now: int, chip: string, fs: seq<Feature>, key: string): seq<Point>
    requires FiniteFeatures(fs)
  {
    if fs == [] then []
    else
      var last := fs[|fs| - 1];
      PointsIn(now, chip, fs[..|fs| - 1], key)
      + if HistoryKey(chip, last.name) == key then [Point(now, Rounded(last.input))] else []
  }

  function PointsAll(now: int, sources: seq<Source>, key: string): seq<Point>
    requires FiniteSources(sources)
  {
    if sources == [] then []
    else
      var last := sources[|sources| - 1];
      PointsAll(now, sources[..|sources| - 1], key) + PointsIn(now, last.name, last.features, key)
  }

  /** A series after more samples, one at a time. */
  function Extended(series: seq<Point>, points: seq<Point>): seq<Point> {
    if points == [] then series else Last(series + points, CAP)
  }

  lemma ExtendedTwice(series: seq<Point>, a: seq<Point>, b: seq<Point>)
    ensures Extended(Extended(series, a), b) == Extended(series, a + b)
  {
    if b == [] {
      assert a + b == a;
    } else if a == [] {
      assert a + b == b;
    } else {
      LastOfConcat(series + a, b, CAP);
      assert series + a + b == series + (a + b);
    }
  }

  lemma ReadingAdds(history: map<string, seq<Point>>, now: int, chip: string, r: Reading, v: Float, key: string)
    requires Sampled(r) == Some(v)
    ensures SeriesIn(AddReading(history, now, chip, r), key)
         == if HistoryKey(chip, r.name) == key then Last(SeriesIn(history, key) + [Point(now, v)], CAP)
            else SeriesIn(history, key)
  {
  }

  lemma {:induction false} ReadingsAdd(history: map<string, seq<Point>>, now: int, chip: string, fs: seq<Feature>,
                                       rs: seq<Reading>, key: string)
    requires FiniteFeatures(fs) && Parses(fs, rs)
    ensures SeriesIn(AddReadings(history, now, chip, rs), key)
         == Extended(SeriesIn(history, key), PointsIn(now, chip, fs, key))
    decreases |fs|
  {
    if fs != [] {
      var n := |fs| - 1;
      var p := Point(now, Rounded(fs[n].input));
      var taken := PointsIn(now, chip, fs[..n], key);
      ReadingsAdd(history, now, chip, fs[..n], rs[..n], key);
      ReadingAdds(AddReadings(history, now, chip, rs[..n]), now, chip, rs[n], p.value, key);
      if HistoryKey(chip, fs[n].name) == key {
        ExtendedTwice(SeriesIn(history, key), taken, [p]);
      } else {
        assert taken + [] == taken;
      }
    }
  }

  /** A snapshot adds to each series of the module, cut to 240, exactly the samples of the readings with its key. */
  lemma {:induction false} SnapshotAdds(history: map<string, seq<Point>>, now: int, sources: seq<Source>, key: string)
    requires FiniteSources(sources)
    ensures SeriesIn(AddChips(history, now, EmitAll(sources)), key)
         == Extended(SeriesIn(history, key), PointsAll(now, sources, key))
    decreases |sources|
  {
    if sources != [] {
      var front, last := sources[..|sources| - 1], sources[|sources| - 1];
      var chips := EmitAll(sources);
      SnapshotAdds(history, now, front, key);
      assert chips[..|chips| - 1] == EmitAll(front);
      EmittedReadingsParse(last.features);
      var before := AddChips(history, now, EmitAll(front));
      ReadingsAdd(before, now, last.name, last.features, EmitFeatures(last.features), key);
      ExtendedTwice(SeriesIn(history, key), PointsAll(now, front, key), PointsIn(now, last.name, last.features, key));
    }
  }

  lemma StampsOfConcat(a: seq<Point>, b: seq<Point>)
    ensures Stamps(a + b) == Stamps(a) + Stamps(b)
  {
  }

  lemma StampsAssoc(a: seq<Stamped>, b: seq<Stamped>, c: seq<Stamped>)
    ensures a + b + c == a + (b + c)
  {
  }

  lemma {:induction false} FeaturesLog(samples: map<string, seq<Stamped>>, now: int, chip: string, fs: seq<Feature>,
                                       key: string)
    requires FiniteFeatures(fs)
    ensures SamplesOf(LogFeatures(samples, now, chip, fs), key)
         == SamplesOf(samples, key) + Stamps(PointsIn(now, chip, fs, key))
    decreases |fs|
  {
    if fs != [] {
      var front, last := fs[..|fs| - 1], fs[|fs| - 1];
      FeaturesLog(samples, now, chip, front, key);
      if HistoryKey(chip, last.name) == key {
        StampsOfConcat(PointsIn(now, chip, front, key), [Point(now, Rounded(last.input))]);
      } else {
        assert PointsIn(now, chip, fs, key) == PointsIn(now, chip, front, key);
      }
    } else {
      assert SamplesOf(samples, key) + Stamps([]) == SamplesOf(samples, key);
    }
  }

  /** And to the unbounded log the same samples, all of them. */
  lemma {:induction false} SnapshotLogs(samples: map<string, seq<Stamped>>, now: int, sources: seq<Source>, key: string)
    requires FiniteSources(sources)
    ensures SamplesOf(LogSources(samples, now, sources), key)
         == SamplesOf(samples, key) + Stamps(PointsAll(now, sources, key))
    decreases |sources|
  {
    if sources != [] {
      var front, last := sources[..|sources| - 1], sources[|sources| - 1];
      SnapshotLogs(samples, now, front, key);
      var before, more := LogSources(samples, now, front), PointsIn(now, last.name, last.features, key);
      FeaturesLog(before, now, last.name, last.features, key);
      assert LogSources(samples, now, sources) == LogFeatures(before, now, last.name, last.features);
      assert PointsAll(now, sources, key) == PointsAll(now, front, key) + more;
      StampsOfConcat(PointsAll(now, front, key), more);
      StampsAssoc(SamplesOf(samples, key), Stamps(PointsAll(now, front, key)), Stamps(more));
    } else {
      assert SamplesOf(samples, key) + Stamps([]) == SamplesOf(samples, key);
    }
  }

  /** The shape `readSensorsJSON` gives, names being the keys of maps, with no two chips that can clash. */
  ghost predicate DistinctNames(sources: seq<Source>) {
    && (forall i | 0 <= i < |sources| :: DistinctFeatures(sources[i].features))
    && forall i, j | 0 <= i < j < |sources| :: Apart(sources[i].name, sources[j].name)
  }

  predicate Apart(a: string, b: string) {
    a != b && !CanClash(a, b)
  }

  ghost predicate DistinctFeatures(fs: seq<Feature>) {
    forall i, j | 0 <= i < j < |fs| :: fs[i].name != fs[j].name
  }

  lemma {:induction false} NoneOfReading(now: int, chip: string, fs: seq<Feature>, reading: string)
    requires FiniteFeatures(fs) && forall i | 0 <= i < |fs| :: fs[i].name != reading
    ensures PointsIn(now, chip, fs, HistoryKey(chip, reading)) == []
    decreases |fs|
  {
    if fs != [] {
      NoneOfReading(now, chip, fs[..|fs| - 1], reading);
      ReadingOf(chip, fs[|fs| - 1].name);
      ReadingOf(chip, reading);
    }
  }

  lemma {:induction false} OneOfReading(now: int, chip: string, fs: seq<Feature>, f: nat)
    requires FiniteFeatures(fs) && DistinctFeatures(fs) && f < |fs|
    ensures PointsIn(now, chip, fs, HistoryKey(chip, fs[f].name)) == [Point(now, Rounded(fs[f].input))]
    decreases |fs|
  {
    var front, last := fs[..|fs| - 1], fs[|fs| - 1];
    if f < |front| {
      OneOfReading(now, chip, front, f);
      ReadingOf(chip, fs[f].name);
      ReadingOf(chip, last.name);
    } else {
      NoneOfReading(now, chip, front, last.name);
    }
  }

  lemma {:induction false} NoneElsewhere(now: int, chip: string, fs: seq<Feature>, other: string, reading: string)
    requires FiniteFeatures(fs) && Apart(chip, other)
    ensures PointsIn(now, chip, fs, HistoryKey(other, reading)) == []
    decreases |fs|
  {
    if fs != [] {
      NoneElsewhere(now, chip, fs[..|fs| - 1], other, reading);
      if HistoryKey(chip, fs[|fs| - 1].name) == HistoryKey(other, reading) {
        KeyDetermines(chip, fs[|fs| - 1].name, other, reading);
      }
    }
  }

  lemma {:induction false} NoneInOthers(now: int, sources: seq<Source>, chip: string, reading: string)
    requires FiniteSources(sources) && forall i | 0 <= i < |sources| :: Apart(sources[i].name, chip)
    ensures PointsAll(now, sources, HistoryKey(chip, reading)) == []
    decreases |sources|
  {
    if sources != [] {
      NoneInOthers(now, sources[..|sources| - 1], chip, reading);
      NoneElsewhere(now, sources[|sources| - 1].name, sources[|sources| - 1].features, chip, reading);
    }
  }

  lemma {:induction false} PointsOfReading(now: int, sources: seq<Source>, s: nat, f: nat)
    requires FiniteSources(sources) && DistinctNames(sources) && s < |sources| && f < |sources[s].features|
    ensures PointsAll(now, sources, HistoryKey(sources[s].name, sources[s].features[f].name))
         == [Point(now, Rounded(sources[s].features[f].input))]
    decreases |sources|
  {
    var front, last := sources[..|sources| - 1], sources[|sources| - 1];
    var chip, reading := sources[s].name, sources[s].features[f].name;
    if s == |sources| - 1 {
      OneOfReading(now, chip, last.features, f);
      NoneInOthers(now, front, chip, reading);
    } else {
      PointsOfReading(now, front, s, f);
      NoneElsewhere(now, last.name, last.features, chip, reading);
    }
  }

  /** A successful snapshot adds exactly one sample to the series of each of its readings, the rounded input now:
      to the module's series, cut to 240, and to the unbounded log. */
  lemma OneSamplePerReading(m: Memory, i: Ideal, now: int, sources: seq<Source>, s: nat, f: nat)
    requires FiniteSources(sources) && DistinctNames(sources) && s < |sources| && f < |sources[s].features|
    ensures var key := HistoryKey(sources[s].name, sources[s].features[f].name);
            var v := Rounded(sources[s].features[f].input);
            && Series(Changed(m, Snapshot(now, sources)), key) == Last(Series(m, key) + [Point(now, v)], 240)
            && SamplesOf(IdealStep(i, Snapshot(now, sources)).live.samples, key)
               == SamplesOf(i.live.samples, key) + [Stamped(now / 1_000_000_000, v)]
  {
    var key := HistoryKey(sources[s].name, sources[s].features[f].name);
    var p := Point(now, Rounded(sources[s].features[f].input));
    PointsOfReading(now, sources, s, f);
    OneAdded(m, now, sources, key, p);
    OneLogged(i, now, sources, key, p);
  }

  lemma OneAdded(m: Memory, now: int, sources: seq<Source>, key: string, p: Point)
    requires FiniteSources(sources) && PointsAll(now, sources, key) == [p]
    ensures Series(Changed(m, Snapshot(now, sources)), key) == Last(Series(m, key) + [p], CAP)
  {
    SnapshotAdds(m.history, now, sources, key);
  }

  lemma OneLogged(i: Ideal, now: int, sources: seq<Source>, key: string, p: Point)
    requires FiniteSources(sources) && PointsAll(now, sources, key) == [p]
    ensures SamplesOf(IdealStep(i, Snapshot(now, sources)).live.samples, key)
         == SamplesOf(i.live.samples, key) + [Stamp(p)]
  {
    SnapshotLogs(i.live.samples, now, sources, key);
    assert Stamps([p]) == [Stamp(p)];
  }

  // ----- setting and clearing -----

  /** Clearing removes the override just set exactly when neither name has space around it: only setting trims. */
  lemma ClearUndoesSet(m: Memory, chip: string, reading: string, v: Float)
    requires v.Valid() && SetAccepted(chip, reading, Some(v))
    ensures var cleared := Changed(Changed(m, SetThreshold(chip, reading, Some(v))), ClearThreshold(chip, reading));
            (HistoryKey(TrimSpace(chip), TrimSpace(reading)) !in cleared.thresholds
             <==> Trimmed(chip) && Trimmed(reading))
  {
    SameKey(chip, reading);
  }

  lemma SameKey(chip: string, reading: string)
    ensures HistoryKey(TrimSpace(chip), TrimSpace(reading)) == HistoryKey(chip, reading)
       <==> Trimmed(chip) && Trimmed(reading)
  {
    TrimmedIsFixed(chip);
    TrimmedIsFixed(reading);
    TrimIsShorter(chip);
    TrimIsShorter(reading);
    if HistoryKey(TrimSpace(chip), TrimSpace(reading)) == HistoryKey(chip, reading) {
      assert |HistoryKey(TrimSpace(chip), TrimSpace(reading))| == |TrimSpace(chip)| + 2 + |TrimSpace(reading)|;
      assert |HistoryKey(chip, reading)| == |chip| + 2 + |reading|;
    }
  }

  lemma TrimIsShorter(s: string)
    ensures |TrimSpace(s)| <= |s|
    ensures |TrimSpace(s)| == |s| ==> TrimSpace(s) == s
  {
  }
}
