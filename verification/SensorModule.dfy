// The sensors module as an object: its two maps, the state file, and the loops that keep them.
module SensorModule {
  import opened Wrappers
  import opened Text
  import opened Decimal
  import opened SensorHistory

  predicate ValidThresholds(thresholds: map<string, Float>) {
    forall key | key in thresholds :: thresholds[key].Valid()
  }

  lemma AddStep(history: map<string, seq<Point>>, now: int, chip: string, rs: seq<Reading>, r: nat)
    requires r < |rs|
    ensures AddReadings(history, now, chip, rs[..r + 1])
         == AddReading(AddReadings(history, now, chip, rs[..r]), now, chip, rs[r])
  {
    assert rs[..r + 1][..r] == rs[..r];
  }

  lemma MarkStep(thresholds: map<string, Float>, chip: string, rs: seq<Reading>, r: nat)
    requires ValidThresholds(thresholds) && r < |rs|
    ensures MarkedReadings(thresholds, chip, rs[..r + 1])
         == MarkedReadings(thresholds, chip, rs[..r]) + [Marked(thresholds, chip, rs[r])]
  {
    assert rs[..r + 1][..r] == rs[..r];
  }

  lemma ChipStep(history: map<string, seq<Point>>, thresholds: map<string, Float>, now: int, chips: seq<Chip>, c: nat)
    requires ValidThresholds(thresholds) && c < |chips|
    ensures AddChips(history, now, chips[..c + 1])
         == AddReadings(AddChips(history, now, chips[..c]), now, chips[c].name, chips[c].readings)
    ensures MarkedChips(thresholds, chips[..c + 1])
         == MarkedChips(thresholds, chips[..c]) + [MarkedChip(thresholds, chips[c])]
  {
    assert chips[..c + 1][..c] == chips[..c];
  }

  /** What the module found when it was made: working sensors, a tool that reports nothing usable, or none. */
  datatype Mode = Sensors | Degraded | Fake

  class Module {
    const path: string
    var history: map<string, seq<Point>>
    var thresholds: map<string, Float>
    var file: File

    function State(): World
      reads this
    {
      World(Memory(history, thresholds), file)
    }

    /** A start of the daemon over what the last one left on disk. */
    constructor (path: string, file: File)
      ensures this.path == path && this.file == file
      ensures State().memory == if Blank(path) then EMPTY else Loaded(file)
    {
      TrimsToNothing(path);
      this.path, this.file := path, file;
      this.history, this.thresholds := map[], map[];
      new;
      LoadState();
    }

    method LoadState()
      requires history == map[] && thresholds == map[]
      modifies this
      ensures file == old(file)
      ensures State().memory == if TrimSpace(path) == "" then EMPTY else Loaded(file)
    {
      if TrimSpace(path) == "" || !file.Holds? {
        return;
      }
      var state := file.document;
      if state.thresholds.Some? {
        thresholds := state.thresholds.value;
      }
      if state.history.Some? {
        history := map[];
        var todo := state.history.value.Keys;
        while todo != {}
          invariant todo <= state.history.value.Keys
          invariant history.Keys == state.history.value.Keys - todo
          invariant forall key | key in history :: history[key] == Unstamps(state.history.value[key])
          invariant file == old(file) && thresholds == if state.thresholds.Some? then state.thresholds.value else map[]
          decreases todo
        {
          var key :| key in todo;
          var series := ReadSeries(state.history.value[key]);
          history := history[key := series];
          todo := todo - {key};
        }
        assert history == map key | key in state.history.value :: Unstamps(state.history.value[key]);
      }
    }

    method ReadSeries(points: seq<Stamped>) returns (series: seq<Point>)
      ensures series == Unstamps(points)
    {
      series := [];
      for i := 0 to |points|
        invariant |series| == i
        invariant forall j | 0 <= j < i :: series[j] == Unstamps(points)[j]
      {
        series := series + [Point(points[i].seconds * SECOND, points[i].value)];
      }
    }

    method StampSeries(points: seq<Point>) returns (series: seq<Stamped>)
      ensures series == Stamps(points)
    {
      series := [];
      for i := 0 to |points|
        invariant |series| == i
        invariant forall j | 0 <= j < i :: series[j] == Stamp(points[j])
      {
        series := series + [Stamped(points[i].at / SECOND, points[i].value)];
      }
    }

    method SaveState(fate: Fate)
      modifies this`file
      ensures file == FileAfter(path, State().memory, old(file), fate)
      ensures Blank(path) || !FiniteAll(State().memory) || fate.NoDirectory? ==> file == old(file)
      ensures !Blank(path) && FiniteAll(State().memory) ==>
                && (fate.Succeeds? ==> file == Holds(Saved(State().memory)))
                && (fate.BreaksOff? ==> file == Unreadable)
    {
      TrimsToNothing(path);
      if TrimSpace(path) == "" {
        return;
      }
      var saved: map<string, seq<Stamped>> := map[];
      var todo := history.Keys;
      while todo != {}
        invariant todo <= history.Keys && file == old(file)
        invariant saved.Keys == history.Keys - todo
        invariant forall key | key in saved :: saved[key] == Stamps(history[key])
        decreases todo
      {
        var key :| key in todo;
        var series := StampSeries(history[key]);
        saved := saved[key := series];
        todo := todo - {key};
      }
      assert saved == map key | key in history :: Stamps(history[key]);
      if !FiniteAll(Memory(history, thresholds)) {
        return;
      }
      match fate
      case NoDirectory =>
      case BreaksOff => file := Unreadable;
      case Succeeds => file := Holds(Document(Some(saved), Some(thresholds)));
    }

    method SetThreshold(chip: string, reading: string, parsed: Option<Float>, fate: Fate) returns (ok: bool)
      requires parsed.Some? ==> parsed.value.Valid()
      modifies this
      ensures ok <==> !Blank(chip) && !Blank(reading) && parsed.Some?
      ensures State().memory == Changed(old(State().memory), Op.SetThreshold(chip, reading, parsed))
      ensures file == if ok then FileAfter(path, State().memory, old(file), fate) else old(file)
    {
      TrimsToNothing(chip);
      TrimsToNothing(reading);
      var c, r := TrimSpace(chip), TrimSpace(reading);
      if c == "" || r == "" || parsed.None? {
        return false;
      }
      thresholds := thresholds[HistoryKey(c, r) := parsed.value];
      SaveState(fate);
      return true;
    }

    method ClearThreshold(chip: string, reading: string, fate: Fate)
      modifies this
      ensures State().memory == Changed(old(State().memory), Op.ClearThreshold(chip, reading))
      ensures file == FileAfter(path, State().memory, old(file), fate)
    {
      thresholds := thresholds - {HistoryKey(chip, reading)};
      SaveState(fate);
    }

    method ReadHistory(chip: string, reading: string, limit: int) returns (out: seq<Stamped>)
      ensures out == History(State().memory, chip, reading, limit)
    {
      var n := if limit <= 0 then 30 else limit;
      var key := HistoryKey(chip, reading);
      var points := if key in history then history[key] else [];
      if |points| > n {
        points := points[|points| - n..];
      }
      out := StampSeries(points);
    }

    /** The two loops over chips and readings, then one save. */
    method ApplyThresholdsAndHistory(chips: seq<Chip>, now: int, fate: Fate) returns (out: seq<Chip>)
      requires ValidThresholds(thresholds)
      modifies this
      ensures thresholds == old(thresholds) && ValidThresholds(thresholds)
      ensures history == AddChips(old(history), now, chips)
      ensures out == MarkedChips(thresholds, chips)
      ensures file == FileAfter(path, State().memory, old(file), fate)
    {
      out := ApplyToChips(chips, now);
      SaveState(fate);
    }

    method ApplyToChips(chips: seq<Chip>, now: int) returns (out: seq<Chip>)
      requires ValidThresholds(thresholds)
      modifies this`history
      ensures history == AddChips(old(history), now, chips)
      ensures out == MarkedChips(thresholds, chips)
    {
      out := [];
      var c := 0;
      while c < |chips|
        invariant 0 <= c <= |chips|
        invariant history == AddChips(old(history), now, chips[..c])
        invariant out == MarkedChips(thresholds, chips[..c])
      {
        ChipStep(old(history), thresholds, now, chips, c);
        var chip := ApplyToChip(chips[c], now);
        out := out + [chip];
        c := c + 1;
      }
      assert chips[..c] == chips;
    }

    method ApplyToChip(chip: Chip, now: int) returns (out: Chip)
      requires ValidThresholds(thresholds)
      modifies this`history
      ensures history == AddReadings(old(history), now, chip.name, chip.readings)
      ensures out == MarkedChip(thresholds, chip)
    {
      var readings := [];
      var r := 0;
      while r < |chip.readings|
        invariant 0 <= r <= |chip.readings|
        invariant history == AddReadings(old(history), now, chip.name, chip.readings[..r])
        invariant readings == MarkedReadings(thresholds, chip.name, chip.readings[..r])
      {
        AddStep(old(history), now, chip.name, chip.readings, r);
        MarkStep(thresholds, chip.name, chip.readings, r);
        var reading := ApplyToReading(chip.name, chip.readings[r], now);
        readings := readings + [reading];
        r := r + 1;
      }
      assert chip.readings[..r] == chip.readings;
      out := Chip(chip.name, readings);
    }

    /** The body of the inner loop. */
    method ApplyToReading(chip: string, reading: Reading, now: int) returns (out: Reading)
      requires ValidThresholds(thresholds)
      modifies this`history
      ensures history == AddReading(old(history), now, chip, reading)
      ensures out == Marked(thresholds, chip, reading)
    {
      out := reading;
      var sample := Sampled(reading);
      if sample.None? {
        return;
      }
      var key := HistoryKey(chip, reading.name);
      if key in thresholds {
        out := out.(threshold := FormatValue(thresholds[key]), critical := AtLeast(sample.value, thresholds[key]));
      }
      var series := (if key in history then history[key] else []) + [Point(now, sample.value)];
      if |series| > CAP {
        series := series[|series| - CAP..];
      }
      history := history[key := series];
    }

    /** A snapshot of what the sensors report, None being a command or a document that fails: every reading is
        sampled, and the file follows. Without working sensors, or when reading them fails, nothing changes. */
    method Snapshot(mode: Mode, reported: Option<seq<Source>>, now: int, fate: Fate) returns (r: Result<seq<Chip>>)
      requires (reported.Some? ==> FiniteSources(reported.value)) && ValidThresholds(thresholds)
      modifies this
      ensures thresholds == old(thresholds) && (r == Err <==> mode.Sensors? && reported.None?)
      ensures !mode.Sensors? ==> r == Ok([])
      ensures !mode.Sensors? || reported.None? ==> history == old(history) && file == old(file)
      ensures mode.Sensors? && reported.Some? ==>
                && State().memory == Changed(old(State().memory), Op.Snapshot(now, reported.value))
                && r == Ok(MarkedChips(thresholds, EmitAll(reported.value)))
                && file == FileAfter(path, State().memory, old(file), fate)
    {
      if !mode.Sensors? {
        return Ok([]);
      }
      if reported.None? {
        return Err;
      }
      var chips := ApplyThresholdsAndHistory(EmitAll(reported.value), now, fate);
      return Ok(chips);
    }
  }

  /** Whether a value has reached a limit; nothing reaches NaN. */
  predicate Reached(v: Float, limit: Float)
    requires v.Finite?
  {
    match limit
    case Finite(neg, mag) => v.Value() >= if neg then -mag else mag
    case Infinite(neg) => neg
    case NaN => false
  }

  /** Shown critical means exactly: the rounded value has reached the override, or without one the sensor's own
      limit. The limit shown is the one that decides. */
  lemma CriticalMeans(thresholds: map<string, Float>, chip: string, f: Feature)
    requires FiniteFeature(f) && ValidThresholds(thresholds)
    ensures var shown := Marked(thresholds, chip, Emit(f)); var key := HistoryKey(chip, f.name);
            && shown.name == f.name && ParseFloat(shown.value) == Some(Rounded(f.input))
            && (key in thresholds ==>
                  && shown.threshold == FormatValue(thresholds[key])
                  && (shown.critical <==> Reached(Rounded(f.input), thresholds[key])))
            && (key !in thresholds && f.crit.Some? ==>
                  && ParseFloat(shown.threshold) == Some(Rounded(f.crit.value))
                  && (shown.critical <==> Reached(f.input, f.crit.value)))
            && (key !in thresholds && f.crit.None? ==> shown.threshold == "" && !shown.critical)
  {
    EmittedParses(f);
    ParseOfFormat(f.input);
    if f.crit.Some? {
      ParseOfFormat(f.crit.value);
    }
  }

  /** The texts that stand for limits: a finite one reads as it rounds. */
  lemma LimitReads(limit: Float)
    requires limit.Valid()
    ensures limit.Finite? ==> ParseFloat(FormatValue(limit)) == Some(Rounded(limit))
    ensures !limit.Finite? ==> ParseFloat(FormatValue(limit)) == Some(limit)
  {
    if limit.Finite? {
      ParseOfFormat(limit);
    } else {
      NamesReadBack(limit);
    }
  }

  /** What a snapshot returns: every chip, every reading of it, in order, each shown as above. */
  lemma SnapshotShows(thresholds: map<string, Float>, sources: seq<Source>, s: nat)
    requires FiniteSources(sources) && ValidThresholds(thresholds) && s < |sources|
    ensures var shown := MarkedChips(thresholds, EmitAll(sources));
            && |shown| == |sources| && shown[s].name == sources[s].name
            && |shown[s].readings| == |sources[s].features|
            && forall f | 0 <= f < |sources[s].features| ::
                 shown[s].readings[f] == Marked(thresholds, sources[s].name, Emit(sources[s].features[f]))
  {
    ChipsShown(thresholds, EmitAll(sources), s);
    ReadingsShown(thresholds, sources[s].name, EmitFeatures(sources[s].features));
  }

  lemma {:induction false} ChipsShown(thresholds: map<string, Float>, chips: seq<Chip>, c: nat)
    requires ValidThresholds(thresholds) && c < |chips|
    ensures MarkedChips(thresholds, chips)[c] == MarkedChip(thresholds, chips[c])
    decreases |chips|
  {
    if c < |chips| - 1 {
      ChipsShown(thresholds, chips[..|chips| - 1], c);
    }
  }

  lemma {:induction false} ReadingsShown(thresholds: map<string, Float>, chip: string, rs: seq<Reading>)
    requires ValidThresholds(thresholds)
    ensures forall r | 0 <= r < |rs| :: MarkedReadings(thresholds, chip, rs)[r] == Marked(thresholds, chip, rs[r])
    decreases |rs|
  {
    if rs != [] {
      ReadingsShown(thresholds, chip, rs[..|rs| - 1]);
    }
  }

  /** An override that is accepted decides from then on about just its reading, until it is cleared, and then the
      sensor's own limit does again. */
  lemma OverrideDecides(m: Memory, chip: string, reading: string, v: Float, other: string, f: Feature)
    requires !Blank(chip) && !Blank(reading) && v.Valid() && ValidThresholds(m.thresholds) && FiniteFeature(f)
    ensures var c, r := TrimSpace(chip), TrimSpace(reading);
            var after := Changed(m, Op.SetThreshold(chip, reading, Some(v)));
            var cleared := Changed(after, Op.ClearThreshold(c, r));
            && ValidThresholds(after.thresholds) && ValidThresholds(cleared.thresholds)
            && (f.name == r ==>
                  && (Marked(after.thresholds, c, Emit(f)).critical <==> Reached(Rounded(f.input), v))
                  && Marked(cleared.thresholds, c, Emit(f)) == Emit(f))
            && (HistoryKey(other, f.name) != HistoryKey(c, r) ==>
                  Marked(after.thresholds, other, Emit(f)) == Marked(m.thresholds, other, Emit(f)))
  {
    TrimsToNothing(chip);
    TrimsToNothing(reading);
    var c, r := TrimSpace(chip), TrimSpace(reading);
    var after := Changed(m, Op.SetThreshold(chip, reading, Some(v)));
    assert after.thresholds == m.thresholds[HistoryKey(c, r) := v];
    CriticalMeans(after.thresholds, c, f);
    NotOverridden(Changed(after, Op.ClearThreshold(c, r)).thresholds, c, f);
    SameOverride(after.thresholds, m.thresholds, other, f);
  }

  lemma NotOverridden(thresholds: map<string, Float>, chip: string, f: Feature)
    requires ValidThresholds(thresholds) && FiniteFeature(f)
    ensures HistoryKey(chip, f.name) !in thresholds ==> Marked(thresholds, chip, Emit(f)) == Emit(f)
  {
  }

  lemma SameOverride(a: map<string, Float>, b: map<string, Float>, chip: string, f: Feature)
    requires ValidThresholds(a) && ValidThresholds(b) && FiniteFeature(f)
    ensures var key := HistoryKey(chip, f.name);
            (key in a <==> key in b) && (key in a ==> a[key] == b[key]) ==>
              Marked(a, chip, Emit(f)) == Marked(b, chip, Emit(f))
  {
  }
}
