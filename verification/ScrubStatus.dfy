// The scrub-status parser: which lines of `zpool status` it looks at, and how it reads the progress line.
module ScrubStatus {
  import opened Wrappers
  import opened Text
  import opened Decimal

  datatype ScanState = Unknown | Progressing | Finished | Stopped | Idle | Other

  /** The parsed status. `Other` stands for a state text equal to the summary. */
  datatype Progress = Progress(pool: string, summary: string, details: string, state: ScanState,
                               percent: Float, eta: string, startedAt: string, inProgress: bool)

  const ZERO: Float := Finite(false, 0.0)

  function Nothing(pool: string): Progress {
    Progress(pool, "", "", Unknown, ZERO, "", "", false)
  }

  predicate IsScan(line: string) {
    HasPrefix(TrimSpace(line), "scan:")
  }

  // ----- the two fields of the progress line -----

  /** The text after the last comma of `s`, trimmed. */
  function AfterComma(s: string): string {
    match LastIndex(s, ',')
    case Some(comma) => TrimSpace(s[comma + 1..])
    case None => s
  }

  function Percent(detail: string): Float {
    match Index(detail, "% done")
    case None => ZERO
    case Some(i) =>
      match ParseFloat(AfterComma(TrimSpace(detail[..i])))
      case Some(v) => v
      case None => ZERO
  }

  function Eta(detail: string): string {
    match Index(detail, " to go")
    case None => ""
    case Some(i) =>
      var left := TrimSpace(detail[..i]);
      if LastIndex(left, ',').None? then "" else AfterComma(left)
  }

  // ----- what a scan line and its detail line mean -----

  function Since(rest: string): string {
    match Index(rest, " since ")
    case Some(i) => TrimSpace(rest[i + 7..])
    case None => ""
  }

  function ScanRest(line: string): string
    requires IsScan(line)
  {
    TrimSpace(TrimSpace(line)[5..])
  }

  /** The result from the scan line and, if there is one, the first non-blank line after it. */
  function Meaning(pool: string, scan: string, detail: Option<string>): Progress
    requires IsScan(scan)
  {
    var rest := ScanRest(scan);
    var p := Nothing(pool).(summary := rest, startedAt := Since(rest));
    if Contains(rest, "scrub in progress") then
      var q := p.(state := Progressing, inProgress := true);
      match detail
      case Some(d) => q.(details := TrimSpace(d), percent := Percent(TrimSpace(d)), eta := Eta(TrimSpace(d)))
      case None => q
    else if Contains(rest, "scrub repaired") then p.(state := Finished)
    else if Contains(rest, "scrub canceled") || Contains(rest, "scrub stopped") then p.(state := Stopped)
    else if Contains(rest, "none requested") then p.(state := Idle)
    else p.(state := Other)
  }

  // ----- where those lines are -----

  /** The position of the first scan line from `i` on. */
  function FirstScan(lines: seq<string>, i: nat): (r: Option<nat>)
    requires i <= |lines|
    ensures r.Some? ==>
              && i <= r.value < |lines| && IsScan(lines[r.value])
              && forall j | i <= j < r.value :: !IsScan(lines[j])
    ensures r.None? ==> forall j | i <= j < |lines| :: !IsScan(lines[j])
    decreases |lines| - i
  {
    if i == |lines| then None
    else if IsScan(lines[i]) then Some(i)
    else FirstScan(lines, i + 1)
  }

  /** The first line from `i` on that is not blank. */
  function FirstNonBlank(lines: seq<string>, i: nat): (r: Option<string>)
    requires i <= |lines|
    decreases |lines| - i
  {
    if i == |lines| then None
    else if TrimSpace(lines[i]) != "" then Some(lines[i])
    else FirstNonBlank(lines, i + 1)
  }

  /** What the text means to the parser. */
  function Parsed(pool: string, raw: string): Progress {
    var lines := Split(raw, '\n');
    match FirstScan(lines, 0)
    case None => Nothing(pool)
    case Some(i) => Meaning(pool, lines[i], FirstNonBlank(lines, i + 1))
  }

  /** The parser as code: the scan over lines, and for a running scrub the scan for the detail line. */
  method ParseScrubProgress(pool: string, raw: string) returns (p: Progress)
    ensures p == Parsed(pool, raw)
  {
    var lines := Split(raw, '\n');
    var i := 0;
    while i < |lines|
      invariant 0 <= i <= |lines|
      invariant FirstScan(lines, 0) == FirstScan(lines, i)
    {
      var trimmed := TrimSpace(lines[i]);
      if HasPrefix(trimmed, "scan:") {
        p := ReadScan(pool, lines, i);
        return;
      }
      i := i + 1;
    }
    p := Nothing(pool);
  }

  method ReadScan(pool: string, lines: seq<string>, i: nat) returns (p: Progress)
    requires i < |lines| && IsScan(lines[i])
    ensures p == Meaning(pool, lines[i], FirstNonBlank(lines, i + 1))
  {
    var rest := TrimSpace(TrimSpace(lines[i])[5..]);
    p := Nothing(pool).(summary := rest, startedAt := Since(rest));
    if Contains(rest, "scrub in progress") {
      p := p.(state := Progressing, inProgress := true);
      var j := i + 1;
      while j < |lines|
        invariant i < j <= |lines|
        invariant FirstNonBlank(lines, i + 1) == FirstNonBlank(lines, j)
      {
        var detail := TrimSpace(lines[j]);
        if detail != "" {
          p := p.(details := detail, percent := Percent(detail), eta := Eta(detail));
          return;
        }
        j := j + 1;
      }
      return;
    }
    if Contains(rest, "scrub repaired") {
      p := p.(state := Finished);
    } else if Contains(rest, "scrub canceled") || Contains(rest, "scrub stopped") {
      p := p.(state := Stopped);
    } else if Contains(rest, "none requested") {
      p := p.(state := Idle);
    } else {
      p := p.(state := Other);
    }
  }

  // ----- locality -----

  /** Two texts that share the trimmed first scan line and, for a running scrub, the trimmed detail line. */
  predicate Agree(a: string, b: string) {
    var la, lb := Split(a, '\n'), Split(b, '\n');
    var i, j := FirstScan(la, 0), FirstScan(lb, 0);
    match (i, j)
    case (None, None) => true
    case (Some(m), Some(n)) =>
      && TrimSpace(la[m]) == TrimSpace(lb[n])
      && (Contains(ScanRest(la[m]), "scrub in progress") ==>
            TrimmedDetail(FirstNonBlank(la, m + 1)) == TrimmedDetail(FirstNonBlank(lb, n + 1)))
    case _ => false
  }

  function TrimmedDetail(d: Option<string>): Option<string> {
    match d
    case Some(line) => Some(TrimSpace(line))
    case None => None
  }

  lemma MeaningIsLocal(pool: string, scan: string, scan': string, d: Option<string>, d': Option<string>)
    requires IsScan(scan) && IsScan(scan') && TrimSpace(scan) == TrimSpace(scan')
    requires Contains(ScanRest(scan), "scrub in progress") ==> TrimmedDetail(d) == TrimmedDetail(d')
    ensures Meaning(pool, scan, d) == Meaning(pool, scan', d')
  {
    var rest := ScanRest(scan);
    assert rest == ScanRest(scan');
  }

  /** Nothing but those lines and the pool name matters. */
  lemma ParserIsLocal(pool: string, a: string, b: string)
    requires Agree(a, b)
    ensures Parsed(pool, a) == Parsed(pool, b)
  {
    var la, lb := Split(a, '\n'), Split(b, '\n');
    var i, j := FirstScan(la, 0), FirstScan(lb, 0);
    if i.Some? {
      MeaningIsLocal(pool, la[i.value], lb[j.value], FirstNonBlank(la, i.value + 1), FirstNonBlank(lb, j.value + 1));
    }
  }

  // ----- reading back the progress layout -----

  /** A progress line: some counters, the percentage, and the time left. */
  function Layout(counters: string, percent: string, eta: string): string {
    BeforeDone(counters, percent) + "% done" + ([','] + ([' '] + eta)) + " to go"
  }

  function BeforeDone(counters: string, percent: string): string {
    counters + [','] + ([' '] + percent)
  }

  /** A text in which `sub` first occurs right after `before`. */
  lemma IndexIs(before: string, sub: string, after: string)
    requires sub != "" && forall i | 0 <= i < |before| :: !At(before + sub + after, sub, i)
    ensures Index(before + sub + after, sub) == Some(|before|)
  {
    var s := before + sub + after;
    assert s[|before|..|before| + |sub|] == sub;
    assert At(s, sub, |before|);
  }

  lemma {:induction false} LastCommaIs(before: string, tail: string)
    requires ',' !in tail
    ensures LastIndex(before + [','] + tail, ',') == Some(|before|)
    decreases |tail|
  {
    var s := before + [','] + tail;
    if tail == "" {
      assert s == before + [','];
    } else {
      var front := tail[..|tail| - 1];
      LastCommaIs(before, front);
      assert s[..|s| - 1] == before + [','] + front;
      assert s[|s| - 1] == tail[|tail| - 1];
      assert tail[|tail| - 1] in tail;
    }
  }

  /** The field after the last comma. */
  lemma AfterCommaIs(before: string, field: string)
    requires ',' !in field && Trimmed(field)
    ensures LastIndex(before + [','] + ([' '] + field), ',') == Some(|before|)
    ensures AfterComma(before + [','] + ([' '] + field)) == field
  {
    var s := before + [','] + ([' '] + field);
    LastCommaIs(before, [' '] + field);
    assert s[|before| + 1..] == [' '] + field;
    OneSpaceTrims(field);
  }

  lemma OneSpaceTrims(field: string)
    requires Trimmed(field)
    ensures TrimSpace([' '] + field) == field
  {
    TrimSpaceIs([' '], field, "");
    assert [' '] + (field + "") == [' '] + field;
  }

  /** Text that starts and ends without space stays as it is. */
  lemma FieldLineTrimmed(before: string, field: string)
    requires before == "" || !IsSpace(before[0])
    requires field != "" && Trimmed(field)
    ensures TrimSpace(before + [','] + ([' '] + field)) == before + [','] + ([' '] + field)
  {
    var s := before + [','] + ([' '] + field);
    assert s[|s| - 1] == field[|field| - 1];
    assert s[0] == if before == "" then ',' else before[0];
    TrimmedIsFixed(s);
  }

  /** Where a marker first occurs, the percentage before it is read back exactly. */
  lemma PercentReadBack(counters: string, percent: string, rest: string, v: Float)
    requires counters == "" || !IsSpace(counters[0])
    requires ',' !in percent && percent != "" && Trimmed(percent) && ParseFloat(percent) == Some(v)
    requires var before := BeforeDone(counters, percent);
             forall i | 0 <= i < |before| :: !At(before + "% done" + rest, "% done", i)
    ensures Percent(BeforeDone(counters, percent) + "% done" + rest) == v
  {
    var before := BeforeDone(counters, percent);
    var detail := before + "% done" + rest;
    IndexIs(before, "% done", rest);
    assert detail[..|before|] == before;
    FieldLineTrimmed(counters, percent);
    AfterCommaIs(counters, percent);
  }

  lemma EtaReadBack(before: string, eta: string)
    requires before == "" || !IsSpace(before[0])
    requires ',' !in eta && eta != "" && Trimmed(eta)
    requires var left := before + [','] + ([' '] + eta);
             forall i | 0 <= i < |left| :: !At(left + " to go" + "", " to go", i)
    ensures Eta(before + [','] + ([' '] + eta) + " to go") == eta
  {
    var left := before + [','] + ([' '] + eta);
    IndexIs(left, " to go", "");
    assert left + " to go" + "" == left + " to go";
    assert (left + " to go")[..|left|] == left;
    FieldLineTrimmed(before, eta);
    AfterCommaIs(before, eta);
  }

  /** Nothing in the line but the two markers themselves looks like a marker. */
  ghost predicate MarkersAreFirst(counters: string, percent: string, eta: string) {
    var line := Layout(counters, percent, eta);
    && (forall i | 0 <= i < |BeforeDone(counters, percent)| :: !At(line, "% done", i))
    && (forall i | 0 <= i < |line| - |" to go"| :: !At(line, " to go", i))
  }

  lemma LayoutPercent(counters: string, percent: string, eta: string, v: Float)
    requires counters == "" || !IsSpace(counters[0])
    requires ',' !in percent && percent != "" && Trimmed(percent) && ParseFloat(percent) == Some(v)
    requires MarkersAreFirst(counters, percent, eta)
    ensures Percent(Layout(counters, percent, eta)) == v
  {
    var rest := ([','] + ([' '] + eta)) + " to go";
    assert Layout(counters, percent, eta) == BeforeDone(counters, percent) + "% done" + rest;
    PercentReadBack(counters, percent, rest, v);
  }

  lemma LayoutEta(counters: string, percent: string, eta: string)
    requires counters == "" || !IsSpace(counters[0])
    requires ',' !in eta && eta != "" && Trimmed(eta)
    requires MarkersAreFirst(counters, percent, eta)
    ensures Eta(Layout(counters, percent, eta)) == eta
  {
    var head := BeforeDone(counters, percent) + "% done";
    var left := head + [','] + ([' '] + eta);
    assert Layout(counters, percent, eta) == left + " to go" && left + " to go" + "" == left + " to go";
    assert head[0] == if counters == "" then ',' else counters[0];
    EtaReadBack(head, eta);
  }

  /** A progress line is read back exactly: the percentage as its number, the time left as its text. */
  lemma LayoutReadBack(counters: string, percent: string, eta: string, v: Float)
    requires counters == "" || !IsSpace(counters[0])
    requires ',' !in percent && percent != "" && Trimmed(percent) && ParseFloat(percent) == Some(v)
    requires ',' !in eta && eta != "" && Trimmed(eta)
    requires MarkersAreFirst(counters, percent, eta)
    ensures Percent(Layout(counters, percent, eta)) == v && Eta(Layout(counters, percent, eta)) == eta
  {
    LayoutPercent(counters, percent, eta, v);
    LayoutEta(counters, percent, eta);
  }

  /** A percentage with no counters before it is read all the same. */
  lemma LonePercent(percent: string, rest: string, v: Float)
    requires ',' !in percent && Trimmed(percent) && ParseFloat(percent) == Some(v)
    requires forall i | 0 <= i < |percent| :: !At(percent + "% done" + rest, "% done", i)
    ensures Percent(percent + "% done" + rest) == v
  {
    IndexIs(percent, "% done", rest);
    var line := percent + "% done" + rest;
    assert line[..|percent|] == percent;
    TrimmedIsFixed(percent);
    NoComma(percent);
  }

  lemma NoComma(s: string)
    requires ',' !in s
    ensures LastIndex(s, ',') == None && AfterComma(s) == s
  {
  }

  /** Without its marker a field is empty, and so is the time left with no comma before it. */
  lemma MissingFields(detail: string)
    ensures !Contains(detail, "% done") ==> Percent(detail) == Finite(false, 0.0)
    ensures !Contains(detail, " to go") ==> Eta(detail) == ""
    ensures ',' !in detail ==> Eta(detail) == ""
  {
    if ',' !in detail && Contains(detail, " to go") {
      var i := Index(detail, " to go").value;
      assert ',' !in detail[..i];
      TrimKeepsOut(detail[..i], ',');
      NoComma(TrimSpace(detail[..i]));
    }
  }

  /** The whole status text of a running scrub: lines before, the scan line, blank lines, the progress line, lines
      after. */
  lemma RunningScrubReadBack(pool: string, before: seq<string>, scan: string, blanks: seq<string>, margin: string,
                             counters: string, percent: string, eta: string, after: seq<string>, v: Float)
    requires forall l | l in before :: !IsScan(l)
    requires IsScan(scan) && Contains(ScanRest(scan), "scrub in progress")
    requires forall l | l in blanks :: TrimSpace(l) == ""
    requires Blank(margin)
    requires counters == "" || !IsSpace(counters[0])
    requires ',' !in percent && percent != "" && Trimmed(percent) && ParseFloat(percent) == Some(v)
    requires ',' !in eta && eta != "" && Trimmed(eta)
    requires MarkersAreFirst(counters, percent, eta)
    requires var lines := before + [scan] + blanks + [margin + Layout(counters, percent, eta)] + after;
             forall i | 0 <= i < |lines| :: '\n' !in lines[i]
    ensures var lines := before + [scan] + blanks + [margin + Layout(counters, percent, eta)] + after;
            var p := Parsed(pool, Join(lines, '\n'));
            && p.pool == pool && p.inProgress && p.state == Progressing && p.summary == ScanRest(scan)
            && p.percent == v && p.eta == eta && p.details == Layout(counters, percent, eta)
  {
    var line := Layout(counters, percent, eta);
    var tail := blanks + [margin + line] + after;
    var lines := before + [scan] + blanks + [margin + line] + after;
    assert lines == before + [scan] + tail;
    SplitOfJoin(lines, '\n');
    FirstScanIs(before, scan, tail);
    LayoutTrimmed(counters, percent, eta, margin);
    FirstNonBlankIs(before + [scan], blanks, margin + line, after);
    assert before + [scan] + (blanks + [margin + line] + after) == lines;
    LayoutReadBack(counters, percent, eta, v);
  }

  lemma LayoutTrimmed(counters: string, percent: string, eta: string, margin: string)
    requires Blank(margin) && (counters == "" || !IsSpace(counters[0]))
    ensures TrimSpace(margin + Layout(counters, percent, eta)) == Layout(counters, percent, eta)
  {
    var line := Layout(counters, percent, eta);
    assert line[|line| - 1] == 'o';
    assert line[0] == if counters == "" then ',' else counters[0];
    TrimSpaceIs(margin, line, "");
    assert margin + (line + "") == margin + line;
  }

  /** The text after the scan mark of a status line with any margin. */
  lemma ScanLineIs(margin: string, rest: string)
    requires Blank(margin) && rest != "" && Trimmed(rest)
    ensures IsScan(margin + "scan: " + rest) && ScanRest(margin + "scan: " + rest) == rest
  {
    var line := "scan: " + rest;
    assert line[0] == 's' && line[|line| - 1] == rest[|rest| - 1];
    TrimSpaceIs(margin, line, "");
    assert margin + (line + "") == margin + "scan: " + rest;
    assert line[..5] == "scan:";
    assert line[5..] == [' '] + rest;
    OneSpaceTrims(rest);
  }

  /** Every status text with a scan line gives the text of the first one as the summary, and of the five states the
      one whose phrase it has, in this order of precedence. */
  lemma StateReadBack(pool: string, before: seq<string>, margin: string, rest: string, after: seq<string>)
    requires forall l | l in before :: !HasPrefix(TrimSpace(l), "scan:")
    requires Blank(margin) && rest != "" && Trimmed(rest)
    requires var lines := before + [margin + "scan: " + rest] + after;
             forall i | 0 <= i < |lines| :: '\n' !in lines[i]
    ensures var p := Parsed(pool, Join(before + [margin + "scan: " + rest] + after, '\n'));
            && p.pool == pool && p.summary == rest
            && (p.inProgress <==> Contains(rest, "scrub in progress"))
            && p.state == (if Contains(rest, "scrub in progress") then Progressing
                           else if Contains(rest, "scrub repaired") then Finished
                           else if Contains(rest, "scrub canceled") || Contains(rest, "scrub stopped") then Stopped
                           else if Contains(rest, "none requested") then Idle
                           else Other)
            && (!p.inProgress ==> p.details == "" && p.eta == "" && p.percent == Finite(false, 0.0))
  {
    var scan := margin + "scan: " + rest;
    ScanLineIs(margin, rest);
    SplitOfJoin(before + [scan] + after, '\n');
    FirstScanIs(before, scan, after);
  }

  /** What follows the first " since " in it is the time the scrub was started. */
  lemma SinceReadBack(what: string, time: string)
    requires Trimmed(time) && forall i | 0 <= i < |what| :: !At(what + " since " + time, " since ", i)
    ensures Since(what + " since " + time) == time
  {
    var s := what + " since " + time;
    IndexIs(what, " since ", time);
    assert s[|what| + 7..] == time;
    TrimmedIsFixed(time);
  }

  /** A text without a scan line says nothing. */
  lemma NoScanReadsNothing(pool: string, raw: string)
    requires forall l | l in Split(raw, '\n') :: !HasPrefix(TrimSpace(l), "scan:")
    ensures Parsed(pool, raw) == Progress(pool, "", "", Unknown, Finite(false, 0.0), "", "", false)
  {
    var lines := Split(raw, '\n');
    assert forall i | 0 <= i < |lines| :: lines[i] in lines;
  }

  lemma FirstScanIs(before: seq<string>, scan: string, tail: seq<string>)
    requires IsScan(scan) && forall l | l in before :: !IsScan(l)
    ensures FirstScan(before + [scan] + tail, 0) == Some(|before|)
  {
    var lines := before + [scan] + tail;
    assert lines[|before|] == scan;
    var r := FirstScan(lines, 0);
    assert forall j | 0 <= j < |before| :: lines[j] == before[j] && before[j] in before;
  }

  lemma {:induction false} FirstNonBlankIs(before: seq<string>, blanks: seq<string>, line: string, after: seq<string>)
    requires TrimSpace(line) != "" && forall l | l in blanks :: TrimSpace(l) == ""
    ensures FirstNonBlank(before + (blanks + [line] + after), |before|) == Some(line)
    decreases |blanks|
  {
    var lines := before + (blanks + [line] + after);
    if blanks == [] {
      assert lines[|before|] == line;
    } else {
      assert lines[|before|] == blanks[0] && blanks[0] in blanks;
      FirstNonBlankIs(before + [blanks[0]], blanks[1..], line, after);
      assert before + [blanks[0]] + (blanks[1..] + [line] + after) == lines;
    }
  }
}
