// The ZFS event stream: `writeSSEEvent` with the snapshot loop as the printer, and the
// event-stream interpretation of sections 9.2.5 and 9.2.6 of the WHATWG HTML Living Standard as the reader.
module EventStream {
  import opened Wrappers
  import opened Text
  import Utf8

  datatype Event = Event(name: string, data: string)

  // ----- the reader -----

  /** What a reader holds: the unfinished line, the two buffers, and the events fired so far. */
  datatype Reader = Reader(line: string, name: string, data: string, afterCR: bool, fired: seq<Event>)

  function Fresh(fired: seq<Event>): Reader {
    Reader("", "", "", false, fired)
  }

  function Dispatch(r: Reader): Reader {
    if r.data == "" then
      r.(name := "", data := "")
    else
      var data := if r.data[|r.data| - 1] == '\n' then r.data[..|r.data| - 1] else r.data;
      var name := if r.name == "" then "message" else r.name;
      r.(name := "", data := "", fired := r.fired + [Event(name, data)])
  }

  function Field(r: Reader, field: string, value: string): Reader {
    if field == "event" then r.(name := value)
    else if field == "data" then r.(data := r.data + value + "\n")
    else r
  }

  /** The end of a line: a blank line fires, a comment is skipped, anything else is a field. */
  function EndLine(r: Reader): Reader {
    var line := r.line;
    var s := r.(line := "");
    var colon := Find(line, ':');
    if line == "" then Dispatch(s)
    else if colon == 0 then s
    else if colon == |line| then Field(s, line, "")
    else
      var value := line[colon + 1..];
      Field(s, line[..colon], if HasPrefix(value, " ") then value[1..] else value)
  }

  /** One character: LF, CR and CRLF each end a line once. */
  function Feed(r: Reader, c: char): Reader {
    if c == '\n' && r.afterCR then r.(afterCR := false)
    else if c == '\n' || c == '\r' then EndLine(r).(afterCR := c == '\r')
    else r.(line := r.line + [c], afterCR := false)
  }

  function FeedAll(r: Reader, text: string): Reader
    decreases |text|
  {
    if text == "" then r else FeedAll(Feed(r, text[0]), text[1..])
  }

  /** The events a client sees in the text of a stream; what is unfinished at the end is dropped. */
  function Decode(text: string): seq<Event> {
    var body := if HasPrefix(text, "\U{FEFF}") then text[1..] else text;
    FeedAll(Fresh([]), body).fired
  }

  /** And in its bytes, whatever they are. */
  function Received(bytes: seq<byte>): seq<Event> {
    Decode(Utf8.Decode(bytes))
  }

  // ----- the printer -----

  function DataLines(lines: seq<string>): string {
    if lines == [] then "" else DataLines(lines[..|lines| - 1]) + ("data: " + lines[|lines| - 1] + "\n")
  }

  function EventHead(e: Event): string {
    "event: " + e.name + "\n"
  }

  function Encode(e: Event): string {
    EventHead(e) + DataLines(Split(e.data, '\n')) + "\n"
  }

  function EncodeAll(events: seq<Event>): string {
    if events == [] then "" else EncodeAll(events[..|events| - 1]) + Encode(events[|events| - 1])
  }

  /** The bytes of an event, and of a list of events. */
  function Bytes(e: Event): seq<byte> {
    Utf8.Encode(Encode(e))
  }

  function AllBytes(events: seq<Event>): seq<byte> {
    Utf8.Encode(EncodeAll(events))
  }

  /** The buffered response: the bytes it accepted, and how many more the connection takes before it breaks, which may
      be inside a character. */
  class ResponseWriter {
    var sent: seq<byte>
    var room: nat
    var broken: bool

    constructor (room: nat)
      ensures sent == [] && this.room == room && !broken
    {
      this.sent, this.room, this.broken := [], room, false;
    }

    /** Nothing failed and `bytes` are out, or the connection broke inside them. */
    twostate predicate Wrote(bytes: seq<byte>, ok: bool)
      reads this
    {
      && (ok ==> !broken && sent == old(sent) + bytes)
      && (!ok ==> broken && old(sent) <= sent <= old(sent) + bytes)
    }

    method WriteString(s: string) returns (ok: bool)
      modifies this
      ensures ok == (!old(broken) && |Utf8.Encode(s)| <= old(room))
      ensures Wrote(Utf8.Encode(s), ok)
    {
      if broken {
        return false;
      }
      var bytes := Utf8.Encode(s);
      if |bytes| <= room {
        sent, room := sent + bytes, room - |bytes|;
        return true;
      }
      sent, room, broken := sent + bytes[..room], 0, true;
      return false;
    }

    method Flush() returns (ok: bool)
      ensures ok == !broken
    {
      return !broken;
    }
  }

  lemma PrefixOfPrefix(a: seq<byte>, b: seq<byte>, c: seq<byte>)
    requires a <= b && b <= c
    ensures a <= c
  {
  }

  lemma {:induction false} DataLinesPrefix(lines: seq<string>, i: nat)
    requires i <= |lines|
    ensures DataLines(lines[..i]) <= DataLines(lines)
    decreases |lines|
  {
    if i < |lines| {
      var front := lines[..|lines| - 1];
      DataLinesPrefix(front, i);
      assert front[..i] == lines[..i];
      assert DataLines(front) <= DataLines(lines);
    } else {
      assert lines[..i] == lines;
    }
  }

  /** The text of an event up to the end of its line `i`. */
  ghost function Upto(e: Event, i: nat): string
    requires i <= |Split(e.data, '\n')|
  {
    EventHead(e) + DataLines(Split(e.data, '\n')[..i])
  }

  /** It is a prefix of the whole text. */
  lemma UptoPrefix(base: seq<byte>, e: Event, i: nat)
    requires i <= |Split(e.data, '\n')|
    ensures base + Utf8.Encode(Upto(e, i)) <= base + Bytes(e)
  {
    DataLinesPrefix(Split(e.data, '\n'), i);
    Utf8.EncodePrefix(Upto(e, i), Encode(e));
  }

  lemma UptoStart(e: Event)
    ensures Upto(e, 0) == EventHead(e)
  {
    assert Split(e.data, '\n')[..0] == [];
    assert EventHead(e) + DataLines([]) == EventHead(e);
  }

  lemma UptoNext(base: seq<byte>, e: Event, i: nat)
    requires i < |Split(e.data, '\n')|
    ensures base + Utf8.Encode(Upto(e, i + 1))
         == base + Utf8.Encode(Upto(e, i)) + Utf8.Encode("data: " + Split(e.data, '\n')[i] + "\n")
  {
    var lines := Split(e.data, '\n');
    var line := "data: " + lines[i] + "\n";
    assert lines[..i + 1][..i] == lines[..i];
    Assoc(EventHead(e), DataLines(lines[..i]), line);
    Utf8.EncodeConcat(Upto(e, i), line);
    Utf8.Assoc(base, Utf8.Encode(Upto(e, i)), Utf8.Encode(line));
  }

  lemma UptoEnd(base: seq<byte>, e: Event)
    ensures base + Utf8.Encode(Upto(e, |Split(e.data, '\n')|)) + Utf8.Encode("\n") == base + Bytes(e)
  {
    var lines := Split(e.data, '\n');
    assert lines[..|lines|] == lines;
    var text := Upto(e, |lines|);
    Utf8.EncodeConcat(text, "\n");
    Utf8.Assoc(base, Utf8.Encode(text), Utf8.Encode("\n"));
  }

  method WriteEvent(w: ResponseWriter, e: Event) returns (ok: bool)
    modifies w
    ensures w.Wrote(Bytes(e), ok)
  {
    ghost var base := w.sent;
    var lines := Split(e.data, '\n');
    ok := w.WriteString("event: " + e.name + "\n");
    UptoStart(e);
    UptoPrefix(base, e, 0);
    if !ok {
      PrefixOfPrefix(w.sent, base + Utf8.Encode(Upto(e, 0)), base + Bytes(e));
      return;
    }
    var i := 0;
    while i < |lines|
      invariant 0 <= i <= |lines|
      invariant !w.broken && w.sent == base + Utf8.Encode(Upto(e, i))
    {
      UptoNext(base, e, i);
      UptoPrefix(base, e, i + 1);
      ok := w.WriteString("data: " + lines[i] + "\n");
      if !ok {
        PrefixOfPrefix(w.sent, base + Utf8.Encode(Upto(e, i + 1)), base + Bytes(e));
        return;
      }
      i := i + 1;
    }
    UptoEnd(base, e);
    ok := w.WriteString("\n");
  }

  /** One snapshot of the stream: the two rendered texts a tick sends. */
  datatype Snapshot = Snapshot(events: string, tasks: string)

  function EventsOf(snapshots: seq<Snapshot>): seq<Event> {
    if snapshots == [] then []
    else
      var s := snapshots[|snapshots| - 1];
      EventsOf(snapshots[..|snapshots| - 1]) + [Event("events", s.events), Event("tasks", s.tasks)]
  }

  /** Every snapshot is two events: its events text as "events", then its tasks text as "tasks". */
  lemma {:induction false} EventsOfAre(snapshots: seq<Snapshot>, k: nat)
    requires k < |snapshots|
    ensures |EventsOf(snapshots)| == 2 * |snapshots|
    ensures EventsOf(snapshots)[2 * k] == Event("events", snapshots[k].events)
    ensures EventsOf(snapshots)[2 * k + 1] == Event("tasks", snapshots[k].tasks)
    decreases |snapshots|
  {
    var front := snapshots[..|snapshots| - 1];
    if k < |front| {
      EventsOfAre(front, k);
    } else if front != [] {
      EventsOfAre(front, 0);
    }
  }

  function SnapshotText(s: Snapshot): string {
    Encode(Event("events", s.events)) + Encode(Event("tasks", s.tasks))
  }

  lemma EncodeTwo(a: Event, b: Event)
    ensures EncodeAll([a] + [b]) == Encode(a) + Encode(b)
  {
    assert [a] + [b] == ([] + [a]) + [b];
    EncodeAppend([], a);
    EncodeAppend([] + [a], b);
    assert EncodeAll([]) + Encode(a) == Encode(a);
  }

  method SendSnapshot(w: ResponseWriter, s: Snapshot) returns (ok: bool)
    modifies w
    ensures w.Wrote(Utf8.Encode(SnapshotText(s)), ok)
    ensures w.Wrote(AllBytes([Event("events", s.events)] + [Event("tasks", s.tasks)]), ok)
  {
    EncodeTwo(Event("events", s.events), Event("tasks", s.tasks));
    ghost var base := w.sent;
    ghost var first, second := Bytes(Event("events", s.events)), Bytes(Event("tasks", s.tasks));
    Utf8.EncodeConcat(Encode(Event("events", s.events)), Encode(Event("tasks", s.tasks)));
    ok := WriteEvent(w, Event("events", s.events));
    if !ok {
      PrefixOfPrefix(w.sent, base + first, base + (first + second));
      return;
    }
    ok := WriteEvent(w, Event("tasks", s.tasks));
    assert base + first + second == base + (first + second);
    if !ok {
      return;
    }
    ok := w.Flush();
  }

  lemma EncodeAppend(events: seq<Event>, e: Event)
    ensures EncodeAll(events + [e]) == EncodeAll(events) + Encode(e)
  {
    assert (events + [e])[..|events|] == events;
  }

  lemma EncodeSnapshots(ticks: seq<Snapshot>, s: Snapshot)
    ensures EncodeAll(EventsOf(ticks + [s])) == EncodeAll(EventsOf(ticks)) + SnapshotText(s)
  {
    var before := EventsOf(ticks);
    var a, b := Event("events", s.events), Event("tasks", s.tasks);
    assert (ticks + [s])[..|ticks|] == ticks;
    assert before + [a, b] == before + [a] + [b];
    EncodeAppend(before, a);
    EncodeAppend(before + [a], b);
    Assoc(EncodeAll(before), Encode(a), Encode(b));
  }

  lemma {:induction false} StreamPrefix(ticks: seq<Snapshot>, i: nat)
    requires i <= |ticks|
    ensures EncodeAll(EventsOf(ticks[..i])) <= EncodeAll(EventsOf(ticks))
    decreases |ticks|
  {
    if i < |ticks| {
      var front := ticks[..|ticks| - 1];
      StreamPrefix(front, i);
      assert front[..i] == ticks[..i];
      assert ticks == front + [ticks[|ticks| - 1]];
      EncodeSnapshots(front, ticks[|ticks| - 1]);
    } else {
      assert ticks[..i] == ticks;
    }
  }

  lemma StreamNext(ticks: seq<Snapshot>, i: nat)
    requires i < |ticks|
    ensures AllBytes(EventsOf(ticks[..i + 1]))
         == AllBytes(EventsOf(ticks[..i])) + Utf8.Encode(SnapshotText(ticks[i]))
  {
    assert ticks[..i + 1] == ticks[..i] + [ticks[i]];
    EncodeSnapshots(ticks[..i], ticks[i]);
    Utf8.EncodeConcat(EncodeAll(EventsOf(ticks[..i])), SnapshotText(ticks[i]));
  }

  lemma StreamCut(ticks: seq<Snapshot>, i: nat, sent: seq<byte>)
    requires i <= |ticks| && sent <= AllBytes(EventsOf(ticks[..i]))
    ensures sent <= AllBytes(EventsOf(ticks))
  {
    StreamPrefix(ticks, i);
    Utf8.EncodePrefix(EncodeAll(EventsOf(ticks[..i])), EncodeAll(EventsOf(ticks)));
    PrefixOfPrefix(sent, AllBytes(EventsOf(ticks[..i])), AllBytes(EventsOf(ticks)));
  }

  /** The stream loop over the snapshots of the ticks before the request ends: a break stops it. */
  method Stream(w: ResponseWriter, ticks: seq<Snapshot>) returns (ok: bool)
    requires w.sent == [] && !w.broken
    modifies w
    ensures ok == !w.broken
    ensures ok ==> w.sent == AllBytes(EventsOf(ticks))
    ensures !ok ==> w.sent <= AllBytes(EventsOf(ticks))
  {
    var i := 0;
    while i < |ticks|
      invariant 0 <= i <= |ticks|
      invariant !w.broken && w.sent == AllBytes(EventsOf(ticks[..i]))
    {
      ok := SendSnapshot(w, ticks[i]);
      StreamNext(ticks, i);
      if !ok {
        StreamCut(ticks, i + 1, w.sent);
        return;
      }
      i := i + 1;
    }
    assert ticks[..i] == ticks;
    ok := true;
  }

  // ----- reading a prefix -----

  lemma {:induction false} FeedConcat(r: Reader, a: string, b: string)
    ensures FeedAll(r, a + b) == FeedAll(FeedAll(r, a), b)
    decreases |a|
  {
    if a == "" {
      assert a + b == b;
    } else {
      FeedConcat(Feed(r, a[0]), a[1..], b);
      assert (a + b)[1..] == a[1..] + b;
    }
  }

  lemma {:induction false} FiredGrows(r: Reader, text: string)
    ensures r.fired <= FeedAll(r, text).fired
    decreases |text|
  {
    if text != "" {
      FiredGrows(Feed(r, text[0]), text[1..]);
    }
  }

  /** Reading part of the text of any stream sees a prefix of its events. */
  lemma DecodePrefix(part: string, whole: string)
    requires part <= whole
    ensures Decode(part) <= Decode(whole)
  {
    if part != "" {
      var bom := HasPrefix(part, "\U{FEFF}");
      assert part[..1] == whole[..1];
      var a := if bom then part[1..] else part;
      var b := if bom then whole[1..] else whole;
      assert b == a + b[|a|..];
      FeedConcat(Fresh([]), a, b[|a|..]);
      FiredGrows(FeedAll(Fresh([]), a), b[|a|..]);
    }
  }

  /** A character that ends no line, at the end of a text, changes nothing that is seen. */
  lemma UnfinishedLine(text: string, c: char)
    requires c != '\n' && c != '\r' && c != '\U{FEFF}'
    ensures Decode(text + [c]) == Decode(text)
  {
    var bom := HasPrefix(text, "\U{FEFF}");
    if text == "" {
      assert (text + [c])[..1][0] == c;
    } else {
      assert (text + [c])[..1] == text[..1];
    }
    assert HasPrefix(text + [c], "\U{FEFF}") == bom;
    var body := if bom then text[1..] else text;
    if bom {
      assert (text + [c])[1..] == body + [c];
    }
    FeedConcat(Fresh([]), body, [c]);
    var r := FeedAll(Fresh([]), body);
    assert FeedAll(r, [c]) == FeedAll(Feed(r, c), "");
  }

  /** Reading part of the bytes of any stream, cut anywhere, sees a prefix of its events. */
  lemma ReceivedPrefix(part: seq<byte>, whole: seq<byte>)
    requires part <= whole
    ensures Received(part) <= Received(whole)
  {
    var out := Utf8.CutBytes(part, whole);
    DecodePrefix(out, Utf8.Decode(whole));
    UnfinishedLine(out, Utf8.REPLACEMENT);
  }

  // ----- reading back what was written -----

  predicate LineFree(s: string) {
    '\n' !in s && '\r' !in s
  }

  /** The events that survive the trip: a non-empty one-line name, and data without CR. */
  predicate Carried(e: Event) {
    e.name != "" && LineFree(e.name) && '\r' !in e.data
  }

  lemma {:induction false} FeedPlain(r: Reader, s: string)
    requires LineFree(s) && !r.afterCR
    ensures FeedAll(r, s) == r.(line := r.line + s)
    decreases |s|
  {
    if s == "" {
      assert r.line + s == r.line;
    } else {
      FeedPlain(Feed(r, s[0]), s[1..]);
      assert r.line + [s[0]] + s[1..] == r.line + s;
    }
  }

  lemma FieldLine(r: Reader, field: string, value: string)
    requires ':' !in field && field != ""
    ensures EndLine(r.(line := field + [':'] + (" " + value))) == Field(r.(line := ""), field, value)
  {
    var line := field + [':'] + (" " + value);
    FindIs(field, ':', " " + value);
    assert line[|field| + 1..] == " " + value;
    assert HasPrefix(" " + value, " ") && (" " + value)[1..] == value;
    assert line[..|field|] == field;
  }

  lemma FeedLine(r: Reader, line: string)
    requires LineFree(line) && !r.afterCR && r.line == ""
    ensures FeedAll(r, line + "\n") == EndLine(r.(line := line)).(afterCR := false)
  {
    FeedConcat(r, line, "\n");
    FeedPlain(r, line);
    assert r.line + line == line;
    var s := r.(line := line);
    assert FeedAll(s, "\n") == FeedAll(Feed(s, '\n'), "");
  }

  /** One written line reads as one field. */
  lemma FeedField(r: Reader, field: string, value: string)
    requires LineFree(value) && LineFree(field) && ':' !in field && field != ""
    requires !r.afterCR && r.line == ""
    ensures FeedAll(r, field + ": " + value + "\n") == Field(r, field, value)
  {
    var line := field + [':'] + (" " + value);
    assert field + ": " + value + "\n" == line + "\n";
    FeedLine(r, line);
    FieldLine(r, field, value);
    assert r.(line := "") == r;
  }

  lemma {:induction false} FeedDataLines(r: Reader, lines: seq<string>)
    requires forall i | 0 <= i < |lines| :: LineFree(lines[i])
    requires !r.afterCR && r.line == ""
    ensures FeedAll(r, DataLines(lines)) == r.(data := r.data + Collected(lines))
    decreases |lines|
  {
    if lines == [] {
      assert r.data + Collected(lines) == r.data;
    } else {
      var front, last := lines[..|lines| - 1], lines[|lines| - 1];
      FeedDataLines(r, front);
      var mid := FeedAll(r, DataLines(front));
      var text := "data: " + last + "\n";
      FeedConcat(r, DataLines(front), text);
      assert text == "data" + ": " + last + "\n";
      FeedField(mid, "data", last);
      assert r.data + Collected(front) + last + "\n" == r.data + Collected(lines);
    }
  }

  /** The data buffer after reading `lines`. */
  function Collected(lines: seq<string>): string {
    if lines == [] then "" else Collected(lines[..|lines| - 1]) + (lines[|lines| - 1] + "\n")
  }

  lemma {:induction false} CollectedIsJoin(lines: seq<string>)
    requires lines != []
    ensures Collected(lines) == Join(lines, '\n') + "\n"
    decreases |lines|
  {
    if |lines| == 1 {
      assert lines[..0] == [];
    } else {
      CollectedFront(lines);
      CollectedIsJoin(lines[1..]);
    }
  }

  lemma {:induction false} CollectedFront(lines: seq<string>)
    requires lines != []
    ensures Collected(lines) == lines[0] + "\n" + Collected(lines[1..])
    decreases |lines|
  {
    if |lines| == 1 {
      assert lines[..0] == [];
    } else {
      var front, last := lines[..|lines| - 1], lines[|lines| - 1] + "\n";
      CollectedFront(front);
      assert front[1..] == lines[1..][..|lines| - 2];
      Assoc(lines[0] + "\n", Collected(front[1..]), last);
    }
  }

  lemma Assoc(a: string, b: string, c: string)
    ensures a + b + c == a + (b + c)
  {
  }

  lemma SplitKeepsOut(s: string, sep: char, c: char)
    requires c !in s
    ensures forall i | 0 <= i < |Split(s, sep)| :: c !in Split(s, sep)[i]
    decreases |s|
  {
    var i := Find(s, sep);
    if i < |s| {
      SplitKeepsOut(s[i + 1..], sep, c);
    }
  }

  /** The lines of an event fill the two buffers. */
  lemma FeedFields(fired: seq<Event>, e: Event)
    requires Carried(e)
    ensures FeedAll(Fresh(fired), EventHead(e) + DataLines(Split(e.data, '\n')))
         == Reader("", e.name, e.data + "\n", false, fired)
  {
    var lines := Split(e.data, '\n');
    assert EventHead(e) == "event" + ": " + e.name + "\n";
    FeedField(Fresh(fired), "event", e.name);
    SplitKeepsOut(e.data, '\n', '\r');
    var named := Reader("", e.name, "", false, fired);
    assert named == Field(Fresh(fired), "event", e.name);
    FeedDataLines(named, lines);
    FeedConcat(Fresh(fired), EventHead(e), DataLines(lines));
    CollectedIsJoin(lines);
    JoinOfSplit(e.data, '\n');
    assert "" + (e.data + "\n") == e.data + "\n";
  }

  /** A blank line fires what the buffers hold. */
  lemma FeedBlank(name: string, data: string, fired: seq<Event>)
    requires name != ""
    ensures FeedAll(Reader("", name, data + "\n", false, fired), "\n") == Fresh(fired + [Event(name, data)])
  {
    var r := Reader("", name, data + "\n", false, fired);
    assert FeedAll(r, "\n") == FeedAll(Feed(r, '\n'), "");
    assert (data + "\n")[..|data|] == data;
  }

  /** An event written between two others is read back whole. */
  lemma FeedEvent(fired: seq<Event>, e: Event)
    requires Carried(e)
    ensures FeedAll(Fresh(fired), Encode(e)) == Fresh(fired + [e])
  {
    FeedFields(fired, e);
    FeedBlank(e.name, e.data, fired);
    FeedConcat(Fresh(fired), EventHead(e) + DataLines(Split(e.data, '\n')), "\n");
  }

  lemma {:induction false} FeedEvents(events: seq<Event>)
    requires forall e | e in events :: Carried(e)
    ensures FeedAll(Fresh([]), EncodeAll(events)) == Fresh(events)
    decreases |events|
  {
    if events != [] {
      var front, last := events[..|events| - 1], events[|events| - 1];
      FeedEvents(front);
      FeedConcat(Fresh([]), EncodeAll(front), Encode(last));
      assert last in events;
      FeedEvent(front, last);
      assert front + [last] == events;
    }
  }

  lemma {:induction false} StreamStart(events: seq<Event>)
    requires events != []
    ensures EncodeAll(events) != "" && EncodeAll(events)[0] == 'e'
    decreases |events|
  {
    if |events| > 1 {
      StreamStart(events[..|events| - 1]);
    } else {
      assert events[..0] == [];
    }
  }

  // ----- what a reader can fire at all -----

  predicate ReaderSane(r: Reader) {
    LineFree(r.line) && LineFree(r.name) && '\r' !in r.data && forall e | e in r.fired :: Carried(e)
  }

  lemma {:induction false} FeedKeepsSane(r: Reader, text: string)
    requires ReaderSane(r)
    ensures ReaderSane(FeedAll(r, text))
    decreases |text|
  {
    if text != "" {
      EndLineKeepsSane(r);
      FeedKeepsSane(Feed(r, text[0]), text[1..]);
    }
  }

  lemma EndLineKeepsSane(r: Reader)
    requires ReaderSane(r)
    ensures ReaderSane(EndLine(r))
  {
    var line := r.line;
    var colon := Find(line, ':');
    if line == "" {
      var s := Dispatch(r);
      if r.data != "" {
        var e := s.fired[|s.fired| - 1];
        assert s.fired == r.fired + [e];
        assert Carried(e);
      }
    }
  }

  /** Whatever a client reads, in whatever bytes: every event it sees has a one-line name and data without CR. */
  lemma ReceivedAreCarried(bytes: seq<byte>)
    ensures forall e | e in Received(bytes) :: Carried(e)
  {
    DecodedAreCarried(Utf8.Decode(bytes));
  }

  lemma DecodedAreCarried(text: string)
    ensures forall e | e in Decode(text) :: Carried(e)
  {
    FeedKeepsSane(Fresh([]), text);
    if text != "" {
      FeedKeepsSane(Fresh([]), text[1..]);
    }
  }

  /** A written list is read back exactly when every event has a non-empty one-line name and data without CR. */
  lemma RoundTrip(events: seq<Event>)
    ensures Received(AllBytes(events)) == events <==> forall e | e in events :: Carried(e)
  {
    var text := EncodeAll(events);
    Utf8.RoundTrip(text);
    if events != [] {
      StreamStart(events);
    }
    if forall e | e in events :: Carried(e) {
      FeedEvents(events);
    }
    DecodedAreCarried(text);
  }

  lemma RoundTripOne(e: Event)
    ensures Received(Bytes(e)) == [e] <==> Carried(e)
  {
    EncodeAppend([], e);
    assert [] + [e] == [e] && "" + Encode(e) == Encode(e);
    RoundTrip([e]);
    assert e in [e];
  }

  /** The two event names of the stream. */
  lemma NamesAreLines()
    ensures LineFree("events") && LineFree("tasks")
  {
  }

  /** However many bytes of a stream arrive, also if the last of them are part of a character: the client has seen
      the first of the events, whole and in order. */
  lemma CutStream(events: seq<Event>, received: seq<byte>)
    requires forall e | e in events :: Carried(e)
    requires received <= AllBytes(events)
    ensures Received(received) <= events
  {
    RoundTrip(events);
    ReceivedPrefix(received, AllBytes(events));
  }
}
