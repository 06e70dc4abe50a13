// The event half of a stream snapshot: the recent lines of `zpool events`, rendered as an escaped page fragment.
module EventPage {
  import opened Wrappers
  import opened Text
  import EventStream

  // ----- the lines -----

  /** The trimmed lines that are not blank. */
  function Cleaned(lines: seq<string>): seq<string> {
    if lines == [] then []
    else
      var front, line := Cleaned(lines[..|lines| - 1]), TrimSpace(lines[|lines| - 1]);
      if line == "" then front else front + [line]
  }

  function Shown(raw: string, limit: int): seq<string> {
    Last(Cleaned(Split(raw, '\n')), if limit <= 0 then 40 else limit)
  }

  lemma CleanedNext(lines: seq<string>, i: nat)
    requires i < |lines|
    ensures Cleaned(lines[..i + 1])
         == if TrimSpace(lines[i]) == "" then Cleaned(lines[..i]) else Cleaned(lines[..i]) + [TrimSpace(lines[i])]
  {
    assert lines[..i + 1][..i] == lines[..i];
  }

  /** `RecentEvents`; `output` is None where the backend is the fake one or the command failed. */
  method RecentEvents(output: Option<string>, limit: int) returns (r: Result<seq<string>>)
    ensures output.None? ==> r == Err
    ensures output.Some? ==>
              r == Ok(Last(Cleaned(Split(output.value, '\n')), if limit <= 0 then 40 else limit))
  {
    if output.None? {
      return Err;
    }
    var n := if limit <= 0 then 40 else limit;
    var lines := Split(output.value, '\n');
    var clean: seq<string> := [];
    var i := 0;
    while i < |lines|
      invariant 0 <= i <= |lines|
      invariant clean == Cleaned(lines[..i])
    {
      var line := TrimSpace(lines[i]);
      CleanedNext(lines, i);
      if line != "" {
        clean := clean + [line];
      }
      i := i + 1;
    }
    assert lines[..i] == lines;
    if |clean| > n {
      clean := clean[|clean| - n..];
    }
    return Ok(clean);
  }

  /** A line fit to be shown: something on one line, with no space around it. */
  predicate Fit(line: string) {
    line != "" && Trimmed(line) && '\n' !in line
  }

  predicate AllFit(lines: seq<string>) {
    forall i | 0 <= i < |lines| :: Fit(lines[i])
  }

  lemma {:induction false} CleanedAreFit(lines: seq<string>)
    requires forall i | 0 <= i < |lines| :: '\n' !in lines[i]
    ensures AllFit(Cleaned(lines))
    decreases |lines|
  {
    if lines != [] {
      CleanedAreFit(lines[..|lines| - 1]);
      TrimSpaceTrims(lines[|lines| - 1]);
      TrimKeepsOut(lines[|lines| - 1], '\n');
    }
  }

  /** Lines already clean are shown as they are: showing what was shown changes nothing. */
  lemma {:induction false} CleanedIsFixed(lines: seq<string>)
    requires AllFit(lines)
    ensures Cleaned(lines) == lines
    decreases |lines|
  {
    if lines != [] {
      var front, last := lines[..|lines| - 1], lines[|lines| - 1];
      CleanedIsFixed(front);
      assert Fit(last);
      TrimmedIsFixed(last);
      assert front + [last] == lines;
    }
  }

  /** The line is that text with a blank margin, or none, at either end. */
  ghost predicate Around(line: string, text: string) {
    exists left, right :: Blank(left) && Blank(right) && line == left + text + right
  }

  /** The lines are those texts, each with its margins, in order, and between them any number of blank lines. */
  ghost predicate Dressed(lines: seq<string>, texts: seq<string>) {
    if lines == [] then texts == []
    else
      var front, last := lines[..|lines| - 1], lines[|lines| - 1];
      || (Blank(last) && Dressed(front, texts))
      || (texts != [] && Around(last, texts[|texts| - 1]) && Dressed(front, texts[..|texts| - 1]))
  }

  lemma AroundTrims(line: string, text: string)
    requires Trimmed(text)
    ensures Around(line, text) <==> TrimSpace(line) == text
  {
    var l, r := TrimSpaceParts(line);
    if Around(line, text) {
      var left, right :| Blank(left) && Blank(right) && line == left + text + right;
      assert line == left + (text + right);
      TrimSpaceIs(left, text, right);
    }
  }

  /** What is shown of the lines is exactly every text in them, in order: nothing is lost but margins and blank lines,
      and nothing is added. */
  lemma {:induction false} CleanedIff(lines: seq<string>, texts: seq<string>)
    requires forall i | 0 <= i < |lines| :: '\n' !in lines[i]
    requires AllFit(texts)
    ensures Cleaned(lines) == texts <==> Dressed(lines, texts)
    decreases |lines|
  {
    if lines != [] {
      var front, last := lines[..|lines| - 1], lines[|lines| - 1];
      TrimsToNothing(last);
      CleanedIff(front, texts);
      if texts != [] {
        var before, text := texts[..|texts| - 1], texts[|texts| - 1];
        assert texts == before + [text] && Fit(text);
        CleanedIff(front, before);
        AroundTrims(last, text);
      }
    }
  }

  // ----- escaping -----

  /** The five characters `html.EscapeString` replaces, and their entities. */
  function EntityName(c: char): Option<string> {
    if c == '&' then Some("amp")
    else if c == '<' then Some("lt")
    else if c == '>' then Some("gt")
    else if c == '"' then Some("#34")
    else if c == '\'' then Some("#39")
    else None
  }

  function Named(name: string): Option<char> {
    if name == "amp" then Some('&')
    else if name == "lt" then Some('<')
    else if name == "gt" then Some('>')
    else if name == "#34" then Some('"')
    else if name == "#39" then Some('\'')
    else None
  }

  function Entity(c: char): string {
    match EntityName(c)
    case Some(name) => "&" + (name + [';'])
    case None => [c]
  }

  /** `html.EscapeString`. */
  function Escape(s: string): string {
    if s == "" then "" else Entity(s[0]) + Escape(s[1..])
  }

  /** How a browser reads text with these entities. */
  function Unescape(s: string): string
    decreases |s|
  {
    if s == "" then ""
    else
      var end := Find(s, ';');
      if s[0] == '&' && end < |s| && Named(s[1..end]).Some? then [Named(s[1..end]).value] + Unescape(s[end + 1..])
      else [s[0]] + Unescape(s[1..])
  }

  lemma NamesAreOneToOne(c: char)
    ensures EntityName(c).Some? ==> Named(EntityName(c).value) == Some(c) && ';' !in EntityName(c).value
    ensures EntityName(c).None? ==> c != '&'
  {
  }

  lemma UnescapeEntity(c: char, rest: string)
    ensures Unescape(Entity(c) + rest) == [c] + Unescape(rest)
  {
    NamesAreOneToOne(c);
    var s := Entity(c) + rest;
    match EntityName(c)
    case Some(name) =>
      FindIs("&" + name, ';', rest);
      assert s == ("&" + name) + [';'] + rest;
      assert s[1..|name| + 1] == name && s[|name| + 2..] == rest;
    case None =>
      assert s[0] == c && s[1..] == rest;
  }

  /** The page shows exactly the text that was escaped. */
  lemma {:induction false} EscapeRoundTrip(s: string)
    ensures Unescape(Escape(s)) == s
    decreases |s|
  {
    if s != "" {
      EscapeRoundTrip(s[1..]);
      UnescapeEntity(s[0], Escape(s[1..]));
    }
  }

  /** The four characters that end or open markup. */
  predicate Markup(c: char) {
    c == '<' || c == '>' || c == '"' || c == '\''
  }

  lemma EntityIsInert(c: char)
    ensures forall d | d in Entity(c) :: !Markup(d) && ((d == '\r' || d == '\n') ==> d == c)
    ensures c == '\r' || c == '\n' ==> c in Entity(c)
  {
  }

  /** Escaped text holds no markup, and breaks lines exactly where the text does. */
  lemma {:induction false} EscapedIsInert(s: string)
    ensures forall d | d in Escape(s) :: !Markup(d)
    ensures '\r' in Escape(s) <==> '\r' in s
    ensures '\n' in Escape(s) <==> '\n' in s
    decreases |s|
  {
    if s != "" {
      EntityIsInert(s[0]);
      EscapedIsInert(s[1..]);
      InBoth(Entity(s[0]), Escape(s[1..]));
      InBoth([s[0]], s[1..]);
      assert s == [s[0]] + s[1..];
    }
  }

  lemma InBoth(a: string, b: string)
    ensures forall c :: c in a + b <==> c in a || c in b
  {
  }

  // ----- the fragment -----

  const OPENING: string := "<pre class=\"m-0 whitespace-" + "pre-wrap font-mono text-" + "xs leading-relaxed\">"
  const CLOSING: string := "</pre>"

  /** `renderZFSEventsHTML` on the lines to show. */
  function Page(lines: seq<string>): string {
    OPENING + Escape(Join(lines, '\n')) + CLOSING
  }

  /** The lines a browser shows for a fragment. */
  function ReadPage(page: string): seq<string>
    requires |page| >= |OPENING| + |CLOSING|
  {
    var text := Unescape(page[|OPENING|..|page| - |CLOSING|]);
    if text == "" then [] else Split(text, '\n')
  }

  lemma ReadBetween(opening: string, body: string, closing: string)
    ensures (opening + body + closing)[|opening|..|opening + body + closing| - |closing|] == body
  {
  }

  lemma JoinIsEmpty(lines: seq<string>)
    requires AllFit(lines)
    ensures Join(lines, '\n') == "" <==> lines == []
  {
    if lines != [] {
      assert Fit(lines[0]);
    }
  }

  /** The fragment shows the lines and nothing else. */
  lemma PageShowsLines(lines: seq<string>)
    requires AllFit(lines)
    ensures |Page(lines)| >= |OPENING| + |CLOSING| && ReadPage(Page(lines)) == lines
  {
    var text := Join(lines, '\n');
    ReadBetween(OPENING, Escape(text), CLOSING);
    EscapeRoundTrip(text);
    JoinIsEmpty(lines);
    if lines != [] {
      SplitOfJoin(lines, '\n');
    }
  }

  predicate NoCR(lines: seq<string>) {
    forall i | 0 <= i < |lines| :: '\r' !in lines[i]
  }

  lemma {:induction false} JoinNoCR(lines: seq<string>)
    ensures '\r' !in Join(lines, '\n') <==> NoCR(lines)
    decreases |lines|
  {
    if |lines| > 1 {
      JoinNoCR(lines[1..]);
      assert lines == [lines[0]] + lines[1..];
    }
  }

  lemma FrameHasNoCR()
    ensures '\r' !in OPENING && '\r' !in CLOSING
  {
    var a: string := "<pre class=\"m-0 whitespace-";
    var b: string, c: string := "pre-wrap font-mono text-", "xs leading-relaxed\">";
    assert '\r' !in a;
    assert '\r' !in b;
    assert '\r' !in c;
    InThree('\r', a, b, c);
  }

  lemma InThree(c: char, a: string, b: string, d: string)
    ensures c in a + b + d <==> c in a || c in b || c in d
  {
  }

  lemma PageNoCR(lines: seq<string>)
    ensures '\r' !in Page(lines) <==> NoCR(lines)
  {
    FrameHasNoCR();
    InThree('\r', OPENING, Escape(Join(lines, '\n')), CLOSING);
    JoinNoCR(lines);
    EscapedIsInert(Join(lines, '\n'));
    assert Page(lines) == OPENING + Escape(Join(lines, '\n')) + CLOSING;
    assert '\r' in Page(lines) <==> '\r' in Escape(Join(lines, '\n'));
  }

  function EventsEvent(raw: string, limit: int): EventStream.Event {
    EventStream.Event("events", Page(Shown(raw, limit)))
  }

  lemma ShownAreFit(raw: string, limit: int)
    ensures AllFit(Shown(raw, limit)) && |Shown(raw, limit)| <= if limit <= 0 then 40 else limit
  {
    CleanedAreFit(Split(raw, '\n'));
  }

  lemma EventsIsCarried(raw: string, limit: int)
    ensures EventStream.Carried(EventsEvent(raw, limit)) <==> NoCR(Shown(raw, limit))
  {
    PageNoCR(Shown(raw, limit));
    EventStream.NamesAreLines();
  }

  /** From the command's output to the browser: the events event is read back, and shows the last lines of the
      output, exactly when none of them has a CR inside. */
  lemma EventsReachBrowser(raw: string, limit: int)
    ensures EventStream.Received(EventStream.Bytes(EventsEvent(raw, limit))) == [EventsEvent(raw, limit)]
       <==> NoCR(Shown(raw, limit))
    ensures |EventsEvent(raw, limit).data| >= |OPENING| + |CLOSING|
    ensures ReadPage(EventsEvent(raw, limit).data) == Shown(raw, limit)
  {
    EventStream.RoundTripOne(EventsEvent(raw, limit));
    EventsIsCarried(raw, limit);
    ShownAreFit(raw, limit);
    PageShowsLines(Shown(raw, limit));
  }
}
