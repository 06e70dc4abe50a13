// Issuing, reading and serving certificates over a secret store, as steps of any number of concurrent calls.
// `Issue` stores the certificate and the key in two Puts, `GetCertificate` reads them in two Gets, and the TLS
// manager repairs what it finds and swaps what it serves. Any store call may fail or break off.
module CertificateSteps {
  import opened Wrappers
  import opened KeyPairs

  // ----- paths -----

  datatype Part = CertFile | KeyFile

  /** A path of the store; `CertificatePath` gives its text, and PathsAreDistinct that this loses nothing. */
  datatype Slot = Slot(name: string, part: Part)

  function FileName(part: Part): string {
    match part
    case CertFile => "cert.pem"
    case KeyFile => "key.pem"
  }

  function CertificatePath(name: string, part: Part): string {
    "certificates/" + name + "/" + FileName(part)
  }

  /** Different names or parts never share a path, whatever characters the names hold. */
  lemma PathsAreDistinct(a: Slot, b: Slot)
    requires CertificatePath(a.name, a.part) == CertificatePath(b.name, b.part)
    ensures a == b
  {
    PathTail(a);
    PathTail(b);
    var s := CertificatePath(a.name, a.part);
    assert a.part == b.part;
    var n := |s| - 14 - |FileName(a.part)|;
    assert a.name == s[13..13 + n];
    assert b.name == s[13..13 + n];
  }

  lemma PathTail(a: Slot)
    ensures var s := CertificatePath(a.name, a.part);
            && |s| == 14 + |a.name| + |FileName(a.part)|
            && |s| >= 21 && (s[|s| - 8] == '/' <==> a.part.KeyFile?)
  {
  }

  // ----- calls -----

  /** What a call is for: `Issue` or `Renew`, `GetCertificate`, `NewTLSManager`, one tick of the renewal loop. */
  datatype Job = Issuing | Reading | Starting | Ticking

  /** Where a call is. `renewing` is the Renew of a tick, `again` the second read of `loadOrBootstrap`. */
  datatype Pc =
    | ReadCert(again: bool)
    | ReadKey(again: bool, cert: Blob)
    | Generate(renewing: bool)
    | PutCert(renewing: bool, issue: nat)
    | PutKey(renewing: bool, issue: nat)
    | Swap(tls: Tls)
    | Finished(result: Option<Tls>)

  datatype Call = Call(job: Job, name: string, pc: Pc)

  /** How a store call or a key generation goes; a Put that breaks off leaves junk at its path. */
  datatype Fate = Works | Fails | BreaksOff

  /** What calls share: the store, the name each issue was made for, and what handshakes are served. */
  datatype Shared = Shared(values: map<Slot, Blob>, owners: seq<string>, served: Option<Tls>)

  /** `Issue` writes under the default name when it is given none. */
  function Target(defaultName: string, name: string): string {
    if name == "" then defaultName else name
  }

  function Begun(job: Job, name: string): Call {
    match job
    case Issuing => Call(job, name, Generate(false))
    case Reading => Call(job, name, ReadCert(false))
    case Starting => Call(job, name, ReadCert(false))
    case Ticking => Call(job, name, Generate(true))
  }

  /** Where a call goes once `GetCertificate` has its answer. */
  function AfterRead(job: Job, again: bool, got: Option<Tls>): Pc {
    if job.Reading? || job.Issuing? then Finished(got)
    else if got.Some? then Swap(got.value)
    else if again then Finished(None)
    else Generate(false)
  }

  /** Where a call goes once `Issue` has its answer. */
  function AfterIssue(job: Job, renewing: bool, made: Option<Tls>): Pc {
    if job.Issuing? || job.Reading? || made.None? then Finished(made)
    else ReadCert(!renewing)
  }

  function Stored(values: map<Slot, Blob>, slot: Slot, blob: Blob, f: Fate): map<Slot, Blob> {
    match f
    case Works => values[slot := blob]
    case Fails => values
    case BreaksOff => values[slot := Junk]
  }

  function Fetched(values: map<Slot, Blob>, slot: Slot, f: Fate): Option<Blob> {
    if f == Works && slot in values then Some(values[slot]) else None
  }

  /** The pair stored under a name loads. */
  predicate Loads(values: map<Slot, Blob>, name: string) {
    && Slot(name, CertFile) in values && Slot(name, KeyFile) in values
    && Matches(values[Slot(name, CertFile)], values[Slot(name, KeyFile)])
  }

  function LoadedPair(values: map<Slot, Blob>, name: string): Tls
    requires Loads(values, name)
  {
    Tls(values[Slot(name, CertFile)], values[Slot(name, KeyFile)])
  }

  /** What reading the name gives when every call works. */
  function PairStored(values: map<Slot, Blob>, name: string): Option<Tls> {
    if Loads(values, name) then Some(LoadedPair(values, name)) else None
  }

  /** One step of a call: the shared state and the call after it. */
  function Act(s: Shared, defaultName: string, c: Call, f: Fate): (Shared, Call) {
    var target := Target(defaultName, c.name);
    match c.pc
    case ReadCert(again) =>
      var cert := Fetched(s.values, Slot(c.name, CertFile), f);
      (s, c.(pc := if cert.Some? then ReadKey(again, cert.value) else AfterRead(c.job, again, None)))
    case ReadKey(again, cert) =>
      var key := Fetched(s.values, Slot(c.name, KeyFile), f);
      var got := if key.Some? && Matches(cert, key.value) then Some(Tls(cert, key.value)) else None;
      (s, c.(pc := AfterRead(c.job, again, got)))
    case Generate(renewing) =>
      if f != Works then (s, c.(pc := AfterIssue(c.job, renewing, None)))
      else (s.(owners := s.owners + [target]), c.(pc := PutCert(renewing, |s.owners|)))
    case PutCert(renewing, i) =>
      (s.(values := Stored(s.values, Slot(target, CertFile), CertPem(i), f)),
       c.(pc := if f == Works then PutKey(renewing, i) else AfterIssue(c.job, renewing, None)))
    case PutKey(renewing, i) =>
      (s.(values := Stored(s.values, Slot(target, KeyFile), KeyPem(i), f)),
       c.(pc := AfterIssue(c.job, renewing, if f == Works then Some(Tls(CertPem(i), KeyPem(i))) else None)))
    case Swap(tls) =>
      (s.(served := Some(tls)), c.(pc := Finished(Some(tls))))
    case Finished(_) => (s, c)
  }

  // ----- any number of calls -----

  /** What is known about a name: nothing, one issue writing with no other beside it, or a whole pair in place. */
  datatype Epoch = Mixed | Alone(id: nat) | Settled(issue: nat)

  datatype System = System(shared: Shared, calls: map<nat, Call>, epochs: map<string, Epoch>)

  datatype Event = Spawn(id: nat, job: Job, name: string) | Move(id: nat, fate: Fate)

  function EpochOf(s: System, name: string): Epoch {
    if name in s.epochs then s.epochs[name] else Mixed
  }

  /** The call is between its key generation and the end of its second Put. */
  predicate Open(c: Call) {
    c.pc.PutCert? || c.pc.PutKey?
  }

  /** It is, and writes for this name. */
  predicate Writing(defaultName: string, c: Call, name: string) {
    Open(c) && Target(defaultName, c.name) == name
  }

  predicate NobodyWrites(s: System, defaultName: string, name: string) {
    forall id | id in s.calls :: !Writing(defaultName, s.calls[id], name)
  }

  /** The epoch of the name a step writes to. */
  function NextEpoch(s: System, defaultName: string, id: nat, f: Fate): Epoch
    requires id in s.calls
  {
    var c := s.calls[id];
    var name := Target(defaultName, c.name);
    match c.pc
    case Generate(_) =>
      if f != Works then EpochOf(s, name)
      else if NobodyWrites(s, defaultName, name) then Alone(id) else Mixed
    case PutCert(_, _) => if f == Works then EpochOf(s, name) else Mixed
    case PutKey(_, i) => if f == Works && EpochOf(s, name) == Alone(id) then Settled(i) else Mixed
    case _ => EpochOf(s, name)
  }

  function Next(s: System, defaultName: string, e: Event): System {
    match e
    case Spawn(id, job, name) =>
      if id in s.calls then s else s.(calls := s.calls[id := Begun(job, name)])
    case Move(id, f) =>
      if id !in s.calls then s
      else
        var (shared, c) := Act(s.shared, defaultName, s.calls[id], f);
        System(shared, s.calls[id := c],
               s.epochs[Target(defaultName, c.name) := NextEpoch(s, defaultName, id, f)])
  }

  function Run(s: System, defaultName: string, events: seq<Event>): System {
    if events == [] then s else Next(Run(s, defaultName, events[..|events| - 1]), defaultName, events[|events| - 1])
  }

  lemma RunThen(s: System, defaultName: string, events: seq<Event>, e: Event)
    ensures Run(s, defaultName, events + [e]) == Next(Run(s, defaultName, events), defaultName, e)
  {
    assert (events + [e])[..|events|] == events;
  }

  lemma {:induction false} RunConcat(s: System, defaultName: string, a: seq<Event>, b: seq<Event>)
    ensures Run(s, defaultName, a + b) == Run(Run(s, defaultName, a), defaultName, b)
    decreases |b|
  {
    if b == [] {
      assert a + b == a;
    } else {
      var front, last := b[..|b| - 1], b[|b| - 1];
      RunConcat(s, defaultName, a, front);
      RunThen(s, defaultName, a + front, last);
      assert a + b == a + front + [last];
    }
  }

  /** A start over any store contents: the issues before this run have numbers below `|owners|`. */
  ghost predicate Initial(s: System, base: nat) {
    && s.calls == map[] && s.epochs == map[] && s.shared.served == None
    && |s.shared.owners| == base
    && forall slot | slot in s.shared.values :: Old(s.shared.values[slot], base)
  }

  predicate Old(b: Blob, base: nat) {
    match b
    case CertPem(i) => i < base
    case KeyPem(i) => i < base
    case Junk => true
  }

  // ----- the invariant -----

  /** A blob found under a name is junk, from before this run, or from an issue for that very name. */
  predicate Belongs(s: Shared, base: nat, name: string, b: Blob) {
    match b
    case CertPem(i) => i < |s.owners| && (i >= base ==> s.owners[i] == name)
    case KeyPem(i) => i < |s.owners| && (i >= base ==> s.owners[i] == name)
    case Junk => true
  }

  predicate Whole(s: Shared, base: nat, name: string, t: Tls) {
    Matches(t.cert, t.key) && Belongs(s, base, name, t.cert)
  }

  predicate CallOk(s: Shared, defaultName: string, base: nat, c: Call) {
    var target := Target(defaultName, c.name);
    match c.pc
    case ReadCert(_) => !c.job.Issuing?
    case ReadKey(_, cert) => !c.job.Issuing? && Belongs(s, base, c.name, cert)
    case Generate(_) => !c.job.Reading?
    case PutCert(_, i) => !c.job.Reading? && base <= i < |s.owners| && s.owners[i] == target
    case PutKey(_, i) => !c.job.Reading? && base <= i < |s.owners| && s.owners[i] == target
    case Swap(tls) => !c.job.Issuing? && Whole(s, base, c.name, tls)
    case Finished(result) =>
      result.Some? ==> Whole(s, base, if c.job.Issuing? then target else c.name, result.value)
  }

  ghost predicate StoreOk(s: Shared, base: nat) {
    && base <= |s.owners|
    && (forall slot | slot in s.values :: Belongs(s, base, slot.name, s.values[slot]))
    && (s.served.Some? ==> Matches(s.served.value.cert, s.served.value.key))
  }

  ghost predicate IssuesDiffer(s: System) {
    forall a, b | a in s.calls && b in s.calls && a != b && Open(s.calls[a]) && Open(s.calls[b]) ::
      s.calls[a].pc.issue != s.calls[b].pc.issue
  }

  ghost predicate Safe(s: System, defaultName: string, base: nat) {
    && StoreOk(s.shared, base)
    && (forall id | id in s.calls :: CallOk(s.shared, defaultName, base, s.calls[id]))
    && IssuesDiffer(s)
  }

  lemma BelongsGrows(s: Shared, r: Shared, defaultName: string, base: nat)
    requires s.owners <= r.owners
    ensures forall name, b | Belongs(s, base, name, b) :: Belongs(r, base, name, b)
    ensures forall c | CallOk(s, defaultName, base, c) :: CallOk(r, defaultName, base, c)
  {
  }

  lemma PutSafe(s: Shared, base: nat, slot: Slot, b: Blob, f: Fate)
    requires StoreOk(s, base) && Belongs(s, base, slot.name, b)
    ensures StoreOk(s.(values := Stored(s.values, slot, b, f)), base)
  {
  }

  lemma GenerateSafe(s: Shared, base: nat, target: string)
    requires StoreOk(s, base)
    ensures StoreOk(s.(owners := s.owners + [target]), base)
  {
    BelongsGrows(s, s.(owners := s.owners + [target]), "", base);
  }

  lemma ReadSafe(s: Shared, defaultName: string, base: nat, c: Call, f: Fate)
    requires StoreOk(s, base) && CallOk(s, defaultName, base, c) && (c.pc.ReadCert? || c.pc.ReadKey?)
    ensures CallOk(s, defaultName, base, Act(s, defaultName, c, f).1)
  {
  }

  lemma ActSafe(s: Shared, defaultName: string, base: nat, c: Call, f: Fate)
    requires StoreOk(s, base) && CallOk(s, defaultName, base, c)
    ensures var (r, d) := Act(s, defaultName, c, f);
            s.owners <= r.owners && CallOk(r, defaultName, base, d) && StoreOk(r, base)
  {
    var target := Target(defaultName, c.name);
    match c.pc {
      case ReadCert(_) => ReadSafe(s, defaultName, base, c, f);
      case ReadKey(_, _) => ReadSafe(s, defaultName, base, c, f);
      case Generate(_) => GenerateSafe(s, base, target);
      case PutCert(_, i) => PutSafe(s, base, Slot(target, CertFile), CertPem(i), f);
      case PutKey(_, i) => PutSafe(s, base, Slot(target, KeyFile), KeyPem(i), f);
      case Swap(_) =>
      case Finished(_) =>
    }
  }

  /** A call keeps its number while it is open, and one that generates gets a number no call has. */
  lemma IssueOf(s: Shared, defaultName: string, c: Call, f: Fate)
    ensures var d := Act(s, defaultName, c, f).1;
            Open(d) ==> if c.pc.Generate? then d.pc.issue == |s.owners| else Open(c) && d.pc.issue == c.pc.issue
  {
  }

  lemma NextIssuesDiffer(s: System, defaultName: string, base: nat, e: Event)
    requires Safe(s, defaultName, base)
    ensures IssuesDiffer(Next(s, defaultName, e))
  {
    if e.Move? && e.id in s.calls {
      IssueOf(s.shared, defaultName, s.calls[e.id], e.fate);
      MovedIssuesDiffer(s, defaultName, base, e.id, Act(s.shared, defaultName, s.calls[e.id], e.fate).1);
    }
  }

  lemma MovedIssuesDiffer(s: System, defaultName: string, base: nat, id: nat, d: Call)
    requires Safe(s, defaultName, base) && id in s.calls
    requires Open(d) ==> if s.calls[id].pc.Generate? then d.pc.issue == |s.shared.owners|
                         else Open(s.calls[id]) && d.pc.issue == s.calls[id].pc.issue
    ensures IssuesDiffer(s.(calls := s.calls[id := d]))
  {
    var calls := s.calls[id := d];
    forall a, b | a in calls && b in calls && a != b && Open(calls[a]) && Open(calls[b])
      ensures calls[a].pc.issue != calls[b].pc.issue
    {
      assert CallOk(s.shared, defaultName, base, s.calls[a]) && CallOk(s.shared, defaultName, base, s.calls[b]);
    }
  }

  lemma NextSafe(s: System, defaultName: string, base: nat, e: Event)
    requires Safe(s, defaultName, base)
    ensures Safe(Next(s, defaultName, e), defaultName, base)
  {
    NextIssuesDiffer(s, defaultName, base, e);
    if e.Move? && e.id in s.calls {
      var r := Act(s.shared, defaultName, s.calls[e.id], e.fate).0;
      ActSafe(s.shared, defaultName, base, s.calls[e.id], e.fate);
      BelongsGrows(s.shared, r, defaultName, base);
    }
  }

  /** Every start meets the invariants, so what follows from them holds in every run. */
  lemma InitialIsOk(s: System, defaultName: string, base: nat)
    requires Initial(s, base)
    ensures Safe(s, defaultName, base) && EpochsOk(s, defaultName, base)
  {
  }

  lemma {:induction false} RunSafe(s: System, defaultName: string, base: nat, events: seq<Event>)
    requires Safe(s, defaultName, base)
    ensures Safe(Run(s, defaultName, events), defaultName, base)
    decreases |events|
  {
    if events != [] {
      RunSafe(s, defaultName, base, events[..|events| - 1]);
      NextSafe(Run(s, defaultName, events[..|events| - 1]), defaultName, base, events[|events| - 1]);
    }
  }

  // ----- readers -----

  /** In every interleaving, from any store contents, a reader ends with an error or with one whole pair of a
      single issue, and that issue is from before the run or was made for the name that was read. */
  lemma ReaderNeverMixes(s: System, defaultName: string, base: nat, events: seq<Event>, id: nat)
    requires Initial(s, base) && id in Run(s, defaultName, events).calls
    requires var c := Run(s, defaultName, events).calls[id];
             c.job.Reading? && c.pc.Finished? && c.pc.result.Some?
    ensures var c := Run(s, defaultName, events).calls[id]; var t := c.pc.result.value;
            var owners := Run(s, defaultName, events).shared.owners;
            && Matches(t.cert, t.key) && t.cert.issue < |owners|
            && (t.cert.issue >= base ==> owners[t.cert.issue] == c.name)
  {
    RunSafe(s, defaultName, base, events);
  }

  /** The event is a Put under this name. */
  predicate WritesTo(s: System, defaultName: string, e: Event, name: string) {
    e.Move? && e.id in s.calls && Writing(defaultName, s.calls[e.id], name)
  }

  predicate NoneWrites(s: System, defaultName: string, events: seq<Event>, name: string) {
    events == []
    || (NoneWrites(s, defaultName, events[..|events| - 1], name)
        && !WritesTo(Run(s, defaultName, events[..|events| - 1]), defaultName, events[|events| - 1], name))
  }

  /** Every step of this call works. */
  predicate AllWork(events: seq<Event>, id: nat) {
    forall k | 0 <= k < |events| && events[k].Move? && events[k].id == id :: events[k].fate == Works
  }

  ghost predicate SameUnder(s: Shared, r: Shared, name: string) {
    forall part :: Fetched(r.values, Slot(name, part), Works) == Fetched(s.values, Slot(name, part), Works)
  }

  /** How far a reader is that sees what `s` has stored. */
  ghost predicate ReadsFrom(s: Shared, c: Call, name: string) {
    && c.job.Reading? && c.name == name
    && match c.pc
       case ReadCert(_) => true
       case ReadKey(_, cert) => Fetched(s.values, Slot(name, CertFile), Works) == Some(cert)
       case Finished(result) => result == PairStored(s.values, name)
       case _ => false
  }

  lemma IsolatedStep(s0: Shared, s: System, defaultName: string, e: Event, name: string, id: nat)
    requires SameUnder(s0, s.shared, name) && id in s.calls && ReadsFrom(s0, s.calls[id], name)
    requires !WritesTo(s, defaultName, e, name) && (e.Move? && e.id == id ==> e.fate == Works)
    ensures var r := Next(s, defaultName, e);
            SameUnder(s0, r.shared, name) && id in r.calls && ReadsFrom(s0, r.calls[id], name)
  {
  }

  /** Whatever is issued, renewed or torn under other names, in any interleaving: what is stored under this name
      stays, and a reader of it whose reads work returns what was there when it began. */
  lemma {:induction false} NamesAreIsolated(s: System, defaultName: string, events: seq<Event>, name: string, id: nat)
    requires id in s.calls && s.calls[id] == Begun(Reading, name)
    requires NoneWrites(s, defaultName, events, name) && AllWork(events, id)
    ensures var r := Run(s, defaultName, events);
            && SameUnder(s.shared, r.shared, name)
            && id in r.calls && ReadsFrom(s.shared, r.calls[id], name)
    decreases |events|
  {
    if events != [] {
      var front := events[..|events| - 1];
      assert AllWork(front, id);
      NamesAreIsolated(s, defaultName, front, name, id);
      IsolatedStep(s.shared, Run(s, defaultName, front), defaultName, events[|events| - 1], name, id);
    }
  }

  // ----- serving -----

  /** What a TLS handshake is answered with. */
  function Handshake(s: System): Option<Tls> {
    s.shared.served
  }

  /** Once a start has succeeded, every handshake in every continuation is answered, with a matching pair,
      whatever fails at whichever step. */
  lemma {:induction false} ServingNeverStops(s: System, defaultName: string, base: nat, events: seq<Event>)
    requires Safe(s, defaultName, base) && Handshake(s).Some?
    ensures var h := Handshake(Run(s, defaultName, events));
            h.Some? && Matches(h.value.cert, h.value.key)
    decreases |events|
  {
    RunSafe(s, defaultName, base, events);
    if events != [] {
      ServingNeverStops(s, defaultName, base, events[..|events| - 1]);
    }
  }

  /** A start that has succeeded has put something in place. */
  lemma {:induction false} StartedServes(s: System, defaultName: string, events: seq<Event>, id: nat)
    requires s.calls == map[]
    requires id in Run(s, defaultName, events).calls
    requires var c := Run(s, defaultName, events).calls[id];
             (c.job.Starting? || c.job.Ticking?) && c.pc.Finished? && c.pc.result.Some?
    ensures Handshake(Run(s, defaultName, events)).Some?
    decreases |events|
  {
    if events != [] {
      var before := Run(s, defaultName, events[..|events| - 1]);
      var after := Run(s, defaultName, events);
      if id in before.calls && before.calls[id].pc.Finished? && before.calls[id] == after.calls[id] {
        StartedServes(s, defaultName, events[..|events| - 1], id);
      }
    }
  }

  /** What is served changes only where a start or a tick swaps in a pair it has just read whole; every other
      step, and every failing one, leaves it alone. */
  lemma OnlySwapChangesServing(s: System, defaultName: string, base: nat, e: Event)
    requires Safe(s, defaultName, base)
    requires Handshake(Next(s, defaultName, e)) != Handshake(s)
    ensures e.Move? && e.id in s.calls && s.calls[e.id].pc.Swap?
    ensures Handshake(Next(s, defaultName, e)) == Some(s.calls[e.id].pc.tls)
  {
  }

  /** Wherever and beside whatever a call fails to issue, it ends there with an error, and what is served stays; a tick
      has then not loaded anything. */
  lemma FailedIssueEnds(s: System, defaultName: string, id: nat, f: Fate)
    requires id in s.calls && (s.calls[id].pc.Generate? || Open(s.calls[id])) && f != Works
    ensures var r := Next(s, defaultName, Move(id, f));
            id in r.calls && r.calls[id].pc == Finished(None) && Handshake(r) == Handshake(s)
  {
  }

  // ----- which pair a reader gets -----

  ghost predicate Holds(s: Shared, name: string, part: Part, b: Blob) {
    Slot(name, part) in s.values && s.values[Slot(name, part)] == b
  }

  ghost predicate NewestFor(s: Shared, base: nat, name: string, i: nat) {
    base <= i < |s.owners| && s.owners[i] == name && forall j | i < j < |s.owners| :: s.owners[j] != name
  }

  ghost predicate EpochOk(s: System, defaultName: string, base: nat, name: string) {
    match EpochOf(s, name)
    case Mixed => true
    case Alone(id) =>
      && id in s.calls && Writing(defaultName, s.calls[id], name)
      && NewestFor(s.shared, base, name, s.calls[id].pc.issue)
      && (forall d | d in s.calls && d != id :: !Writing(defaultName, s.calls[d], name))
      && (s.calls[id].pc.PutKey? ==> Holds(s.shared, name, CertFile, CertPem(s.calls[id].pc.issue)))
    case Settled(i) =>
      && NobodyWrites(s, defaultName, name) && NewestFor(s.shared, base, name, i)
      && Holds(s.shared, name, CertFile, CertPem(i)) && Holds(s.shared, name, KeyFile, KeyPem(i))
  }

  ghost predicate EpochsOk(s: System, defaultName: string, base: nat) {
    forall name :: EpochOk(s, defaultName, base, name)
  }

  /** What is known of a name lasts while its slots stay and the call that moved does not write it. */
  lemma EpochFramed(s: System, r: System, defaultName: string, base: nat, id: nat, name: string)
    requires EpochOk(s, defaultName, base, name) && EpochOf(r, name) == EpochOf(s, name)
    requires id in s.calls && id in r.calls && r.calls == s.calls[id := r.calls[id]]
    requires !Writing(defaultName, s.calls[id], name) && !Writing(defaultName, r.calls[id], name)
    requires s.shared.owners <= r.shared.owners
    requires forall j | |s.shared.owners| <= j < |r.shared.owners| :: r.shared.owners[j] != name
    requires forall part, b | Holds(s.shared, name, part, b) :: Holds(r.shared, name, part, b)
    ensures EpochOk(r, defaultName, base, name)
  {
  }

  lemma EpochOther(s: System, defaultName: string, base: nat, e: Event, name: string)
    requires e.Move? && e.id in s.calls && Target(defaultName, s.calls[e.id].name) != name
    requires EpochOk(s, defaultName, base, name)
    ensures EpochOk(Next(s, defaultName, e), defaultName, base, name)
  {
    var r := Next(s, defaultName, e);
    EpochFramed(s, r, defaultName, base, e.id, name);
  }

  lemma EpochOnGenerate(s: System, defaultName: string, base: nat, id: nat, f: Fate)
    requires id in s.calls && s.calls[id].pc.Generate? && base <= |s.shared.owners|
    requires EpochOk(s, defaultName, base, Target(defaultName, s.calls[id].name))
    ensures EpochOk(Next(s, defaultName, Move(id, f)), defaultName, base, Target(defaultName, s.calls[id].name))
  {
  }

  lemma EpochOnPut(s: System, defaultName: string, base: nat, id: nat, f: Fate)
    requires id in s.calls && (s.calls[id].pc.PutCert? || s.calls[id].pc.PutKey?)
    requires EpochOk(s, defaultName, base, Target(defaultName, s.calls[id].name))
    ensures EpochOk(Next(s, defaultName, Move(id, f)), defaultName, base, Target(defaultName, s.calls[id].name))
  {
    assert Writing(defaultName, s.calls[id], Target(defaultName, s.calls[id].name));
  }

  lemma EpochOwn(s: System, defaultName: string, base: nat, e: Event)
    requires e.Move? && e.id in s.calls && base <= |s.shared.owners|
    requires EpochOk(s, defaultName, base, Target(defaultName, s.calls[e.id].name))
    ensures EpochOk(Next(s, defaultName, e), defaultName, base, Target(defaultName, s.calls[e.id].name))
  {
    var pc := s.calls[e.id].pc;
    if pc.Generate? {
      EpochOnGenerate(s, defaultName, base, e.id, e.fate);
    } else if pc.PutCert? || pc.PutKey? {
      EpochOnPut(s, defaultName, base, e.id, e.fate);
    } else {
      EpochOnRest(s, defaultName, base, e.id, e.fate);
    }
  }

  lemma EpochOnRest(s: System, defaultName: string, base: nat, id: nat, f: Fate)
    requires id in s.calls && !s.calls[id].pc.Generate? && !Open(s.calls[id])
    requires EpochOk(s, defaultName, base, Target(defaultName, s.calls[id].name))
    ensures EpochOk(Next(s, defaultName, Move(id, f)), defaultName, base, Target(defaultName, s.calls[id].name))
  {
    EpochFramed(s, Next(s, defaultName, Move(id, f)), defaultName, base, id, Target(defaultName, s.calls[id].name));
  }

  lemma NextEpochs(s: System, defaultName: string, base: nat, e: Event)
    requires Safe(s, defaultName, base) && EpochsOk(s, defaultName, base)
    ensures EpochsOk(Next(s, defaultName, e), defaultName, base)
  {
    forall name ensures EpochOk(Next(s, defaultName, e), defaultName, base, name) {
      assert EpochOk(s, defaultName, base, name);
      if e.Move? && e.id in s.calls {
        if Target(defaultName, s.calls[e.id].name) != name {
          EpochOther(s, defaultName, base, e, name);
        } else {
          EpochOwn(s, defaultName, base, e);
        }
      }
    }
  }

  lemma {:induction false} RunEpochs(s: System, defaultName: string, base: nat, events: seq<Event>)
    requires Safe(s, defaultName, base) && EpochsOk(s, defaultName, base)
    ensures var r := Run(s, defaultName, events);
            Safe(r, defaultName, base) && EpochsOk(r, defaultName, base)
    decreases |events|
  {
    RunSafe(s, defaultName, base, events);
    if events != [] {
      var front := events[..|events| - 1];
      RunSafe(s, defaultName, base, front);
      RunEpochs(s, defaultName, base, front);
      NextEpochs(Run(s, defaultName, front), defaultName, base, events[|events| - 1]);
    }
  }

  /** The event makes another call than `id` begin to write for this name. */
  predicate BeginsWriting(s: System, defaultName: string, e: Event, id: nat, name: string) {
    && e.Move? && e.id != id && e.fate == Works && e.id in s.calls
    && s.calls[e.id].pc.Generate? && Target(defaultName, s.calls[e.id].name) == name
  }

  /** No other call than `id` begins to write for this name along the way. */
  predicate NoOther(s: System, defaultName: string, events: seq<Event>, id: nat, name: string) {
    events == []
    || (NoOther(s, defaultName, events[..|events| - 1], id, name)
        && !BeginsWriting(Run(s, defaultName, events[..|events| - 1]), defaultName, events[|events| - 1], id, name))
  }

  /** The call reads under the name it writes to, or does not read at all. */
  predicate SeesItsOwn(c: Call, name: string) {
    c.job.Issuing? || c.name == name
  }

  function Pair(i: nat): Tls {
    Tls(CertPem(i), KeyPem(i))
  }

  /** How far a call is that issues for a name with no other beside it: an `Issue`, a start or a tick. Its own issue
      has number `since` or above. */
  ghost predicate IssueProgress(s: System, defaultName: string, id: nat, name: string, since: nat) {
    && id in s.calls && !s.calls[id].job.Reading? && Target(defaultName, s.calls[id].name) == name
    && since <= |s.shared.owners|
    && var c := s.calls[id];
       if c.pc.Generate? then NobodyWrites(s, defaultName, name)
       else if Open(c) then EpochOf(s, name) == Alone(id) && since <= c.pc.issue
       else
         && EpochOf(s, name).Settled? && since <= EpochOf(s, name).issue
         && (SeesItsOwn(c, name) ==> HasOwn(c, EpochOf(s, name).issue))
  }

  /** The newest pair made for the name is in place whole, and it was made by issue `since` or a later one. */
  ghost predicate NewestInPlace(s: Shared, base: nat, name: string, i: nat, since: nat) {
    since <= i && NewestFor(s, base, name, i) && PairStored(s.values, name) == Some(Pair(i))
  }

  /** What a call has read or returned so far is the pair of this issue. */
  predicate HasOwn(c: Call, i: nat) {
    match c.pc
    case ReadKey(_, cert) => !c.job.Issuing? && cert == CertPem(i)
    case Swap(tls) => !c.job.Issuing? && tls == Pair(i)
    case Finished(result) => result == Some(Pair(i))
    case _ => !c.job.Issuing?
  }

  lemma IssueStep(s: System, defaultName: string, base: nat, id: nat, name: string, since: nat, e: Event)
    requires EpochOk(s, defaultName, base, name) && IssueProgress(s, defaultName, id, name, since)
    requires !BeginsWriting(s, defaultName, e, id, name)
    requires e.Move? && e.id == id ==> e.fate == Works
    ensures IssueProgress(Next(s, defaultName, e), defaultName, id, name, since)
  {
    if e.Move? && e.id == id {
      OwnStep(s, defaultName, base, id, name, since);
    } else if e.Move? && e.id in s.calls {
      OtherStep(s, defaultName, base, id, name, since, e);
    }
  }

  lemma OwnStep(s: System, defaultName: string, base: nat, id: nat, name: string, since: nat)
    requires EpochOk(s, defaultName, base, name) && IssueProgress(s, defaultName, id, name, since)
    ensures IssueProgress(Next(s, defaultName, Move(id, Works)), defaultName, id, name, since)
  {
  }

  lemma OtherStep(s: System, defaultName: string, base: nat, id: nat, name: string, since: nat, e: Event)
    requires EpochOk(s, defaultName, base, name) && IssueProgress(s, defaultName, id, name, since)
    requires !BeginsWriting(s, defaultName, e, id, name)
    requires e.Move? && e.id in s.calls && e.id != id
    ensures IssueProgress(Next(s, defaultName, e), defaultName, id, name, since)
  {
    assert !Writing(defaultName, s.calls[e.id], name);
  }

  /** An `Issue`, or the issuing part of a start or a tick, that begins with nobody writing its name, whose steps
      work and during which no other issue of the name begins, leaves its own pair in place, whatever was stored
      before and whatever else runs; it returns or serves that pair too if it reads under the name it writes. */
  lemma {:induction false} SoloIssueSettles(s: System, defaultName: string, base: nat, events: seq<Event>, id: nat,
                                            name: string, since: nat)
    requires Safe(s, defaultName, base) && EpochsOk(s, defaultName, base)
    requires IssueProgress(s, defaultName, id, name, since)
    requires AllWork(events, id) && NoOther(s, defaultName, events, id, name)
    ensures var r := Run(s, defaultName, events);
            && Safe(r, defaultName, base) && EpochsOk(r, defaultName, base)
            && IssueProgress(r, defaultName, id, name, since)
            && (!r.calls[id].pc.Generate? && !Open(r.calls[id]) ==>
                  && EpochOf(r, name).Settled?
                  && NewestInPlace(r.shared, base, name, EpochOf(r, name).issue, since))
    decreases |events|
  {
    RunEpochs(s, defaultName, base, events);
    if events != [] {
      var front := events[..|events| - 1];
      assert AllWork(front, id);
      SoloIssueSettles(s, defaultName, base, front, id, name, since);
      assert EpochOk(Run(s, defaultName, front), defaultName, base, name);
      IssueStep(Run(s, defaultName, front), defaultName, base, id, name, since, events[|events| - 1]);
    }
    SettledIsStored(Run(s, defaultName, events), defaultName, base, name);
  }

  ghost predicate ReadProgress(s: System, id: nat, name: string, i: nat) {
    && id in s.calls && s.calls[id].job.Reading? && s.calls[id].name == name
    && EpochOf(s, name) == Settled(i)
    && match s.calls[id].pc
       case ReadCert(_) => true
       case ReadKey(_, cert) => cert == CertPem(i)
       case Finished(result) => result == Some(Pair(i))
       case _ => false
  }

  lemma ReadStep(s: System, defaultName: string, base: nat, id: nat, name: string, i: nat, e: Event)
    requires EpochOk(s, defaultName, base, name) && ReadProgress(s, id, name, i)
    requires !BeginsWriting(s, defaultName, e, id, name)
    requires e.Move? && e.id == id ==> e.fate == Works
    ensures ReadProgress(Next(s, defaultName, e), id, name, i)
  {
    if e.Move? && e.id in s.calls {
      assert !Writing(defaultName, s.calls[e.id], name);
    }
  }

  /** A reader that runs while no issue of its name is in flight gets the pair in place, which is the newest one
      ever made for the name. */
  lemma {:induction false} ReaderGetsLatest(s: System, defaultName: string, base: nat, events: seq<Event>, id: nat,
                                            name: string, i: nat)
    requires Safe(s, defaultName, base) && EpochsOk(s, defaultName, base)
    requires ReadProgress(s, id, name, i)
    requires AllWork(events, id) && NoOther(s, defaultName, events, id, name)
    ensures var r := Run(s, defaultName, events);
            && Safe(r, defaultName, base) && EpochsOk(r, defaultName, base)
            && ReadProgress(r, id, name, i) && NewestInPlace(r.shared, base, name, i, base)
    decreases |events|
  {
    RunEpochs(s, defaultName, base, events);
    if events != [] {
      var front := events[..|events| - 1];
      assert AllWork(front, id);
      ReaderGetsLatest(s, defaultName, base, front, id, name, i);
      assert EpochOk(Run(s, defaultName, front), defaultName, base, name);
      ReadStep(Run(s, defaultName, front), defaultName, base, id, name, i, events[|events| - 1]);
    }
    SettledIsStored(Run(s, defaultName, events), defaultName, base, name);
  }

  /** Any run; then a call that issues, with nothing overlapping and its steps working; then a reader beside which
      nothing is issued for the name: the pair in place was made during the call, the reader returns it, and no newer
      one was ever made for the name. */
  lemma IssueThenRead(s0: System, defaultName: string, base: nat, before: seq<Event>,
                      writing: seq<Event>, reading: seq<Event>, a: nat, r: nat, name: string) returns (i: nat)
    requires Initial(s0, base)
    requires var s := Run(s0, defaultName, before);
             a in s.calls && s.calls[a].pc.Generate? && Target(defaultName, s.calls[a].name) == name
             && NobodyWrites(s, defaultName, name)
    requires var s := Run(s0, defaultName, before);
             AllWork(writing, a) && NoOther(s, defaultName, writing, a, name)
    requires var done := Run(Run(s0, defaultName, before), defaultName, writing);
             a in done.calls && done.calls[a].pc.Finished? && r !in done.calls
    requires var done := Run(Run(s0, defaultName, before), defaultName, writing);
             var start := Next(done, defaultName, Spawn(r, Reading, name));
             AllWork(reading, r) && NoOther(start, defaultName, reading, r, name)
    ensures var done := Run(Run(s0, defaultName, before), defaultName, writing);
            var end := Run(Next(done, defaultName, Spawn(r, Reading, name)), defaultName, reading);
            && NewestInPlace(done.shared, base, name, i, |Run(s0, defaultName, before).shared.owners|)
            && NewestInPlace(end.shared, base, name, i, base) && r in end.calls
            && (SeesItsOwn(done.calls[a], name) ==> done.calls[a].pc.result == Some(Pair(i)))
            && (end.calls[r].pc.Finished? ==> end.calls[r].pc.result == Some(Pair(i)))
  {
    InitialIsOk(s0, defaultName, base);
    RunEpochs(s0, defaultName, base, before);
    var s := Run(s0, defaultName, before);
    assert CallOk(s.shared, defaultName, base, s.calls[a]);
    SoloIssueSettles(s, defaultName, base, writing, a, name, |s.shared.owners|);
    var done := Run(s, defaultName, writing);
    i := EpochOf(done, name).issue;
    NewReaderGetsLatest(done, defaultName, base, reading, r, name);
  }

  /** A reader that begins while a pair is settled. */
  lemma NewReaderGetsLatest(s: System, defaultName: string, base: nat, reading: seq<Event>, r: nat, name: string)
    requires Safe(s, defaultName, base) && EpochsOk(s, defaultName, base) && EpochOf(s, name).Settled? && r !in s.calls
    requires AllWork(reading, r)
    requires NoOther(Next(s, defaultName, Spawn(r, Reading, name)), defaultName, reading, r, name)
    ensures var end := Run(Next(s, defaultName, Spawn(r, Reading, name)), defaultName, reading);
            var i := EpochOf(s, name).issue;
            && NewestInPlace(end.shared, base, name, i, base) && r in end.calls
            && (end.calls[r].pc.Finished? ==> end.calls[r].pc.result == Some(Pair(i)))
  {
    var e := Spawn(r, Reading, name);
    NextSafe(s, defaultName, base, e);
    NextEpochs(s, defaultName, base, e);
    ReaderGetsLatest(Next(s, defaultName, e), defaultName, base, reading, r, name, EpochOf(s, name).issue);
  }

  // ----- a start among other calls -----

  /** How far a start is that began over the store `s0` and reads under the name it writes to: it reads what `s0`
      had, and issues when that did not load. */
  ghost predicate StartProgress(s0: Shared, s: System, defaultName: string, id: nat, name: string) {
    && id in s.calls && s.calls[id].job.Starting? && s.calls[id].name == name
    && if Loads(s0.values, name) || FirstRead(s.calls[id]) then
         NobodyWrites(s, defaultName, name) && SameUnder(s0, s.shared, name) && |s0.owners| <= |s.shared.owners|
         && match s.calls[id].pc
            case ReadCert(again) => !again
            case ReadKey(again, cert) => !again && Fetched(s0.values, Slot(name, CertFile), Works) == Some(cert)
            case Swap(tls) => PairStored(s0.values, name) == Some(tls)
            case Finished(result) => result == PairStored(s0.values, name)
            case _ => false
       else
         && IssueProgress(s, defaultName, id, name, |s0.owners|)
         && (Open(s.calls[id]) || s.calls[id].pc.Generate? ==> !s.calls[id].pc.renewing)
  }

  predicate FirstRead(c: Call) {
    (c.pc.ReadCert? || c.pc.ReadKey?) && !c.pc.again
  }

  /** The reading part of a start. */
  lemma StartReads(s0: Shared, s: System, defaultName: string, id: nat, name: string, e: Event)
    requires StartProgress(s0, s, defaultName, id, name) && (Loads(s0.values, name) || FirstRead(s.calls[id]))
    requires Target(defaultName, name) == name && !BeginsWriting(s, defaultName, e, id, name)
    requires e.Move? && e.id == id ==> e.fate == Works
    ensures StartProgress(s0, Next(s, defaultName, e), defaultName, id, name)
  {
    if e.Move? && e.id == id {
      StartReadsOwn(s0, s, defaultName, id, name);
    } else if e.Move? && e.id in s.calls {
      StartReadsOther(s0, s, defaultName, id, name, e);
    }
  }

  lemma StartReadsOwn(s0: Shared, s: System, defaultName: string, id: nat, name: string)
    requires StartProgress(s0, s, defaultName, id, name) && (Loads(s0.values, name) || FirstRead(s.calls[id]))
    requires Target(defaultName, name) == name
    ensures StartProgress(s0, Next(s, defaultName, Move(id, Works)), defaultName, id, name)
  {
    assert Fetched(s0.values, Slot(name, CertFile), Works) == Fetched(s.shared.values, Slot(name, CertFile), Works);
    assert Fetched(s0.values, Slot(name, KeyFile), Works) == Fetched(s.shared.values, Slot(name, KeyFile), Works);
  }

  lemma StartReadsOther(s0: Shared, s: System, defaultName: string, id: nat, name: string, e: Event)
    requires StartProgress(s0, s, defaultName, id, name) && (Loads(s0.values, name) || FirstRead(s.calls[id]))
    requires !BeginsWriting(s, defaultName, e, id, name) && e.Move? && e.id in s.calls && e.id != id
    ensures StartProgress(s0, Next(s, defaultName, e), defaultName, id, name)
  {
    QuietStep(s, defaultName, e, id, name);
    assert Next(s, defaultName, e).calls[id] == s.calls[id];
  }

  /** While nobody writes the name, a step that does not begin to write it leaves its slots. */
  lemma QuietStep(s: System, defaultName: string, e: Event, id: nat, name: string)
    requires NobodyWrites(s, defaultName, name) && !BeginsWriting(s, defaultName, e, id, name)
    requires e.Move? && e.id in s.calls && e.id != id
    ensures var r := Next(s, defaultName, e);
            && NobodyWrites(r, defaultName, name) && SameUnder(s.shared, r.shared, name)
            && |s.shared.owners| <= |r.shared.owners|
  {
    assert !Writing(defaultName, s.calls[e.id], name);
  }

  lemma StartStep(s0: Shared, s: System, defaultName: string, base: nat, id: nat, name: string, e: Event)
    requires EpochOk(s, defaultName, base, name) && StartProgress(s0, s, defaultName, id, name)
    requires Target(defaultName, name) == name && !BeginsWriting(s, defaultName, e, id, name)
    requires e.Move? && e.id == id ==> e.fate == Works
    ensures StartProgress(s0, Next(s, defaultName, e), defaultName, id, name)
  {
    if Loads(s0.values, name) || FirstRead(s.calls[id]) {
      StartReads(s0, s, defaultName, id, name, e);
    } else {
      IssueStep(s, defaultName, base, id, name, |s0.owners|, e);
      PastFirstRead(s, defaultName, id, name, |s0.owners|, e);
    }
  }

  /** A start that has come to issue never reads for the first time again. */
  lemma PastFirstRead(s: System, defaultName: string, id: nat, name: string, since: nat, e: Event)
    requires IssueProgress(s, defaultName, id, name, since) && s.calls[id].job.Starting?
    requires !FirstRead(s.calls[id]) && (Open(s.calls[id]) || s.calls[id].pc.Generate? ==> !s.calls[id].pc.renewing)
    ensures var c := Next(s, defaultName, e).calls[id];
            !FirstRead(c) && (Open(c) || c.pc.Generate? ==> !c.pc.renewing)
  {
  }

  lemma {:induction false} StartProgresses(s: System, defaultName: string, base: nat, events: seq<Event>, id: nat,
                                           name: string)
    requires Safe(s, defaultName, base) && EpochsOk(s, defaultName, base)
    requires id in s.calls && s.calls[id] == Begun(Starting, name) && Target(defaultName, name) == name
    requires NobodyWrites(s, defaultName, name)
    requires AllWork(events, id) && NoOther(s, defaultName, events, id, name)
    ensures StartProgress(s.shared, Run(s, defaultName, events), defaultName, id, name)
    decreases |events|
  {
    if events != [] {
      var front := events[..|events| - 1];
      assert AllWork(front, id);
      StartProgresses(s, defaultName, base, front, id, name);
      RunEpochs(s, defaultName, base, front);
      assert EpochOk(Run(s, defaultName, front), defaultName, base, name);
      StartStep(s.shared, Run(s, defaultName, front), defaultName, base, id, name, events[|events| - 1]);
    }
  }

  /** A start that reads under the name it writes to, whose steps work and which begins with nobody writing that name
      and none beginning during it, recovers in every interleaving, from any store contents: it can only finish with
      the pair that was stored if that loads, and otherwise with the pair it made, which is then in place. */
  lemma StartRecovers(s: System, defaultName: string, base: nat, events: seq<Event>, id: nat, name: string)
    requires Safe(s, defaultName, base) && EpochsOk(s, defaultName, base)
    requires id in s.calls && s.calls[id] == Begun(Starting, name) && Target(defaultName, name) == name
    requires NobodyWrites(s, defaultName, name)
    requires AllWork(events, id) && NoOther(s, defaultName, events, id, name)
    ensures var r := Run(s, defaultName, events);
            && id in r.calls && r.calls[id].job.Starting? && r.calls[id].name == name
            && (r.calls[id].pc.Finished? ==>
                  if Loads(s.shared.values, name) then
                    r.calls[id].pc.result == Some(LoadedPair(s.shared.values, name))
                    && PairStored(r.shared.values, name) == PairStored(s.shared.values, name)
                  else
                    exists i :: NewestInPlace(r.shared, base, name, i, |s.shared.owners|)
                                && r.calls[id].pc.result == Some(Pair(i)))
  {
    var r := Run(s, defaultName, events);
    StartProgresses(s, defaultName, base, events, id, name);
    RunEpochs(s, defaultName, base, events);
    SettledIsStored(r, defaultName, base, name);
    if r.calls[id].pc.Finished? {
      if Loads(s.shared.values, name) {
        SameLoads(s.shared, r.shared, name);
      } else {
        assert NewestInPlace(r.shared, base, name, EpochOf(r, name).issue, |s.shared.owners|);
      }
    }
  }

  lemma SameLoads(s: Shared, r: Shared, name: string)
    requires SameUnder(s, r, name)
    ensures PairStored(r.values, name) == PairStored(s.values, name)
  {
    assert Fetched(r.values, Slot(name, CertFile), Works) == Fetched(s.values, Slot(name, CertFile), Works);
    assert Fetched(r.values, Slot(name, KeyFile), Works) == Fetched(s.values, Slot(name, KeyFile), Works);
  }

  /** How far a start under the empty name is while nothing that loads is stored there. */
  ghost predicate NamelessProgress(s0: Shared, s: System, id: nat) {
    && SameUnder(s0, s.shared, "") && id in s.calls && s.calls[id].job.Starting? && s.calls[id].name == ""
    && match s.calls[id].pc
       case ReadKey(_, cert) => Fetched(s0.values, Slot("", CertFile), Works) == Some(cert)
       case Swap(_) => false
       case Finished(result) => result == None
       case _ => true
  }

  /** A start with no name and a default name is lost in every interleaving, even if all its steps work, unless a pair
      that loads is already stored under the empty name: what it issues goes elsewhere, as does all else. */
  lemma {:induction false} NamelessNeverStarts(s: System, defaultName: string, events: seq<Event>, id: nat)
    requires id in s.calls && s.calls[id] == Begun(Starting, "") && defaultName != "" && !Loads(s.shared.values, "")
    ensures var r := Run(s, defaultName, events);
            && NamelessProgress(s.shared, r, id)
            && (r.calls[id].pc.Finished? ==> r.calls[id].pc.result == None)
    decreases |events|
  {
    if events != [] {
      var front := events[..|events| - 1];
      NamelessNeverStarts(s, defaultName, front, id);
      NamelessStep(s.shared, Run(s, defaultName, front), defaultName, id, events[|events| - 1]);
    }
  }

  lemma NamelessStep(s0: Shared, s: System, defaultName: string, id: nat, e: Event)
    requires NamelessProgress(s0, s, id) && defaultName != "" && !Loads(s0.values, "")
    ensures NamelessProgress(s0, Next(s, defaultName, e), id)
  {
    NothingWrittenNameless(s, defaultName, e);
    assert Fetched(s0.values, Slot("", CertFile), Works) == Fetched(s.shared.values, Slot("", CertFile), Works);
    assert Fetched(s0.values, Slot("", KeyFile), Works) == Fetched(s.shared.values, Slot("", KeyFile), Works);
  }

  lemma NothingWrittenNameless(s: System, defaultName: string, e: Event)
    requires defaultName != ""
    ensures SameUnder(s.shared, Next(s, defaultName, e).shared, "")
  {
  }

  // ----- runs without overlap -----

  /** The event keeps order for a name: it begins an issue only while nobody writes, and breaks off no Put. */
  predicate InOrder(s: System, defaultName: string, e: Event, name: string) {
    e.Move? && e.id in s.calls && Target(defaultName, s.calls[e.id].name) == name ==>
      && (s.calls[e.id].pc.Generate? && e.fate == Works ==> NobodyWrites(s, defaultName, name))
      && (Open(s.calls[e.id]) ==> e.fate == Works)
  }

  predicate Orderly(s: System, defaultName: string, events: seq<Event>, name: string) {
    events == []
    || (Orderly(s, defaultName, events[..|events| - 1], name)
        && InOrder(Run(s, defaultName, events[..|events| - 1]), defaultName, events[|events| - 1], name))
  }

  /** While nothing is known of the name, nothing was made for it. */
  ghost predicate KnownOnceMade(s: System, defaultName: string, base: nat, name: string) {
    EpochOf(s, name) == Mixed ==>
      NobodyWrites(s, defaultName, name) && forall j | base <= j < |s.shared.owners| :: s.shared.owners[j] != name
  }

  lemma OrderlyStep(s: System, defaultName: string, base: nat, e: Event, name: string)
    requires EpochOk(s, defaultName, base, name) && KnownOnceMade(s, defaultName, base, name)
    requires InOrder(s, defaultName, e, name)
    ensures KnownOnceMade(Next(s, defaultName, e), defaultName, base, name)
  {
  }

  /** In a run from any store contents in which the issues of a name do not overlap and their Puts work, whenever
      nobody writes for the name and one was made, the newest pair made for it is in place whole. */
  lemma {:induction false} OrderNeverTears(s: System, defaultName: string, base: nat, events: seq<Event>, name: string)
    requires Initial(s, base) && Orderly(s, defaultName, events, name)
    ensures KnownOnceMade(Run(s, defaultName, events), defaultName, base, name)
    ensures var r := Run(s, defaultName, events);
            && NobodyWrites(r, defaultName, name)
            && (exists j | base <= j < |r.shared.owners| :: r.shared.owners[j] == name) ==>
              exists i :: NewestFor(r.shared, base, name, i) && PairStored(r.shared.values, name) == Some(Pair(i))
    decreases |events|
  {
    InitialIsOk(s, defaultName, base);
    RunEpochs(s, defaultName, base, events);
    if events != [] {
      var front := events[..|events| - 1];
      OrderNeverTears(s, defaultName, base, front, name);
      RunEpochs(s, defaultName, base, front);
      assert EpochOk(Run(s, defaultName, front), defaultName, base, name);
      OrderlyStep(Run(s, defaultName, front), defaultName, base, events[|events| - 1], name);
    }
    SettledIsStored(Run(s, defaultName, events), defaultName, base, name);
  }

  /** After any such run that made a pair for the name, once nobody writes it, a reader beside which nothing is issued
      for the name returns the newest pair made for it. */
  lemma OrderThenRead(s: System, defaultName: string, base: nat, events: seq<Event>, reading: seq<Event>, r: nat,
                      name: string) returns (i: nat)
    requires Initial(s, base) && Orderly(s, defaultName, events, name)
    requires var done := Run(s, defaultName, events);
             && NobodyWrites(done, defaultName, name) && r !in done.calls
             && exists j | base <= j < |done.shared.owners| :: done.shared.owners[j] == name
    requires AllWork(reading, r)
    requires var done := Run(s, defaultName, events);
             NoOther(Next(done, defaultName, Spawn(r, Reading, name)), defaultName, reading, r, name)
    ensures var done := Run(s, defaultName, events);
            var end := Run(Next(done, defaultName, Spawn(r, Reading, name)), defaultName, reading);
            && NewestInPlace(end.shared, base, name, i, base) && r in end.calls
            && (end.calls[r].pc.Finished? ==> end.calls[r].pc.result == Some(Pair(i)))
  {
    var done := Run(s, defaultName, events);
    OrderNeverTears(s, defaultName, base, events, name);
    InitialIsOk(s, defaultName, base);
    RunEpochs(s, defaultName, base, events);
    SettledIsStored(done, defaultName, base, name);
    i := EpochOf(done, name).issue;
    NewReaderGetsLatest(done, defaultName, base, reading, r, name);
  }

  lemma SettledIsStored(s: System, defaultName: string, base: nat, name: string)
    requires EpochsOk(s, defaultName, base)
    ensures EpochOf(s, name).Settled? ==>
              NewestFor(s.shared, base, name, EpochOf(s, name).issue)
              && PairStored(s.shared.values, name) == Some(Pair(EpochOf(s, name).issue))
    ensures EpochOf(s, name).Alone? ==> !NobodyWrites(s, defaultName, name)
  {
    assert EpochOk(s, defaultName, base, name);
  }

  // ----- what overlap does -----

  /** Where an open call is once its Puts have worked: its issue has succeeded. */
  function Made(c: Call): Call
    requires Open(c)
  {
    c.(pc := AfterIssue(c.job, c.pc.renewing, Some(Pair(c.pc.issue))))
  }

  /** Only moves of the two calls, and all of them work. */
  predicate TheirMoves(events: seq<Event>, a: nat, b: nat) {
    forall k | 0 <= k < |events| :: events[k] == Move(a, Works) || events[k] == Move(b, Works)
  }

  /** Both issues have succeeded, and what they have left does not load. */
  ghost predicate Torn(s: System, r: System, a: nat, b: nat, name: string) {
    && a in s.calls && b in s.calls && Open(s.calls[a]) && Open(s.calls[b])
    && a in r.calls && r.calls[a] == Made(s.calls[a])
    && b in r.calls && r.calls[b] == Made(s.calls[b])
    && !Loads(r.shared.values, name)
  }

  lemma TearBothAtKey(s: System, defaultName: string, a: nat, b: nat, name: string) returns (events: seq<Event>)
    requires IssuesDiffer(s) && a in s.calls && b in s.calls && a != b
    requires Writing(defaultName, s.calls[a], name) && Writing(defaultName, s.calls[b], name)
    requires s.calls[a].pc.PutKey? && s.calls[b].pc.PutKey?
    ensures TheirMoves(events, a, b) && Torn(s, Run(s, defaultName, events), a, b, name)
  {
    var mine := Holds(s.shared, name, CertFile, CertPem(s.calls[a].pc.issue));
    var first, last := if mine then a else b, if mine then b else a;
    RunThen(s, defaultName, [], Move(first, Works));
    RunThen(s, defaultName, [Move(first, Works)], Move(last, Works));
    events := [Move(first, Works)] + [Move(last, Works)];
  }

  /** One call has yet to put its certificate: it does, puts its key, and the other's key comes last. */
  lemma TearOneAtCert(s: System, defaultName: string, a: nat, b: nat, name: string) returns (events: seq<Event>)
    requires IssuesDiffer(s) && a in s.calls && b in s.calls && a != b
    requires Writing(defaultName, s.calls[a], name) && Writing(defaultName, s.calls[b], name)
    requires s.calls[a].pc.PutKey? && s.calls[b].pc.PutCert?
    ensures TheirMoves(events, a, b) && Torn(s, Run(s, defaultName, events), a, b, name)
  {
    RunThen(s, defaultName, [], Move(b, Works));
    RunThen(s, defaultName, [Move(b, Works)], Move(b, Works));
    RunThen(s, defaultName, [Move(b, Works)] + [Move(b, Works)], Move(a, Works));
    events := [Move(b, Works)] + [Move(b, Works)] + [Move(a, Works)];
  }

  /** A certificate is put, and nothing else of the calls changes. */
  lemma PutsCert(s: System, defaultName: string, a: nat)
    requires a in s.calls && s.calls[a].pc.PutCert?
    ensures var pc := s.calls[a].pc;
            Next(s, defaultName, Move(a, Works)).calls == s.calls[a := s.calls[a].(pc := PutKey(pc.renewing, pc.issue))]
  {
  }

  lemma TearBothAtCert(s: System, defaultName: string, a: nat, b: nat, name: string) returns (events: seq<Event>)
    requires IssuesDiffer(s) && a in s.calls && b in s.calls && a != b
    requires Writing(defaultName, s.calls[a], name) && Writing(defaultName, s.calls[b], name)
    requires s.calls[a].pc.PutCert? && s.calls[b].pc.PutCert?
    ensures TheirMoves(events, a, b) && Torn(s, Run(s, defaultName, events), a, b, name)
  {
    var s1 := Next(s, defaultName, Move(a, Works));
    PutsCert(s, defaultName, a);
    var rest := TearOneAtCert(s1, defaultName, a, b, name);
    RunThen(s, defaultName, [], Move(a, Works));
    assert [] + [Move(a, Works)] == [Move(a, Works)];
    RunConcat(s, defaultName, [Move(a, Works)], rest);
    events := [Move(a, Works)] + rest;
  }

  /** Overlap is what breaks it: in every reachable system, when two calls of one name are between their key
      generation and their last Put, they can both go on to succeed and leave a pair that does not load. */
  lemma OverlapCanTear(s: System, defaultName: string, base: nat, a: nat, b: nat, name: string)
    returns (events: seq<Event>)
    requires Safe(s, defaultName, base) && a in s.calls && b in s.calls && a != b
    requires Writing(defaultName, s.calls[a], name) && Writing(defaultName, s.calls[b], name)
    ensures TheirMoves(events, a, b) && Torn(s, Run(s, defaultName, events), a, b, name)
  {
    if s.calls[a].pc.PutKey? && s.calls[b].pc.PutKey? {
      events := TearBothAtKey(s, defaultName, a, b, name);
    } else if s.calls[a].pc.PutKey? {
      events := TearOneAtCert(s, defaultName, a, b, name);
    } else if s.calls[b].pc.PutKey? {
      events := TearOneAtCert(s, defaultName, b, a, name);
    } else {
      events := TearBothAtCert(s, defaultName, a, b, name);
    }
  }

  /** A reader that runs alone returns what loads, and an error exactly when nothing does: a torn pair stays torn. */
  lemma LoneRead(s: System, defaultName: string, id: nat, name: string)
    requires id !in s.calls
    ensures var r := Run(s, defaultName, [Spawn(id, Reading, name)] + [Move(id, Works)] + [Move(id, Works)]);
            && id in r.calls && r.calls[id].pc == Finished(PairStored(s.shared.values, name))
            && r.shared.values == s.shared.values
  {
    var e := Move(id, Works);
    RunThen(s, defaultName, [], Spawn(id, Reading, name));
    RunThen(s, defaultName, [Spawn(id, Reading, name)], e);
    RunThen(s, defaultName, [Spawn(id, Reading, name)] + [e], e);
    assert [] + [Spawn(id, Reading, name)] == [Spawn(id, Reading, name)];
  }

  /** Two issues of any name are enough, from any store contents. */
  lemma OverlapTears(s: System, defaultName: string, base: nat, name: string) returns (events: seq<Event>)
    requires Initial(s, base) && name != ""
    ensures var r := Run(s, defaultName, events);
            && 0 in r.calls && r.calls[0].job.Issuing? && r.calls[0].pc.Finished? && r.calls[0].pc.result.Some?
            && 1 in r.calls && r.calls[1].job.Issuing? && r.calls[1].pc.Finished? && r.calls[1].pc.result.Some?
            && !Loads(r.shared.values, name)
  {
    var e0, e1, e2, e3 := Spawn(0, Issuing, name), Spawn(1, Issuing, name), Move(0, Works), Move(1, Works);
    RunThen(s, defaultName, [], e0);
    RunThen(s, defaultName, [e0], e1);
    RunThen(s, defaultName, [e0] + [e1], e2);
    RunThen(s, defaultName, [e0] + [e1] + [e2], e3);
    var open := [e0] + [e1] + [e2] + [e3];
    InitialIsOk(s, defaultName, base);
    RunSafe(s, defaultName, base, open);
    var rest := OverlapCanTear(Run(s, defaultName, open), defaultName, base, 0, 1, name);
    events := open + rest;
    RunConcat(s, defaultName, open, rest);
  }
}
