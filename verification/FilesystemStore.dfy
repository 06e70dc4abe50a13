// The certificate store that serves files from a directory: `reload` reads three files, checks them, and then sets
// three fields under the write lock. The files are read before the lock is taken, so reloads can overlap each
// other and a change of the directory.
module FilesystemStore {
  import opened Wrappers
  import opened KeyPairs

  /** The text of a CA bundle: roots that parse, or nothing usable. */
  datatype Roots = Roots(id: nat) | NoRoots

  /** The directory; None is a file that cannot be read. `version` counts the operator's changes. */
  datatype Directory = Directory(version: nat, crt: Option<Blob>, key: Option<Blob>, ca: Option<Roots>)

  // ----- as code -----

  class Store {
    var server: Option<Tls>
    var caPool: Option<Roots>
    var leaf: Option<Blob>

    ghost predicate Valid()
      reads this
    {
      && (server.Some? <==> caPool.Some?) && (server.Some? <==> leaf.Some?)
      && (server.Some? ==> Matches(server.value.cert, server.value.key) && leaf == Some(server.value.cert))
    }

    constructor ()
      ensures Valid() && server == None
    {
      server, caPool, leaf := None, None, None;
    }

    /** `reload`, given what reading the three files gave. All three fields are replaced, or none. */
    method Reload(crt: Option<Blob>, key: Option<Blob>, ca: Option<Roots>) returns (ok: bool)
      requires Valid()
      modifies this
      ensures Valid()
      ensures ok <==> crt.Some? && key.Some? && ca.Some? && Matches(crt.value, key.value) && ca.value.Roots?
      ensures ok ==> server == Some(Tls(crt.value, key.value)) && caPool == ca && leaf == crt
      ensures !ok ==> server == old(server) && caPool == old(caPool) && leaf == old(leaf)
    {
      if crt.None? || key.None? || ca.None? {
        return false;
      }
      if !Matches(crt.value, key.value) || ca.value.NoRoots? {
        return false;
      }
      server := Some(Tls(crt.value, key.value));
      caPool := ca;
      leaf := crt;
      return true;
    }

    method GetCertificate(name: string) returns (r: Option<Tls>)
      requires Valid()
      ensures r == server && (r.Some? ==> Matches(r.value.cert, r.value.key))
    {
      r := if leaf.None? then None else server;
    }

    method GetCA(name: string) returns (r: Option<Roots>)
      requires Valid()
      ensures r == caPool && (r.Some? <==> server.Some?)
    {
      r := caPool;
    }
  }

  /** `reload` accepts what it read. */
  predicate Usable(crt: Option<Blob>, key: Option<Blob>, ca: Option<Roots>) {
    crt.Some? && key.Some? && ca.Some? && Matches(crt.value, key.value) && ca.value.Roots?
  }

  // ----- as steps -----

  /** What a reload has read, and from which versions of the directory. */
  datatype Haul = Haul(crt: Blob, key: Blob, ca: Roots, crtFrom: nat, keyFrom: nat, caFrom: nat)

  /** A value with the call that set it and what that call had read. */
  datatype Set<T> = Set(origin: nat, haul: Haul, value: T)

  datatype Pc =
    | ReadCrt
    | ReadKeyFile(crt: Blob, crtFrom: nat)
    | ReadCa(crt: Blob, crtFrom: nat, key: Blob, keyFrom: nat)
    | Lock(haul: Haul)
    | SetServer(haul: Haul)
    | SetPool(haul: Haul)
    | SetLeaf(haul: Haul)
    | Load
    | SwapIn(tls: Tls)
    | Done(ok: bool)

  /** A bare reload, a tick of the manager (reload, load, swap), or its start (load, swap). */
  datatype Purpose = Reloading | Tick | Start

  datatype Call = Call(purpose: Purpose, pc: Pc)

  datatype System = System(dir: Directory, server: Option<Set<Tls>>, pool: Option<Set<Roots>>, leaf: Option<Set<Blob>>,
                           lock: Option<nat>, calls: map<nat, Call>, served: Option<Tls>)

  datatype Event =
    | Change(crt: Option<Blob>, key: Option<Blob>, ca: Option<Roots>)
    | Spawn(id: nat, purpose: Purpose)
    | Move(id: nat)

  /** Where a call goes when its reload has ended. */
  function AfterReload(p: Purpose, ok: bool): Pc {
    if p == Tick && ok then Load else Done(ok)
  }

  function Goto(s: System, id: nat, pc: Pc): System
    requires id in s.calls
  {
    s.(calls := s.calls[id := s.calls[id].(pc := pc)])
  }

  function Act(s: System, id: nat): System
    requires id in s.calls
  {
    var p := s.calls[id].purpose;
    match s.calls[id].pc
    case ReadCrt =>
      Goto(s, id, if s.dir.crt.Some? then ReadKeyFile(s.dir.crt.value, s.dir.version) else AfterReload(p, false))
    case ReadKeyFile(crt, crtFrom) =>
      Goto(s, id, if s.dir.key.Some? then ReadCa(crt, crtFrom, s.dir.key.value, s.dir.version)
                  else AfterReload(p, false))
    case ReadCa(crt, crtFrom, key, keyFrom) =>
      Goto(s, id, if Usable(Some(crt), Some(key), s.dir.ca)
                  then Lock(Haul(crt, key, s.dir.ca.value, crtFrom, keyFrom, s.dir.version))
                  else AfterReload(p, false))
    case Lock(haul) =>
      if s.lock.Some? then s else Goto(s.(lock := Some(id)), id, SetServer(haul))
    case SetServer(haul) => Goto(s.(server := Some(Set(id, haul, Tls(haul.crt, haul.key)))), id, SetPool(haul))
    case SetPool(haul) => Goto(s.(pool := Some(Set(id, haul, haul.ca))), id, SetLeaf(haul))
    case SetLeaf(haul) => Goto(s.(leaf := Some(Set(id, haul, haul.crt)), lock := None), id, AfterReload(p, true))
    case Load =>
      if s.lock.Some? then s
      else Goto(s, id, if s.leaf.Some? && s.server.Some? then SwapIn(s.server.value.value) else Done(false))
    case SwapIn(tls) => Goto(s.(served := Some(tls)), id, Done(true))
    case Done(_) => s
  }

  function Next(s: System, e: Event): System {
    match e
    case Change(crt, key, ca) => s.(dir := Directory(s.dir.version + 1, crt, key, ca))
    case Spawn(id, purpose) =>
      if id in s.calls then s
      else s.(calls := s.calls[id := Call(purpose, if purpose == Start then Load else ReadCrt)])
    case Move(id) => if id in s.calls then Act(s, id) else s
  }

  function Run(s: System, events: seq<Event>): System {
    if events == [] then s else Next(Run(s, events[..|events| - 1]), events[|events| - 1])
  }

  lemma RunThen(s: System, events: seq<Event>, e: Event)
    ensures Run(s, events + [e]) == Next(Run(s, events), e)
  {
    assert (events + [e])[..|events|] == events;
  }

  lemma {:induction false} RunConcat(s: System, a: seq<Event>, b: seq<Event>)
    ensures Run(s, a + b) == Run(Run(s, a), b)
    decreases |b|
  {
    if b == [] {
      assert a + b == a;
    } else {
      var front, last := b[..|b| - 1], b[|b| - 1];
      RunConcat(s, a, front);
      RunThen(s, a + front, last);
      assert a + b == a + front + [last];
    }
  }

  // ----- the invariant -----

  /** The three fields come from one reload, and the pair matches. */
  ghost predicate OneReload(s: System) {
    && (s.server.Some? <==> s.pool.Some?) && (s.server.Some? <==> s.leaf.Some?)
    && (s.server.Some? ==>
          && s.server.value.origin == s.pool.value.origin == s.leaf.value.origin
          && s.server.value.haul == s.pool.value.haul == s.leaf.value.haul
          && Matches(s.server.value.value.cert, s.server.value.value.key)
          && s.leaf.value.value == s.server.value.value.cert)
  }

  predicate Committing(pc: Pc) {
    pc.SetServer? || pc.SetPool? || pc.SetLeaf?
  }

  predicate HaulOk(h: Haul) {
    Matches(h.crt, h.key) && h.ca.Roots?
  }

  ghost predicate CallOk(s: System, id: nat)
    requires id in s.calls
  {
    && (Committing(s.calls[id].pc) <==> s.lock == Some(id))
    && match s.calls[id].pc
       case Lock(h) => HaulOk(h)
       case SetServer(h) => HaulOk(h)
       case SetPool(h) => HaulOk(h) && s.server == Some(Set(id, h, Tls(h.crt, h.key)))
       case SetLeaf(h) =>
         HaulOk(h) && s.server == Some(Set(id, h, Tls(h.crt, h.key))) && s.pool == Some(Set(id, h, h.ca))
       case SwapIn(t) => Matches(t.cert, t.key)
       case _ => true
  }

  ghost predicate Inv(s: System) {
    && (s.lock.None? ==> OneReload(s))
    && (s.lock.Some? ==> s.lock.value in s.calls && (s.calls[s.lock.value].pc.SetServer? ==> OneReload(s)))
    && (forall id | id in s.calls :: CallOk(s, id))
    && (s.served.Some? ==> Matches(s.served.value.cert, s.served.value.key))
  }

  lemma ActKeepsInv(s: System, id: nat)
    requires Inv(s) && id in s.calls
    ensures Inv(Act(s, id))
  {
    var r := Act(s, id);
    assert CallOk(s, id);
    forall d | d in r.calls ensures CallOk(r, d) {
      assert CallOk(s, d);
    }
  }

  lemma NextKeepsInv(s: System, e: Event)
    requires Inv(s)
    ensures Inv(Next(s, e))
  {
    match e
    case Change(_, _, _) =>
      forall d | d in s.calls ensures CallOk(Next(s, e), d) {
        assert CallOk(s, d);
      }
    case Spawn(id, purpose) =>
      var r := Next(s, e);
      forall d | d in r.calls ensures CallOk(r, d) {
        assert d in s.calls ==> CallOk(s, d);
      }
    case Move(id) =>
      if id in s.calls {
        ActKeepsInv(s, id);
      }
  }

  lemma {:induction false} RunKeepsInv(s: System, events: seq<Event>)
    requires Inv(s)
    ensures Inv(Run(s, events))
    decreases |events|
  {
    if events != [] {
      RunKeepsInv(s, events[..|events| - 1]);
      NextKeepsInv(Run(s, events[..|events| - 1]), events[|events| - 1]);
    }
  }

  /** A store that has loaded once, with no call under way: what `NewFilesystemCertificateStore` returns. */
  ghost predicate Constructed(s: System) {
    && s.calls == map[] && s.lock == None && s.server.Some? && OneReload(s) && s.served == None
    && Ordered(s.server.value.haul, s.dir.version)
  }

  /** In every run, whenever a reader can look, the three fields are those of a single reload. */
  lemma NeverTorn(s: System, events: seq<Event>)
    requires Constructed(s)
    ensures Run(s, events).lock == None ==> OneReload(Run(s, events))
  {
    RunKeepsInv(s, events);
  }

  /** Once loaded, the store never goes back to having nothing, whatever later reloads find. */
  lemma {:induction false} StaysLoaded(s: System, events: seq<Event>)
    requires s.server.Some? && s.leaf.Some?
    ensures Run(s, events).server.Some? && Run(s, events).leaf.Some?
    decreases |events|
  {
    if events != [] {
      StaysLoaded(s, events[..|events| - 1]);
    }
  }

  // ----- serving -----

  /** Over this store a start never fails, so it never tries to issue. */
  lemma {:induction false} StartsAlwaysLoad(s: System, events: seq<Event>, id: nat)
    requires Constructed(s) && id in Run(s, events).calls && Run(s, events).calls[id].purpose == Start
    ensures var pc := Run(s, events).calls[id].pc;
            pc.Load? || pc.SwapIn? || (pc == Done(true) && Run(s, events).served.Some?)
    decreases |events|
  {
    if events != [] {
      var front := events[..|events| - 1];
      StaysLoaded(s, front);
      if id in Run(s, front).calls {
        StartsAlwaysLoad(s, front, id);
      }
      StartStep(Run(s, front), events[|events| - 1], id);
    }
  }

  predicate StartLoads(s: System, id: nat) {
    id in s.calls && s.calls[id].purpose == Start ==>
      var pc := s.calls[id].pc;
      pc.Load? || pc.SwapIn? || (pc == Done(true) && s.served.Some?)
  }

  lemma StartStep(s: System, e: Event, id: nat)
    requires s.server.Some? && s.leaf.Some? && StartLoads(s, id)
    ensures StartLoads(Next(s, e), id)
  {
  }

  /** Every handshake after a start is answered with a matching pair, in every continuation. */
  lemma {:induction false} ServingNeverStops(s: System, events: seq<Event>)
    requires Inv(s) && s.served.Some?
    ensures var t := Run(s, events).served; t.Some? && Matches(t.value.cert, t.value.key)
    decreases |events|
  {
    RunKeepsInv(s, events);
    if events != [] {
      ServingNeverStops(s, events[..|events| - 1]);
    }
  }

  /** A step that fails, and every step but the last one of a start or tick, leaves what is served alone. */
  lemma OnlySwapChangesServing(s: System, e: Event)
    requires Next(s, e).served != s.served
    ensures e.Move? && e.id in s.calls && s.calls[e.id].pc.SwapIn? && Next(s, e).served == Some(s.calls[e.id].pc.tls)
  {
  }

  /** When the call did what: took its last turn under the lock, looked at the installed pair, swapped it in. */
  datatype Turns = Turns(commit: nat, load: nat, swap: nat)

  /** The call had set all three fields by turn `t.commit`. */
  ghost predicate Committed(s: System, events: seq<Event>, id: nat, t: Turns) {
    && t.commit < |events|
    && var r := Run(s, events[..t.commit + 1]);
       r.leaf.Some? && r.leaf.value.origin == id && r.lock == None
  }

  /** It looked at the installed pair at turn `t.load`, with nobody committing, and found `tls`. */
  ghost predicate FoundInstalled(s: System, events: seq<Event>, id: nat, t: Turns, tls: Tls) {
    && t.load < |events| && events[t.load] == Move(id)
    && var r := Run(s, events[..t.load]);
       r.lock == None && r.server.Some? && r.server.value.value == tls
  }

  /** It put `tls` in service at turn `t.swap`. */
  ghost predicate SwappedIn(s: System, events: seq<Event>, id: nat, t: Turns, tls: Tls) {
    t.swap < |events| && events[t.swap] == Move(id) && Run(s, events[..t.swap + 1]).served == Some(tls)
  }

  /** How far a tick or a start has come, and when it did what. */
  ghost predicate Served(s: System, events: seq<Event>, id: nat, t: Turns)
    requires id in Run(s, events).calls
  {
    var c := Run(s, events).calls[id];
    && (c.purpose == Start ==> c.pc.Load? || c.pc.SwapIn? || c.pc.Done?)
    && (c.purpose == Tick && (c.pc.Load? || c.pc.SwapIn? || c.pc == Done(true)) ==> Committed(s, events, id, t))
    && (c.purpose == Tick && (c.pc.SwapIn? || c.pc == Done(true)) ==> t.commit < t.load)
    && (c.purpose != Reloading && c.pc.SwapIn? ==> FoundInstalled(s, events, id, t, c.pc.tls))
    && (c.purpose != Reloading && c.pc == Done(true) ==>
          t.load < t.swap && exists tls :: FoundInstalled(s, events, id, t, tls) && SwappedIn(s, events, id, t, tls))
  }

  lemma ServedEarlier(s: System, events: seq<Event>, e: Event, id: nat, t: Turns)
    requires id in Run(s, events).calls && Served(s, events, id, t)
    requires Run(s, events + [e]).calls[id] == Run(s, events).calls[id]
    ensures Served(s, events + [e], id, t)
  {
    TurnsStay(s, events, e, t);
    var c := Run(s, events).calls[id];
    if c.purpose != Reloading && c.pc == Done(true) {
      var tls :| FoundInstalled(s, events, id, t, tls) && SwappedIn(s, events, id, t, tls);
      assert FoundInstalled(s, events + [e], id, t, tls) && SwappedIn(s, events + [e], id, t, tls);
    }
  }

  lemma TurnsStay(s: System, events: seq<Event>, e: Event, t: Turns)
    ensures t.commit < |events| ==> (events + [e])[..t.commit + 1] == events[..t.commit + 1]
    ensures t.load < |events| ==> (events + [e])[..t.load] == events[..t.load]
    ensures t.swap < |events| ==> (events + [e])[..t.swap + 1] == events[..t.swap + 1]
  {
  }

  /** The turn of the call itself. */
  lemma ServedNow(s: System, events: seq<Event>, id: nat, t: Turns) returns (now: Turns)
    requires id in Run(s, events).calls && Served(s, events, id, t)
    ensures id in Run(s, events + [Move(id)]).calls && Served(s, events + [Move(id)], id, now)
  {
    RunThen(s, events, Move(id));
    var before, after := Run(s, events), Run(s, events + [Move(id)]);
    var c := before.calls[id];
    now := t;
    if after.calls[id] == c {
      ServedEarlier(s, events, Move(id), id, t);
    } else if c.pc.SetLeaf? {
      now := t.(commit := |events|);
      SetsLeaf(before, id);
      ServedCommit(s, events + [Move(id)], id, now);
    } else if c.pc.Load? {
      now := t.(load := |events|);
      ServedLoad(s, events, id, t, now);
    } else if c.pc.SwapIn? {
      now := t.(swap := |events|);
      ServedSwap(s, events, id, t, now);
    }
  }

  lemma ServedCommit(s: System, all: seq<Event>, id: nat, now: Turns)
    requires now.commit + 1 == |all| && id in Run(s, all).calls
    requires var r := Run(s, all); var p := r.calls[id].purpose;
             && p != Start && r.calls[id].pc == AfterReload(p, true)
             && r.leaf.Some? && r.leaf.value.origin == id && r.lock == None
    ensures Served(s, all, id, now)
  {
    assert all[..now.commit + 1] == all;
  }

  lemma SetsLeaf(s: System, id: nat)
    requires id in s.calls && s.calls[id].pc.SetLeaf?
    ensures var r := Next(s, Move(id));
            && id in r.calls && r.calls[id] == Call(s.calls[id].purpose, AfterReload(s.calls[id].purpose, true))
            && r.leaf.Some? && r.leaf.value.origin == id && r.lock == None
  {
  }

  lemma ServedLoad(s: System, events: seq<Event>, id: nat, t: Turns, now: Turns)
    requires id in Run(s, events).calls && Run(s, events).calls[id].pc.Load? && Served(s, events, id, t)
    requires Next(Run(s, events), Move(id)).calls[id] != Run(s, events).calls[id] && now == t.(load := |events|)
    ensures id in Run(s, events + [Move(id)]).calls && Served(s, events + [Move(id)], id, now)
  {
    var all := events + [Move(id)];
    assert all[..now.load] == events;
    TurnsStay(s, events, Move(id), t);
    RunThen(s, events, Move(id));
  }

  lemma ServedSwap(s: System, events: seq<Event>, id: nat, t: Turns, now: Turns)
    requires id in Run(s, events).calls && Run(s, events).calls[id].pc.SwapIn? && Served(s, events, id, t)
    requires now == t.(swap := |events|)
    ensures id in Run(s, events + [Move(id)]).calls && Served(s, events + [Move(id)], id, now)
  {
    var all, c := events + [Move(id)], Run(s, events).calls[id];
    assert all[..now.swap + 1] == all;
    TurnsStay(s, events, Move(id), t);
    RunThen(s, events, Move(id));
    if c.purpose != Reloading {
      assert FoundInstalled(s, all, id, now, c.pc.tls) && SwappedIn(s, all, id, now, c.pc.tls);
    }
  }

  /** In every interleaving: a tick that has ended well has set all three fields itself, has then looked at the pair
      that was installed, and has put just that pair in service; a start that has ended well has done the last two. */
  lemma {:induction false} EndedWellServes(s: System, events: seq<Event>, id: nat) returns (t: Turns)
    requires id !in s.calls && id in Run(s, events).calls
    ensures Served(s, events, id, t)
    decreases |events|
  {
    var front, e := events[..|events| - 1], events[|events| - 1];
    assert events == front + [e];
    if id !in Run(s, front).calls {
      t := Turns(0, 0, 0);
    } else {
      t := EndedWellServes(s, front, id);
      if e == Move(id) {
        t := ServedNow(s, front, id, t);
      } else {
        ServedEarlier(s, front, e, id, t);
      }
    }
  }

  // ----- which version a reload installs -----

  predicate SameVersion(h: Haul) {
    h.crtFrom == h.keyFrom == h.caFrom
  }

  function Changes(events: seq<Event>): nat {
    if events == [] then 0 else Changes(events[..|events| - 1]) + (if events[|events| - 1].Change? then 1 else 0)
  }

  /** What a call has read, seen from the directory `d` just after its first read and the directory now. */
  ghost predicate ReadSince(d: Directory, now: Directory, first: Pc, pc: Pc) {
    && first.ReadKeyFile? && !pc.ReadCrt?
    && (now.version == d.version ==> now == d)
    && (pc.ReadKeyFile? ==> pc == first)
    && (pc.ReadCa? ==>
          && pc.crt == first.crt && pc.crtFrom == first.crtFrom && d.version <= pc.keyFrom <= now.version
          && (pc.keyFrom == d.version ==> Some(pc.key) == d.key))
  }

  lemma {:induction false} ReadsTrack(s: System, events: seq<Event>, id: nat)
    requires id in s.calls && s.calls[id].pc.ReadKeyFile?
    ensures var r := Run(s, events);
            && id in r.calls && r.calls[id].purpose == s.calls[id].purpose
            && r.dir.version == s.dir.version + Changes(events)
            && ReadSince(s.dir, r.dir, s.calls[id].pc, r.calls[id].pc)
    decreases |events|
  {
    if events != [] {
      ReadsTrack(s, events[..|events| - 1], id);
    }
  }

  /** What a call that waits for the lock or holds it has read. */
  function HaulOf(pc: Pc): Option<Haul> {
    match pc
    case Lock(h) => Some(h)
    case SetServer(h) => Some(h)
    case SetPool(h) => Some(h)
    case SetLeaf(h) => Some(h)
    case _ => None
  }

  lemma {:induction false} HaulStays(s: System, events: seq<Event>, id: nat)
    requires id in s.calls && s.calls[id].pc.Lock?
    ensures var r := Run(s, events);
            id in r.calls && (HaulOf(r.calls[id].pc).Some? ==> HaulOf(r.calls[id].pc) == HaulOf(s.calls[id].pc))
                          && !r.calls[id].pc.ReadCrt? && !r.calls[id].pc.ReadKeyFile? && !r.calls[id].pc.ReadCa?
    decreases |events|
  {
    if events != [] {
      HaulStays(s, events[..|events| - 1], id);
    }
  }

  /** In every interleaving with other reloads, ticks and changes of the directory, what a reload installs is of one
      version exactly if the directory does not change between its first and its last read; it then is the version
      the reload began with, whole. `reading` is what happens between the two reads, `waiting` from there on. */
  lemma WholeIffQuiet(s: System, id: nat, reading: seq<Event>, waiting: seq<Event>)
    requires Inv(s) && id in s.calls && s.calls[id].pc.ReadCrt? && s.dir.crt.Some?
    requires var r := Run(Next(s, Move(id)), reading);
             id in r.calls && r.calls[id].pc.ReadCa? && Next(r, Move(id)).calls[id].pc.Lock?
    requires var r := Run(Next(Run(Next(s, Move(id)), reading), Move(id)), waiting);
             id in r.calls && r.calls[id].pc.SetLeaf?
    ensures var r := Next(Run(Next(Run(Next(s, Move(id)), reading), Move(id)), waiting), Move(id));
            && r.lock == None && OneReload(r) && r.server.Some? && r.server.value.origin == id
            && (SameVersion(r.server.value.haul) <==> Changes(reading) == 0)
            && (Changes(reading) == 0 ==>
                  s.dir.key.Some? && r.server.value.value == Tls(s.dir.crt.value, s.dir.key.value)
                  && Some(r.pool.value.value) == s.dir.ca)
  {
    var s1 := Next(s, Move(id));
    ReadsTrack(s1, reading, id);
    var s2 := Run(s1, reading);
    var s3 := Next(s2, Move(id));
    HaulStays(s3, waiting, id);
    NextKeepsInv(s, Move(id));
    RunKeepsInv(s1, reading);
    NextKeepsInv(s2, Move(id));
    RunKeepsInv(s3, waiting);
    var s4 := Run(s3, waiting);
    assert CallOk(s4, id);
    NextKeepsInv(s4, Move(id));
  }

  // ----- which of several reloads wins -----

  /** The call has begun to read, has not taken the lock yet, and what it has read can still be completed to a
      bundle that loads. */
  predicate CanFinish(pc: Pc) {
    match pc
    case ReadKeyFile(crt, _) => crt.CertPem?
    case ReadCa(crt, _, key, _) => Matches(crt, key)
    case Lock(_) => true
    case _ => false
  }

  /** The version of the first file such a call has read. */
  function BeganAt(pc: Pc): nat
    requires CanFinish(pc)
  {
    match pc
    case ReadKeyFile(_, v) => v
    case ReadCa(_, v, _, _) => v
    case Lock(h) => h.crtFrom
  }

  predicate NoneCanFinish(s: System) {
    forall id | id in s.calls :: !CanFinish(s.calls[id].pc)
  }

  /** No reload begins to read while another has begun, can still finish and has yet to take the lock. */
  predicate Serial(s: System, events: seq<Event>) {
    events == []
    || (Serial(s, events[..|events| - 1]) && InTurn(Run(s, events[..|events| - 1]), events[|events| - 1]))
  }

  predicate InTurn(s: System, e: Event) {
    e.Move? && e.id in s.calls && s.calls[e.id].pc.ReadCrt? ==> NoneCanFinish(s)
  }

  predicate Ordered(h: Haul, now: nat) {
    h.crtFrom <= h.keyFrom <= h.caFrom <= now
  }

  /** The versions a call has read rise, and none is yet to come. */
  predicate PastOk(pc: Pc, now: nat) {
    match pc
    case ReadKeyFile(_, v) => v <= now
    case ReadCa(_, v, _, w) => v <= w <= now
    case _ => HaulOf(pc).Some? ==> Ordered(HaulOf(pc).value, now)
  }

  ghost predicate AllPast(s: System) {
    && (s.server.Some? ==> Ordered(s.server.value.haul, s.dir.version))
    && (forall id | id in s.calls :: PastOk(s.calls[id].pc, s.dir.version))
  }

  ghost predicate OneCanFinish(s: System) {
    forall a, b | a in s.calls && b in s.calls && CanFinish(s.calls[a].pc) && CanFinish(s.calls[b].pc) :: a == b
  }

  /** What is installed was read before a call that can finish began, and before what is about to be set was. */
  ghost predicate InstalledBefore(s: System, id: nat)
    requires id in s.calls
  {
    s.server.Some? ==>
      && (CanFinish(s.calls[id].pc) ==> s.server.value.haul.caFrom <= BeganAt(s.calls[id].pc))
      && (s.calls[id].pc.SetServer? ==> s.server.value.haul.caFrom <= s.calls[id].pc.haul.crtFrom)
  }

  /** So was what is about to be set. */
  ghost predicate CommitsBefore(s: System, c: nat, a: nat)
    requires c in s.calls && a in s.calls
  {
    s.calls[c].pc.SetServer? && CanFinish(s.calls[a].pc) ==> s.calls[c].pc.haul.caFrom <= BeganAt(s.calls[a].pc)
  }

  ghost predicate InSeries(s: System) {
    && Inv(s) && AllPast(s) && OneCanFinish(s)
    && (forall id | id in s.calls :: InstalledBefore(s, id))
    && (forall c, a | c in s.calls && a in s.calls :: CommitsBefore(s, c, a))
  }

  lemma NextPastOk(s: System, e: Event, id: nat)
    requires id in s.calls && PastOk(s.calls[id].pc, s.dir.version)
    ensures PastOk(Next(s, e).calls[id].pc, Next(s, e).dir.version)
  {
  }

  lemma NextPast(s: System, e: Event)
    requires AllPast(s)
    ensures AllPast(Next(s, e))
  {
    var r := Next(s, e);
    forall id | id in r.calls ensures PastOk(r.calls[id].pc, r.dir.version) {
      if id in s.calls {
        NextPastOk(s, e, id);
      }
    }
    if e.Move? && e.id in s.calls {
      assert PastOk(s.calls[e.id].pc, s.dir.version);
    }
  }

  lemma {:induction false} RunPast(s: System, events: seq<Event>)
    requires AllPast(s)
    ensures AllPast(Run(s, events))
    decreases |events|
  {
    if events != [] {
      RunPast(s, events[..|events| - 1]);
      NextPast(Run(s, events[..|events| - 1]), events[|events| - 1]);
    }
  }

  lemma NextOneCanFinish(s: System, e: Event)
    requires OneCanFinish(s) && InTurn(s, e)
    ensures OneCanFinish(Next(s, e))
  {
    var r := Next(s, e);
    forall a, b | a in r.calls && b in r.calls && CanFinish(r.calls[a].pc) && CanFinish(r.calls[b].pc) ensures a == b {
      assert a in s.calls && b in s.calls;
    }
  }

  lemma NextInstalled(s: System, e: Event, id: nat)
    requires InSeries(s) && id in s.calls
    ensures InstalledBefore(Next(s, e), id)
  {
    assert InstalledBefore(s, id) && PastOk(s.calls[id].pc, s.dir.version);
    if e.Move? && e.id in s.calls && e.id != id {
      assert CommitsBefore(s, e.id, id) && CallOk(s, id) && CallOk(s, e.id);
    }
  }

  /** A call that takes the lock has no other beside it that could still finish. */
  lemma TakerCommits(s: System, c: nat, a: nat)
    requires c in s.calls && a in s.calls && OneCanFinish(s) && CommitsBefore(s, c, a)
    ensures CommitsBefore(Next(s, Move(c)), c, a)
  {
    assert CanFinish(s.calls[c].pc) && CanFinish(s.calls[a].pc) ==> c == a;
  }

  /** A call that begins to read, or reads on, reads no older version than what is about to be set. */
  lemma ReaderCommits(s: System, c: nat, a: nat)
    requires c in s.calls && a in s.calls && c != a && CommitsBefore(s, c, a) && PastOk(s.calls[c].pc, s.dir.version)
    ensures CommitsBefore(Next(s, Move(a)), c, a)
  {
  }

  lemma NextCommits(s: System, e: Event, c: nat, a: nat)
    requires InSeries(s) && c in s.calls && a in s.calls
    ensures CommitsBefore(Next(s, e), c, a)
  {
    assert CommitsBefore(s, c, a) && PastOk(s.calls[c].pc, s.dir.version);
    if e == Move(c) {
      TakerCommits(s, c, a);
    } else if e == Move(a) {
      ReaderCommits(s, c, a);
    }
  }

  lemma NextAllInstalled(s: System, e: Event)
    requires InSeries(s)
    ensures forall id | id in Next(s, e).calls :: InstalledBefore(Next(s, e), id)
  {
    forall id | id in Next(s, e).calls ensures InstalledBefore(Next(s, e), id) {
      if id in s.calls {
        NextInstalled(s, e, id);
      }
    }
  }

  lemma NextAllCommit(s: System, e: Event)
    requires InSeries(s)
    ensures forall c, a | c in Next(s, e).calls && a in Next(s, e).calls :: CommitsBefore(Next(s, e), c, a)
  {
    forall c, a | c in Next(s, e).calls && a in Next(s, e).calls ensures CommitsBefore(Next(s, e), c, a) {
      if c in s.calls && a in s.calls {
        NextCommits(s, e, c, a);
      }
    }
  }

  lemma NextInSeries(s: System, e: Event)
    requires InSeries(s) && InTurn(s, e)
    ensures InSeries(Next(s, e))
  {
    NextKeepsInv(s, e);
    NextPast(s, e);
    NextOneCanFinish(s, e);
    NextAllInstalled(s, e);
    NextAllCommit(s, e);
  }

  /** A step installs nothing older than what is there. */
  lemma NextIsNewer(s: System, e: Event)
    requires InSeries(s) && s.server.Some?
    ensures var r := Next(s, e);
            r.server == s.server || (r.server.Some? && s.server.value.haul.caFrom <= r.server.value.haul.crtFrom)
  {
    if e.Move? && e.id in s.calls {
      assert InstalledBefore(s, e.id);
    }
  }

  /** As long as reloads begin in turn, a newer reload wins: what is installed later was read later, every file of
      it after every file of what was there. */
  lemma {:induction false} NewerWins(s: System, before: seq<Event>, after: seq<Event>)
    requires Constructed(s) && Serial(s, before) && Serial(Run(s, before), after)
    ensures InSeries(Run(Run(s, before), after))
    ensures var mid, end := Run(s, before), Run(Run(s, before), after);
            && mid.server.Some? && end.server.Some?
            && (end.server == mid.server || mid.server.value.haul.caFrom <= end.server.value.haul.crtFrom)
    decreases |before| + |after|
  {
    if after != [] {
      var front := after[..|after| - 1];
      NewerWins(s, before, front);
      var r := Run(Run(s, before), front);
      assert AllPast(r);
      NextInSeries(r, after[|after| - 1]);
      NextIsNewer(r, after[|after| - 1]);
    } else if before != [] {
      var front := before[..|before| - 1];
      NewerWins(s, front, []);
      NextInSeries(Run(s, front), before[|before| - 1]);
    }
  }

  function Moves(id: nat, n: nat): seq<Event> {
    if n == 0 then [] else Moves(id, n - 1) + [Move(id)]
  }

  /** Three reads of a directory that stays as it is. */
  lemma ReadAll(s: System, id: nat)
    requires id in s.calls && s.calls[id].pc.ReadCrt? && Usable(s.dir.crt, s.dir.key, s.dir.ca)
    ensures var v := s.dir.version;
            Run(s, Moves(id, 3)) == Goto(s, id, Lock(Haul(s.dir.crt.value, s.dir.key.value, s.dir.ca.value, v, v, v)))
  {
    RunThen(s, Moves(id, 0), Move(id));
    RunThen(s, Moves(id, 1), Move(id));
    RunThen(s, Moves(id, 2), Move(id));
  }

  /** Taking the lock and setting the three fields. */
  lemma Commit(s: System, id: nat)
    requires id in s.calls && s.calls[id].pc.Lock? && s.lock == None
    ensures var h := s.calls[id].pc.haul;
            Run(s, Moves(id, 4))
            == Goto(s.(server := Some(Set(id, h, Tls(h.crt, h.key))), pool := Some(Set(id, h, h.ca)),
                       leaf := Some(Set(id, h, h.crt))), id, AfterReload(s.calls[id].purpose, true))
  {
    var h := s.calls[id].pc.haul;
    var server, pool, leaf := Some(Set(id, h, Tls(h.crt, h.key))), Some(Set(id, h, h.ca)), Some(Set(id, h, h.crt));
    var a := Goto(s.(lock := Some(id)), id, SetServer(h));
    var b := Goto(s.(lock := Some(id), server := server), id, SetPool(h));
    var c := Goto(s.(lock := Some(id), server := server, pool := pool), id, SetLeaf(h));
    var d := Goto(s.(server := server, pool := pool, leaf := leaf), id, AfterReload(s.calls[id].purpose, true));
    assert Next(s, Move(id)) == a;
    assert Next(a, Move(id)) == b;
    assert Next(b, Move(id)) == c;
    assert Next(c, Move(id)) == d;
    MovesThen(s, id, 0);
    MovesThen(s, id, 1);
    MovesThen(s, id, 2);
    MovesThen(s, id, 3);
  }

  lemma MovesThen(s: System, id: nat, n: nat)
    ensures Run(s, Moves(id, n + 1)) == Next(Run(s, Moves(id, n)), Move(id))
  {
    RunThen(s, Moves(id, n), Move(id));
  }

  /** A tick over a usable directory with nothing beside it, and the lock free: nine turns, and the pair that is in the
      directory is in service, whatever was installed and served before. */
  lemma TickServes(s: System, id: nat)
    requires id in s.calls && s.calls[id] == Call(Tick, ReadCrt) && s.lock == None
    requires s.dir.crt.Some? && s.dir.key.Some? && s.dir.ca.Some?
    requires Matches(s.dir.crt.value, s.dir.key.value) && s.dir.ca.value.Roots?
    ensures var r := Run(s, Moves(id, 9));
            && id in r.calls && r.calls[id] == Call(Tick, Done(true)) && r.lock == None
            && r.served == Some(Tls(s.dir.crt.value, s.dir.key.value))
  {
    ReadAll(s, id);
    var s3 := Run(s, Moves(id, 3));
    Commit(s3, id);
    var s7 := Run(s3, Moves(id, 4));
    LoadSwaps(s7, id);
    MovesAdd(s, id, 3, 4);
    MovesAdd(s, id, 7, 2);
  }

  lemma MovesAdd(s: System, id: nat, m: nat, n: nat)
    ensures Run(s, Moves(id, m + n)) == Run(Run(s, Moves(id, m)), Moves(id, n))
  {
    MovesConcat(id, m, n);
    RunConcat(s, Moves(id, m), Moves(id, n));
  }

  lemma {:induction false} MovesConcat(id: nat, m: nat, n: nat)
    ensures Moves(id, m) + Moves(id, n) == Moves(id, m + n)
    decreases n
  {
    if n == 0 {
      assert Moves(id, m) + [] == Moves(id, m);
    } else {
      MovesConcat(id, m, n - 1);
      assert Moves(id, m) + Moves(id, n) == Moves(id, m) + Moves(id, n - 1) + [Move(id)];
    }
  }

  lemma LoadSwaps(s: System, id: nat)
    requires id in s.calls && s.calls[id].pc == Load && s.lock == None && s.server.Some? && s.leaf.Some?
    ensures Run(s, Moves(id, 2))
         == Goto(s.(served := Some(s.server.value.value)), id, Done(true))
  {
    MovesThen(s, id, 0);
    MovesThen(s, id, 1);
    var a := Goto(s, id, SwapIn(s.server.value.value));
    assert Next(s, Move(id)) == a;
    assert Next(a, Move(id)) == Goto(s.(served := Some(s.server.value.value)), id, Done(true));
  }

  /** From `mid` to `end` a reload has replaced what another installed by what it had read before. */
  ghost predicate Reverted(mid: System, end: System, older: nat, newer: nat) {
    && mid.lock == None && end.lock == None && mid.server.Some? && end.server.Some?
    && mid.server.value.origin == newer && end.server.value.origin == older
    && end.server.value.haul.caFrom < mid.server.value.haul.crtFrom
  }

  const ROOTS := Some(Roots(0))

  /** A reload that waits for the lock while the directory changes and another one reads and installs the change. */
  lemma RevertFromLock(s: System, a: nat, b: nat) returns (before: seq<Event>)
    requires AllPast(s) && s.lock == None && a in s.calls && b in s.calls && a != b
    requires s.calls[a].pc.Lock? && s.calls[b].pc.ReadCrt?
    ensures Reverted(Run(s, before), Run(Run(s, before), Moves(a, 4)), a, b)
  {
    var change := Change(Some(CertPem(0)), Some(KeyPem(0)), ROOTS);
    var s1 := Next(s, change);
    RunThen(s, [], change);
    assert [] + [change] == [change];
    ReadAll(s1, b);
    var s2 := Run(s1, Moves(b, 3));
    Commit(s2, b);
    var s3 := Run(s2, Moves(b, 4));
    assert PastOk(s.calls[a].pc, s.dir.version);
    Commit(s3, a);
    before := [change] + Moves(b, 3) + Moves(b, 4);
    RunConcat(s, [change], Moves(b, 3));
    RunConcat(s, [change] + Moves(b, 3), Moves(b, 4));
  }

  /** A call that can finish gets to the lock if the directory is made to suit it. */
  lemma ReachLock(s: System, a: nat) returns (events: seq<Event>)
    requires a in s.calls && CanFinish(s.calls[a].pc)
    ensures var r := Run(s, events);
            && a in r.calls && r.calls[a].pc.Lock? && r.lock == s.lock
            && r.calls == s.calls[a := s.calls[a].(pc := r.calls[a].pc)]
  {
    var pc := s.calls[a].pc;
    if pc.Lock? {
      events := [];
    } else {
      var crt := pc.crt;
      var change := Change(Some(crt), Some(KeyPem(crt.issue)), ROOTS);
      RunThen(s, [], change);
      RunThen(s, [] + [change], Move(a));
      events := [] + [change] + [Move(a)];
      if pc.ReadKeyFile? {
        RunThen(s, events, Move(a));
        events := events + [Move(a)];
      }
    }
  }

  /** How far a commit is from its end. */
  function Left(pc: Pc): nat {
    match pc
    case SetServer(_) => 3
    case SetPool(_) => 2
    case SetLeaf(_) => 1
    case _ => 0
  }

  /** Only this call has moved, and the directory is as it was. */
  ghost predicate OnlyMoved(s: System, r: System, c: nat) {
    && r.dir == s.dir && r.calls.Keys == s.calls.Keys
    && forall id | id in s.calls && id != c :: r.calls[id] == s.calls[id]
  }

  lemma CommitStep(s: System, c: nat)
    requires c in s.calls && Committing(s.calls[c].pc) && s.lock == Some(c)
    ensures var r := Next(s, Move(c));
            && OnlyMoved(s, r, c)
            && (r.lock == None
                || (r.lock == Some(c) && Committing(r.calls[c].pc) && Left(r.calls[c].pc) < Left(s.calls[c].pc)))
  {
  }

  /** Whoever holds the lock can go on to release it. */
  lemma {:induction false} ReleaseLock(s: System, c: nat) returns (events: seq<Event>)
    requires c in s.calls && Committing(s.calls[c].pc) && s.lock == Some(c)
    ensures Run(s, events).lock == None && OnlyMoved(s, Run(s, events), c)
    decreases Left(s.calls[c].pc)
  {
    CommitStep(s, c);
    RunThen(s, [], Move(c));
    events := [] + [Move(c)];
    if Next(s, Move(c)).lock.Some? {
      var rest := ReleaseLock(Next(s, Move(c)), c);
      RunConcat(s, events, rest);
      events := events + rest;
    }
  }

  /** And only then: in every reachable state in which a reload is about to begin out of turn, some continuation lets
      the one that had begun install last. */
  lemma OverlapCanRevert(s: System, a: nat, b: nat) returns (before: seq<Event>)
    requires Inv(s) && AllPast(s) && a in s.calls && b in s.calls
    requires CanFinish(s.calls[a].pc) && s.calls[b].pc.ReadCrt?
    ensures Reverted(Run(s, before), Run(Run(s, before), Moves(a, 4)), a, b)
  {
    assert CallOk(s, a) && CallOk(s, b);
    var free := [];
    if s.lock.Some? {
      assert CallOk(s, s.lock.value);
      free := ReleaseLock(s, s.lock.value);
    }
    RunPast(s, free);
    var s1 := Run(s, free);
    var reach := ReachLock(s1, a);
    RunPast(s1, reach);
    var rest := RevertFromLock(Run(s1, reach), a, b);
    before := free + (reach + rest);
    RunConcat(s1, reach, rest);
    RunConcat(s, free, reach + rest);
  }

  lemma BothBegun(s: System) returns (events: seq<Event>)
    requires s.calls == map[] && s.lock == None && Usable(s.dir.crt, s.dir.key, s.dir.ca)
    ensures var r := Run(s, events);
            && r.lock == None && r.calls.Keys == {0, 1}
            && CanFinish(r.calls[0].pc) && r.calls[1].pc.ReadCrt?
  {
    var e0, e1 := Spawn(0, Reloading), Spawn(1, Reloading);
    var s1 := s.(calls := map[0 := Call(Reloading, ReadCrt)]);
    var s2 := s.(calls := map[0 := Call(Reloading, ReadCrt), 1 := Call(Reloading, ReadCrt)]);
    assert Run(s, []) == s;
    RunThen(s, [], e0);
    assert Next(s, e0) == s1;
    RunThen(s, [] + [e0], e1);
    assert Next(s1, e1) == s2;
    RunThen(s, [] + [e0] + [e1], Move(0));
    events := [] + [e0] + [e1] + [Move(0)];
  }

  /** Two reloads are enough, from any store that has been constructed. */
  lemma OlderReloadWins(s: System) returns (before: seq<Event>, after: seq<Event>)
    requires Constructed(s) && Usable(s.dir.crt, s.dir.key, s.dir.ca)
    ensures Reverted(Run(s, before), Run(Run(s, before), after), 0, 1)
  {
    var begin := BothBegun(s);
    RunPast(s, begin);
    RunKeepsInv(s, begin);
    var rest := OverlapCanRevert(Run(s, begin), 0, 1);
    RunConcat(s, begin, rest);
    before, after := begin + rest, Moves(0, 4);
  }

  /** A change of the directory between two reads is installed as a mixture: the pair of one version with the roots
      of the next. */
  lemma ReloadCanStraddle(s: System, id: nat, ca: Roots) returns (events: seq<Event>)
    requires id in s.calls && s.calls[id].pc.ReadCrt? && s.lock == None
    requires Usable(s.dir.crt, s.dir.key, s.dir.ca) && ca.Roots?
    ensures var r := Run(s, events);
            && r.lock == None && r.server.Some? && r.pool.Some? && !SameVersion(r.server.value.haul)
            && r.server.value == Set(id, r.server.value.haul, Tls(s.dir.crt.value, s.dir.key.value))
            && r.pool.value.value == ca && r.dir.version == s.dir.version + 1
  {
    var change := Change(None, None, Some(ca));
    RunThen(s, [], Move(id));
    RunThen(s, [] + [Move(id)], Move(id));
    RunThen(s, [] + [Move(id)] + [Move(id)], change);
    RunThen(s, [] + [Move(id)] + [Move(id)] + [change], Move(id));
    events := [] + [Move(id)] + [Move(id)] + [change] + [Move(id)];
    Commit(Run(s, events), id);
    RunConcat(s, events, Moves(id, 4));
    events := events + Moves(id, 4);
  }
}
