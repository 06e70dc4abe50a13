// The self-signed store and the TLS manager as code, against the steps of CertificateSteps: what a call does
// when it runs on its own, with any of its store calls failing.
module TlsManagement {
  import opened Wrappers
  import opened KeyPairs
  import opened CertificateSteps

  /** A call on its own: the shared state, the fates its next store calls will have, and where it is. */
  datatype Config = Config(shared: Shared, fates: seq<Fate>, call: Call)

  function NextFate(fates: seq<Fate>): Fate {
    if fates == [] then Works else fates[0]
  }

  function Rest(fates: seq<Fate>): seq<Fate> {
    if fates == [] then [] else fates[1..]
  }

  /** How far a call is from its end. */
  function Rank(pc: Pc): nat {
    match pc
    case Generate(true) => 12
    case PutCert(true, _) => 11
    case PutKey(true, _) => 10
    case ReadCert(false) => 9
    case ReadKey(false, _) => 8
    case Generate(false) => 7
    case PutCert(false, _) => 6
    case PutKey(false, _) => 5
    case ReadCert(true) => 4
    case ReadKey(true, _) => 3
    case Swap(_) => 2
    case Finished(_) => 0
  }

  function Step(c: Config, defaultName: string): (r: Config)
    requires !c.call.pc.Finished?
    ensures Rank(r.call.pc) < Rank(c.call.pc)
  {
    if c.call.pc.Swap? then
      var (shared, call) := Act(c.shared, defaultName, c.call, Works);
      Config(shared, c.fates, call)
    else
      var (shared, call) := Act(c.shared, defaultName, c.call, NextFate(c.fates));
      Config(shared, Rest(c.fates), call)
  }

  /** The call run to its end with nothing beside it. */
  function Complete(c: Config, defaultName: string): (r: Config)
    ensures r.call.pc.Finished?
    ensures r.call.job == c.call.job && r.call.name == c.call.name
    decreases Rank(c.call.pc)
  {
    if c.call.pc.Finished? then c else Complete(Step(c, defaultName), defaultName)
  }

  // ----- the store as code -----

  class SelfSignedStore {
    const defaultName: string
    var values: map<Slot, Blob>
    var owners: seq<string>
    /** How the next calls of the backend and of the key generator will go. */
    var fates: seq<Fate>

    constructor (defaultName: string, values: map<Slot, Blob>, owners: seq<string>, fates: seq<Fate>)
      ensures this.defaultName == defaultName && this.values == values && this.owners == owners && this.fates == fates
    {
      this.defaultName, this.values, this.owners, this.fates := defaultName, values, owners, fates;
    }

    function At(served: Option<Tls>, call: Call): Config
      reads this
    {
      Config(Shared(values, owners, served), fates, call)
    }

    method TakeFate() returns (f: Fate)
      modifies this`fates
      ensures f == NextFate(old(fates)) && fates == Rest(old(fates))
    {
      f := Works;
      if fates != [] {
        f, fates := fates[0], fates[1..];
      }
    }

    method Get(slot: Slot) returns (r: Option<Blob>)
      modifies this`fates
      ensures r == Fetched(values, slot, NextFate(old(fates))) && fates == Rest(old(fates))
      ensures r.Some? <==> slot in values && (old(fates) == [] || old(fates)[0] == Works)
      ensures r.Some? ==> r.value == values[slot]
    {
      var f := TakeFate();
      r := if f == Works && slot in values then Some(values[slot]) else None;
    }

    method Put(slot: Slot, blob: Blob) returns (ok: bool)
      modifies this`fates, this`values
      ensures fates == Rest(old(fates)) && ok == (NextFate(old(fates)) == Works)
      ensures values == Stored(old(values), slot, blob, NextFate(old(fates)))
      ensures ok <==> old(fates) == [] || old(fates)[0] == Works
      ensures ok ==> values == old(values)[slot := blob]
      ensures !ok ==> values == old(values) || values == old(values)[slot := Junk]
    {
      var f := TakeFate();
      if f == Works {
        values := values[slot := blob];
      } else if f == BreaksOff {
        values := values[slot := Junk];
      }
      ok := f == Works;
    }

    /** Two Gets and the match; it is the two reading steps of whatever call it is part of. */
    method GetCertificate(name: string, ghost served: Option<Tls>, ghost job: Job, ghost again: bool)
      returns (r: Option<Tls>)
      modifies this`fates
      ensures r.Some? ==> Matches(r.value.cert, r.value.key)
      ensures Complete(old(At(served, Call(job, name, ReadCert(again)))), defaultName)
           == Complete(At(served, Call(job, name, AfterRead(job, again, r))), defaultName)
    {
      ghost var c0 := At(served, Call(job, name, ReadCert(again)));
      var cert := Get(Slot(name, CertFile));
      if cert.None? {
        assert Step(c0, defaultName) == At(served, Call(job, name, AfterRead(job, again, None)));
        return None;
      }
      ghost var c1 := At(served, Call(job, name, ReadKey(again, cert.value)));
      assert Step(c0, defaultName) == c1;
      var key := Get(Slot(name, KeyFile));
      if key.Some? && Matches(cert.value, key.value) {
        r := Some(Tls(cert.value, key.value));
      } else {
        r := None;
      }
      assert Step(c1, defaultName) == At(served, Call(job, name, AfterRead(job, again, r)));
    }

    /** Key generation and two Puts; it is the three issuing steps of whatever call it is part of. */
    method Issue(name: string, ghost served: Option<Tls>, ghost job: Job, ghost renewing: bool) returns (r: Option<Tls>)
      requires !job.Reading?
      modifies this`fates, this`values, this`owners
      ensures Complete(old(At(served, Call(job, name, Generate(renewing)))), defaultName)
           == Complete(At(served, Call(job, name, AfterIssue(job, renewing, r))), defaultName)
    {
      ghost var c0 := At(served, Call(job, name, Generate(renewing)));
      var target := if name == "" then defaultName else name;
      var f := TakeFate();
      if f != Works {
        assert Step(c0, defaultName) == At(served, Call(job, name, AfterIssue(job, renewing, None)));
        return None;
      }
      var i := |owners|;
      owners := owners + [target];
      ghost var c1 := At(served, Call(job, name, PutCert(renewing, i)));
      assert Step(c0, defaultName) == c1;
      assert Complete(c0, defaultName) == Complete(c1, defaultName);
      var ok := Put(Slot(target, CertFile), CertPem(i));
      if !ok {
        assert Step(c1, defaultName) == At(served, Call(job, name, AfterIssue(job, renewing, None)));
        return None;
      }
      ghost var c2 := At(served, Call(job, name, PutKey(renewing, i)));
      assert Step(c1, defaultName) == c2;
      assert Complete(c1, defaultName) == Complete(c2, defaultName);
      ok := Put(Slot(target, KeyFile), KeyPem(i));
      r := if ok then Some(Pair(i)) else None;
      assert Step(c2, defaultName) == At(served, Call(job, name, AfterIssue(job, renewing, r)));
    }
  }

  // ----- the manager as code -----

  class TlsManager {
    const store: SelfSignedStore
    const certName: string
    var cert: Option<Tls>

    /** What is in memory is whole. */
    ghost predicate Valid()
      reads this
    {
      cert.Some? ==> Matches(cert.value.cert, cert.value.key)
    }

    constructor (store: SelfSignedStore, certName: string)
      ensures Valid() && this.store == store && this.certName == certName && cert == None
    {
      this.store, this.certName, this.cert := store, certName, None;
    }

    /** `GetCertificate` of the manager: the answer to a handshake. */
    method Handshake() returns (r: Option<Tls>)
      requires Valid()
      ensures r == cert && (r.Some? ==> Matches(r.value.cert, r.value.key))
    {
      r := cert;
    }

    /** `loadOrBootstrap`: read, issue if that fails, read again, swap. */
    method LoadOrBootstrap(ghost job: Job) returns (ok: bool)
      requires Valid() && (job.Starting? || job.Ticking?)
      modifies this`cert, store`fates, store`values, store`owners
      ensures Valid()
      ensures ok ==> cert.Some? && Matches(cert.value.cert, cert.value.key)
      ensures !ok ==> cert == old(cert)
      ensures Complete(old(store.At(cert, Call(job, certName, ReadCert(false)))), store.defaultName)
           == store.At(cert, Call(job, certName, Finished(if ok then cert else None)))
    {
      var got := store.GetCertificate(certName, cert, job, false);
      if got.None? {
        var made := store.Issue(certName, cert, job, false);
        if made.None? {
          return false;
        }
        got := store.GetCertificate(certName, cert, job, true);
        if got.None? {
          return false;
        }
      }
      ghost var c := store.At(cert, Call(job, certName, Swap(got.value)));
      cert := got;
      assert Step(c, store.defaultName) == store.At(cert, Call(job, certName, Finished(cert)));
      ok := true;
    }

    /** One tick of the renewal loop: renew, and only if that works load again. */
    method Tick() returns (ok: bool)
      requires Valid()
      modifies this`cert, store`fates, store`values, store`owners
      ensures Valid()
      ensures ok ==> cert.Some? && Matches(cert.value.cert, cert.value.key)
      ensures !ok ==> cert == old(cert)
      ensures Complete(old(store.At(cert, Begun(Ticking, certName))), store.defaultName)
           == store.At(cert, Call(Ticking, certName, Finished(if ok then cert else None)))
    {
      var made := store.Issue(certName, cert, Ticking, true);
      if made.None? {
        return false;
      }
      ok := LoadOrBootstrap(Ticking);
    }
  }

  method NewTLSManager(store: SelfSignedStore, certName: string) returns (m: TlsManager, ok: bool)
    modifies store`fates, store`values, store`owners
    ensures fresh(m) && m.Valid() && m.store == store && m.certName == certName
    ensures ok <==> m.cert.Some?
    ensures ok ==> Matches(m.cert.value.cert, m.cert.value.key)
    ensures Complete(old(store.At(None, Begun(Starting, certName))), store.defaultName)
         == store.At(m.cert, Call(Starting, certName, Finished(m.cert)))
  {
    m := new TlsManager(store, certName);
    ok := m.LoadOrBootstrap(Starting);
  }

  /** A call that has ended, and then any number of ticks, each run to its end. */
  ghost function AfterTicks(c: Config, defaultName: string, certName: string, n: nat): Config {
    if n == 0 then c
    else Complete(AfterTicks(c, defaultName, certName, n - 1).(call := Begun(Ticking, certName)), defaultName)
  }

  /** A daemon's life: a start, any number of ticks with whatever failures the store has in it, and a handshake.
      If the start succeeded, the handshake is answered, with a matching pair. */
  method Serve(store: SelfSignedStore, certName: string, ticks: nat) returns (ok: bool, r: Option<Tls>)
    modifies store`fates, store`values, store`owners
    ensures ok ==> r.Some? && Matches(r.value.cert, r.value.key)
    ensures !ok ==> r == None
    ensures ok ==>
              var started := Complete(old(store.At(None, Begun(Starting, certName))), store.defaultName);
              r == AfterTicks(started, store.defaultName, certName, ticks).shared.served
  {
    var m;
    m, ok := NewTLSManager(store, certName);
    ghost var started := Complete(old(store.At(None, Begun(Starting, certName))), store.defaultName);
    if !ok {
      return ok, None;
    }
    for i := 0 to ticks
      invariant m.Valid() && m.cert.Some? && fresh(m) && m.store == store && m.certName == certName
      invariant var c := AfterTicks(started, store.defaultName, certName, i);
                c == store.At(m.cert, c.call)
    {
      var _ := m.Tick();
    }
    r := m.Handshake();
  }

  // ----- start-up recovery -----

  /** The store after an issue whose calls work. */
  function WithPair(values: map<Slot, Blob>, target: string, i: nat): map<Slot, Blob> {
    values[Slot(target, CertFile) := CertPem(i)][Slot(target, KeyFile) := KeyPem(i)]
  }

  function IssuedTo(c: Config, target: string): Config
    requires c.call.pc.Generate?
  {
    var i := |c.shared.owners|;
    var pc := AfterIssue(c.call.job, c.call.pc.renewing, Some(Pair(i)));
    var shared := Shared(WithPair(c.shared.values, target, i), c.shared.owners + [target], c.shared.served);
    Config(shared, [], c.call.(pc := pc))
  }

  /** Two reading steps that work give what is stored. */
  lemma ReadsStored(c: Config, defaultName: string)
    requires c.call.pc.ReadCert? && c.fates == []
    ensures var pc := AfterRead(c.call.job, c.call.pc.again, PairStored(c.shared.values, c.call.name));
            Complete(c, defaultName) == Complete(c.(call := c.call.(pc := pc)), defaultName)
  {
    var c1 := Step(c, defaultName);
    if c1.call.pc.ReadKey? {
      assert Complete(c1, defaultName) == Complete(Step(c1, defaultName), defaultName);
    }
  }

  /** Three issuing steps that work store a new pair under the target name. */
  lemma IssueStores(c: Config, defaultName: string)
    requires c.call.pc.Generate? && c.fates == [] && !c.call.job.Reading?
    ensures Complete(c, defaultName) == Complete(IssuedTo(c, Target(defaultName, c.call.name)), defaultName)
  {
    var c1 := Step(c, defaultName);
    var c2 := Step(c1, defaultName);
    assert Complete(c1, defaultName) == Complete(c2, defaultName) == Complete(Step(c2, defaultName), defaultName);
  }

  lemma SwapServes(c: Config, defaultName: string)
    requires c.call.pc.Swap?
    ensures Complete(c, defaultName)
         == Config(c.shared.(served := Some(c.call.pc.tls)), c.fates, c.call.(pc := Finished(Some(c.call.pc.tls))))
  {
    assert Complete(Step(c, defaultName), defaultName) == Step(c, defaultName);
  }

  /** From any store contents, when the store calls work, the manager starts exactly when the stored pair loads or
      the name it issues under is the name it reads; it then serves a matching pair, and it issues exactly when the
      stored pair does not load. */
  lemma StartupRecovery(shared: Shared, defaultName: string, name: string)
    ensures var end := Complete(Config(shared, [], Begun(Starting, name)), defaultName);
            && (end.call.pc.result.Some? <==> Loads(shared.values, name) || Target(defaultName, name) == name)
            && (end.call.pc.result.Some? ==>
                  && end.shared.served == end.call.pc.result
                  && Matches(end.shared.served.value.cert, end.shared.served.value.key))
            && (end.call.pc.result.None? ==> end.shared.served == shared.served)
            && (Loads(shared.values, name) ==>
                  end.shared == shared.(served := Some(LoadedPair(shared.values, name))))
            && (!Loads(shared.values, name) ==> end.shared.owners == shared.owners + [Target(defaultName, name)])
  {
    var c := Config(shared, [], Begun(Starting, name));
    ReadsStored(c, defaultName);
    if Loads(shared.values, name) {
      SwapServes(c.(call := c.call.(pc := Swap(LoadedPair(shared.values, name)))), defaultName);
    } else {
      Bootstrap(c.(call := c.call.(pc := Generate(false))), defaultName);
    }
  }

  /** The input on which it does not start: no name, any default name, and a store with nothing in it. It has issued
      a pair, under the default name. */
  lemma NamelessStart(defaultName: string)
    requires defaultName != ""
    ensures var end := Complete(Config(Shared(map[], [], None), [], Begun(Starting, "")), defaultName);
            end.call.pc.result == None && end.shared.served == None && end.shared.owners == [defaultName]
  {
    var shared := Shared(map[], [], None);
    StartupRecovery(shared, defaultName, "");
    assert shared.owners + [defaultName] == [defaultName];
  }

  /** The bootstrap part: issue, read again, swap if what is read is what was issued. */
  lemma Bootstrap(c: Config, defaultName: string)
    requires c.call.pc == Generate(false) && c.fates == [] && (c.call.job.Starting? || c.call.job.Ticking?)
    requires !Loads(c.shared.values, c.call.name)
    ensures var end := Complete(c, defaultName); var i := |c.shared.owners|;
            var target := Target(defaultName, c.call.name);
            && end.shared.owners == c.shared.owners + [target]
            && (target == c.call.name ==>
                  end.call.pc.result == Some(Pair(i)) && end.shared.served == end.call.pc.result)
            && (target != c.call.name ==> end.call.pc.result == None && end.shared.served == c.shared.served)
  {
    var target := Target(defaultName, c.call.name);
    var i := |c.shared.owners|;
    var values := WithPair(c.shared.values, target, i);
    var c1 := Config(Shared(values, c.shared.owners + [target], c.shared.served), [], c.call.(pc := ReadCert(true)));
    IssueStores(c, defaultName);
    ReadsStored(c1, defaultName);
    if target == c.call.name {
      assert Loads(values, c.call.name);
      SwapServes(c1.(call := c.call.(pc := Swap(Pair(i)))), defaultName);
    } else {
      assert Loads(values, c.call.name) == Loads(c.shared.values, c.call.name);
    }
  }

  /** A tick that fails to renew, at whichever of the three calls that takes, ends there: it reads nothing more, and
      what is served stays. */
  lemma FailedRenewal(shared: Shared, fates: seq<Fate>, defaultName: string, name: string, k: nat)
    requires k < 3 && k < |fates| && fates[k] != Works && forall j | 0 <= j < k :: fates[j] == Works
    ensures var end := Complete(Config(shared, fates, Begun(Ticking, name)), defaultName);
            && end.call.pc == Finished(None) && end.shared.served == shared.served
            && end.fates == fates[k + 1..]
            && (k == 0 ==> end.shared == shared)
  {
    var c := Config(shared, fates, Begun(Ticking, name));
    var c1 := Step(c, defaultName);
    if k > 0 {
      var c2 := Step(c1, defaultName);
      if k > 1 {
        assert Complete(c2, defaultName) == Step(c2, defaultName);
      } else {
        assert Complete(c1, defaultName) == c2;
      }
    } else {
      assert Complete(c, defaultName) == c1;
    }
  }

  /** One read that fails is enough for a start, and for a tick after its renewal, to issue a pair, whatever is stored
      and although every other call works; under the name it reads that is the pair it serves. */
  lemma FailedReadIssues(shared: Shared, f: Fate, defaultName: string, name: string)
    requires f != Works
    ensures var target := Target(defaultName, name); var i := |shared.owners|;
            var start := Complete(Config(shared, [f], Begun(Starting, name)), defaultName);
            var tick := Complete(Config(shared, [Works, Works, Works, f], Begun(Ticking, name)), defaultName);
            && start.shared.owners == shared.owners + [target]
            && tick.shared.owners == shared.owners + [target] + [target]
            && (target == name ==> start.shared.served == Some(Pair(i)) && tick.shared.served == Some(Pair(i + 1)))
  {
    StartMisreads(shared, f, defaultName, name);
    TickMisreads(Config(shared, [Works, Works, Works, f], Begun(Ticking, name)), f, defaultName);
  }

  lemma StartMisreads(shared: Shared, f: Fate, defaultName: string, name: string)
    requires f != Works
    ensures var target := Target(defaultName, name);
            var start := Complete(Config(shared, [f], Begun(Starting, name)), defaultName);
            && start.shared.owners == shared.owners + [target]
            && (target == name ==> start.shared.served == Some(Pair(|shared.owners|)))
  {
    MisreadIssues(Config(shared, [f], Begun(Starting, name)), defaultName, f);
  }

  lemma TickMisreads(c: Config, f: Fate, defaultName: string)
    requires f != Works && c.call == Begun(Ticking, c.call.name) && c.fates == [Works, Works, Works, f]
    ensures var target := Target(defaultName, c.call.name); var tick := Complete(c, defaultName);
            && tick.shared.owners == c.shared.owners + [target] + [target]
            && (target == c.call.name ==> tick.shared.served == Some(Pair(|c.shared.owners| + 1)))
  {
    var i, target := |c.shared.owners|, Target(defaultName, c.call.name);
    var renewed := Shared(WithPair(c.shared.values, target, i), c.shared.owners + [target], c.shared.served);
    RenewsFirst(c, defaultName, f);
    MisreadIssues(Config(renewed, [f], Call(Ticking, c.call.name, ReadCert(false))), defaultName, f);
  }

  /** A load whose first read fails. */
  lemma MisreadIssues(c: Config, defaultName: string, f: Fate)
    requires f != Works && c.fates == [f]
    requires c.call.pc == ReadCert(false) && (c.call.job.Starting? || c.call.job.Ticking?)
    ensures var target := Target(defaultName, c.call.name); var end := Complete(c, defaultName);
            && end.shared.owners == c.shared.owners + [target]
            && (target == c.call.name ==> end.shared.served == Some(Pair(|c.shared.owners|)))
  {
    MisreadGenerates(c, defaultName, f);
    IssuesAnew(Config(c.shared, [], c.call.(pc := Generate(false))), defaultName);
  }

  lemma MisreadGenerates(c: Config, defaultName: string, f: Fate)
    requires f != Works && c.fates == [f]
    requires c.call.pc == ReadCert(false) && (c.call.job.Starting? || c.call.job.Ticking?)
    ensures Complete(c, defaultName) == Complete(Config(c.shared, [], c.call.(pc := Generate(false))), defaultName)
  {
    assert Step(c, defaultName) == Config(c.shared, [], c.call.(pc := Generate(false)));
  }

  lemma RenewsFirst(c: Config, defaultName: string, f: Fate)
    requires c.call == Begun(Ticking, c.call.name) && c.fates == [Works, Works, Works, f]
    ensures var target := Target(defaultName, c.call.name);
            var renewed := Shared(WithPair(c.shared.values, target, |c.shared.owners|), c.shared.owners + [target],
                                  c.shared.served);
            var after := Config(renewed, [f], Call(Ticking, c.call.name, ReadCert(false)));
            Complete(c, defaultName) == Complete(after, defaultName)
  {
    var c1 := Step(c, defaultName);
    assert c1.fates == [Works, Works, f];
    var c2 := Step(c1, defaultName);
    assert c2.fates == [Works, f];
    var c3 := Step(c2, defaultName);
    assert c3.fates == [f];
    assert Complete(c1, defaultName) == Complete(c2, defaultName) == Complete(c3, defaultName);
  }

  /** The second half of a load whose first read has failed. */
  lemma IssuesAnew(c: Config, defaultName: string)
    requires c.call.pc == Generate(false) && c.fates == [] && (c.call.job.Starting? || c.call.job.Ticking?)
    ensures var target := Target(defaultName, c.call.name); var end := Complete(c, defaultName);
            && end.shared.owners == c.shared.owners + [target]
            && (target == c.call.name ==> end.shared.served == Some(Pair(|c.shared.owners|)))
  {
    var target := Target(defaultName, c.call.name);
    var i := |c.shared.owners|;
    var values := WithPair(c.shared.values, target, i);
    var c1 := Config(Shared(values, c.shared.owners + [target], c.shared.served), [], c.call.(pc := ReadCert(true)));
    IssueStores(c, defaultName);
    ReadsStored(c1, defaultName);
    if Loads(values, c.call.name) {
      SwapServes(c1.(call := c.call.(pc := Swap(LoadedPair(values, c.call.name)))), defaultName);
    }
    if target == c.call.name {
      assert Loads(values, c.call.name) && LoadedPair(values, c.call.name) == Pair(i);
    }
  }

  /** A tick whose calls all work serves the pair it has issued if it issues under the name it reads; otherwise it
      serves what loads under the name it reads, and if nothing does, what was served before. */
  lemma TickRenews(shared: Shared, defaultName: string, name: string)
    ensures var end := Complete(Config(shared, [], Begun(Ticking, name)), defaultName).shared;
            end.served == if Target(defaultName, name) == name then Some(Pair(|shared.owners|))
                          else if Loads(shared.values, name) then Some(LoadedPair(shared.values, name))
                          else shared.served
  {
    var i := |shared.owners|;
    var target := Target(defaultName, name);
    var c := Config(shared, [], Begun(Ticking, name));
    var values := WithPair(shared.values, target, i);
    var c1 := Config(Shared(values, shared.owners + [target], shared.served), [], c.call.(pc := ReadCert(false)));
    IssueStores(c, defaultName);
    ReadsStored(c1, defaultName);
    if target == name {
      assert Loads(values, name);
      SwapServes(c1.(call := c.call.(pc := Swap(Pair(i)))), defaultName);
    } else {
      assert Loads(values, name) == Loads(shared.values, name);
      if Loads(values, name) {
        SwapServes(c1.(call := c.call.(pc := Swap(LoadedPair(values, name)))), defaultName);
      } else {
        Bootstrap(c1.(call := c.call.(pc := Generate(false))), defaultName);
      }
    }
  }
}
