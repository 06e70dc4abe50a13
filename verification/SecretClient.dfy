// Any sequence of calls and writes by the callers of the in-memory secret store: each Get returns what was put last,
// each receive what was pending, and no two values handed out share a buffer.
module SecretClient {
  import opened Wrappers
  import opened SecretHeap

  // ----- what has happened -----

  /** What a call did. A Put names by number the channels whose slots it filled. */
  datatype Record =
    | DidPut(path: string, content: Content, filled: set<nat>)
    | DidDelete(path: string)
    | DidGet(path: string, got: Option<Content>)
    | DidReceive(channel: nat, got: Option<Content>)

  /** What was last put under a path and not deleted since. */
  ghost function LastPut(trace: seq<Record>, path: string): Option<Content> {
    if trace == [] then None
    else
      var front, last := trace[..|trace| - 1], trace[|trace| - 1];
      if last.DidPut? && last.path == path then Some(last.content)
      else if last.DidDelete? && last.path == path then None
      else LastPut(front, path)
  }

  /** What a channel was last filled with and has not delivered since. */
  ghost function Pending(trace: seq<Record>, channel: nat): Option<Content> {
    if trace == [] then None
    else
      var front, last := trace[..|trace| - 1], trace[|trace| - 1];
      if last.DidPut? && channel in last.filled then Some(last.content)
      else if last.DidReceive? && last.channel == channel then None
      else Pending(front, channel)
  }

  /** Every Get returned what was last put, every receive what was pending. */
  ghost predicate Truthful(trace: seq<Record>) {
    trace == []
    || (Truthful(trace[..|trace| - 1]) && TruthfulNext(trace[..|trace| - 1], trace[|trace| - 1]))
  }

  ghost predicate TruthfulNext(before: seq<Record>, r: Record) {
    match r
    case DidGet(path, got) => got == LastPut(before, path)
    case DidReceive(channel, got) => got == Pending(before, channel)
    case _ => true
  }

  lemma PutThen(trace: seq<Record>, r: Record, path: string)
    ensures LastPut(trace + [r], path)
         == if r.DidPut? && r.path == path then Some(r.content)
            else if r.DidDelete? && r.path == path then None
            else LastPut(trace, path)
  {
    assert (trace + [r])[..|trace|] == trace;
  }

  lemma PendingThen(trace: seq<Record>, r: Record, channel: nat)
    ensures Pending(trace + [r], channel)
         == if r.DidPut? && channel in r.filled then Some(r.content)
            else if r.DidReceive? && r.channel == channel then None
            else Pending(trace, channel)
  {
    assert (trace + [r])[..|trace|] == trace;
  }

  lemma TruthfulThen(trace: seq<Record>, r: Record)
    requires Truthful(trace) && TruthfulNext(trace, r)
    ensures Truthful(trace + [r])
  {
    assert (trace + [r])[..|trace|] == trace;
  }

  lemma {:induction false} TruthfulMeans(trace: seq<Record>, k: nat)
    requires Truthful(trace) && k < |trace|
    ensures trace[k].DidGet? ==> trace[k].got == LastPut(trace[..k], trace[k].path)
    ensures trace[k].DidReceive? ==> trace[k].got == Pending(trace[..k], trace[k].channel)
    decreases |trace|
  {
    if k < |trace| - 1 {
      TruthfulMeans(trace[..|trace| - 1], k);
      assert trace[..|trace| - 1][..k] == trace[..k];
    }
  }

  // ----- the callers -----

  /** No buffer in common. */
  ghost predicate Separate(u: SecretValue, v: SecretValue) {
    u != v && u.data != v.data && (u.metadata != null ==> u.metadata != v.metadata)
  }

  /** These values are what the trace says was last put. */
  ghost predicate ValuesFollow(values: map<string, SecretValue>, trace: seq<Record>)
    reads *
  {
    && (forall p :: p in values <==> LastPut(trace, p).Some?)
    && (forall p | p in values :: Some(values[p].meant) == LastPut(trace, p))
  }

  ghost predicate SlotFollows(slot: SecretValue?, pending: Option<Content>)
    reads *
  {
    if slot == null then pending == None else pending == Some(slot.meant)
  }

  /** These slots hold what the trace says is pending. */
  ghost predicate SlotsFollow(slots: seq<SecretValue?>, trace: seq<Record>)
    reads *
  {
    && (forall i | 0 <= i < |slots| :: SlotFollows(slots[i], Pending(trace, i)))
    && (forall i | i >= |slots| :: Pending(trace, i) == None)
  }

  ghost function SlotsOf(channels: seq<Channel>): (r: seq<SecretValue?>)
    reads channels
    ensures |r| == |channels| && forall i | 0 <= i < |channels| :: r[i] == channels[i].slot
  {
    seq(|channels|, i requires 0 <= i < |channels| reads channels => channels[i].slot)
  }

  /** After a Put of a content that filled some of the slots. */
  ghost predicate Filled(was: seq<SecretValue?>, slots: seq<SecretValue?>, filled: set<nat>, content: Content)
    reads *
  {
    && |was| == |slots| && (forall i | i in filled :: i < |slots|)
    && forall i | 0 <= i < |slots| ::
         if i in filled then was[i] == null && slots[i] != null && slots[i].meant == content else slots[i] == was[i]
  }

  /** Which slots a Put has filled: the empty ones of the channels it served. */
  lemma FilledBy(channels: seq<Channel>, was: seq<SecretValue?>, slots: map<Channel, SecretValue?>,
                 served: seq<Channel>, content: Content) returns (filled: set<nat>)
    requires |was| == |channels| && Fed(slots, served, content)
    requires forall i | 0 <= i < |channels| :: channels[i] in slots && was[i] == slots[channels[i]]
    ensures Filled(was, SlotsOf(channels), filled, content)
  {
    filled := set i | 0 <= i < |channels| && was[i] == null && channels[i] in served;
  }

  lemma PutFollows(was: map<string, SecretValue>, values: map<string, SecretValue>, trace: seq<Record>,
                   path: string, content: Content, filled: set<nat>)
    requires ValuesFollow(was, trace) && values.Keys == was.Keys + {path} && values[path].meant == content
    requires forall p | p in was && p != path :: values[p] == was[p]
    ensures ValuesFollow(values, trace + [DidPut(path, content, filled)])
  {
    var did := DidPut(path, content, filled);
    forall p ensures LastPut(trace + [did], p) == if p == path then Some(content) else LastPut(trace, p) {
      PutThen(trace, DidPut(path, content, filled), p);
    }
  }

  lemma FillFollows(was: seq<SecretValue?>, slots: seq<SecretValue?>, trace: seq<Record>,
                    path: string, content: Content, filled: set<nat>)
    requires SlotsFollow(was, trace) && Filled(was, slots, filled, content)
    ensures SlotsFollow(slots, trace + [DidPut(path, content, filled)])
  {
    var did := DidPut(path, content, filled);
    forall i: nat ensures Pending(trace + [did], i) == if i in filled then Some(content) else Pending(trace, i) {
      PendingThen(trace, did, i);
    }
  }

  lemma DeleteFollows(was: map<string, SecretValue>, slots: seq<SecretValue?>, trace: seq<Record>, path: string)
    requires ValuesFollow(was, trace) && SlotsFollow(slots, trace)
    ensures ValuesFollow(was - {path}, trace + [DidDelete(path)]) && SlotsFollow(slots, trace + [DidDelete(path)])
  {
    forall p ensures LastPut(trace + [DidDelete(path)], p) == if p == path then None else LastPut(trace, p) {
      PutThen(trace, DidDelete(path), p);
    }
    forall i: nat ensures Pending(trace + [DidDelete(path)], i) == Pending(trace, i) {
      PendingThen(trace, DidDelete(path), i);
    }
  }

  lemma ReceiveFollows(was: seq<SecretValue?>, slots: seq<SecretValue?>, values: map<string, SecretValue>,
                       trace: seq<Record>, did: Record)
    requires ValuesFollow(values, trace) && SlotsFollow(was, trace) && did.DidReceive? && did.channel < |was|
    requires slots == was[did.channel := null]
    ensures ValuesFollow(values, trace + [did]) && SlotsFollow(slots, trace + [did])
  {
    forall p ensures LastPut(trace + [did], p) == LastPut(trace, p) {
      PutThen(trace, did, p);
    }
    forall i: nat ensures Pending(trace + [did], i) == if i == did.channel then None else Pending(trace, i) {
      PendingThen(trace, did, i);
    }
  }

  ghost predicate AllForeign(store: MemoryStore, held: seq<SecretValue>)
    reads *
  {
    forall v | v in held :: store.Foreign(v)
  }

  ghost predicate PairwiseSeparate(given: seq<SecretValue>) {
    forall i, j | 0 <= i < j < |given| :: Separate(given[i], given[j])
  }

  /** The content of a Put, field by field; what is missing of the time is when the Put was made. */
  ghost predicate Puts(c: Content, data: seq<byte>, version: string, createdAt: int, expiresAt: Instant?,
                       metadata: Option<map<string, string>>, now: int)
  {
    && c.data == data && c.version == version && c.expiresAt == expiresAt && c.metadata == metadata
    && c.createdAt == if createdAt != 0 then createdAt else now
  }

  ghost predicate Says(said: Content, c: Content, now: int) {
    Puts(c, said.data, said.version, said.createdAt, said.expiresAt, said.metadata, now)
  }

  /** A call, or a write; values and channels are named by their number among those the callers have. */
  datatype Call =
    | CallPut(path: string, value: Option<nat>, now: int)
    | CallGet(path: string)
    | CallDelete(path: string)
    | CallWatch(path: string)
    | CallCancel(channel: nat)
    | CallReceive(channel: nat)
    | CallWrite(target: nat, edit: Edit)
    | CallShare(data: nat, metadata: nat, version: string, createdAt: int)
    | CallMake(bytes: seq<byte>, version: string, createdAt: int, expiry: Option<int>)

  /** What a call leaves in the record: nothing if it is none of these four, or names what is not there. */
  ghost predicate Fits(call: Call, did: Option<Record>) {
    match call
    case CallPut(path, value, now) =>
      && (did.None? ==> value.Some?)
      && (did.Some? ==> did.value.DidPut? && did.value.path == path)
      && (did.Some? && value.None? ==> Puts(did.value.content, [], "", 0, null, None, now))
    case CallGet(path) => did.Some? && did.value.DidGet? && did.value.path == path
    case CallDelete(path) => did == Some(DidDelete(path))
    case CallReceive(channel) => did.Some? ==> did.value.DidReceive? && did.value.channel == channel
    case _ => did == None
  }

  ghost predicate AllFit(calls: seq<Call>, dids: seq<Option<Record>>) {
    |dids| == |calls| && forall i | 0 <= i < |calls| :: Fits(calls[i], dids[i])
  }

  /** The records of a run of calls, and how many values these handed out. */
  ghost function Listed(dids: seq<Option<Record>>): seq<Record> {
    if dids == [] then []
    else
      var front, last := dids[..|dids| - 1], dids[|dids| - 1];
      if last.Some? then Listed(front) + [last.value] else Listed(front)
  }

  ghost predicate HandsOut(did: Option<Record>) {
    did.Some? && (did.value.DidGet? || did.value.DidReceive?) && did.value.got.Some?
  }

  ghost function HandedOut(dids: seq<Option<Record>>): nat {
    if dids == [] then 0
    else HandedOut(dids[..|dids| - 1]) + if HandsOut(dids[|dids| - 1]) then 1 else 0
  }

  lemma ListedThen(dids: seq<Option<Record>>, did: Option<Record>)
    ensures Listed(dids + [did]) == if did.Some? then Listed(dids) + [did.value] else Listed(dids)
    ensures HandedOut(dids + [did]) == HandedOut(dids) + if HandsOut(did) then 1 else 0
  {
    assert (dids + [did])[..|dids|] == dids;
  }

  lemma OneMore(calls: seq<Call>, i: nat, dids: seq<Option<Record>>, did: Option<Record>)
    requires i < |calls| && AllFit(calls[..i], dids) && Fits(calls[i], did)
    ensures AllFit(calls[..i + 1], dids + [did])
    ensures Listed(dids + [did]) == if did.Some? then Listed(dids) + [did.value] else Listed(dids)
    ensures HandedOut(dids + [did]) == HandedOut(dids) + if HandsOut(did) then 1 else 0
  {
    ListedThen(dids, did);
  }

  /** All callers of a store together: what they hold, and of that what the store gave them. */
  class Client {
    const store: MemoryStore
    var held: seq<SecretValue>
    var channels: seq<Channel>
    ghost var given: seq<SecretValue>
    ghost var trace: seq<Record>

    ghost predicate Holds()
      reads *
    {
      store.Valid() && AllForeign(store, held)
    }

    ghost predicate Shape()
      reads this, store`channels
    {
      && (forall v | v in given :: v in held) && PairwiseSeparate(given)
      && (forall c | c in channels :: c in store.channels)
      && (forall i, j | 0 <= i < j < |channels| :: channels[i] != channels[j])
    }

    ghost function Regions(): set<object>
      reads store, store.channels
    {
      set c, o | c in store.channels && o in c.region :: o
    }

    /** The buffers of everything pending. */
    ghost predicate RegionsIn(reach: set<object>)
      reads store`channels, store.channels`region
    {
      forall c | c in store.channels :: c.region <= reach
    }

    ghost predicate Follows(trace: seq<Record>)
      reads *
    {
      ValuesFollow(store.values, trace) && SlotsFollow(SlotsOf(channels), trace)
    }

    ghost predicate Valid()
      reads *
    {
      Holds() && Shape() && Follows(trace) && Truthful(trace)
    }

    constructor (store: MemoryStore)
      requires store.Valid() && store.values == map[]
      ensures Valid() && this.store == store && held == [] && given == [] && trace == []
    {
      this.store, this.held, this.channels, this.given, this.trace := store, [], [], [], [];
    }

    /** A record that changes nothing of what is stored or pending. */
    lemma GetFollows(trace: seq<Record>, did: Record)
      requires did.DidGet? && Follows(trace)
      ensures Follows(trace + [did])
    {
      forall p ensures LastPut(trace + [did], p) == LastPut(trace, p) {
        PutThen(trace, did, p);
      }
      forall i: nat ensures Pending(trace + [did], i) == Pending(trace, i) {
        PendingThen(trace, did, i);
      }
    }

    ghost method Note(did: Record)
      requires Holds() && Shape() && Follows(trace + [did]) && Truthful(trace) && TruthfulNext(trace, did)
      modifies this`trace
      ensures Valid() && trace == old(trace) + [did]
    {
      TruthfulThen(trace, did);
      trace := trace + [did];
    }

    /** The store hands out a value that shares no buffer with any held before. */
    method Accept(r: SecretValue)
      requires Holds() && Shape() && store.Foreign(r) && forall u | u in held :: Separate(u, r)
      modifies this`held, this`given
      ensures Holds() && Shape() && held == old(held) + [r] && given == old(given) + [r]
    {
      held, given := held + [r], given + [r];
    }

    method Fetch(path: string) returns (r: SecretValue?)
      requires Holds() && Shape()
      modifies this`held, this`given, store`handed
      ensures Holds() && Shape()
      ensures r == null <==> path !in store.values
      ensures r != null ==> AllNew(r) && r.View() == store.values[path].meant
      ensures r == null ==> held == old(held) && given == old(given)
      ensures r != null ==> held == old(held) + [r] && forall u | u in old(held) :: Separate(u, r)
      ensures r != null ==> given == old(given) + [r]
    {
      r := store.Get(path);
      if r != null {
        Accept(r);
      }
    }

    method Get(path: string) returns (r: SecretValue?)
      requires Valid()
      modifies this`held, this`given, this`trace, store`handed
      ensures Valid()
      ensures trace == old(trace) + [DidGet(path, if r == null then None else Some(r.View()))]
      ensures r != null ==> AllNew(r)
      ensures r == null ==> held == old(held) && given == old(given)
      ensures r != null ==> held == old(held) + [r] && forall u | u in old(held) :: Separate(u, r)
      ensures r != null ==> given == old(given) + [r]
    {
      r := Fetch(path);
      ghost var did := DidGet(path, if r == null then None else Some(r.View()));
      GetFollows(trace, did);
      Note(did);
    }

    ghost method NotePut(values: map<string, SecretValue>, slots: seq<SecretValue?>, path: string, content: Content,
                         filled: set<nat>)
      requires Holds() && Shape() && Truthful(trace)
      requires ValuesFollow(values, trace) && SlotsFollow(slots, trace)
      requires store.values.Keys == values.Keys + {path} && store.values[path].meant == content
      requires forall p | p in values && p != path :: store.values[p] == values[p]
      requires Filled(slots, SlotsOf(channels), filled, content)
      modifies this`trace
      ensures Valid() && trace == old(trace) + [DidPut(path, content, filled)]
    {
      PutFollows(values, store.values, trace, path, content, filled);
      FillFollows(slots, SlotsOf(channels), trace, path, content, filled);
      Note(DidPut(path, content, filled));
    }

    /** The heap part of a Put. */
    method PutValue(path: string, value: SecretValue?, now: int, ghost reach: set<object>)
      returns (panicked: bool, ghost more: set<object>, ghost served: seq<Channel>)
      requires RegionsIn(reach) && Holds() && (value != null ==> store.Foreign(value))
      modifies store`values, store`stored, store.channels`slot, store.channels`region
      ensures Holds()
      ensures store.values.Keys == old(store.values.Keys) + {path}
      ensures store.values[path].meant == Dated(old(ViewOf(value)), now)
      ensures forall p | p in old(store.values) && p != path :: store.values[p] == old(store.values[p])
      ensures Fed(old(Slots(store.channels)), served, store.values[path].meant)
      ensures RegionsIn(more) && fresh(more - reach) && reach <= more
    {
      ghost var n;
      panicked, n := store.Put(path, value, now);
      served := store.List(path)[..n];
      more := reach + Regions();
    }

    /** What was stored and pending before still says what it said. */
    method PutKeeping(path: string, value: SecretValue?, now: int, ghost reach: set<object>,
                      ghost was: map<string, SecretValue>, ghost slots: seq<SecretValue?>)
      returns (panicked: bool, ghost more: set<object>, ghost served: seq<Channel>)
      requires RegionsIn(reach) && Holds() && (value != null ==> store.Foreign(value))
      requires ValuesFollow(was, trace) && SlotsFollow(slots, trace)
      modifies store`values, store`stored, store.channels`slot, store.channels`region
      ensures Holds() && ValuesFollow(was, trace) && SlotsFollow(slots, trace)
      ensures store.values.Keys == old(store.values.Keys) + {path}
      ensures store.values[path].meant == Dated(old(ViewOf(value)), now)
      ensures forall p | p in old(store.values) && p != path :: store.values[p] == old(store.values[p])
      ensures Fed(old(Slots(store.channels)), served, store.values[path].meant)
      ensures RegionsIn(more) && fresh(more - reach) && reach <= more
    {
      panicked, more, served := PutValue(path, value, now, reach);
    }

    /** And which of the callers' slots it has filled. */
    method PutFilling(path: string, value: SecretValue?, now: int, ghost reach: set<object>)
      returns (panicked: bool, ghost filled: set<nat>, ghost more: set<object>)
      requires RegionsIn(reach) && Holds() && Shape() && Follows(trace) && (value != null ==> store.Foreign(value))
      modifies store`values, store`stored, store.channels`slot, store.channels`region
      ensures Holds() && ValuesFollow(old(store.values), trace) && SlotsFollow(old(SlotsOf(channels)), trace)
      ensures store.values.Keys == old(store.values.Keys) + {path}
      ensures store.values[path].meant == Dated(old(ViewOf(value)), now)
      ensures forall p | p in old(store.values) && p != path :: store.values[p] == old(store.values[p])
      ensures Filled(old(SlotsOf(channels)), SlotsOf(channels), filled, store.values[path].meant)
      ensures RegionsIn(more) && fresh(more - reach) && reach <= more
    {
      ghost var was := SlotsOf(channels);
      ghost var served;
      panicked, more, served := PutKeeping(path, value, now, reach, store.values, was);
      filled := FilledBy(channels, was, old(Slots(store.channels)), served, store.values[path].meant);
    }

    method PutAt(path: string, value: SecretValue?, now: int, ghost reach: set<object>)
      returns (panicked: bool, ghost filled: set<nat>, ghost more: set<object>)
      requires RegionsIn(reach) && Valid() && (value != null ==> store.Foreign(value))
      modifies this`trace, store`values, store`stored, store.channels`slot, store.channels`region
      ensures Valid() && RegionsIn(more) && fresh(more - reach) && reach <= more
      ensures trace == old(trace) + [DidPut(path, Dated(old(ViewOf(value)), now), filled)]
    {
      ghost var values, slots := store.values, SlotsOf(channels);
      panicked, filled, more := PutFilling(path, value, now, reach);
      NotePut(values, slots, path, store.values[path].meant, filled);
    }

    method Put(path: string, value: Option<nat>, now: int, ghost reach: set<object>)
      returns (panicked: bool, ghost filled: set<nat>, ghost more: set<object>)
      requires RegionsIn(reach) && Valid() && (value.Some? ==> value.value < |held|)
      modifies this`trace, store`values, store`stored, store.channels`slot, store.channels`region
      ensures Valid() && RegionsIn(more) && fresh(more - reach) && reach <= more
      ensures |trace| == |old(trace)| + 1 && trace[..|old(trace)|] == old(trace)
      ensures var did := trace[|old(trace)|];
              && did.DidPut? && did.path == path && did.filled == filled
              && (if value.None? then Puts(did.content, [], "", 0, null, None, now)
                  else Says(old(held[value.value].View()), did.content, now))
    {
      var v: SecretValue? := null;
      if value.Some? {
        v := held[value.value];
        assert v in held;
      }
      panicked, filled, more := PutAt(path, v, now, reach);
    }

    method Delete(path: string)
      requires Valid()
      modifies this`trace, store`values
      ensures Valid() && trace == old(trace) + [DidDelete(path)]
    {
      ghost var values := store.values;
      store.Delete(path);
      DeleteFollows(values, SlotsOf(channels), trace, path);
      Note(DidDelete(path));
    }

    /** A watcher for a path; it has nothing pending yet. */
    method Watch(path: string)
      requires Valid()
      modifies this`channels, store`watchers, store`channels
      ensures Valid() && |channels| == |old(channels)| + 1 && channels[..|old(channels)|] == old(channels)
      ensures fresh(channels[|old(channels)|]) && channels[|old(channels)|].region == {}
      ensures store.channels == old(store.channels) + {channels[|old(channels)|]}
    {
      var c := store.Watch(path);
      Listen(c);
    }

    /** The callers take hold of a channel that is empty. */
    method Listen(c: Channel)
      requires Valid() && c in store.channels && c !in channels && c.slot == null
      modifies this`channels
      ensures Valid() && channels == old(channels) + [c]
    {
      ghost var slots := SlotsOf(channels);
      channels := channels + [c];
      assert SlotsOf(channels) == slots + [null];
    }

    method Cancel(channel: nat, c: Channel)
      requires Valid() && channel < |channels| && channels[channel] == c && !c.closed
      modifies c`closed
      ensures Valid() && c.closed
    {
      store.Cancel(c);
    }

    /** The heap part of a receive. */
    method Take(channel: nat, c: Channel) returns (r: SecretValue?)
      requires Holds() && Shape() && channel < |channels| && channels[channel] == c
      modifies this`held, this`given, store`handed, c`slot, c`region
      ensures Holds() && Shape() && c.slot == null && c.region == {}
      ensures r != null ==> r.Within(old(c.region))
      ensures r == old(c.slot) && (r != null ==> r.View() == old(r.meant))
      ensures r == null ==> held == old(held) && given == old(given)
      ensures r != null ==> held == old(held) + [r] && forall u | u in old(held) :: Separate(u, r)
      ensures r != null ==> given == old(given) + [r]
    {
      assert forall u | u in held :: store.Foreign(u);
      r := store.Receive(c);
      if r != null {
        assert forall u | u in held :: Separate(u, r);
        Accept(r);
      }
    }

    method Receive(channel: nat, c: Channel) returns (r: SecretValue?)
      requires Valid() && channel < |channels| && channels[channel] == c
      modifies this`held, this`given, this`trace, store`handed, c`slot, c`region
      ensures Valid()
      ensures trace == old(trace) + [DidReceive(channel, if r == null then None else Some(r.View()))]
      ensures c.region == {} && (r != null ==> r.Within(old(c.region)))
      ensures r == null ==> held == old(held) && given == old(given)
      ensures r != null ==> held == old(held) + [r] && forall u | u in old(held) :: Separate(u, r)
      ensures r != null ==> given == old(given) + [r]
    {
      ghost var slots := SlotsOf(channels);
      r := Take(channel, c);
      ghost var did := DidReceive(channel, if r == null then None else Some(r.View()));
      ReceiveFollows(slots, SlotsOf(channels), store.values, trace, did);
      Note(did);
    }

    /** The caller writes to something it holds. */
    method WriteTo(v: SecretValue, edit: Edit)
      requires Valid() && v in held
      modifies v`version, v.data, v.metadata
      ensures Valid() && Shows(v, edit)
    {
      Write(store, v, edit);
    }

    /** The caller takes hold of a value whose buffers the store does not use. */
    method Keep(v: SecretValue)
      requires Valid() && store.Foreign(v)
      modifies this`held
      ensures Valid() && held == old(held) + [v]
    {
      held := held + [v];
    }

    /** The caller makes a value from buffers of others it holds, which then share them. */
    method Share(data: nat, metadata: nat, version: string, createdAt: int) returns (v: SecretValue)
      requires Valid() && data < |held| && metadata < |held|
      modifies this`held
      ensures Valid() && fresh(v) && held == old(held) + [v]
      ensures v.data == held[data].data && v.metadata == held[metadata].metadata
      ensures v.version == version && v.createdAt == createdAt && v.expiresAt == held[data].expiresAt
    {
      v := new SecretValue(held[data].data, version, createdAt, held[data].expiresAt, held[metadata].metadata);
      assert held[data] in held && held[metadata] in held;
      Keep(v);
    }

    /** The caller makes a value of its own, with an expiry or without. */
    method Make(bytes: seq<byte>, version: string, createdAt: int, expiry: Option<int>) returns (v: SecretValue)
      requires Valid()
      modifies this`held
      ensures Valid() && fresh(v) && fresh(v.data) && v.metadata != null && fresh(v.metadata) && held == old(held) + [v]
      ensures v.data[..] == bytes && v.version == version && v.createdAt == createdAt
      ensures expiry.Some? <==> v.expiresAt != null
      ensures expiry.Some? ==> fresh(v.expiresAt) && v.expiresAt.unix == expiry.value
    {
      v := MakeValue(bytes, version, createdAt, expiry);
      Keep(v);
    }

    method MakeValue(bytes: seq<byte>, version: string, createdAt: int, expiry: Option<int>) returns (v: SecretValue)
      ensures AllNew(v) && v.metadata != null
      ensures v.data[..] == bytes && v.version == version && v.createdAt == createdAt
      ensures expiry.Some? <==> v.expiresAt != null
      ensures expiry.Some? ==> fresh(v.expiresAt) && v.expiresAt.unix == expiry.value
    {
      var data := new byte[|bytes|](i requires 0 <= i < |bytes| => bytes[i]);
      var metadata := new Metadata();
      var expires: Instant? := null;
      if expiry.Some? {
        expires := new Instant(expiry.value);
      }
      v := new SecretValue(data, version, createdAt, expires, metadata);
    }

    /** These are all objects that calls and writes can change. */
    ghost predicate Reaches(reach: set<object>)
      reads *
    {
      && this in reach && store in reach
      && (forall v | v in held :: v.Within(reach))
      && store.channels <= reach && RegionsIn(reach)
    }

    /** How every call leaves things: all is well, only new objects are within reach besides the old ones, what it did
        is recorded, and what it handed out is among the values given. */
    twostate predicate Went(reach: set<object>, new more: set<object>, new did: Option<Record>)
      reads *
    {
      && Valid() && Reaches(more) && reach <= more && fresh(more - reach)
      && trace == (if did.Some? then old(trace) + [did.value] else old(trace))
      && |given| == |old(given)| + if HandsOut(did) then 1 else 0
    }

    method DoPut(path: string, value: Option<nat>, now: int, ghost reach: set<object>)
      returns (ghost more: set<object>, ghost did: Option<Record>)
      requires Valid() && Reaches(reach)
      modifies reach
      ensures Went(reach, more, did) && Fits(CallPut(path, value, now), did)
      ensures did.Some? <==> value.None? || value.value < |old(held)|
      ensures did.Some? && value.Some? ==> Says(old(held[value.value].View()), did.value.content, now)
    {
      more, did := reach, None;
      if value.None? || value.value < |held| {
        var panicked;
        ghost var filled;
        panicked, filled, more := Put(path, value, now, reach);
        did := Some(trace[|trace| - 1]);
      }
    }

    method DoGet(path: string, ghost reach: set<object>) returns (ghost more: set<object>, ghost did: Option<Record>)
      requires Valid() && Reaches(reach)
      modifies reach
      ensures Went(reach, more, did) && Fits(CallGet(path), did)
    {
      more := reach;
      var r := Get(path);
      if r != null {
        more := r.AddTo(reach);
      }
      did := Some(DidGet(path, if r == null then None else Some(r.View())));
    }

    method DoDelete(path: string, ghost reach: set<object>)
      returns (ghost more: set<object>, ghost did: Option<Record>)
      requires Valid() && Reaches(reach)
      modifies reach
      ensures Went(reach, more, did) && Fits(CallDelete(path), did)
    {
      more, did := reach, Some(DidDelete(path));
      Delete(path);
      assert RegionsIn(reach);
      assert Reaches(reach);
    }

    method DoWatch(path: string, ghost reach: set<object>) returns (ghost more: set<object>)
      requires Valid() && Reaches(reach)
      modifies reach
      ensures Went(reach, more, None) && |channels| == |old(channels)| + 1
    {
      more := reach;
      Watch(path);
      more := reach + {channels[|channels| - 1]};
    }

    method DoCancel(channel: nat, ghost reach: set<object>) returns (ghost more: set<object>)
      requires Valid() && Reaches(reach)
      modifies reach
      ensures Went(reach, more, None) && channels == old(channels)
      ensures channel < |channels| ==> channels[channel].closed
    {
      more := reach;
      if channel < |channels| && !channels[channel].closed {
        Cancel(channel, channels[channel]);
      }
    }

    method DoReceive(channel: nat, ghost reach: set<object>)
      returns (ghost more: set<object>, ghost did: Option<Record>)
      requires Valid() && Reaches(reach)
      modifies reach
      ensures Went(reach, more, did) && Fits(CallReceive(channel), did)
      ensures did.Some? <==> channel < |old(channels)|
    {
      more, did := reach, None;
      if channel < |channels| {
        var r := Receive(channel, channels[channel]);
        did := Some(DidReceive(channel, if r == null then None else Some(r.View())));
      }
    }

    method DoWrite(target: nat, edit: Edit, ghost reach: set<object>) returns (ghost more: set<object>)
      requires Valid() && Reaches(reach)
      modifies reach
      ensures Went(reach, more, None) && held == old(held) && channels == old(channels)
      ensures target < |held| ==> Shows(held[target], edit)
    {
      more := reach;
      if target < |held| {
        assert held[target] in held;
        WriteTo(held[target], edit);
      }
    }

    method DoShare(data: nat, metadata: nat, version: string, createdAt: int, ghost reach: set<object>)
      returns (ghost more: set<object>)
      requires Valid() && Reaches(reach)
      modifies reach
      ensures Went(reach, more, None)
      ensures data < |old(held)| && metadata < |old(held)| ==> |held| == |old(held)| + 1
    {
      more := reach;
      if data < |held| && metadata < |held| {
        assert held[data] in held && held[metadata] in held;
        var v := Share(data, metadata, version, createdAt);
        more := v.AddTo(reach);
      }
    }

    method DoMake(bytes: seq<byte>, version: string, createdAt: int, expiry: Option<int>, ghost reach: set<object>)
      returns (ghost more: set<object>)
      requires Valid() && Reaches(reach)
      modifies reach
      ensures Went(reach, more, None) && |held| == |old(held)| + 1
    {
      more := reach;
      var v := Make(bytes, version, createdAt, expiry);
      more := v.AddTo(reach);
    }

    /** One call or write; one that names what is not there does nothing. */
    method Do(call: Call, ghost reach: set<object>) returns (ghost more: set<object>, ghost did: Option<Record>)
      requires Valid() && Reaches(reach)
      modifies reach
      ensures Went(reach, more, did) && Fits(call, did)
      ensures call.CallPut? && call.value.Some? && call.value.value < |old(held)| ==> did.Some?
      ensures call.CallReceive? && call.channel < |old(channels)| ==> did.Some?
      ensures call.CallWatch? ==> |channels| == |old(channels)| + 1
      ensures call.CallCancel? && call.channel < |old(channels)| ==>
                channels == old(channels) && channels[call.channel].closed
      ensures call.CallWrite? && call.target < |old(held)| ==> held == old(held) && Shows(held[call.target], call.edit)
      ensures call.CallMake? ==> |held| == |old(held)| + 1
      ensures call.CallShare? && call.data < |old(held)| && call.metadata < |old(held)| ==> |held| == |old(held)| + 1
    {
      did := None;
      match call
      case CallPut(path, value, now) => more, did := DoPut(path, value, now, reach);
      case CallGet(path) => more, did := DoGet(path, reach);
      case CallDelete(path) => more, did := DoDelete(path, reach);
      case CallWatch(path) => more := DoWatch(path, reach);
      case CallCancel(channel) => more := DoCancel(channel, reach);
      case CallReceive(channel) => more, did := DoReceive(channel, reach);
      case CallWrite(target, edit) => more := DoWrite(target, edit, reach);
      case CallShare(data, metadata, version, createdAt) => more := DoShare(data, metadata, version, createdAt, reach);
      case CallMake(bytes, version, createdAt, expiry) => more := DoMake(bytes, version, createdAt, expiry, reach);
    }

    /** Any sequence of them, each recorded: every Get returns what was last put, every receive what was pending, and
        the values handed out share no buffers. */
    method Run(calls: seq<Call>, ghost reach: set<object>) returns (ghost dids: seq<Option<Record>>)
      requires Valid() && Reaches(reach)
      modifies reach
      ensures Valid() && Truthful(trace) && PairwiseSeparate(given)
      ensures AllFit(calls, dids)
      ensures trace == old(trace) + Listed(dids) && |given| == |old(given)| + HandedOut(dids)
    {
      ghost var now, did := reach, None;
      dids := [];
      for i := 0 to |calls|
        invariant Valid() && Reaches(now) && reach <= now && fresh(now - reach)
        invariant AllFit(calls[..i], dids)
        invariant trace == old(trace) + Listed(dids) && |given| == |old(given)| + HandedOut(dids)
      {
        now, did := Do(calls[i], now);
        OneMore(calls, i, dids, did);
        dids := dids + [did];
      }
      assert calls[..|calls|] == calls;
    }
  }

  /** A new store, and anything at all done with it. */
  method Anything(calls: seq<Call>) returns (client: Client, ghost dids: seq<Option<Record>>)
    ensures Truthful(client.trace) && PairwiseSeparate(client.given)
    ensures AllFit(calls, dids)
    ensures client.trace == Listed(dids) && |client.given| == HandedOut(dids)
  {
    var store := new MemoryStore();
    client := new Client(store);
    dids := client.Run(calls, {client, store});
  }
}
