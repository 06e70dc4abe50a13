// The in-memory secret store as objects on a heap: which buffers callers, channels and the store share.
module SecretHeap {
  import opened Wrappers

  /** A point in time behind a pointer, as `ExpiresAt` holds it. */
  class Instant {
    var unix: int

    constructor (unix: int)
      ensures this.unix == unix
    {
      this.unix := unix;
    }
  }

  class Metadata {
    var entries: map<string, string>

    constructor ()
      ensures entries == map[]
    {
      entries := map[];
    }
  }

  /** A secret; which buffers it points to is settled when it is made, what is in them is not. */
  class SecretValue {
    const data: array<byte>
    const metadata: Metadata?
    var version: string
    var createdAt: int
    var expiresAt: Instant?
    /** What the store made it to say. */
    ghost var meant: Content

    constructor (data: array<byte>, version: string, createdAt: int, expiresAt: Instant?, metadata: Metadata?)
      ensures this.data == data && this.version == version && this.createdAt == createdAt
      ensures this.expiresAt == expiresAt && this.metadata == metadata
    {
      this.data, this.version, this.createdAt := data, version, createdAt;
      this.expiresAt, this.metadata := expiresAt, metadata;
      this.meant := Blank();
    }

    ghost predicate Within(region: set<object>) {
      this in region && data in region && (metadata != null ==> metadata in region)
    }

    /** The store's own value: it says what it was made to say. */
    ghost predicate Kept(region: set<object>)
      reads this, data, metadata
    {
      Within(region) && View() == meant
    }

    ghost predicate Apart(region: set<object>) {
      this !in region && data !in region && (metadata != null ==> metadata !in region)
    }

    ghost function AddTo(region: set<object>): set<object> {
      var more := region + {this, data};
      if metadata == null then more else more + {metadata as object}
    }

    ghost function View(): Content
      reads this, data, metadata
    {
      Content(data[..], version, createdAt, expiresAt, if metadata == null then None else Some(metadata.entries))
    }
  }

  /** What a value says; the expiry is the pointer itself. A creation time of 0 is the zero time. */
  datatype Content = Content(data: seq<byte>, version: string, createdAt: int, expiresAt: Instant?,
                             metadata: Option<map<string, string>>)

  ghost function Blank(): Content {
    Content([], "", 0, null, None)
  }

  method CloneBytes(data: array<byte>) returns (r: array<byte>)
    ensures fresh(r) && r[..] == data[..]
  {
    r := new byte[data.Length];
    var i := 0;
    while i < data.Length
      invariant 0 <= i <= data.Length
      invariant r[..i] == data[..i]
    {
      r[i] := data[i];
      i := i + 1;
    }
  }

  method CloneEntries(m: Metadata) returns (r: Metadata)
    ensures fresh(r) && r.entries == m.entries
  {
    r := new Metadata();
    var todo := m.entries.Keys;
    while todo != {}
      invariant todo <= m.entries.Keys
      invariant r.entries.Keys == m.entries.Keys - todo
      invariant forall key | key in r.entries :: r.entries[key] == m.entries[key]
      decreases todo
    {
      var key :| key in todo;
      r.entries := r.entries[key := m.entries[key]];
      todo := todo - {key};
    }
  }

  /** The value and its buffers were made in between. */
  twostate predicate AllNew(new v: SecretValue) {
    fresh(v) && fresh(v.data) && (v.metadata != null ==> fresh(v.metadata))
  }

  /** `cloneSecretValue`: new buffers with the same content, the same expiry pointer. */
  method CloneSecretValue(v: SecretValue?) returns (r: SecretValue)
    ensures AllNew(r) && r.meant == r.View()
    ensures r.View() == if v == null then Blank() else v.View()
  {
    if v == null {
      var none := new byte[0];
      r := new SecretValue(none, "", 0, null, null);
      r.meant := r.View();
      return;
    }
    var data := CloneBytes(v.data);
    var metadata: Metadata? := null;
    if v.metadata != null {
      metadata := CloneEntries(v.metadata);
    }
    r := new SecretValue(data, v.version, v.createdAt, v.expiresAt, metadata);
    r.meant := r.View();
  }

  /** A private copy with its creation time filled in. */
  method DatedCopy(value: SecretValue?, now: int) returns (copy: SecretValue)
    ensures AllNew(copy) && copy.meant == copy.View()
    ensures copy.View() == Dated(ViewOf(value), now)
  {
    copy := CloneSecretValue(value);
    if copy.createdAt == 0 {
      copy.createdAt := now;
      copy.meant := copy.View();
    }
  }

  /** A write by whoever holds the value. */
  datatype Edit =
    | SetByte(at: nat, b: byte)
    | SetEntry(key: string, entry: string)
    | DropEntry(key: string)
    | SetVersion(version: string)

  class Channel {
    var slot: SecretValue?
    var closed: bool
    /** The buffers of the value that waits here. */
    ghost var region: set<object>

    constructor ()
      ensures slot == null && !closed && region == {}
    {
      slot, closed, region := null, false, {};
    }
  }

  /** What `Put` stores for a content: the time is filled in when it is missing. */
  ghost function Dated(c: Content, now: int): (r: Content)
    ensures r.data == c.data && r.version == c.version && r.expiresAt == c.expiresAt && r.metadata == c.metadata
    ensures r.createdAt == if c.createdAt != 0 then c.createdAt else now
  {
    if c.createdAt == 0 then c.(createdAt := now) else c
  }

  /** Every stored value lies in the store's own buffers. */
  ghost predicate ValuesOk(values: map<string, SecretValue>, stored: set<object>)
    reads *
  {
    forall p | p in values :: values[p].Kept(stored)
  }

  ghost predicate SlotOk(c: Channel)
    reads *
  {
    c.slot != null ==> c.slot.Kept(c.region)
  }

  ghost predicate SlotsOk(channels: set<Channel>, stored: set<object>, handed: set<object>)
    reads *
  {
    && (forall c | c in channels :: SlotOk(c) && c.region !! stored && c.region !! handed)
    && (forall c, d | c in channels && d in channels && c != d :: c.region !! d.region)
  }

  /** The channels before the first closed one are the first `n`; there is a closed one exactly if `n` is short. */
  ghost predicate OpenUpTo(list: seq<Channel>, n: nat)
    reads list
  {
    n <= |list| && (forall i | 0 <= i < n :: !list[i].closed) && (n < |list| ==> list[n].closed)
  }

  ghost function Slots(channels: set<Channel>): map<Channel, SecretValue?>
    reads channels
  {
    map c | c in channels :: c.slot
  }

  /** The slots after a content was offered to some channels in turn: empty ones hold it, full ones what they held. */
  ghost predicate Fed(was: map<Channel, SecretValue?>, served: seq<Channel>, content: Content)
    reads *
  {
    forall c | c in was ::
      if was[c] == null && c in served then c.slot != null && c.slot.meant == content else c.slot == was[c]
  }

  ghost function ViewOf(v: SecretValue?): Content
    reads *
  {
    if v == null then Blank() else v.View()
  }

  class MemoryStore {
    var values: map<string, SecretValue>
    var watchers: map<string, seq<Channel>>
    /** The buffers of stored values and those of the values handed out. */
    ghost var stored: set<object>
    ghost var handed: set<object>
    ghost var channels: set<Channel>

    /** Each buffer has one holder: the stored values, one channel, or the callers. */
    ghost predicate Sound()
      reads *
    {
      && ValuesOk(values, stored)
      && stored !! handed
      && SlotsOk(channels, stored, handed)
    }

    ghost predicate Valid()
      reads *
    {
      Sound() && forall p | p in watchers :: forall c | c in watchers[p] :: c in channels
    }

    function List(path: string): seq<Channel>
      reads this`watchers
    {
      if path in watchers then watchers[path] else []
    }

    /** The store has no use for any buffer of the value. */
    ghost predicate Foreign(v: SecretValue)
      reads this`stored, this`channels, channels`region
    {
      v.Apart(stored) && forall c | c in channels :: v.Apart(c.region)
    }

    constructor ()
      ensures Valid() && values == map[] && handed == {} && channels == {} && watchers == map[]
    {
      values, watchers := map[], map[];
      stored, handed, channels := {}, {}, {};
    }

    /** A copy in buffers nobody else has ever held. */
    method Get(path: string) returns (r: SecretValue?)
      requires Valid()
      modifies this`handed
      ensures Valid()
      ensures r == null <==> path !in values
      ensures r != null ==> AllNew(r) && r.View() == values[path].meant && handed == r.AddTo(old(handed))
      ensures r == null ==> handed == old(handed)
      ensures r != null ==> Foreign(r)
    {
      r := null;
      if path in values {
        r := CloneSecretValue(values[path]);
        handed := r.AddTo(handed);
      }
    }

    /** The first half of `Put`: the copy becomes the stored value. */
    method StoreCopy(path: string, value: SecretValue?, now: int)
      requires Sound()
      modifies this`values, this`stored
      ensures Sound() && values.Keys == old(values.Keys) + {path}
      ensures values[path].meant == Dated(old(ViewOf(value)), now)
      ensures forall p | p in old(values) && p != path :: values[p] == old(values[p])
      ensures fresh(stored - old(stored))
    {
      var copy := DatedCopy(value, now);
      Install(path, copy);
    }

    /** A value nobody else holds becomes the stored one. */
    method Install(path: string, copy: SecretValue)
      requires Sound() && Foreign(copy) && copy.Apart(handed) && copy.meant == copy.View()
      modifies this`values, this`stored
      ensures Sound() && values == old(values)[path := copy] && stored == copy.AddTo(old(stored))
    {
      values, stored := values[path := copy], copy.AddTo(stored);
    }

    /** A send that finds the slot empty. */
    method Fill(c: Channel, path: string)
      requires Sound() && c in channels && path in values && c.slot == null
      modifies c`slot, c`region
      ensures Sound() && c.slot != null && c.slot.meant == values[path].meant
      ensures fresh(c.region)
    {
      var copy := CloneSecretValue(values[path]);
      Place(c, copy);
    }

    /** A value nobody else holds is what waits in the channel. */
    method Place(c: Channel, copy: SecretValue)
      requires Sound() && c in channels && Foreign(copy) && copy.Apart(handed) && copy.meant == copy.View()
      modifies c`slot, c`region
      ensures Sound() && c.slot == copy && c.region == copy.AddTo({})
    {
      c.slot, c.region := copy, copy.AddTo({});
    }

    /** One non-blocking send of a copy of the stored value, after the same was sent to the channels `served`. */
    method Offer(c: Channel, path: string, ghost was: map<Channel, SecretValue?>, ghost served: seq<Channel>)
      requires Sound() && c in channels && path in values
      requires was.Keys == channels && Fed(was, served, values[path].meant)
      modifies c`slot, c`region
      ensures Sound() && Fed(was, served + [c], values[path].meant)
      ensures fresh(c.region - old(c.region))
    {
      if c.slot == null {
        Fill(c, path);
      }
    }

    /** Store a copy, then offer one to each watcher in order of registration; a closed one panics. */
    method Put(path: string, value: SecretValue?, now: int) returns (panicked: bool, ghost served: nat)
      requires Valid() && (value != null ==> Foreign(value))
      modifies this`values, this`stored, channels`slot, channels`region
      ensures Valid()
      ensures values.Keys == old(values.Keys) + {path}
      ensures values[path].meant == Dated(old(ViewOf(value)), now)
      ensures forall p | p in old(values) && p != path :: values[p] == old(values[p])
      ensures OpenUpTo(List(path), served) && (panicked <==> served < |List(path)|)
      ensures Fed(old(Slots(channels)), List(path)[..served], values[path].meant)
      ensures fresh(stored - old(stored)) && forall c | c in channels :: fresh(c.region - old(c.region))
    {
      var list := List(path);
      ghost var was := Slots(channels);
      StoreCopy(path, value, now);
      panicked, served := OfferAll(list, path, was);
    }

    /** One turn of the loop of `Put`. */
    method OfferNext(list: seq<Channel>, i: nat, c: Channel, path: string, ghost was: map<Channel, SecretValue?>)
      requires Sound() && i < |list| && list[i] == c && c in channels && path in values
      requires was.Keys == channels && Fed(was, list[..i], values[path].meant)
      modifies c`slot, c`region
      ensures Sound() && Fed(was, list[..i + 1], values[path].meant)
      ensures fresh(c.region - old(c.region))
    {
      Offer(c, path, was, list[..i]);
      assert list[..i + 1] == list[..i] + [list[i]];
    }

    /** The loop of `Put`. */
    method OfferAll(list: seq<Channel>, path: string, ghost was: map<Channel, SecretValue?>)
      returns (panicked: bool, ghost served: nat)
      requires Sound() && path in values && was.Keys == channels && forall c | c in list :: c in channels
      requires Fed(was, [], values[path].meant)
      modifies channels`slot, channels`region
      ensures Sound()
      ensures OpenUpTo(list, served) && (panicked <==> served < |list|)
      ensures Fed(was, list[..served], values[path].meant)
      ensures forall c | c in channels :: fresh(c.region - old(c.region))
    {
      var i := 0;
      while i < |list|
        invariant 0 <= i <= |list| && Sound()
        invariant forall j | 0 <= j < i :: !list[j].closed
        invariant Fed(was, list[..i], values[path].meant)
        invariant forall c | c in channels :: fresh(c.region - old(c.region))
      {
        if list[i].closed {
          return true, i;
        }
        OfferNext(list, i, list[i], path, was);
        i := i + 1;
      }
      return false, i;
    }

    method Delete(path: string)
      requires Valid()
      modifies this`values
      ensures Valid() && values == old(values) - {path}
    {
      values := values - {path};
    }

    method Watch(path: string) returns (c: Channel)
      requires Valid()
      modifies this`watchers, this`channels
      ensures Valid() && fresh(c) && c.slot == null && !c.closed && c.region == {} && channels == old(channels) + {c}
      ensures watchers == old(watchers)[path := old(List(path)) + [c]]
    {
      c := new Channel();
      watchers := watchers[path := List(path) + [c]];
      channels := channels + {c};
    }

    /** The context of a watcher ends: its channel is closed and stays registered. */
    method Cancel(c: Channel)
      requires Valid() && c in channels && !c.closed
      modifies c`closed
      ensures Valid() && c.closed
    {
      c.closed := true;
    }

    /** Taking the pending value: its buffers pass from the store to the caller. */
    method Receive(c: Channel) returns (r: SecretValue?)
      requires Valid() && c in channels
      modifies this`handed, c`slot, c`region
      ensures Valid() && r == old(c.slot) && c.slot == null && c.region == {}
      ensures r != null ==> r.Within(old(c.region)) && Foreign(r)
      ensures r != null ==> r.Apart(old(handed)) && handed == r.AddTo(old(handed)) && r.View() == old(r.meant)
      ensures r == null ==> handed == old(handed)
    {
      r := c.slot;
      c.slot := null;
      c.region := {};
      if r != null {
        handed := r.AddTo(handed);
      }
    }
  }

  /** Anything at all written to values the store has no use for: it and what waits in its channels say the same. */
  method Scribble(store: MemoryStore, loose: set<SecretValue>, edits: seq<(SecretValue, Edit)>)
    requires store.Valid() && (forall v | v in loose :: store.Foreign(v)) && forall e | e in edits :: e.0 in loose
    modifies loose`version, set v | v in loose :: v.data, set v | v in loose && v.metadata != null :: v.metadata
    ensures store.Valid()
    ensures forall p | p in store.values :: store.values[p].View() == old(store.values[p].View())
    ensures forall c | c in store.channels && c.slot != null :: c.slot.View() == old(c.slot.View())
  {
    for i := 0 to |edits|
      invariant store.Valid()
    {
      Write(store, edits[i].0, edits[i].1);
    }
  }

  /** The write has been made. */
  ghost predicate Shows(v: SecretValue, e: Edit)
    reads v, v.data, v.metadata
  {
    match e
    case SetByte(at, b) => at < v.data.Length ==> v.data[at] == b
    case SetEntry(key, entry) => v.metadata != null ==> (key, entry) in v.metadata.entries.Items
    case DropEntry(key) => v.metadata != null ==> key !in v.metadata.entries
    case SetVersion(version) => v.version == version
  }

  /** One write. */
  method Write(store: MemoryStore, v: SecretValue, e: Edit)
    requires store.Valid() && store.Foreign(v)
    modifies v`version, v.data, v.metadata
    ensures store.Valid() && Shows(v, e)
  {
    match e {
      case SetByte(at, b) =>
        if at < v.data.Length {
          v.data[at] := b;
        }
      case SetEntry(key, entry) =>
        if v.metadata != null {
          v.metadata.entries := v.metadata.entries[key := entry];
        }
      case DropEntry(key) =>
        if v.metadata != null {
          v.metadata.entries := v.metadata.entries - {key};
        }
      case SetVersion(version) =>
        v.version := version;
    }
  }

  /** A caller may write to what it put in, and to all it holds: a later Get still returns what was put, field by
      field, with the time of the Put where the value had none. */
  method PutWriteGet(store: MemoryStore, path: string, v: SecretValue, now: int, loose: set<SecretValue>,
                     edits: seq<(SecretValue, Edit)>)
      returns (r: SecretValue?)
    requires store.Valid() && v in loose && forall u | u in loose :: store.Foreign(u)
    requires forall e | e in edits :: e.0 in loose
    modifies store, store.channels`slot, store.channels`region
    modifies loose`version, set u | u in loose :: u.data, set u | u in loose && u.metadata != null :: u.metadata
    ensures store.Valid() && r != null && AllNew(r)
    ensures r.data[..] == old(v.data[..]) && r.version == old(v.version) && r.expiresAt == old(v.expiresAt)
    ensures r.metadata == null <==> v.metadata == null
    ensures v.metadata != null ==> r.metadata.entries == old(v.metadata.entries)
    ensures r.createdAt == if old(v.createdAt) != 0 then old(v.createdAt) else now
  {
    ghost var said := v.View();
    var _, _ := store.Put(path, v, now);
    Scribble(store, loose, edits);
    r := store.Get(path);
    assert r.View() == Dated(said, now);
  }

  /** The expiry is the exception: what `Put` stores names the caller's pointer, and a write through it shows in a
      later `Get`. */
  method ExpiryIsShared(store: MemoryStore, path: string, expiry: Instant, unix: int) returns (r: SecretValue?)
    requires store.Valid() && path in store.values && store.values[path].meant.expiresAt == expiry
    modifies store`handed, expiry
    ensures r != null && r.expiresAt == expiry && r.expiresAt.unix == unix
  {
    expiry.unix := unix;
    r := store.Get(path);
  }
}
