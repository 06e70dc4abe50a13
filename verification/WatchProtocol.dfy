// Watchers of the in-memory secret store: one-slot channels that `Put` feeds without blocking while it holds
// the store's mutex. Receiving and closing happen outside the mutex, so they interleave with a running Put.
// A cancelled watcher is closed but stays registered.
module WatchProtocol {
  import opened Wrappers

  datatype Value = Value(data: seq<int>)

  /** A registered channel, with what its reader has taken from it. */
  datatype Watcher = Watcher(slot: Option<Value>, closed: bool, received: seq<Value>)

  /** A Put in progress: it has offered the value to the first `next` watchers of the path. */
  datatype Active = Idle | Putting(path: string, value: Value, next: nat)

  /** `panics` lists the paths of the Puts that ended by sending on a closed channel. */
  datatype Store = Store(values: map<string, Value>, watchers: map<string, seq<Watcher>>, active: Active,
                         panics: seq<string>)

  datatype Event =
    | Register(path: string)
    | BeginPut(path: string, value: Value)
    | Send(path: string, index: nat, value: Value)
    | EndPut(path: string)
    | Delete(path: string)
    | Receive(path: string, index: nat)
    | Cancel(path: string, index: nat)

  function At(s: Store, path: string): seq<Watcher> {
    if path in s.watchers then s.watchers[path] else []
  }

  function SetWatcher(s: Store, path: string, i: nat, w: Watcher): Store
    requires i < |At(s, path)|
  {
    s.(watchers := s.watchers[path := At(s, path)[i := w]])
  }

  /** What one non-blocking send does to an open channel. */
  function Offered(w: Watcher, v: Value): Watcher {
    if w.slot.None? then w.(slot := Some(v)) else w
  }

  /** Which events can happen; the mutex allows one Put at a time and no registration or deletion beside it. */
  predicate Enabled(s: Store, e: Event) {
    match e
    case Register(_) => s.active.Idle?
    case BeginPut(_, _) => s.active.Idle?
    case Send(path, i, v) => s.active == Putting(path, v, i) && i < |At(s, path)|
    case EndPut(path) => s.active.Putting? && s.active.path == path && s.active.next >= |At(s, path)|
    case Delete(_) => s.active.Idle?
    case Receive(path, i) => i < |At(s, path)| && At(s, path)[i].slot.Some?
    case Cancel(path, i) => i < |At(s, path)| && !At(s, path)[i].closed
  }

  function Next(s: Store, e: Event): Store
    requires Enabled(s, e)
  {
    match e
    case Register(path) => s.(watchers := s.watchers[path := At(s, path) + [Watcher(None, false, [])]])
    case BeginPut(path, v) => s.(values := s.values[path := v], active := Putting(path, v, 0))
    case Send(path, i, v) =>
      var w := At(s, path)[i];
      if w.closed then s.(active := Idle, panics := s.panics + [path])
      else SetWatcher(s, path, i, Offered(w, v)).(active := Putting(path, v, i + 1))
    case EndPut(_) => s.(active := Idle)
    case Delete(path) => s.(values := s.values - {path})
    case Receive(path, i) =>
      var w := At(s, path)[i];
      SetWatcher(s, path, i, w.(slot := None, received := w.received + [w.slot.value]))
    case Cancel(path, i) =>
      SetWatcher(s, path, i, At(s, path)[i].(closed := true))
  }

  /** The state after the events, if each of them could happen. */
  function RunFrom(s: Store, events: seq<Event>): Option<Store> {
    if events == [] then Some(s)
    else
      match RunFrom(s, events[..|events| - 1])
      case None => None
      case Some(r) => if Enabled(r, events[|events| - 1]) then Some(Next(r, events[|events| - 1])) else None
  }

  function New(): Store {
    Store(map[], map[], Idle, [])
  }

  function Run(events: seq<Event>): Option<Store> {
    RunFrom(New(), events)
  }

  /** The last event of a run and the state it happened in. */
  lemma Unwind(s: Store, events: seq<Event>) returns (front: seq<Event>, e: Event, r: Store)
    requires events != [] && RunFrom(s, events).Some?
    ensures front == events[..|events| - 1] && e == events[|events| - 1] && events == front + [e]
    ensures RunFrom(s, front) == Some(r) && Enabled(r, e) && RunFrom(s, events) == Some(Next(r, e))
  {
    front, e := events[..|events| - 1], events[|events| - 1];
    r := RunFrom(s, front).value;
  }

  /** How one event changes the watchers of one path. */
  lemma WatcherStep(s: Store, e: Event, path: string, i: nat)
    requires Enabled(s, e) && i < |At(Next(s, e), path)|
    ensures i < |At(s, path)| <==> !(e == Register(path) && i == |At(s, path)|)
    ensures var w := At(Next(s, e), path)[i];
            if i >= |At(s, path)| then w == Watcher(None, false, [])
            else if e.Send? && e.path == path && e.index == i && !At(s, path)[i].closed then
              w == Offered(At(s, path)[i], e.value)
            else if e == Receive(path, i) then
              w == At(s, path)[i].(slot := None, received := At(s, path)[i].received + [At(s, path)[i].slot.value])
            else if e == Cancel(path, i) then w == At(s, path)[i].(closed := true)
            else w == At(s, path)[i]
  {
  }

  // ----- what the events alone say -----

  function Registered(events: seq<Event>, path: string): nat {
    if events == [] then 0
    else Registered(events[..|events| - 1], path) + if events[|events| - 1] == Register(path) then 1 else 0
  }

  /** The values put to the path since its watcher `i` was registered. */
  function PutsSince(events: seq<Event>, path: string, i: nat): seq<Value> {
    if events == [] then []
    else
      var front, e := events[..|events| - 1], events[|events| - 1];
      if e.BeginPut? && e.path == path && i < Registered(front, path) then PutsSince(front, path, i) + [e.value]
      else PutsSince(front, path, i)
  }

  /** The event is a send that comes to watcher `i`, and nobody cancelled that watcher before. */
  predicate Reaches(front: seq<Event>, e: Event, path: string, i: nat) {
    e.Send? && e.path == path && e.index == i && Cancel(path, i) !in front
  }

  /** The event is a send that panics at watcher `i` or before it, so that its Put serves `i` no more. */
  predicate BreaksBefore(front: seq<Event>, e: Event, path: string, i: nat) {
    e.Send? && e.path == path && e.index <= i && Cancel(path, e.index) in front
  }

  /** Those of the values put since watcher `i` was registered whose Put did not panic at that watcher or before it. */
  function PutsServing(events: seq<Event>, path: string, i: nat): seq<Value> {
    if events == [] then []
    else
      var front, e := events[..|events| - 1], events[|events| - 1];
      var puts := PutsServing(front, path, i);
      if e.BeginPut? && e.path == path && i < Registered(front, path) then puts + [e.value]
      else if BreaksBefore(front, e, path, i) && puts != [] then puts[..|puts| - 1]
      else puts
  }

  /** The values offered to watcher `i` while it was open. */
  function Offers(events: seq<Event>, path: string, i: nat): seq<Value> {
    if events == [] then []
    else
      var front, e := events[..|events| - 1], events[|events| - 1];
      if Reaches(front, e, path, i) then Offers(front, path, i) + [e.value]
      else Offers(front, path, i)
  }

  /** Whether a one-slot channel fed by these offers and receives is full. */
  function SlotFull(events: seq<Event>, path: string, i: nat): bool {
    if events == [] then false
    else
      var front, e := events[..|events| - 1], events[|events| - 1];
      if Reaches(front, e, path, i) then true
      else if e == Receive(path, i) then false
      else SlotFull(front, path, i)
  }

  /** The offers that found the slot empty, in order. */
  function Accepted(events: seq<Event>, path: string, i: nat): seq<Value> {
    if events == [] then []
    else
      var front, e := events[..|events| - 1], events[|events| - 1];
      if Reaches(front, e, path, i) && !SlotFull(front, path, i) then Accepted(front, path, i) + [e.value]
      else Accepted(front, path, i)
  }

  predicate NeverCancelled(events: seq<Event>, path: string) {
    forall k | 0 <= k < |events| :: !(events[k].Cancel? && events[k].path == path)
  }

  // ----- delivery -----

  function Pending(w: Watcher): seq<Value> {
    if w.slot.Some? then [w.slot.value] else []
  }

  lemma {:induction false} RegisteredCounts(events: seq<Event>, path: string)
    requires Run(events).Some?
    ensures |At(Run(events).value, path)| == Registered(events, path)
    decreases |events|
  {
    if events != [] {
      var front, e, r := Unwind(New(), events);
      RegisteredCounts(front, path);
    }
  }

  /** A watcher is closed exactly when it was cancelled: it is never removed, and never opened again. */
  lemma {:induction false} ClosedIffCancelled(events: seq<Event>, path: string, i: nat)
    requires Run(events).Some? && i < |At(Run(events).value, path)|
    ensures At(Run(events).value, path)[i].closed <==> Cancel(path, i) in events
    decreases |events|
  {
    if events != [] {
      var front, e, r := Unwind(New(), events);
      WatcherStep(r, e, path, i);
      if i < |At(r, path)| {
        ClosedIffCancelled(front, path, i);
      } else {
        NotBeforeRegistered(front, path, i);
      }
    }
  }

  lemma {:induction false} NotBeforeRegistered(events: seq<Event>, path: string, i: nat)
    requires Run(events).Some? && i >= |At(Run(events).value, path)|
    ensures Cancel(path, i) !in events
    ensures Offers(events, path, i) == [] && Accepted(events, path, i) == [] && !SlotFull(events, path, i)
    ensures PutsSince(events, path, i) == [] && PutsServing(events, path, i) == []
    decreases |events|
  {
    if events != [] {
      var front, e, r := Unwind(New(), events);
      RegisteredCounts(front, path);
      NotBeforeRegistered(front, path, i);
    }
  }

  /** In every run, whatever is cancelled: what a watcher has received, with what waits in its slot, is exactly the
      offers that found the slot empty. */
  lemma {:induction false} DeliveryIsExact(events: seq<Event>, path: string, i: nat)
    requires Run(events).Some? && i < |At(Run(events).value, path)|
    ensures var w := At(Run(events).value, path)[i];
            && w.received + Pending(w) == Accepted(events, path, i)
            && (w.slot.Some? <==> SlotFull(events, path, i)) && (w.closed <==> Cancel(path, i) in events)
    decreases |events|
  {
    ClosedIffCancelled(events, path, i);
    if events != [] {
      var front, e, r := Unwind(New(), events);
      WatcherStep(r, e, path, i);
      if i < |At(r, path)| {
        DeliveryIsExact(front, path, i);
      } else {
        NotBeforeRegistered(front, path, i);
      }
    }
  }

  /** The value a running Put has still to offer to watcher `i`. */
  function Outstanding(a: Active, path: string, i: nat): seq<Value> {
    if a.Putting? && a.path == path && a.next <= i then [a.value] else []
  }

  /** Between Puts, each value put since registration whose Put did not panic at the watcher or before it has been
      offered to the watcher once, in order; a Put in progress has offered its value to the watchers it has passed. */
  lemma {:induction false} EveryPutIsOffered(events: seq<Event>, path: string, i: nat)
    requires Run(events).Some? && i < |At(Run(events).value, path)|
    ensures PutsServing(events, path, i) == Offers(events, path, i) + Outstanding(Run(events).value.active, path, i)
    ensures NeverCancelled(events, path) ==> PutsServing(events, path, i) == PutsSince(events, path, i)
    decreases |events|
  {
    if events != [] {
      var front, e, r := Unwind(New(), events);
      WatcherStep(r, e, path, i);
      RegisteredCounts(front, path);
      if i < |At(r, path)| {
        EveryPutIsOffered(front, path, i);
        if e.Send? && e.path == path {
          ClosedIffCancelled(front, path, e.index);
        }
      } else {
        NotBeforeRegistered(front, path, i);
      }
    }
  }

  /** A full slot keeps its value until it is received, whatever else is put. */
  lemma {:induction false} SlotKeepsOldest(s: Store, events: seq<Event>, path: string, i: nat)
    requires RunFrom(s, events).Some? && i < |At(s, path)| && At(s, path)[i].slot.Some?
    requires Receive(path, i) !in events
    ensures i < |At(RunFrom(s, events).value, path)|
    ensures At(RunFrom(s, events).value, path)[i].slot == At(s, path)[i].slot
    decreases |events|
  {
    if events != [] {
      var front, e, r := Unwind(s, events);
      SlotKeepsOldest(s, front, path, i);
      WatchersStay(r, e, path);
      WatcherStep(r, e, path, i);
      assert e in events;
    }
  }

  lemma WatchersStay(s: Store, e: Event, path: string)
    requires Enabled(s, e)
    ensures |At(s, path)| <= |At(Next(s, e), path)|
  {
  }

  /** A Put never waits: it can always take its next step, and no receive or cancellation takes that away. */
  lemma PutNeverBlocks(s: Store)
    requires s.active.Putting?
    ensures var a := s.active;
            Enabled(s, Send(a.path, a.next, a.value)) <==> !Enabled(s, EndPut(a.path))
    ensures forall e | Enabled(s, e) && (e.Receive? || e.Cancel?) :: Next(s, e).active == s.active
    ensures forall e | Enabled(s, e) && e.Send? && Next(s, e).active.Putting? ::
              |At(Next(s, e), s.active.path)| - Next(s, e).active.next < |At(s, s.active.path)| - s.active.next
  {
  }

  /** The mutex keeps a registration, a deletion and another Put waiting for a running Put, and nothing else: a
      receive of what is pending and the cancellation of an open watcher are possible at any time. */
  lemma MutexKeepsOut(s: Store, path: string, i: nat, v: Value)
    ensures Enabled(s, Register(path)) <==> s.active.Idle?
    ensures Enabled(s, Delete(path)) <==> s.active.Idle?
    ensures Enabled(s, BeginPut(path, v)) <==> s.active.Idle?
    ensures i < |At(s, path)| && !At(s, path)[i].closed ==> Enabled(s, Cancel(path, i))
    ensures i < |At(s, path)| && At(s, path)[i].slot.Some? ==> Enabled(s, Receive(path, i))
  {
  }

  /** What was last put under the path and not deleted since. */
  function LastPut(events: seq<Event>, path: string): Option<Value> {
    if events == [] then None
    else
      var e := events[|events| - 1];
      if e.BeginPut? && e.path == path then Some(e.value)
      else if e == Delete(path) then None
      else LastPut(events[..|events| - 1], path)
  }

  /** In every run, also while a Put runs and after one has panicked: under each path is what was last put there. */
  lemma {:induction false} StoredIsLastPut(events: seq<Event>, path: string)
    requires Run(events).Some?
    ensures var values := Run(events).value.values;
            LastPut(events, path) == if path in values then Some(values[path]) else None
    decreases |events|
  {
    if events != [] {
      var front, e, r := Unwind(New(), events);
      StoredIsLastPut(front, path);
    }
  }

  // ----- sending on a closed channel -----

  /** While a Put runs its value is already stored. */
  lemma {:induction false} ValueIsStored(events: seq<Event>)
    requires Run(events).Some? && Run(events).value.active.Putting?
    ensures var s := Run(events).value;
            s.active.path in s.values && s.values[s.active.path] == s.active.value
    decreases |events|
  {
    if events != [] {
      var front, e, r := Unwind(New(), events);
      if r.active.Putting? {
        ValueIsStored(front);
      }
    }
  }

  /** Some watcher this Put has still to serve is closed. */
  predicate Doomed(s: Store) {
    s.active.Putting? && exists j | s.active.next <= j < |At(s, s.active.path)| :: At(s, s.active.path)[j].closed
  }

  predicate NoOtherPut(events: seq<Event>) {
    forall k | 0 <= k < |events| :: !events[k].BeginPut?
  }

  lemma DoomStep(s: Store, e: Event)
    requires Enabled(s, e) && s.active.Putting? && !e.BeginPut? && !(e.Cancel? && e.path == s.active.path)
    ensures Next(s, e).active.Putting? ==>
              && Next(s, e).panics == s.panics && Next(s, e).active.path == s.active.path
              && (Doomed(Next(s, e)) <==> Doomed(s))
    ensures Next(s, e).active.Idle? ==> Next(s, e).panics == if Doomed(s) then s.panics + [s.active.path] else s.panics
  {
    var path := s.active.path;
    var r := Next(s, e);
    if r.active.Putting? {
      assert |At(r, path)| == |At(s, path)|;
      forall j | 0 <= j < |At(s, path)| ensures At(r, path)[j].closed == At(s, path)[j].closed {
        WatcherStep(s, e, path, j);
      }
      if Doomed(s) {
        var j :| s.active.next <= j < |At(s, path)| && At(s, path)[j].closed;
        assert At(r, path)[j].closed;
        assert r.active.next <= j;
      }
      if Doomed(r) {
        var j :| r.active.next <= j < |At(r, path)| && At(r, path)[j].closed;
        assert At(s, path)[j].closed;
      }
    }
  }

  /** A Put that still has to serve a closed watcher panics, whatever else happens; one that has not panics only if a
      watcher of its path is cancelled while it runs. */
  lemma {:induction false} PutPanicsIff(s: Store, events: seq<Event>)
    requires s.active.Putting? && RunFrom(s, events).Some? && NoOtherPut(events)
    ensures var r := RunFrom(s, events).value; var path := s.active.path;
            && (r.active.Putting? ==> r.panics == s.panics && r.active.path == path)
            && (r.active.Idle? ==> r.panics == s.panics || r.panics == s.panics + [path])
            && (Doomed(s) ==> if r.active.Putting? then Doomed(r) else r.panics == s.panics + [path])
            && (!Doomed(s) && NeverCancelled(events, path) ==> !Doomed(r) && r.panics == s.panics)
    decreases |events|
  {
    if events != [] {
      var front, e, r := Unwind(s, events);
      assert forall k | 0 <= k < |front| :: front[k] == events[k];
      PutPanicsIff(s, front);
      assert e == events[|events| - 1];
      if r.active.Putting? {
        PutStep(r, e);
      }
    }
  }

  lemma PutStep(s: Store, e: Event)
    requires Enabled(s, e) && s.active.Putting? && !e.BeginPut?
    ensures var r := Next(s, e); var path := s.active.path;
            && (r.active.Putting? ==> r.panics == s.panics && r.active.path == path)
            && (r.active.Idle? ==> r.panics == s.panics || r.panics == s.panics + [path])
            && (Doomed(s) ==> if r.active.Putting? then Doomed(r) else r.panics == s.panics + [path])
            && (!Doomed(s) && !(e.Cancel? && e.path == path) ==> !Doomed(r) && r.panics == s.panics)
  {
    if e.Cancel? && e.path == s.active.path {
      if Doomed(s) {
        DoomedPutNeverEnds(s, e);
      }
    } else {
      DoomStep(s, e);
    }
  }

  /** A Put begun in any reachable state panics if some watcher ever registered on its path has been cancelled, and
      does not if none has been or is while it runs; the new value is stored all the same. */
  lemma PutPanicsIffCancelled(events: seq<Event>, path: string, v: Value, more: seq<Event>)
    requires Run(events).Some? && Run(events).value.active.Idle?
    requires NoOtherPut(more)
    requires var begun := Next(Run(events).value, BeginPut(path, v));
             RunFrom(begun, more).Some? && RunFrom(begun, more).value.active.Idle?
    ensures var s := Run(events).value;
            var begun := Next(s, BeginPut(path, v));
            && begun.values[path] == v
            && ((exists i: nat :: Cancel(path, i) in events) ==>
                  RunFrom(begun, more).value.panics == s.panics + [path])
            && (NeverCancelled(events, path) && NeverCancelled(more, path) ==>
                  RunFrom(begun, more).value.panics == s.panics)
  {
    var s := Run(events).value;
    var begun := Next(s, BeginPut(path, v));
    PutPanicsIff(begun, more);
    assert At(begun, path) == At(s, path);
    if Doomed(begun) {
      var j :| 0 <= j < |At(begun, path)| && At(begun, path)[j].closed;
      ClosedIffCancelled(events, path, j);
      assert Cancel(path, j) in events;
    }
    if i: nat :| Cancel(path, i) in events {
      CancelledWasRegistered(events, path, i);
      ClosedIffCancelled(events, path, i);
      assert At(begun, path)[i].closed;
    }
  }

  lemma {:induction false} CancelledWasRegistered(events: seq<Event>, path: string, i: nat)
    requires Run(events).Some? && Cancel(path, i) in events
    ensures i < |At(Run(events).value, path)|
    decreases |events|
  {
    if |At(Run(events).value, path)| <= i {
      NotBeforeRegistered(events, path, i);
    }
  }

  /** A closed watcher dooms every Put to its path for good, also when more are cancelled meanwhile: the Put never
      reaches its end. */
  lemma DoomedPutNeverEnds(s: Store, e: Event)
    requires Doomed(s) && Enabled(s, e)
    ensures !e.EndPut?
    ensures Doomed(Next(s, e)) || Next(s, e).panics == s.panics + [s.active.path]
  {
    var path := s.active.path;
    var r := Next(s, e);
    var j :| s.active.next <= j < |At(s, path)| && At(s, path)[j].closed;
    if r.active.Putting? {
      WatcherStep(s, e, path, j);
      assert At(r, path)[j].closed && r.active.next <= j;
    }
  }

  /** Without any cancellation on a path no Put to it ever panics. */
  lemma {:induction false} NoCancelNoPanic(events: seq<Event>, path: string)
    requires Run(events).Some? && NeverCancelled(events, path)
    ensures path !in Run(events).value.panics
    decreases |events|
  {
    if events != [] {
      var front, e, r := Unwind(New(), events);
      NoCancelNoPanic(front, path);
      if e.Send? && e.path == path {
        ClosedIffCancelled(front, path, e.index);
      }
    }
  }

  // ----- cancellations at any time -----

  /** The paths of the sends that came to a watcher cancelled before them, in order. */
  function CancelledSends(events: seq<Event>): seq<string> {
    if events == [] then []
    else
      var front, e := events[..|events| - 1], events[|events| - 1];
      CancelledSends(front) + if e.Send? && Cancel(e.path, e.index) in front then [e.path] else []
  }

  /** In every run, whenever watchers are cancelled, also while a Put runs: a Put panics exactly when it comes to a
      watcher that has been cancelled by then. */
  lemma {:induction false} PanicsAreCancelledSends(events: seq<Event>)
    requires Run(events).Some?
    ensures Run(events).value.panics == CancelledSends(events)
    decreases |events|
  {
    if events != [] {
      var front, e, r := Unwind(New(), events);
      PanicsAreCancelledSends(front);
      if e.Send? {
        ClosedIffCancelled(front, e.path, e.index);
      }
    }
  }

  /** A send of these came to a watcher cancelled before it; `past` is what happened before them. */
  predicate MeetsCancelled(past: seq<Event>, events: seq<Event>) {
    events != []
    && var front, e := events[..|events| - 1], events[|events| - 1];
       MeetsCancelled(past, front) || (e.Send? && Cancel(e.path, e.index) in past + front)
  }

  lemma RunThen(events: seq<Event>, e: Event)
    ensures Run(events + [e]) == match Run(events)
                                 case None => None
                                 case Some(r) => if Enabled(r, e) then Some(Next(r, e)) else None
  {
    assert (events + [e])[..|events|] == events;
  }

  /** One Put in any reachable state, with anything beside it that the mutex lets happen: it panics exactly when one
      of its sends meets a watcher cancelled before or during the Put, and it is over with at most one panic. */
  lemma {:induction false} PutPanicsExactly(past: seq<Event>, path: string, v: Value, events: seq<Event>)
    requires Run(past).Some? && Run(past).value.active.Idle? && NoOtherPut(events)
    requires Run(past + [BeginPut(path, v)] + events).Some?
    ensures var s, r := Run(past).value, Run(past + [BeginPut(path, v)] + events).value;
            && (r.active.Putting? ==>
                  r.active.path == path && r.panics == s.panics && !MeetsCancelled(past + [BeginPut(path, v)], events))
            && (r.active.Idle? ==>
                  r.panics == if MeetsCancelled(past + [BeginPut(path, v)], events) then s.panics + [path]
                              else s.panics)
    decreases |events|
  {
    var begun := past + [BeginPut(path, v)];
    RunThen(past, BeginPut(path, v));
    if events == [] {
      assert begun + events == begun;
    } else {
      var front, e := events[..|events| - 1], events[|events| - 1];
      assert begun + events == begun + front + [e];
      RunThen(begun + front, e);
      assert forall k | 0 <= k < |front| :: front[k] == events[k];
      PutPanicsExactly(past, path, v, front);
      if e.Send? {
        ClosedIffCancelled(begun + front, e.path, e.index);
      }
    }
  }

  /** The two inputs on which a Put panics: its only watcher is cancelled before it, or during it. Both times the value
      is stored. */
  lemma CancelledWatcherPanics(path: string, v: Value)
    ensures var past := [Register(path)] + [Cancel(path, 0)] + [BeginPut(path, v)] + [Send(path, 0, v)];
            Run(past).Some? && Run(past).value.panics == [path] && Run(past).value.values == map[path := v]
    ensures var during := [Register(path)] + [BeginPut(path, v)] + [Cancel(path, 0)] + [Send(path, 0, v)];
            Run(during).Some? && Run(during).value.panics == [path] && Run(during).value.values == map[path := v]
  {
    CancelledBefore(path, v);
    CancelledDuring(path, v);
  }

  lemma OneWatcher(path: string)
    ensures Run([Register(path)]) == Some(Store(map[], Sole(path, false), Idle, []))
  {
    assert Run([]) == Some(New());
    RunThen([], Register(path));
    assert [] + [Register(path)] == [Register(path)];
    assert At(New(), path) + [Watcher(None, false, [])] == [Watcher(None, false, [])];
  }

  /** How the one watcher looks, open and closed. */
  function Sole(path: string, closed: bool): map<string, seq<Watcher>> {
    map[path := [Watcher(None, closed, [])]]
  }

  lemma CancelsSole(s: Store, path: string)
    requires s.watchers == Sole(path, false)
    ensures Enabled(s, Cancel(path, 0)) && Next(s, Cancel(path, 0)) == s.(watchers := Sole(path, true))
  {
    assert At(s, path)[0 := Watcher(None, true, [])] == [Watcher(None, true, [])];
    assert s.watchers[path := [Watcher(None, true, [])]] == Sole(path, true);
  }

  lemma SendsToClosed(events: seq<Event>, s: Store, path: string, v: Value)
    requires Run(events) == Some(s) && s.watchers == Sole(path, true)
    requires s.active == Putting(path, v, 0) && s.panics == [] && s.values == map[path := v]
    ensures var r := Run(events + [Send(path, 0, v)]);
            r.Some? && r.value.panics == [path] && r.value.values == map[path := v]
  {
    RunThen(events, Send(path, 0, v));
    assert [] + [path] == [path];
  }

  lemma CancelledBefore(path: string, v: Value)
    ensures var past := [Register(path)] + [Cancel(path, 0)] + [BeginPut(path, v)] + [Send(path, 0, v)];
            Run(past).Some? && Run(past).value.panics == [path] && Run(past).value.values == map[path := v]
  {
    OneWatcher(path);
    var a, s := [Register(path)], Store(map[], Sole(path, false), Idle, []);
    RunThen(a, Cancel(path, 0));
    CancelsSole(s, path);
    RunThen(a + [Cancel(path, 0)], BeginPut(path, v));
    SendsToClosed(a + [Cancel(path, 0)] + [BeginPut(path, v)],
                  Store(map[path := v], Sole(path, true), Putting(path, v, 0), []), path, v);
  }

  lemma CancelledDuring(path: string, v: Value)
    ensures var during := [Register(path)] + [BeginPut(path, v)] + [Cancel(path, 0)] + [Send(path, 0, v)];
            Run(during).Some? && Run(during).value.panics == [path] && Run(during).value.values == map[path := v]
  {
    OneWatcher(path);
    var a, s := [Register(path)], Store(map[path := v], Sole(path, false), Putting(path, v, 0), []);
    RunThen(a, BeginPut(path, v));
    assert Run(a + [BeginPut(path, v)]) == Some(s);
    RunThen(a + [BeginPut(path, v)], Cancel(path, 0));
    CancelsSole(s, path);
    SendsToClosed(a + [BeginPut(path, v)] + [Cancel(path, 0)], s.(watchers := Sole(path, true)), path, v);
  }
}
