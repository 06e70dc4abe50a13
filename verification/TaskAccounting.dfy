// The five ZFS operations as scripts over the tracker, interleaved in any order: each call opens one
// entry, runs its commands outside the lock, and closes the entry with its outcome.
module TaskAccounting {
  import opened Wrappers
  import opened Text
  import opened TaskLog

  /** What decides how a call runs; `name` is the pool or the dataset as the caller gave it. */
  datatype Request = Request(kind: Action, installed: bool, name: string, devices: nat)

  /** Where a call is: not begun, running its first or second command, about to close its entry, or back. */
  datatype Pc =
    | Ready
    | Commanding(id: Id, second: bool)
    | Closing(id: Id, failed: bool, message: Message)
    | Back(entry: Option<Id>, failed: bool, message: Message)

  datatype Call = Call(request: Request, pc: Pc)

  /** The calls, the capped list, and for the proofs the log that never forgets and whose entry each is. */
  datatype World = World(calls: seq<Call>, tasks: seq<Task>, log: seq<Task>, owners: seq<nat>)

  /** A step of call `c`: it begins, a command of it ends, or it closes its entry. */
  datatype Step =
    | Begin(c: nat, id: Id, now: int)
    | CommandEnds(c: nat, ok: bool, output: string)
    | Close(c: nat, now: int)

  /** What a call works on: the name without the space around it. */
  function Subject(r: Request): string {
    TrimSpace(r.name)
  }

  predicate Accepted(r: Request) {
    && r.installed
    && Subject(r) != ""
    && (r.kind == CreatePool ==> r.devices > 0)
  }

  /** The state the code gives an entry when it closes it. */
  function ClosingState(kind: Action, failed: bool): State {
    if failed then Failed else if kind == StartScrub then Running else Done
  }

  function Track(w: World, op: Op): World {
    w.(tasks := CappedStep(w.tasks, op), log := LogStep(w.log, op))
  }

  function Goto(w: World, c: nat, pc: Pc): World
    requires c < |w.calls|
  {
    w.(calls := w.calls[c := w.calls[c].(pc := pc)])
  }

  predicate Enabled(w: World, s: Step) {
    && s.c < |w.calls|
    && match s
       case Begin(c, _, _) => w.calls[c].pc.Ready?
       case CommandEnds(c, _, _) => w.calls[c].pc.Commanding?
       case Close(c, _) => w.calls[c].pc.Closing?
  }

  /** A step that is not enabled does nothing. */
  function Next(w: World, s: Step): World {
    if !Enabled(w, s) then w else
    var call := w.calls[s.c];
    match s
    case Begin(c, id, now) =>
      if !Accepted(call.request) then Goto(w, c, Back(None, true, NoMessage))
      else
        var op := Start(id, call.request.kind, Subject(call.request), now);
        Goto(Track(w, op).(owners := w.owners + [c]), c, Commanding(id, false))
    case CommandEnds(c, ok, output) =>
      Goto(w, c, AfterCommand(call, ok, output))
    case Close(c, now) =>
      var state := ClosingState(call.request.kind, call.pc.failed);
      Goto(Track(w, Update(call.pc.id, state, call.pc.message, now)), c,
           Back(Some(call.pc.id), call.pc.failed, call.pc.message))
  }

  function AfterCommand(call: Call, ok: bool, output: string): Pc
    requires call.pc.Commanding?
  {
    if !ok then Closing(call.pc.id, true, Output(output))
    else if call.request.kind == CreatePool && !call.pc.second then Commanding(call.pc.id, true)
    else Closing(call.pc.id, false, Success(call.request.kind))
  }

  function Outset(requests: seq<Request>): World {
    World(seq(|requests|, i requires 0 <= i < |requests| => Call(requests[i], Ready)), [], [], [])
  }

  function Continue(w: World, steps: seq<Step>): World {
    if steps == [] then w else Next(Continue(w, steps[..|steps| - 1]), steps[|steps| - 1])
  }

  function After(requests: seq<Request>, steps: seq<Step>): World {
    Continue(Outset(requests), steps)
  }

  // ----- ids -----

  predicate Open(pc: Pc) {
    pc.Commanding? || pc.Closing?
  }

  /** No call still on its way has this id. */
  predicate IdFree(w: World, id: Id) {
    id != NoId && forall c | 0 <= c < |w.calls| && Open(w.calls[c].pc) :: w.calls[c].pc.id != id
  }

  /** The step does not make an accepted call begin with an id that is not free. */
  predicate TakesFreeId(w: World, s: Step) {
    s.Begin? && Enabled(w, s) && Accepted(w.calls[s.c].request) ==> IdFree(w, s.id)
  }

  predicate Guarded(requests: seq<Request>, steps: seq<Step>) {
    steps == []
    || (Guarded(requests, steps[..|steps| - 1])
        && TakesFreeId(After(requests, steps[..|steps| - 1]), steps[|steps| - 1]))
  }

  /** No two calls got the same id, which is the clock's nanosecond, and none is empty. */
  ghost predicate DistinctIds(steps: seq<Step>) {
    && (forall i | 0 <= i < |steps| && steps[i].Begin? :: steps[i].id != NoId)
    && forall i, j | 0 <= i < j < |steps| && steps[i].Begin? && steps[j].Begin? :: steps[i].id != steps[j].id
  }

  // ----- the invariant -----

  predicate HasId(pc: Pc) {
    pc.Commanding? || pc.Closing? || (pc.Back? && pc.entry.Some?)
  }

  function IdOf(pc: Pc): Id
    requires HasId(pc)
  {
    if pc.Back? then pc.entry.value else pc.id
  }

  /** The state the entry of a call shows, given where the call is. */
  function Shown(call: Call): State
    requires HasId(call.pc)
  {
    if call.pc.Back? then ClosingState(call.request.kind, call.pc.failed) else Running
  }

  /** And the message: nothing until it is closed. */
  function ShownMessage(call: Call): Message {
    if call.pc.Back? then call.pc.message else NoMessage
  }

  /** A log entry of call `c` shows where that call is. */
  ghost predicate EntryOf(calls: seq<Call>, c: nat, t: Task) {
    && c < |calls| && HasId(calls[c].pc)
    && t.id == IdOf(calls[c].pc) && t.id != NoId
    && t.state == Shown(calls[c]) && t.message == ShownMessage(calls[c])
    && t.action == calls[c].request.kind && t.target == Subject(calls[c].request)
    && EndMatchesState(t)
  }

  /** What a call closes with: its output if it failed, the text for its kind if it did not. */
  predicate OutcomeOk(call: Call) {
    (call.pc.Closing? || (call.pc.Back? && call.pc.entry.Some?)) ==>
      if call.pc.failed then call.pc.message.Output? else call.pc.message == Success(call.request.kind)
  }

  /** A call has an id exactly when it owns an entry; it then was accepted, and a call sent back without was not. */
  ghost predicate CallOk(call: Call, owns: bool) {
    && (HasId(call.pc) <==> owns)
    && (owns ==> Accepted(call.request)) && OutcomeOk(call)
    && (call.pc.Back? && call.pc.entry.None? ==> !Accepted(call.request) && call.pc.failed)
  }

  ghost predicate Entries(w: World) {
    |w.owners| == |w.log| && forall k | 0 <= k < |w.log| :: EntryOf(w.calls, w.owners[k], w.log[k])
  }

  /** Calls own one entry each, and the entry of a call on its way is the newest with its id. */
  ghost predicate Distinct(w: World)
    requires Entries(w)
  {
    && (forall j, k | 0 <= j < k < |w.log| :: w.owners[j] != w.owners[k])
    && (forall j, k | 0 <= j < k < |w.log| && w.log[j].id == w.log[k].id :: w.calls[w.owners[j]].pc.Back?)
  }

  ghost predicate Calls(w: World) {
    forall c | 0 <= c < |w.calls| :: CallOk(w.calls[c], c in w.owners)
  }

  ghost predicate Inv(w: World) {
    Entries(w) && Distinct(w) && Calls(w) && w.tasks == Last(w.log, CAP)
  }

  /** Entries of other calls do not depend on call `c`. */
  lemma EntryKept(calls: seq<Call>, c: nat, call: Call, d: nat, t: Task)
    requires c < |calls| && d != c && EntryOf(calls, d, t)
    ensures EntryOf(calls[c := call], d, t)
  {
  }

  lemma OwnersKept(w: World, r: World, c: nat)
    requires Entries(w) && c < |w.calls| == |r.calls| && |r.owners| == |r.log| && w.log <= r.log && w.owners <= r.owners
    requires r.calls == w.calls[c := r.calls[c]]
    requires forall k | 0 <= k < |w.log| :: w.owners[k] != c
    requires forall k | |w.log| <= k < |r.log| :: EntryOf(r.calls, r.owners[k], r.log[k])
    ensures Entries(r)
  {
    forall k | 0 <= k < |r.log| ensures EntryOf(r.calls, r.owners[k], r.log[k]) {
      if k < |w.log| {
        EntryKept(w.calls, c, r.calls[c], w.owners[k], w.log[k]);
      }
    }
  }

  lemma ReadyOwnsNothing(w: World, c: nat)
    requires Inv(w) && c < |w.calls| && w.calls[c].pc.Ready?
    ensures forall k | 0 <= k < |w.log| :: w.owners[k] != c
  {
    assert CallOk(w.calls[c], c in w.owners);
    assert forall k | 0 <= k < |w.log| :: w.owners[k] in w.owners;
  }

  lemma BeginTracks(w: World, c: nat, id: Id, now: int)
    requires w.tasks == Last(w.log, CAP)
    requires Enabled(w, Begin(c, id, now)) && Accepted(w.calls[c].request)
    ensures var request := w.calls[c].request; var r := Next(w, Begin(c, id, now));
            && r.log == w.log + [NewTask(id, request.kind, Subject(request), now)] && r.owners == w.owners + [c]
            && r.tasks == Last(r.log, CAP)
            && r.calls == w.calls[c := w.calls[c].(pc := Commanding(id, false))]
  {
    LastOfAppend(w.log, NewTask(id, w.calls[c].request.kind, Subject(w.calls[c].request), now), CAP);
  }

  lemma AddKeepsDistinct(w: World, r: World, c: nat)
    requires Entries(w) && Distinct(w) && Entries(r) && |r.log| == |w.log| + 1
    requires IdFree(w, r.log[|w.log|].id) && forall k | 0 <= k < |w.log| :: w.owners[k] != c
    requires r.log[..|w.log|] == w.log && r.owners == w.owners + [c]
    requires c < |w.calls| == |r.calls| && forall d | 0 <= d < |w.calls| && d != c :: r.calls[d] == w.calls[d]
    ensures Distinct(r)
  {
    forall j, k | 0 <= j < k < |r.log| && r.log[j].id == r.log[k].id ensures r.calls[r.owners[j]].pc.Back? {
      assert w.log[j] == r.log[j] && EntryOf(w.calls, w.owners[j], w.log[j]);
      if k < |w.log| {
        assert w.log[k] == r.log[k];
      }
    }
  }

  lemma AcceptedKeepsInv(w: World, c: nat, id: Id, now: int)
    requires Inv(w) && Enabled(w, Begin(c, id, now)) && IdFree(w, id) && Accepted(w.calls[c].request)
    ensures Inv(Next(w, Begin(c, id, now)))
  {
    BeginTracks(w, c, id, now);
    ReadyOwnsNothing(w, c);
    AddedKeepsInv(w, Next(w, Begin(c, id, now)), c, id, now);
  }

  lemma AddedKeepsInv(w: World, r: World, c: nat, id: Id, now: int)
    requires Inv(w) && IdFree(w, id) && c < |w.calls| && Accepted(w.calls[c].request)
    requires forall k | 0 <= k < |w.log| :: w.owners[k] != c
    requires r.log == w.log + [NewTask(id, w.calls[c].request.kind, Subject(w.calls[c].request), now)]
    requires r.owners == w.owners + [c] && r.tasks == Last(r.log, CAP)
    requires r.calls == w.calls[c := w.calls[c].(pc := Commanding(id, false))]
    ensures Inv(r)
  {
    OwnersKept(w, r, c);
    AddKeepsDistinct(w, r, c);
    assert r.owners[|w.owners|] == c;
    CallsKept(w, r, c);
  }

  lemma RefusedKeepsInv(w: World, c: nat, id: Id, now: int)
    requires Inv(w) && Enabled(w, Begin(c, id, now)) && !Accepted(w.calls[c].request)
    ensures Inv(Next(w, Begin(c, id, now)))
  {
    var r := Next(w, Begin(c, id, now));
    ReadyOwnsNothing(w, c);
    OwnersKept(w, r, c);
    CallsKept(w, r, c);
  }

  lemma BeginKeepsInv(w: World, c: nat, id: Id, now: int)
    requires Inv(w) && Enabled(w, Begin(c, id, now)) && (Accepted(w.calls[c].request) ==> IdFree(w, id))
    ensures Inv(Next(w, Begin(c, id, now)))
  {
    if Accepted(w.calls[c].request) {
      AcceptedKeepsInv(w, c, id, now);
    } else {
      RefusedKeepsInv(w, c, id, now);
    }
  }

  lemma CallsKept(w: World, r: World, c: nat)
    requires Calls(w) && c < |w.calls| == |r.calls|
    requires forall d | 0 <= d < |w.calls| && d != c :: r.calls[d] == w.calls[d] && (d in w.owners <==> d in r.owners)
    requires CallOk(r.calls[c], c in r.owners)
    ensures Calls(r)
  {
    forall d | 0 <= d < |r.calls| ensures CallOk(r.calls[d], d in r.owners) {
      assert CallOk(w.calls[d], d in w.owners);
    }
  }

  lemma CommandKeepsInv(w: World, c: nat, ok: bool, output: string)
    requires Inv(w) && Enabled(w, CommandEnds(c, ok, output))
    ensures Inv(Next(w, CommandEnds(c, ok, output)))
  {
    var r := Next(w, CommandEnds(c, ok, output));
    var pc := AfterCommand(w.calls[c], ok, output);
    assert HasId(pc) && IdOf(pc) == IdOf(w.calls[c].pc) && Shown(w.calls[c].(pc := pc)) == Running;
    forall k | 0 <= k < |r.log| ensures EntryOf(r.calls, r.owners[k], r.log[k]) {
      assert EntryOf(w.calls, w.owners[k], w.log[k]);
    }
    assert CallOk(w.calls[c], c in w.owners);
    CallsKept(w, r, c);
  }

  lemma OwnEntry(w: World, c: nat) returns (k: nat)
    requires Inv(w) && c < |w.calls| && HasId(w.calls[c].pc)
    ensures k < |w.log| && w.owners[k] == c && EntryOf(w.calls, c, w.log[k])
    ensures Open(w.calls[c].pc) ==> NewestAt(w.log, w.calls[c].pc.id, k)
  {
    assert CallOk(w.calls[c], c in w.owners);
    k :| 0 <= k < |w.owners| && w.owners[k] == c;
    assert EntryOf(w.calls, w.owners[k], w.log[k]);
  }

  lemma CloseMeans(w: World, c: nat, now: int)
    requires Enabled(w, Close(c, now)) && w.calls[c].pc.id != NoId
    ensures var pc := w.calls[c].pc; var r := Next(w, Close(c, now));
            var state := ClosingState(w.calls[c].request.kind, pc.failed);
            && r.log == UpdateNewest(w.log, pc.id, state, pc.message, now)
            && r.tasks == UpdateNewest(w.tasks, pc.id, state, pc.message, now) && r.owners == w.owners
            && r.calls == w.calls[c := w.calls[c].(pc := Back(Some(pc.id), pc.failed, pc.message))]
  {
  }

  lemma CloseUpdatesOwn(w: World, c: nat, now: int) returns (k: nat)
    requires Inv(w) && Enabled(w, Close(c, now))
    ensures k < |w.log| && w.owners[k] == c && EntryOf(w.calls, c, w.log[k])
    ensures var pc := w.calls[c].pc; var r := Next(w, Close(c, now));
            && r.log == w.log[k := Updated(w.log[k], ClosingState(w.calls[c].request.kind, pc.failed), pc.message, now)]
            && r.tasks == Last(r.log, CAP) && r.owners == w.owners
            && r.calls == w.calls[c := w.calls[c].(pc := Back(Some(pc.id), pc.failed, pc.message))]
  {
    var call := w.calls[c];
    k := OwnEntry(w, c);
    CloseMeans(w, c, now);
    var state := ClosingState(call.request.kind, call.pc.failed);
    UpdateAt(w.log, call.pc.id, state, call.pc.message, now, k);
    UpdateOfLast(w.log, CAP, call.pc.id, state, call.pc.message, now);
  }

  lemma CloseKeepsEntries(w: World, r: World, c: nat, k: nat)
    requires Entries(w) && Distinct(w) && c < |w.calls| && k < |w.log| == |r.log| && w.owners[k] == c
    requires |r.calls| == |w.calls| && r.calls == w.calls[c := r.calls[c]] && r.owners == w.owners
    requires r.log == w.log[k := r.log[k]] && EntryOf(r.calls, c, r.log[k])
    ensures Entries(r)
  {
    forall j | 0 <= j < |r.log| ensures EntryOf(r.calls, r.owners[j], r.log[j]) {
      if j < k {
        assert w.owners[j] != w.owners[k];
        EntryKept(w.calls, c, r.calls[c], w.owners[j], w.log[j]);
      } else if j > k {
        assert w.owners[k] != w.owners[j];
        EntryKept(w.calls, c, r.calls[c], w.owners[j], w.log[j]);
      }
    }
  }

  lemma CloseKeepsDistinct(w: World, r: World, k: nat)
    requires Entries(w) && Distinct(w) && Entries(r) && k < |w.log| == |r.log| && r.owners == w.owners
    requires r.log == w.log[k := r.log[k]] && r.log[k].id == w.log[k].id
    requires |r.calls| == |w.calls| && r.calls == w.calls[w.owners[k] := r.calls[w.owners[k]]]
    requires r.calls[w.owners[k]].pc.Back?
    ensures Distinct(r)
  {
    assert forall j | 0 <= j < |r.log| :: r.log[j].id == w.log[j].id;
  }

  lemma CloseKeepsInv(w: World, c: nat, now: int)
    requires Inv(w) && Enabled(w, Close(c, now))
    ensures Inv(Next(w, Close(c, now))) && SameIds(w, Next(w, Close(c, now)))
  {
    var k := CloseUpdatesOwn(w, c, now);
    CloseRest(w, Next(w, Close(c, now)), c, k);
  }

  ghost predicate SameIds(w: World, r: World) {
    |w.log| == |r.log| && forall k | 0 <= k < |w.log| :: r.log[k].id == w.log[k].id
  }

  lemma CloseRest(w: World, r: World, c: nat, k: nat)
    requires Inv(w) && c < |w.calls| && w.calls[c].pc.Closing? && k < |w.log| == |r.log|
    requires w.owners[k] == c && EntryOf(w.calls, c, w.log[k]) && r.owners == w.owners
    requires var pc := w.calls[c].pc;
             r.calls == w.calls[c := w.calls[c].(pc := Back(Some(pc.id), pc.failed, pc.message))]
    requires r.log == w.log[k := r.log[k]] && r.tasks == Last(r.log, CAP) && EntryOf(r.calls, c, r.log[k])
    ensures Inv(r) && SameIds(w, r)
  {
    CloseKeepsEntries(w, r, c, k);
    CloseKeepsDistinct(w, r, k);
    assert CallOk(w.calls[c], c in w.owners);
    CallsKept(w, r, c);
  }

  lemma StepKeepsInv(w: World, s: Step)
    requires Inv(w) && TakesFreeId(w, s)
    ensures Inv(Next(w, s))
  {
    if Enabled(w, s) {
      match s
      case Begin(c, id, now) =>
        BeginKeepsInv(w, c, id, now);
      case CommandEnds(c, ok, output) =>
        CommandKeepsInv(w, c, ok, output);
      case Close(c, now) =>
        CloseKeepsInv(w, c, now);
    }
  }

  lemma {:induction false} RunKeepsInv(requests: seq<Request>, steps: seq<Step>)
    requires Guarded(requests, steps)
    ensures Inv(After(requests, steps))
    decreases |steps|
  {
    if steps != [] {
      RunKeepsInv(requests, steps[..|steps| - 1]);
      StepKeepsInv(After(requests, steps[..|steps| - 1]), steps[|steps| - 1]);
    }
  }

  lemma {:induction false} RunKeepsRequests(requests: seq<Request>, steps: seq<Step>)
    ensures |After(requests, steps).calls| == |requests|
    ensures forall c | 0 <= c < |requests| :: After(requests, steps).calls[c].request == requests[c]
    decreases |steps|
  {
    if steps != [] {
      RunKeepsRequests(requests, steps[..|steps| - 1]);
    }
  }

  // ----- the accounting -----

  /** Where call `c` is after the steps. */
  function PcAfter(requests: seq<Request>, steps: seq<Step>, c: nat): Pc
    requires c < |requests|
  {
    RunKeepsRequests(requests, steps);
    After(requests, steps).calls[c].pc
  }

  /** Call `c` owns one entry if it was accepted and has begun, and none otherwise. */
  ghost predicate OwnsOne(w: World, c: nat) {
    && |w.owners| == |w.log| && c < |w.calls|
    && (c in w.owners <==> Accepted(w.calls[c].request) && !w.calls[c].pc.Ready?)
    && forall j, k | 0 <= j < k < |w.owners| :: !(w.owners[j] == c && w.owners[k] == c)
  }

  lemma LogLength(log: seq<Task>, op: Op)
    ensures |LogStep(log, op)| == |log| + if op.Start? then 1 else 0
  {
  }

  lemma OwnsOneStep(w: World, s: Step, c: nat)
    requires OwnsOne(w, c)
    ensures OwnsOne(Next(w, s), c)
  {
    if Enabled(w, s) {
      var r := Next(w, s);
      assert r.calls[c].request == w.calls[c].request;
      if r.owners == w.owners {
        if s.Close? {
          LogLength(w.log, Update(w.calls[s.c].pc.id, ClosingState(w.calls[s.c].request.kind, w.calls[s.c].pc.failed),
                                  w.calls[s.c].pc.message, s.now));
        }
      } else {
        assert r.owners == w.owners + [s.c];
        LogLength(w.log, Start(s.id, w.calls[s.c].request.kind, Subject(w.calls[s.c].request), s.now));
      }
    }
  }

  /** In every run, also where ids collide: each accepted call adds exactly one entry when it begins, a rejected one
      never adds any. */
  lemma {:induction false} OneEntryPerCall(requests: seq<Request>, steps: seq<Step>, c: nat)
    requires c < |requests|
    ensures var owners := After(requests, steps).owners;
            && |owners| == |After(requests, steps).log|
            && (c in owners <==>
                  && requests[c].installed && !Blank(requests[c].name)
                  && (requests[c].kind == CreatePool ==> requests[c].devices > 0)
                  && !PcAfter(requests, steps, c).Ready?)
            && forall j, k | 0 <= j < k < |owners| :: !(owners[j] == c && owners[k] == c)
    decreases |steps|
  {
    TrimsToNothing(requests[c].name);
    if steps != [] {
      var front := steps[..|steps| - 1];
      OneEntryPerCall(requests, front, c);
      RunKeepsRequests(requests, front);
      OwnsOneStep(After(requests, front), steps[|steps| - 1], c);
    }
  }

  /** How a command of a call ended. */
  datatype Outcome = Outcome(ok: bool, output: string)

  /** The commands call `c` has run, in order. */
  function Ran(requests: seq<Request>, steps: seq<Step>, c: nat): seq<Outcome> {
    if steps == [] then []
    else
      var front, s := steps[..|steps| - 1], steps[|steps| - 1];
      if s.CommandEnds? && s.c == c && Enabled(After(requests, front), s) then
        Ran(requests, front, c) + [Outcome(s.ok, s.output)]
      else Ran(requests, front, c)
  }

  /** Two commands to create a pool, one for everything else. */
  function Commands(kind: Action): nat {
    if kind == CreatePool then 2 else 1
  }

  /** Where a call is says how its commands have gone so far, and the other way round. */
  ghost predicate GoneBy(kind: Action, pc: Pc, ran: seq<Outcome>) {
    && |ran| <= Commands(kind)
    && (forall i | 0 <= i < |ran| - 1 :: ran[i].ok)
    && match pc
       case Ready => ran == []
       case Commanding(_, second) => |ran| < Commands(kind) && (second <==> |ran| == 1) && forall o | o in ran :: o.ok
       case Closing(_, failed, message) => Decided(kind, failed, message, ran)
       case Back(entry, failed, message) =>
         if entry.Some? then Decided(kind, failed, message, ran) else ran == [] && failed && message == NoMessage
  }

  ghost predicate Decided(kind: Action, failed: bool, message: Message, ran: seq<Outcome>) {
    && ran != []
    && (failed ==> !ran[|ran| - 1].ok && message == Output(ran[|ran| - 1].output))
    && (!failed ==> |ran| == Commands(kind) && ran[|ran| - 1].ok && message == Success(kind))
  }

  lemma CommandDecides(kind: Action, call: Call, ran: seq<Outcome>, ok: bool, output: string)
    requires call.request.kind == kind && call.pc.Commanding? && GoneBy(kind, call.pc, ran)
    ensures GoneBy(kind, AfterCommand(call, ok, output), ran + [Outcome(ok, output)])
  {
    var after := ran + [Outcome(ok, output)];
    forall i | 0 <= i < |ran| ensures after[i].ok {
      assert ran[i] in ran;
    }
    assert ok ==> forall o | o in after :: o.ok;
  }

  /** In every run: an accepted call fails exactly at the first of its commands that fails, with that command's output
      as its message, and succeeds only when all of them have, two to create a pool and one for everything else. */
  lemma {:induction false} CommandsDecide(requests: seq<Request>, steps: seq<Step>, c: nat)
    requires c < |requests|
    ensures GoneBy(requests[c].kind, PcAfter(requests, steps, c), Ran(requests, steps, c))
    decreases |steps|
  {
    if steps != [] {
      var front, s := steps[..|steps| - 1], steps[|steps| - 1];
      CommandsDecide(requests, front, c);
      RunKeepsRequests(requests, front);
      CommandStep(requests[c].kind, After(requests, front), s, c, Ran(requests, front, c));
    }
  }

  lemma CommandStep(kind: Action, w: World, s: Step, c: nat, ran: seq<Outcome>)
    requires c < |w.calls| && w.calls[c].request.kind == kind && GoneBy(kind, w.calls[c].pc, ran)
    ensures c < |Next(w, s).calls|
    ensures GoneBy(kind, Next(w, s).calls[c].pc,
                   if s.CommandEnds? && s.c == c && Enabled(w, s) then ran + [Outcome(s.ok, s.output)] else ran)
  {
    if s.CommandEnds? && s.c == c && Enabled(w, s) {
      CommandDecides(kind, w.calls[c], ran, s.ok, s.output);
    }
  }

  /** Whose entry the list shows at position `i`, wherever the cap has left it. */
  function OwnerAt(w: World, i: nat): nat
    requires i < |w.tasks| <= |w.log| == |w.owners|
  {
    w.owners[|w.log| - |w.tasks| + i]
  }

  lemma TaskIsLog(w: World, i: nat)
    requires w.tasks == Last(w.log, CAP) && i < |w.tasks|
    ensures |w.tasks| <= |w.log| && w.tasks[i] == w.log[|w.log| - |w.tasks| + i]
  {
  }

  lemma EntryInList(requests: seq<Request>, steps: seq<Step>, i: nat)
    requires Guarded(requests, steps) && i < |After(requests, steps).tasks|
    ensures var w := After(requests, steps);
            |w.tasks| <= |w.log| == |w.owners| && EntryOf(w.calls, OwnerAt(w, i), w.tasks[i])
  {
    RunKeepsInv(requests, steps);
    InListShows(After(requests, steps), i);
  }

  lemma InListShows(w: World, i: nat)
    requires Entries(w) && w.tasks == Last(w.log, CAP) && i < |w.tasks|
    ensures |w.tasks| <= |w.log| == |w.owners| && EntryOf(w.calls, OwnerAt(w, i), w.tasks[i])
  {
    TaskIsLog(w, i);
    EntryAt(w, |w.log| - |w.tasks| + i);
  }

  lemma EntryAt(w: World, j: nat)
    requires Entries(w) && j < |w.log|
    ensures EntryOf(w.calls, w.owners[j], w.log[j])
  {
  }

  /** As long as no call begins with the id of one still on its way: each entry in the list shows where the call is
      that made it. It is running without an end time until the call closes it; once the call is back it is failed
      exactly when the call returned an error, running for a scrub that was started, done otherwise, and it has the
      message the call closed with. */
  lemma OutcomeOfCall(requests: seq<Request>, steps: seq<Step>, i: nat)
    requires Guarded(requests, steps) && i < |After(requests, steps).tasks|
    ensures var w := After(requests, steps); var t := w.tasks[i];
            && |w.tasks| <= |w.log| == |w.owners| && OwnerAt(w, i) < |requests| == |w.calls|
            && var c := OwnerAt(w, i); var pc := w.calls[c].pc;
               && t.action == requests[c].kind && t.target == TrimSpace(requests[c].name)
               && (Open(pc) ==> t.state == Running && t.message == NoMessage && t.endedAt == None)
               && (!Open(pc) ==>
                     && pc.Back? && pc.entry == Some(t.id) && t.message == pc.message
                     && (t.state == Failed <==> pc.failed)
                     && (t.state == Running <==> !pc.failed && requests[c].kind == StartScrub)
                     && (t.state == Done <==> !pc.failed && requests[c].kind != StartScrub)
                     && (pc.failed ==> t.message.Output?) && (!pc.failed ==> t.message == Success(requests[c].kind)))
  {
    EntryInList(requests, steps, i);
    RunKeepsInv(requests, steps);
    RunKeepsRequests(requests, steps);
    var w := After(requests, steps);
    var c := OwnerAt(w, i);
    assert CallOk(w.calls[c], c in w.owners);
  }

  // ----- distinct ids -----

  ghost predicate BegunWith(steps: seq<Step>, id: Id) {
    exists i | 0 <= i < |steps| :: steps[i].Begin? && steps[i].id == id
  }

  /** The ids in use are those of the Begin steps taken. */
  ghost predicate IdsFrom(w: World, steps: seq<Step>) {
    && (forall c | 0 <= c < |w.calls| && HasId(w.calls[c].pc) :: BegunWith(steps, IdOf(w.calls[c].pc)))
    && (forall k | 0 <= k < |w.log| :: BegunWith(steps, w.log[k].id))
  }

  ghost predicate LogIdsDiffer(w: World) {
    forall j, k | 0 <= j < k < |w.log| :: w.log[j].id != w.log[k].id
  }

  lemma BegunBefore(front: seq<Step>, s: Step, id: Id)
    requires BegunWith(front, id)
    ensures BegunWith(front + [s], id)
    ensures DistinctIds(front + [s]) && s.Begin? ==> id != s.id
  {
    var i :| 0 <= i < |front| && front[i].Begin? && front[i].id == id;
    assert (front + [s])[i] == front[i] && (front + [s])[|front|] == s;
  }

  lemma DistinctTakesFree(w: World, front: seq<Step>, s: Step)
    requires IdsFrom(w, front) && DistinctIds(front + [s])
    ensures TakesFreeId(w, s)
  {
    if s.Begin? {
      assert (front + [s])[|front|] == s;
      forall c | 0 <= c < |w.calls| && Open(w.calls[c].pc) ensures w.calls[c].pc.id != s.id {
        BegunBefore(front, s, IdOf(w.calls[c].pc));
      }
    }
  }

  /** A step renames no entry and no call, and only an accepted Begin adds an id, its own. */
  ghost predicate KeepsIds(w: World, r: World, s: Step) {
    && |r.calls| == |w.calls|
    && (forall c | 0 <= c < |w.calls| && HasId(r.calls[c].pc) ::
          || (HasId(w.calls[c].pc) && IdOf(r.calls[c].pc) == IdOf(w.calls[c].pc))
          || (s.Begin? && IdOf(r.calls[c].pc) == s.id))
    && |w.log| <= |r.log| <= |w.log| + 1 && (|r.log| > |w.log| ==> s.Begin? && r.log[|w.log|].id == s.id)
    && (forall k | 0 <= k < |w.log| :: r.log[k].id == w.log[k].id)
  }

  lemma NextKeepsIds(w: World, s: Step)
    requires Inv(w)
    ensures KeepsIds(w, Next(w, s), s)
  {
    if Enabled(w, s) {
      match s
      case Begin(c, id, now) =>
        if Accepted(w.calls[c].request) {
          BeginTracks(w, c, id, now);
        }
      case CommandEnds(c, ok, output) =>
      case Close(c, now) =>
        CloseKeepsIds(w, c, now);
    }
  }

  lemma CloseKeepsIds(w: World, c: nat, now: int)
    requires Inv(w) && Enabled(w, Close(c, now))
    ensures KeepsIds(w, Next(w, Close(c, now)), Close(c, now))
  {
    var k := CloseUpdatesOwn(w, c, now);
  }

  lemma StepKeepsIds(w: World, r: World, front: seq<Step>, s: Step)
    requires KeepsIds(w, r, s) && IdsFrom(w, front) && LogIdsDiffer(w) && DistinctIds(front + [s])
    ensures IdsFrom(r, front + [s]) && LogIdsDiffer(r)
  {
    assert s.Begin? ==> BegunWith(front + [s], s.id) by {
      assert (front + [s])[|front|] == s;
    }
    forall c | 0 <= c < |r.calls| && HasId(r.calls[c].pc) ensures BegunWith(front + [s], IdOf(r.calls[c].pc)) {
      if HasId(w.calls[c].pc) {
        BegunBefore(front, s, IdOf(w.calls[c].pc));
      }
    }
    forall k | 0 <= k < |w.log| ensures BegunWith(front + [s], w.log[k].id) && (s.Begin? ==> w.log[k].id != s.id) {
      BegunBefore(front, s, w.log[k].id);
    }
  }

  /** Distinct ids keep the guard, and make an id name one entry. */
  lemma DistinctIsGuarded(requests: seq<Request>, steps: seq<Step>)
    requires DistinctIds(steps)
    ensures Guarded(requests, steps) && IdsFrom(After(requests, steps), steps) && LogIdsDiffer(After(requests, steps))
  {
    DistinctRuns(requests, steps);
  }

  ghost predicate RunsDistinct(requests: seq<Request>, steps: seq<Step>) {
    Guarded(requests, steps) && IdsFrom(After(requests, steps), steps) && LogIdsDiffer(After(requests, steps))
  }

  lemma {:induction false} DistinctRuns(requests: seq<Request>, steps: seq<Step>)
    requires DistinctIds(steps)
    ensures RunsDistinct(requests, steps)
    decreases |steps|
  {
    if steps != [] {
      DistinctFront(steps);
      DistinctRuns(requests, steps[..|steps| - 1]);
      DistinctMore(requests, steps);
    } else {
      NothingBegun(requests);
    }
  }

  lemma NothingBegun(requests: seq<Request>)
    ensures RunsDistinct(requests, [])
  {
    assert After(requests, []) == Outset(requests);
  }

  lemma DistinctFront(steps: seq<Step>)
    requires steps != [] && DistinctIds(steps)
    ensures DistinctIds(steps[..|steps| - 1])
  {
  }

  lemma DistinctMore(requests: seq<Request>, steps: seq<Step>)
    requires steps != [] && RunsDistinct(requests, steps[..|steps| - 1]) && DistinctIds(steps)
    ensures RunsDistinct(requests, steps)
  {
    var front, s := steps[..|steps| - 1], steps[|steps| - 1];
    assert steps == front + [s];
    var w, r := After(requests, front), After(requests, steps);
    RunKeepsInv(requests, front);
    ContinueThen(Outset(requests), front, s);
    DistinctStep(w, r, front, s);
  }

  lemma DistinctStep(w: World, r: World, front: seq<Step>, s: Step)
    requires Inv(w) && IdsFrom(w, front) && LogIdsDiffer(w) && DistinctIds(front + [s]) && r == Next(w, s)
    ensures TakesFreeId(w, s) && IdsFrom(r, front + [s]) && LogIdsDiffer(r)
  {
    DistinctTakesFree(w, front, s);
    NextKeepsIds(w, s);
    StepKeepsIds(w, r, front, s);
  }

  /** So with distinct ids the entry that has the id of a call is that call's own. */
  lemma EntryOfId(requests: seq<Request>, steps: seq<Step>, c: nat, i: nat)
    requires DistinctIds(steps) && c < |requests| && i < |After(requests, steps).tasks|
    requires HasId(PcAfter(requests, steps, c))
    requires After(requests, steps).tasks[i].id == IdOf(PcAfter(requests, steps, c))
    ensures Guarded(requests, steps)
    ensures var w := After(requests, steps); |w.tasks| <= |w.log| == |w.owners| && OwnerAt(w, i) == c
  {
    DistinctIsGuarded(requests, steps);
    RunKeepsInv(requests, steps);
    RunKeepsRequests(requests, steps);
    OwnerOfId(After(requests, steps), c, i);
  }

  lemma OwnerOfId(w: World, c: nat, i: nat)
    requires Inv(w) && LogIdsDiffer(w) && c < |w.calls| && i < |w.tasks|
    requires HasId(w.calls[c].pc) && w.tasks[i].id == IdOf(w.calls[c].pc)
    ensures |w.tasks| <= |w.log| == |w.owners| && OwnerAt(w, i) == c
  {
    var k := OwnEntry(w, c);
    TaskIsLog(w, i);
    assert w.log[k].id == IdOf(w.calls[c].pc);
    SameIdSameEntry(w, k, |w.log| - |w.tasks| + i);
  }

  lemma SameIdSameEntry(w: World, j: nat, k: nat)
    requires LogIdsDiffer(w) && j < |w.log| && k < |w.log| && w.log[j].id == w.log[k].id
    ensures j == k
  {
  }

  // ----- what an id that is not free does -----

  /** Some call is back whose own entry does not show its outcome. */
  ghost predicate Misfiled(w: World) {
    exists k :: MisfiledAt(w, k)
  }

  ghost predicate MisfiledAt(w: World, k: int) {
    && 0 <= k < |w.log| == |w.owners| && w.owners[k] < |w.calls|
    && var call := w.calls[w.owners[k]];
       && call.pc.Back?
       && (w.log[k].state != ClosingState(call.request.kind, call.pc.failed) || w.log[k].message != call.pc.message)
  }

  /** While ids are taken only when free, nothing is misfiled. */
  lemma GuardSuffices(requests: seq<Request>, steps: seq<Step>)
    requires Guarded(requests, steps)
    ensures !Misfiled(After(requests, steps))
  {
    RunKeepsInv(requests, steps);
    var w := After(requests, steps);
    forall k | 0 <= k < |w.log| == |w.owners| && w.owners[k] < |w.calls| ensures !MisfiledAt(w, k) {
      assert EntryOf(w.calls, w.owners[k], w.log[k]);
    }
  }

  lemma ContinueThen(w: World, steps: seq<Step>, s: Step)
    ensures Continue(w, steps + [s]) == Next(Continue(w, steps), s)
  {
    assert (steps + [s])[..|steps|] == steps;
  }

  /** Nothing has changed but that a call on its way is now about to close its entry. */
  ghost predicate OnlyEnded(w: World, r: World, c: nat) {
    && r.log == w.log && r.owners == w.owners && c < |r.calls| == |w.calls|
    && Open(w.calls[c].pc) && r.calls[c].pc.Closing? && r.calls[c].pc.id == w.calls[c].pc.id && OutcomeOk(r.calls[c])
  }

  /** A call on its way, made to end: by its command failing, unless the command has ended already. */
  lemma EndCall(w: World, c: nat) returns (more: seq<Step>)
    requires c < |w.calls| && Open(w.calls[c].pc) && OutcomeOk(w.calls[c])
    ensures OnlyEnded(w, Continue(w, more), c)
  {
    more := [];
    if w.calls[c].pc.Commanding? {
      ContinueThen(w, more, CommandEnds(c, false, ""));
      more := more + [CommandEnds(c, false, "")];
    }
  }

  /** The call is on its way, its own entry is `k`, and what has its id first is not that entry. */
  ghost predicate WillMisfile(w: World, c: nat, k: nat) {
    && c < |w.calls| && Open(w.calls[c].pc) && OutcomeOk(w.calls[c])
    && k < |w.log| == |w.owners| && w.owners[k] == c && w.log[k].message == NoMessage
    && (w.calls[c].pc.id == NoId || exists n: nat :: n != k && NewestAt(w.log, w.calls[c].pc.id, n))
  }

  lemma TakenIdSetsUp(w: World, s: Step) returns (c: nat, k: nat)
    requires Inv(w) && !TakesFreeId(w, s)
    ensures WillMisfile(Next(w, s), c, k)
  {
    BeginTracks(w, s.c, s.id, s.now);
    if s.id == NoId {
      c, k := s.c, |w.log|;
    } else {
      c :| 0 <= c < |w.calls| && Open(w.calls[c].pc) && w.calls[c].pc.id == s.id;
      k := OwnEntry(w, c);
      assert CallOk(w.calls[c], c in w.owners);
      SharedIdSetsUp(w, Next(w, s), c, k);
    }
  }

  lemma SharedIdSetsUp(w: World, r: World, c: nat, k: nat)
    requires c < |w.calls| == |r.calls| && Open(w.calls[c].pc) && OutcomeOk(w.calls[c]) && r.calls[c] == w.calls[c]
    requires k < |w.log| == |w.owners| && w.owners[k] == c && w.log[k].message == NoMessage
    requires |r.log| == |w.log| + 1 == |r.owners| && w.log <= r.log && w.owners <= r.owners
    requires r.log[|w.log|].id == w.calls[c].pc.id
    ensures WillMisfile(r, c, k)
  {
    assert NewestAt(r.log, w.calls[c].pc.id, |w.log|);
  }

  /** A call that closes an id that is not that of its own entry leaves its own entry as it was. */
  lemma CloseElsewhere(w: World, c: nat, k: nat)
    requires WillMisfile(w, c, k) && w.calls[c].pc.Closing?
    ensures MisfiledAt(Next(w, Close(c, 0)), k)
  {
    if w.calls[c].pc.id != NoId {
      var pc := w.calls[c].pc;
      var n: nat :| n != k && NewestAt(w.log, pc.id, n);
      CloseMeans(w, c, 0);
      UpdateAt(w.log, pc.id, ClosingState(w.calls[c].request.kind, pc.failed), pc.message, 0, n);
    }
  }

  lemma EndMisfiles(w: World, c: nat, k: nat) returns (more: seq<Step>)
    requires WillMisfile(w, c, k)
    ensures MisfiledAt(Continue(w, more), k)
  {
    var ends := EndCall(w, c);
    CloseElsewhere(Continue(w, ends), c, k);
    ContinueThen(w, ends, Close(c, 0));
    more := ends + [Close(c, 0)];
  }

  /** A call that begins with the id of another that is still on its way can make the outcome of that one be filed
      under its own entry, whatever their kinds; one that begins with the empty id can never file its own. */
  lemma TakenIdMisfiles(w: World, s: Step) returns (more: seq<Step>)
    requires Inv(w) && !TakesFreeId(w, s)
    ensures Misfiled(Continue(Next(w, s), more))
  {
    var c, k := TakenIdSetsUp(w, s);
    more := EndMisfiles(Next(w, s), c, k);
    assert MisfiledAt(Continue(Next(w, s), more), k);
  }

  lemma FirstBreak(requests: seq<Request>, front: seq<Step>, s: Step, broken: seq<Step>) returns (more: seq<Step>)
    requires Guarded(requests, front) && !TakesFreeId(After(requests, front), s) && broken == front + [s]
    ensures Misfiled(Continue(After(requests, broken), more))
  {
    RunKeepsInv(requests, front);
    ContinueThen(Outset(requests), front, s);
    more := TakenIdMisfiles(After(requests, front), s);
  }

  /** The guard is exact: a run that breaks it has a point from which some continuation misfiles an outcome. */
  lemma GuardIsExact(requests: seq<Request>, steps: seq<Step>) returns (cut: nat, more: seq<Step>)
    requires !Guarded(requests, steps)
    ensures cut <= |steps| && Misfiled(Continue(After(requests, steps[..cut]), more))
  {
    var front, s := BreaksAt(requests, steps);
    cut := |front| + 1;
    more := FirstBreak(requests, front, s, steps[..cut]);
  }

  /** The first step that takes an id that is not free. */
  lemma {:induction false} BreaksAt(requests: seq<Request>, steps: seq<Step>) returns (front: seq<Step>, s: Step)
    requires !Guarded(requests, steps)
    ensures |front| < |steps| && front == steps[..|front|] && s == steps[|front|]
    ensures Guarded(requests, front) && !TakesFreeId(After(requests, front), s)
    decreases |steps|
  {
    front, s := steps[..|steps| - 1], steps[|steps| - 1];
    if !Guarded(requests, front) {
      front, s := BreaksAt(requests, front);
    }
  }

  /** Two calls begun in the same nanosecond are enough. */
  lemma SharedIdMisfiles(a: Request, b: Request, id: Id, now: int) returns (more: seq<Step>)
    requires Accepted(a) && Accepted(b) && id != NoId
    ensures Misfiled(Continue(After([a, b], [Begin(0, id, now)] + [Begin(1, id, now)]), more))
  {
    OneBegun(a, b, id, now);
    var s := Begin(1, id, now);
    var w := After([a, b], [Begin(0, id, now)]);
    assert Open(w.calls[0].pc) && w.calls[0].pc.id == id && !IdFree(w, id);
    more := FirstBreak([a, b], [Begin(0, id, now)], s, [Begin(0, id, now)] + [s]);
  }

  lemma OutsetOfTwo(a: Request, b: Request)
    ensures Outset([a, b]).calls == [Call(a, Ready), Call(b, Ready)]
  {
  }

  lemma FirstIsGuarded(requests: seq<Request>, s: Step)
    requires TakesFreeId(Outset(requests), s)
    ensures Guarded(requests, [s])
  {
    assert [s][..0] == [];
    assert After(requests, []) == Outset(requests);
  }

  lemma OneBegun(a: Request, b: Request, id: Id, now: int)
    requires Accepted(a) && id != NoId
    ensures Guarded([a, b], [Begin(0, id, now)])
    ensures After([a, b], [Begin(0, id, now)]).calls == [Call(a, Commanding(id, false)), Call(b, Ready)]
  {
    var s0 := Begin(0, id, now);
    var w := Outset([a, b]);
    OutsetOfTwo(a, b);
    FirstIsGuarded([a, b], s0);
    AfterOne([a, b], s0);
    BeginTracks(w, 0, id, now);
    var begun := Call(a, Commanding(id, false));
    assert w.calls[0].(pc := Commanding(id, false)) == begun;
    assert w.calls[0 := begun] == [begun, Call(b, Ready)];
  }

  lemma AfterOne(requests: seq<Request>, s: Step)
    ensures After(requests, [s]) == Next(Outset(requests), s)
  {
    assert [s][..0] == [];
    assert Continue(Outset(requests), []) == Outset(requests);
  }
}
