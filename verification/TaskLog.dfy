// The tracker of ZFS operations: a list capped at 200 entries, updated in place by a newest-first search.
// Its meaning is an unbounded log under the same update rule.
module TaskLog {
  import opened Wrappers
  import opened Text

  const CAP: nat := 200

  /** The five operations; `ActionName` gives the text the code stores for each. */
  datatype Action = CreatePool | DestroyPool | StartScrub | StopScrub | CreateSnapshot

  function ActionName(action: Action): string {
    match action
    case CreatePool => "create-pool"
    case DestroyPool => "destroy-pool"
    case StartScrub => "scrub-start"
    case StopScrub => "scrub-stop"
    case CreateSnapshot => "snapshot"
  }

  /** The texts tell the operations apart, so that a test of the text is a test of the operation. */
  lemma ActionTexts(a: Action, b: Action)
    ensures ActionName(a) == ActionName(b) <==> a == b
    ensures ActionName(a) == "scrub-start" <==> a == StartScrub
  {
  }

  /** The message of an entry, by where it comes from; `MessageText` gives the text the code stores. */
  datatype Message =
    | NoMessage
    | Success(action: Action)
    | Output(raw: string)
    | ScrubStatus(text: string)
    | ScrubOver(summary: string)

  function MessageText(m: Message): string {
    match m
    case NoMessage => ""
    case Success(CreatePool) => "pool created"
    case Success(DestroyPool) => "pool destroyed"
    case Success(StartScrub) => "scrub started"
    case Success(StopScrub) => "scrub stop requested"
    case Success(CreateSnapshot) => "snapshot created"
    case Output(raw) => TrimSpace(raw)
    case ScrubStatus(text) => text
    case ScrubOver(summary) => if TrimSpace(summary) == "" then "scrub finished" else summary
  }

  /** What is stored for a success or a finished scrub is never blank, so it differs from that of an entry still
      running; and what an operation stores has no space around it. */
  lemma MessageTexts(m: Message)
    ensures m.Success? || m.ScrubOver? ==> !Blank(MessageText(m))
    ensures m.NoMessage? || m.Success? || m.Output? ==> Trimmed(MessageText(m))
  {
    match m
    case NoMessage =>
    case Success(a) =>
      assert !IsSpace(MessageText(m)[0]);
    case Output(raw) => TrimSpaceTrims(raw);
    case ScrubStatus(_) =>
    case ScrubOver(summary) =>
      if TrimSpace(summary) == "" {
        assert !IsSpace(MessageText(m)[0]);
      } else if Blank(summary) {
        BlankTrims(summary);
      }
  }

  /** A task id: the decimal text of the clock's nanoseconds, or the empty text. */
  datatype Id = NoId | Nanos(n: int)

  datatype State = Running | Done | Failed

  /** `endedAt` is None for the zero time. */
  datatype Task = Task(id: Id, action: Action, target: string, state: State, message: Message,
                       progress: real, eta: string, startedAt: int, endedAt: Option<int>)

  datatype Op =
    | Start(id: Id, action: Action, target: string, now: int)
    | Update(id: Id, state: State, message: Message, now: int)

  function NewTask(id: Id, action: Action, target: string, now: int): Task {
    Task(id, action, target, Running, NoMessage, 0.0, "", now, None)
  }

  function Updated(t: Task, state: State, message: Message, now: int): Task {
    t.(state := state, message := message, endedAt := if state == Running then None else Some(now))
  }

  /** Change the newest entry with this id, if there is one. */
  function UpdateNewest(log: seq<Task>, id: Id, state: State, message: Message, now: int): (r: seq<Task>)
    ensures |r| == |log|
  {
    if log == [] then []
    else
      var front, last := log[..|log| - 1], log[|log| - 1];
      if last.id == id then front + [Updated(last, state, message, now)]
      else UpdateNewest(front, id, state, message, now) + [last]
  }

  /** One operation on the log that never forgets. */
  function LogStep(log: seq<Task>, op: Op): seq<Task> {
    match op
    case Start(id, action, target, now) => log + [NewTask(id, action, target, now)]
    case Update(id, state, message, now) => if id == NoId then log else UpdateNewest(log, id, state, message, now)
  }

  /** The same operation on the capped list. */
  function CappedStep(tasks: seq<Task>, op: Op): seq<Task> {
    match op
    case Start(_, _, _, _) => Last(LogStep(tasks, op), CAP)
    case Update(_, _, _, _) => LogStep(tasks, op)
  }

  function LogRun(ops: seq<Op>): seq<Task> {
    if ops == [] then [] else LogStep(LogRun(ops[..|ops| - 1]), ops[|ops| - 1])
  }

  function CappedRun(ops: seq<Op>): seq<Task> {
    if ops == [] then [] else CappedStep(CappedRun(ops[..|ops| - 1]), ops[|ops| - 1])
  }

  // ----- where an update lands -----

  predicate NewestAt(log: seq<Task>, id: Id, k: nat) {
    k < |log| && log[k].id == id && forall j | k < j < |log| :: log[j].id != id
  }

  predicate Unknown(log: seq<Task>, id: Id) {
    forall j | 0 <= j < |log| :: log[j].id != id
  }

  lemma {:induction false} UpdateAt(log: seq<Task>, id: Id, state: State, message: Message, now: int, k: nat)
    requires NewestAt(log, id, k)
    ensures UpdateNewest(log, id, state, message, now) == log[k := Updated(log[k], state, message, now)]
    decreases |log|
  {
    var front, last := log[..|log| - 1], log[|log| - 1];
    assert log == front + [last];
    if k < |log| - 1 {
      UpdateAt(front, id, state, message, now, k);
    }
  }

  lemma {:induction false} UpdateUnknown(log: seq<Task>, id: Id, state: State, message: Message, now: int)
    requires Unknown(log, id)
    ensures UpdateNewest(log, id, state, message, now) == log
    decreases |log|
  {
    if log != [] {
      UpdateUnknown(log[..|log| - 1], id, state, message, now);
    }
  }

  lemma {:induction false} NewestOrUnknown(log: seq<Task>, id: Id) returns (k: nat)
    ensures Unknown(log, id) || NewestAt(log, id, k)
    decreases |log|
  {
    k := 0;
    if log != [] {
      if log[|log| - 1].id == id {
        k := |log| - 1;
      } else {
        k := NewestOrUnknown(log[..|log| - 1], id);
      }
    }
  }

  /** An update of the tail is the tail of the update, whether or not the id is still in the tail. */
  lemma {:induction false} UpdateOfLast(log: seq<Task>, n: nat, id: Id, state: State, message: Message, now: int)
    ensures UpdateNewest(Last(log, n), id, state, message, now)
         == Last(UpdateNewest(log, id, state, message, now), n)
    decreases |log|
  {
    if log != [] && n > 0 {
      var front, last := log[..|log| - 1], log[|log| - 1];
      assert log == front + [last];
      LastOfPush(front, last, n);
      assert Last(log, n)[..|Last(log, n)| - 1] == Last(front, n - 1);
      if last.id == id {
        LastOfPush(front, Updated(last, state, message, now), n);
      } else {
        UpdateOfLast(front, n - 1, id, state, message, now);
        LastOfPush(UpdateNewest(front, id, state, message, now), last, n);
      }
    }
  }

  // ----- the capped list refines the log -----

  lemma StepRefines(log: seq<Task>, op: Op)
    ensures CappedStep(Last(log, CAP), op) == Last(LogStep(log, op), CAP)
  {
    match op
    case Start(id, action, target, now) =>
      LastOfAppend(log, NewTask(id, action, target, now), CAP);
    case Update(id, state, message, now) =>
      if id != NoId {
        UpdateOfLast(log, CAP, id, state, message, now);
      }
  }

  /** After any run the tracker holds the last 200 entries of the unbounded log, also when ids repeat. */
  lemma {:induction false} CappedRefinesLog(ops: seq<Op>)
    ensures CappedRun(ops) == Last(LogRun(ops), 200)
    decreases |ops|
  {
    if ops != [] {
      CappedRefinesLog(ops[..|ops| - 1]);
      StepRefines(LogRun(ops[..|ops| - 1]), ops[|ops| - 1]);
    }
  }

  /** Updating an entry that has been cut off changes nothing, although the log still knows it; nor does updating
      none. */
  lemma EvictedUpdateIsLost(ops: seq<Op>, id: Id, state: State, message: Message, now: int)
    requires id == NoId || forall t | t in Last(LogRun(ops), 200) :: t.id != id
    ensures CappedRun(ops + [Update(id, state, message, now)]) == CappedRun(ops)
  {
    var all := ops + [Update(id, state, message, now)];
    assert all[..|all| - 1] == ops;
    CappedRefinesLog(ops);
    if id != NoId {
      UpdateUnknown(CappedRun(ops), id, state, message, now);
    }
  }

  /** The list `RecentTasks` copies before it asks about scrubs. */
  function Window(tasks: seq<Task>, limit: int): seq<Task> {
    Reverse(Last(tasks, if limit <= 0 then 30 else limit))
  }

  /** A reader sees the newest entries of the log, newest first, and never more than 200. */
  lemma WindowOfLog(ops: seq<Op>, limit: int)
    ensures var n := if limit <= 0 then 30 else if limit <= 200 then limit else 200;
            Window(CappedRun(ops), limit) == Reverse(Last(LogRun(ops), n))
  {
    CappedRefinesLog(ops);
    var want := if limit <= 0 then 30 else limit;
    if want <= CAP {
      LastOfLast(LogRun(ops), want, CAP);
    }
  }

  // ----- the tracker itself -----

  class Tracker {
    var tasks: seq<Task>

    constructor ()
      ensures tasks == []
    {
      tasks := [];
    }

    method TaskStart(id: Id, action: Action, target: string, now: int)
      modifies this
      ensures tasks == CappedStep(old(tasks), Start(id, action, target, now))
      ensures tasks != [] && tasks[..|tasks| - 1] == Last(old(tasks), 199)
      ensures tasks[|tasks| - 1] == Task(id, action, target, Running, NoMessage, 0.0, "", now, None)
    {
      tasks := tasks + [NewTask(id, action, target, now)];
      if |tasks| > CAP {
        tasks := tasks[|tasks| - CAP..];
      }
    }

    method UpdateTask(id: Id, state: State, message: Message, now: int)
      modifies this
      ensures tasks == CappedStep(old(tasks), Update(id, state, message, now))
      ensures |tasks| == |old(tasks)|
      ensures forall k | 0 <= k < |tasks| ::
                if id != NoId && old(tasks)[k].id == id && (forall j | k < j < |tasks| :: old(tasks)[j].id != id) then
                  tasks[k] == old(tasks)[k].(state := state, message := message,
                                             endedAt := if state == Running then None else Some(now))
                else tasks[k] == old(tasks)[k]
    {
      if id == NoId {
        return;
      }
      var i := |tasks| - 1;
      while i >= 0
        invariant -1 <= i < |tasks|
        invariant tasks == old(tasks)
        invariant forall j | i < j < |tasks| :: tasks[j].id != id
      {
        if tasks[i].id == id {
          UpdateAt(tasks, id, state, message, now, i);
          var ended := if state == Running then None else Some(now);
          tasks := tasks[i := tasks[i].(state := state, message := message, endedAt := ended)];
          return;
        }
        i := i - 1;
      }
      UpdateUnknown(tasks, id, state, message, now);
    }

    /** The copying loop of `RecentTasks`. */
    method CopyWindow(limit: int) returns (out: seq<Task>)
      ensures out == Window(tasks, limit)
    {
      var n := if limit <= 0 then 30 else limit;
      out := [];
      var i := |tasks| - 1;
      while i >= 0 && |out| < n
        invariant -1 <= i < |tasks| && |out| == |tasks| - 1 - i && |out| <= n
        invariant forall j | 0 <= j < |out| :: out[j] == tasks[|tasks| - 1 - j]
      {
        out := out + [tasks[i]];
        i := i - 1;
      }
    }
  }

  // ----- the end time -----

  predicate EndMatchesState(t: Task) {
    t.endedAt.None? <==> t.state == Running
  }

  predicate EndsMatch(log: seq<Task>) {
    forall i | 0 <= i < |log| :: EndMatchesState(log[i])
  }

  lemma StepKeepsEnds(log: seq<Task>, op: Op)
    requires EndsMatch(log)
    ensures EndsMatch(LogStep(log, op))
  {
    if op.Update? && op.id != NoId {
      var k := NewestOrUnknown(log, op.id);
      if Unknown(log, op.id) {
        UpdateUnknown(log, op.id, op.state, op.message, op.now);
      } else {
        UpdateAt(log, op.id, op.state, op.message, op.now, k);
      }
    }
  }

  /** In every reachable list the end time is zero exactly while the state is running. */
  lemma {:induction false} EndTimes(ops: seq<Op>)
    ensures EndsMatch(LogRun(ops)) && EndsMatch(CappedRun(ops))
    decreases |ops|
  {
    CappedRefinesLog(ops);
    if ops != [] {
      EndTimes(ops[..|ops| - 1]);
      StepKeepsEnds(LogRun(ops[..|ops| - 1]), ops[|ops| - 1]);
    }
  }
}
