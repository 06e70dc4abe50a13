// `RecentTasks` holds the tracker's mutex while it refreshes running scrubs, and a scrub found finished
// makes it call `taskDone`, which locks the same mutex. The mutex is not re-entrant, so this is modelled
// as steps of threads over one lock.
module TaskLock {
  import opened Wrappers
  import opened TaskLog

  /** What reading a pool's status gave. */
  datatype Probe = Unreadable | InProgress(percent: real, eta: string, status: string) | Over(summary: string)

  /** A call: `RecentTasks` with the answers its status reads will get, or one that changes the list. */
  datatype Program = Recent(limit: int, probes: seq<Probe>) | Change(op: Op)

  datatype Pc =
    | Before
    | Changing
    | Leaving
    | Refreshing(window: seq<Task>, out: seq<Task>, i: nat)
    | Relocking(window: seq<Task>, out: seq<Task>, i: nat)
    | Returned(window: seq<Task>, out: seq<Task>)

  datatype Thread = Thread(program: Program, pc: Pc)

  datatype System = System(tasks: seq<Task>, mutex: Option<nat>, threads: seq<Thread>)

  function ProbeAt(probes: seq<Probe>, i: nat): Probe {
    if i < |probes| then probes[i] else Unreadable
  }

  predicate RunningScrub(t: Task) {
    t.action == StartScrub && t.state == Running
  }

  /** Entry `i` of the window is a running scrub whose status is read and says it is no longer in progress, and it has
      an id to record that under: without one `updateTask` returns before it locks. */
  predicate FoundOver(window: seq<Task>, probes: seq<Probe>, i: nat)
    requires i < |window|
  {
    RunningScrub(window[i]) && ProbeAt(probes, i).Over? && window[i].id != NoId
  }

  /** The refreshed copy of one window entry. */
  function Refreshed(t: Task, p: Probe): Task {
    if !RunningScrub(t) then t
    else
      match p
      case Unreadable => t
      case InProgress(percent, eta, status) => t.(progress := percent, eta := eta, message := ScrubStatus(status))
      case Over(summary) => t.(state := Done, message := ScrubOver(summary))
  }

  predicate NeedsMutex(p: Program) {
    p.Recent? || p.op.Start? || p.op.id != NoId
  }

  // ----- steps -----

  predicate SameCalls(s: System, r: System) {
    && |r.threads| == |s.threads|
    && forall u | 0 <= u < |s.threads| :: r.threads[u].program == s.threads[u].program
  }

  function Move(s: System, t: nat, pc: Pc): System
    requires t < |s.threads|
  {
    s.(threads := s.threads[t := s.threads[t].(pc := pc)])
  }

  /** The next step of thread `t`, or None where it has to wait or has returned. */
  function Step(s: System, t: nat): (r: Option<System>)
    requires t < |s.threads|
    ensures r.Some? ==> SameCalls(s, r.value)
  {
    var p := s.threads[t].program;
    match s.threads[t].pc
    case Before =>
      if !NeedsMutex(p) then Some(Move(s, t, Returned([], [])))
      else if s.mutex.Some? then None
      else
        var window := if p.Recent? then Window(s.tasks, p.limit) else [];
        Some(Move(s.(mutex := Some(t)), t, if p.Recent? then Refreshing(window, window, 0) else Changing))
    case Changing =>
      if p.Change? then Some(Move(s.(tasks := CappedStep(s.tasks, p.op)), t, Leaving)) else None
    case Leaving =>
      Some(Move(s.(mutex := None), t, Returned([], [])))
    case Refreshing(window, out, i) =>
      if p.Change? || i > |window| || |out| != |window| then None
      else if i == |window| then Some(Move(s.(mutex := None), t, Returned(window, out)))
      else
        var out' := out[i := Refreshed(out[i], ProbeAt(p.probes, i))];
        Some(Move(s, t, if FoundOver(window, p.probes, i) then Relocking(window, out', i)
                        else Refreshing(window, out', i + 1)))
    case Relocking(window, out, i) =>
      if s.mutex.Some? || i >= |out| then None
      else
        var update := Update(out[i].id, Done, out[i].message, 0);
        Some(Move(s.(tasks := CappedStep(s.tasks, update)), t, Refreshing(window, out, i + 1)))
    case Returned(_, _) => None
  }

  predicate Schedule(s: System, turns: seq<nat>) {
    forall i | 0 <= i < |turns| :: turns[i] < |s.threads|
  }

  /** The state after the given turns; a turn of a waiting thread does nothing. */
  function Run(s: System, turns: seq<nat>): (r: System)
    requires Schedule(s, turns)
    ensures SameCalls(s, r)
  {
    if turns == [] then s
    else
      var r := Run(s, turns[..|turns| - 1]);
      match Step(r, turns[|turns| - 1])
      case Some(next) => next
      case None => r
  }

  ghost predicate Initial(s: System) {
    s.mutex == None && forall t | 0 <= t < |s.threads| :: s.threads[t].pc == Before
  }

  // ----- the invariant -----

  predicate Inside(pc: Pc) {
    pc.Changing? || pc.Leaving? || pc.Refreshing? || pc.Relocking?
  }

  /** The window refreshed up to entry `n`. */
  ghost predicate RefreshedTo(window: seq<Task>, probes: seq<Probe>, out: seq<Task>, n: nat) {
    && |out| == |window|
    && forall j | 0 <= j < |window| :: out[j] == if j < n then Refreshed(window[j], ProbeAt(probes, j)) else window[j]
  }

  ghost predicate NoneOver(window: seq<Task>, probes: seq<Probe>, n: nat) {
    forall j | 0 <= j < n && j < |window| :: !FoundOver(window, probes, j)
  }

  ghost predicate ThreadOk(s: System, th: Thread) {
    match th.pc
    case Before => true
    case Changing => th.program.Change?
    case Leaving => th.program.Change?
    case Refreshing(window, out, i) =>
      && th.program.Recent? && window == Window(s.tasks, th.program.limit) && i <= |window|
      && RefreshedTo(window, th.program.probes, out, i) && NoneOver(window, th.program.probes, i)
    case Relocking(window, out, i) =>
      && th.program.Recent? && window == Window(s.tasks, th.program.limit) && i < |window|
      && RefreshedTo(window, th.program.probes, out, i + 1)
      && NoneOver(window, th.program.probes, i) && FoundOver(window, th.program.probes, i)
    case Returned(window, out) =>
      th.program.Recent? ==>
        && RefreshedTo(window, th.program.probes, out, |window|)
        && NoneOver(window, th.program.probes, |window|)
  }

  ghost predicate Inv(s: System) {
    forall t | 0 <= t < |s.threads| :: ThreadOk(s, s.threads[t]) && (Inside(s.threads[t].pc) <==> s.mutex == Some(t))
  }

  lemma RefreshOne(window: seq<Task>, probes: seq<Probe>, out: seq<Task>, i: nat)
    requires RefreshedTo(window, probes, out, i) && NoneOver(window, probes, i) && i < |window|
    ensures RefreshedTo(window, probes, out[i := Refreshed(out[i], ProbeAt(probes, i))], i + 1)
    ensures !FoundOver(window, probes, i) ==> NoneOver(window, probes, i + 1)
  {
    assert out[i] == window[i];
  }

  lemma RefreshingOk(s: System, t: nat)
    requires t < |s.threads| && ThreadOk(s, s.threads[t]) && s.threads[t].pc.Refreshing? && Step(s, t).Some?
    ensures ThreadOk(Step(s, t).value, Step(s, t).value.threads[t])
  {
    var th := s.threads[t];
    if th.pc.i < |th.pc.window| {
      RefreshOne(th.pc.window, th.program.probes, th.pc.out, th.pc.i);
    }
  }

  lemma MoverOk(s: System, t: nat)
    requires Inv(s) && t < |s.threads| && Step(s, t).Some?
    ensures ThreadOk(Step(s, t).value, Step(s, t).value.threads[t])
  {
    var th := s.threads[t];
    assert ThreadOk(s, th);
    if th.pc.Refreshing? {
      RefreshingOk(s, t);
    }
  }

  lemma LockFollowsMover(s: System, t: nat)
    requires Inv(s) && t < |s.threads| && Step(s, t).Some?
    ensures var r := Step(s, t).value;
            && (r.mutex == if Inside(r.threads[t].pc) then Some(t) else if s.mutex == Some(t) then None else s.mutex)
            && (r.tasks != s.tasks ==> s.mutex == Some(t))
            && (r.mutex != s.mutex ==> s.mutex == None || s.mutex == Some(t))
  {
    assert ThreadOk(s, s.threads[t]);
  }

  lemma StepKeepsInv(s: System, t: nat)
    requires Inv(s) && t < |s.threads| && Step(s, t).Some?
    ensures Inv(Step(s, t).value)
  {
    var r := Step(s, t).value;
    MoverOk(s, t);
    LockFollowsMover(s, t);
    forall u | 0 <= u < |r.threads| && u != t
      ensures ThreadOk(r, r.threads[u]) && (Inside(r.threads[u].pc) <==> r.mutex == Some(u))
    {
      OthersKept(s, t, u);
      assert ThreadOk(s, s.threads[u]);
    }
  }

  lemma OthersKept(s: System, t: nat, u: nat)
    requires t < |s.threads| && u < |s.threads| && u != t && Step(s, t).Some?
    ensures Step(s, t).value.threads[u] == s.threads[u]
  {
  }

  lemma {:induction false} RunKeepsInv(s: System, turns: seq<nat>)
    requires Inv(s) && Schedule(s, turns)
    ensures Inv(Run(s, turns))
    decreases |turns|
  {
    if turns != [] {
      var front, t := turns[..|turns| - 1], turns[|turns| - 1];
      RunKeepsInv(s, front);
      if Step(Run(s, front), t).Some? {
        StepKeepsInv(Run(s, front), t);
      }
    }
  }

  /** No two calls are ever inside the mutex together. */
  lemma MutualExclusion(s: System, turns: seq<nat>, t: nat, u: nat)
    requires Initial(s) && Schedule(s, turns) && t < |s.threads| && u < |s.threads|
    requires Inside(Run(s, turns).threads[t].pc) && Inside(Run(s, turns).threads[u].pc)
    ensures t == u
  {
    RunKeepsInv(s, turns);
  }

  // ----- a call of RecentTasks either returns cleanly or stops for ever -----

  /** In any run, a call that has returned met no finished scrub and returns its whole window refreshed;
      one that waits for the mutex it holds has met a finished scrub. */
  lemma RecentOutcome(s: System, turns: seq<nat>, t: nat)
    requires Initial(s) && Schedule(s, turns) && t < |s.threads| && s.threads[t].program.Recent?
    ensures var th := Run(s, turns).threads[t]; var probes := th.program.probes;
            && (th.pc.Returned? ==>
                  && RefreshedTo(th.pc.window, probes, th.pc.out, |th.pc.window|)
                  && NoneOver(th.pc.window, probes, |th.pc.window|)
                  && Run(s, turns).mutex != Some(t))
            && (th.pc.Relocking? ==>
                  && Run(s, turns).mutex == Some(t)
                  && th.pc.i < |th.pc.window|
                  && FoundOver(th.pc.window, probes, th.pc.i))
  {
    RunKeepsInv(s, turns);
  }

  /** `n` turns of one thread. */
  function Turns(t: nat, n: nat): (r: seq<nat>)
    ensures |r| == n && forall i | 0 <= i < n :: r[i] == t
  {
    if n == 0 then [] else Turns(t, n - 1) + [t]
  }

  lemma {:induction false} RunFirst(s: System, t: nat, n: nat)
    requires t < |s.threads| && Step(s, t).Some?
    ensures Run(s, Turns(t, n + 1)) == Run(Step(s, t).value, Turns(t, n))
    decreases n
  {
    assert Turns(t, n + 1)[..n] == Turns(t, n);
    if n == 0 {
      assert Run(s, Turns(t, 0)) == s;
    } else {
      RunFirst(s, t, n - 1);
      assert Turns(t, n)[..n - 1] == Turns(t, n - 1);
    }
  }

  /** From inside the window loop the call returns its window refreshed, with the mutex free and the list as it was,
      exactly when no entry still ahead is found finished; otherwise it comes to wait for itself. */
  lemma {:induction false} RecentFinishes(s: System, t: nat) returns (n: nat)
    requires Inv(s) && t < |s.threads| && s.threads[t].pc.Refreshing?
    ensures var pc := s.threads[t].pc;
            var end := Run(s, Turns(t, n));
            && end.tasks == s.tasks
            && (NoneOver(pc.window, s.threads[t].program.probes, |pc.window|) ==>
                  && end.mutex == None && end.threads[t].pc.Returned? && end.threads[t].pc.window == pc.window
                  && RefreshedTo(pc.window, s.threads[t].program.probes, end.threads[t].pc.out, |pc.window|))
            && (!NoneOver(pc.window, s.threads[t].program.probes, |pc.window|) ==>
                  end.mutex == Some(t) && end.threads[t].pc.Relocking?)
    decreases |s.threads[t].pc.window| - s.threads[t].pc.i
  {
    var pc := s.threads[t].pc;
    var next := Step(s, t).value;
    StepKeepsInv(s, t);
    if next.threads[t].pc.Refreshing? {
      n := RecentFinishes(next, t);
      RunFirst(s, t, n);
      n := n + 1;
    } else {
      RunFirst(s, t, 0);
      assert Run(next, Turns(t, 0)) == next;
      n := 1;
    }
  }

  /** What a caller sees in the copy of one entry: only a scrub that is running changes, by what its pool reports. */
  ghost predicate CopyOf(t: Task, probes: seq<Probe>, j: nat, copy: Task) {
    if t.action != StartScrub || t.state != Running || j >= |probes| then copy == t
    else
      match probes[j]
      case Unreadable => copy == t
      case InProgress(percent, eta, status) =>
        copy == t.(progress := percent, eta := eta, message := ScrubStatus(status))
      case Over(summary) => copy == t.(state := Done, message := ScrubOver(summary))
  }

  /** It stops the call: a running scrub with an id whose pool reports that no scrub is in progress. */
  predicate Stops(t: Task, probes: seq<Probe>, j: nat) {
    t.action == StartScrub && t.state == Running && t.id != NoId && j < |probes| && probes[j].Over?
  }

  lemma CopiesAre(window: seq<Task>, probes: seq<Probe>, out: seq<Task>)
    requires RefreshedTo(window, probes, out, |window|)
    ensures |out| == |window| && forall j | 0 <= j < |window| :: CopyOf(window[j], probes, j, out[j])
  {
    forall j | 0 <= j < |window| ensures CopyOf(window[j], probes, j, out[j]) {
      assert out[j] == Refreshed(window[j], ProbeAt(probes, j));
    }
  }

  lemma NoneStops(window: seq<Task>, probes: seq<Probe>)
    ensures NoneOver(window, probes, |window|) <==> forall j | 0 <= j < |window| :: !Stops(window[j], probes, j)
  {
    forall j | 0 <= j < |window| ensures FoundOver(window, probes, j) == Stops(window[j], probes, j) {
    }
  }

  /** A call with the mutex free and nothing beside it, from its begin: it returns, with the mutex free and the list as
      it was, exactly when none of the newest entries stops it, and then with copies of just these. */
  lemma RecentReturnsIff(s: System, t: nat) returns (n: nat)
    requires Inv(s) && t < |s.threads| && s.mutex == None
    requires s.threads[t].program.Recent? && s.threads[t].pc == Before
    ensures var p := s.threads[t].program; var window := Window(s.tasks, p.limit);
            var end := Run(s, Turns(t, n)); var pc := end.threads[t].pc;
            && end.tasks == s.tasks
            && ((forall j | 0 <= j < |window| :: !Stops(window[j], p.probes, j)) ==>
                  && end.mutex == None && pc.Returned? && pc.window == window && |pc.out| == |window|
                  && forall j | 0 <= j < |window| :: CopyOf(window[j], p.probes, j, pc.out[j]))
            && ((exists j | 0 <= j < |window| :: Stops(window[j], p.probes, j)) ==>
                  end.mutex == Some(t) && pc.Relocking?)
  {
    var p := s.threads[t].program;
    var window := Window(s.tasks, p.limit);
    n := RecentEnds(s, t);
    NoneStops(window, p.probes);
    if NoneOver(window, p.probes, |window|) {
      CopiesAre(window, p.probes, Run(s, Turns(t, n)).threads[t].pc.out);
    }
  }

  lemma RecentEnds(s: System, t: nat) returns (n: nat)
    requires Inv(s) && t < |s.threads| && s.mutex == None
    requires s.threads[t].program.Recent? && s.threads[t].pc == Before
    ensures var p := s.threads[t].program; var window := Window(s.tasks, p.limit);
            var end := Run(s, Turns(t, n)); var pc := end.threads[t].pc;
            && end.tasks == s.tasks
            && if NoneOver(window, p.probes, |window|) then
                 && end.mutex == None && pc.Returned? && pc.window == window
                 && RefreshedTo(window, p.probes, pc.out, |window|)
               else end.mutex == Some(t) && pc.Relocking?
  {
    var inside := Enters(s, t);
    var more := RecentFinishes(inside, t);
    n := more + 1;
    assert Run(s, Turns(t, more + 1)) == Run(inside, Turns(t, more));
  }

  /** The first turn of a call that finds the mutex free. */
  lemma Enters(s: System, t: nat) returns (inside: System)
    requires Inv(s) && t < |s.threads| && s.mutex == None
    requires s.threads[t].program.Recent? && s.threads[t].pc == Before
    ensures Inv(inside) && inside.tasks == s.tasks && SameCalls(s, inside)
    ensures var window := Window(s.tasks, s.threads[t].program.limit);
            inside.threads[t].pc == Refreshing(window, window, 0)
    ensures forall n: nat :: Run(s, Turns(t, n + 1)) == Run(inside, Turns(t, n))
  {
    inside := Step(s, t).value;
    StepKeepsInv(s, t);
    forall n: nat ensures Run(s, Turns(t, n + 1)) == Run(inside, Turns(t, n)) {
      RunFirst(s, t, n);
    }
  }

  /** In particular a list with no scrub running, whatever else is and whatever the pools report: the call returns
      the newest entries as they are. */
  lemma OthersAreLeftAlone(s: System, t: nat) returns (n: nat)
    requires Inv(s) && t < |s.threads| && s.mutex == None
    requires s.threads[t].program.Recent? && s.threads[t].pc == Before
    requires forall k | 0 <= k < |s.tasks| :: s.tasks[k].action != StartScrub || s.tasks[k].state != Running
    ensures var window := Window(s.tasks, s.threads[t].program.limit);
            var end := Run(s, Turns(t, n));
            end.tasks == s.tasks && end.mutex == None && end.threads[t].pc == Returned(window, window)
  {
    var p := s.threads[t].program;
    var window := Window(s.tasks, p.limit);
    WindowIsNewestFirst(s.tasks, p.limit);
    forall j | 0 <= j < |window| ensures window[j].action != StartScrub || window[j].state != Running {
      assert window[j] == s.tasks[|s.tasks| - 1 - j];
    }
    n := RecentReturnsIff(s, t);
    CopiesSame(window, p.probes, Run(s, Turns(t, n)).threads[t].pc.out);
  }

  lemma CopiesSame(window: seq<Task>, probes: seq<Probe>, out: seq<Task>)
    requires |out| == |window| && forall j | 0 <= j < |window| :: CopyOf(window[j], probes, j, out[j])
    requires forall j | 0 <= j < |window| :: window[j].action != StartScrub || window[j].state != Running
    ensures out == window
  {
    forall j | 0 <= j < |window| ensures out[j] == window[j] {
      assert CopyOf(window[j], probes, j, out[j]);
    }
  }

  /** While a call of RecentTasks is inside, no step of any thread changes the list. */
  lemma ReaderFreezesTasks(s: System, t: nat, u: nat)
    requires Inv(s) && t < |s.threads| && u < |s.threads|
    requires s.mutex == Some(t) && s.threads[t].program.Recent? && Step(s, u).Some?
    ensures Step(s, u).value.tasks == s.tasks
  {
    if u != t {
      assert !Inside(s.threads[u].pc);
    }
  }

  ghost predicate StoppedBy(s: System, t: nat) {
    t < |s.threads| && s.mutex == Some(t) && s.threads[t].pc.Relocking?
  }

  /** A call that changes the list, with the mutex free and nothing beside it: three turns, and the list is changed just
      so, once, and the mutex free again; an update of no entry needs no mutex and changes nothing. */
  lemma ChangeApplies(s: System, t: nat)
    requires t < |s.threads| && s.threads[t].program.Change? && s.threads[t].pc == Before && s.mutex == None
    ensures var op := s.threads[t].program.op; var end := Run(s, Turns(t, 3));
            && end.tasks == CappedStep(s.tasks, op) && end.mutex == None && end.threads[t].pc.Returned?
    ensures s.threads[t].program.op.Update? && s.threads[t].program.op.id == NoId ==>
              CappedStep(s.tasks, s.threads[t].program.op) == s.tasks
  {
    var op := s.threads[t].program.op;
    TurnMore(s, t, 0);
    TurnMore(s, t, 1);
    TurnMore(s, t, 2);
    assert Run(s, Turns(t, 0)) == s;
    if NeedsMutex(s.threads[t].program) {
      var s1 := Move(s.(mutex := Some(t)), t, Changing);
      assert Step(s, t) == Some(s1);
      var s2 := Move(s1.(tasks := CappedStep(s.tasks, op)), t, Leaving);
      assert Step(s1, t) == Some(s2);
      assert Step(s2, t) == Some(Move(s2.(mutex := None), t, Returned([], [])));
    } else {
      var s1 := Move(s, t, Returned([], []));
      assert Step(s, t) == Some(s1) && Step(s1, t) == None;
    }
  }

  /** An update of no entry never waits, whoever has the mutex. */
  lemma EmptyUpdateNeverWaits(s: System, t: nat)
    requires t < |s.threads| && s.threads[t].pc == Before
    requires s.threads[t].program.Change? && s.threads[t].program.op.Update? && s.threads[t].program.op.id == NoId
    ensures Step(s, t) == Some(Move(s, t, Returned([], [])))
  {
  }

  lemma TurnMore(s: System, t: nat, n: nat)
    requires t < |s.threads|
    ensures var r := Run(s, Turns(t, n));
            Run(s, Turns(t, n + 1)) == if Step(r, t).Some? then Step(r, t).value else r
  {
    assert Turns(t, n + 1)[..n] == Turns(t, n);
  }

  /** The input on which it happens: a list whose newest entry is a running scrub with an id, one call of
      `RecentTasks`, and a pool whose status says that no scrub is in progress. Two turns of the call are enough. */
  lemma FinishedScrubStops(tasks: seq<Task>, limit: int, summary: string)
    requires tasks != [] && RunningScrub(tasks[|tasks| - 1]) && tasks[|tasks| - 1].id != NoId
    ensures var s := System(tasks, None, [Thread(Recent(limit, [Over(summary)]), Before)]);
            Initial(s) && StoppedBy(Run(s, Turns(0, 2)), 0)
  {
    var p := Recent(limit, [Over(summary)]);
    var s := System(tasks, None, [Thread(p, Before)]);
    var window := Window(tasks, limit);
    WindowIsNewestFirst(tasks, limit);
    assert FoundOver(window, p.probes, 0);
    var s1 := System(tasks, Some(0), [Thread(p, Refreshing(window, window, 0))]);
    assert s.threads[0 := s1.threads[0]] == s1.threads;
    assert Step(s, 0) == Some(s1);
    FirstIsOver(s1, p, window);
    RunFirst(s, 0, 1);
    RunFirst(s1, 0, 0);
  }

  lemma FirstIsOver(s: System, p: Program, window: seq<Task>)
    requires p.Recent? && window != [] && FoundOver(window, p.probes, 0)
    requires s.mutex == Some(0) && s.threads == [Thread(p, Refreshing(window, window, 0))]
    ensures Step(s, 0).Some? && StoppedBy(Step(s, 0).value, 0)
    ensures Run(Step(s, 0).value, Turns(0, 0)) == Step(s, 0).value
  {
  }

  /** Such a list is what a `StartScrub` that has worked leaves, with any id the clock gives. */
  lemma StartedScrubStops(n: int, pool: string, begun: int, ended: int)
    ensures var start := Start(Nanos(n), StartScrub, pool, begun);
            var ops := [start] + [Update(Nanos(n), Running, Success(StartScrub), ended)];
            var s := System(CappedRun(ops), None, [Thread(Recent(30, [Over("")]), Before)]);
            Initial(s) && StoppedBy(Run(s, Turns(0, 2)), 0)
  {
    var start := Start(Nanos(n), StartScrub, pool, begun);
    var update := Update(Nanos(n), Running, Success(StartScrub), ended);
    assert ([start] + [update])[..1] == [start] && [start][..0] == [];
    var task := NewTask(Nanos(n), StartScrub, pool, begun);
    assert CappedRun([start]) == [task];
    var done := UpdateNewest([task], Nanos(n), Running, Success(StartScrub), ended);
    UpdateAt([task], Nanos(n), Running, Success(StartScrub), ended, 0);
    assert CappedRun([start] + [update]) == done == [Updated(task, Running, Success(StartScrub), ended)];
    FinishedScrubStops(done, 30, "");
  }

  /** After that, in every continuation: the list never changes, the mutex is never free, and no call
      that still needs it ever starts. */
  lemma {:induction false} StoppedForEver(s: System, t: nat, turns: seq<nat>)
    requires Inv(s) && StoppedBy(s, t) && Schedule(s, turns)
    ensures var r := Run(s, turns);
            && r.tasks == s.tasks && StoppedBy(r, t) && r.threads[t] == s.threads[t]
            && forall u | 0 <= u < |s.threads| && s.threads[u].pc == Before && NeedsMutex(s.threads[u].program) ::
                 r.threads[u] == s.threads[u] && Step(r, u) == None
    decreases |turns|
  {
    if turns != [] {
      var front, u := turns[..|turns| - 1], turns[|turns| - 1];
      StoppedForEver(s, t, front);
      RunKeepsInv(s, front);
      var r := Run(s, front);
      if Step(r, u).Some? {
        assert u != t;
        assert !Inside(r.threads[u].pc);
      }
    }
  }

  /** `enrichTasks` as code. None where it would lock the mutex its caller holds. */
  method EnrichTasks(window: seq<Task>, probes: seq<Probe>) returns (r: Option<seq<Task>>)
    ensures r.Some? <==> forall j | 0 <= j < |window| :: !Stops(window[j], probes, j)
    ensures r.Some? ==>
              |r.value| == |window| && forall j | 0 <= j < |window| :: CopyOf(window[j], probes, j, r.value[j])
    ensures (forall j | 0 <= j < |window| :: window[j].action != StartScrub || window[j].state != Running) ==>
              r == Some(window)
  {
    NoneStops(window, probes);
    var out := window;
    var i := 0;
    while i < |out|
      invariant 0 <= i <= |out|
      invariant RefreshedTo(window, probes, out, i) && NoneOver(window, probes, i)
    {
      assert out[i] == window[i];
      var p := ProbeAt(probes, i);
      if RunningScrub(out[i]) && p.InProgress? {
        out := out[i := out[i].(progress := p.percent, eta := p.eta, message := ScrubStatus(p.status))];
      } else if RunningScrub(out[i]) && p.Over? {
        out := out[i := out[i].(state := Done, message := ScrubOver(p.summary))];
        if out[i].id != NoId {
          assert FoundOver(window, probes, i);
          return None;
        }
      }
      i := i + 1;
    }
    CopiesAre(window, probes, out);
    assert (forall j | 0 <= j < |window| :: out[j] == window[j]) ==> out == window;
    return Some(out);
  }

  /** `RecentTasks` as code, run alone: it changes nothing, and comes back exactly when no scrub is found over. */
  method RecentTasks(m: Tracker, limit: int, probes: seq<Probe>) returns (r: Option<seq<Task>>)
    ensures var window := Window(m.tasks, limit);
            && (r.Some? <==> forall j | 0 <= j < |window| :: !Stops(window[j], probes, j))
            && (r.Some? ==>
                  |r.value| == |window| && forall j | 0 <= j < |window| :: CopyOf(window[j], probes, j, r.value[j]))
  {
    var out := m.CopyWindow(limit);
    r := EnrichTasks(out, probes);
  }

  // ----- the sequential meaning that was intended -----

  /** The list after the finished scrubs among the first `n` window entries are recorded. */
  function Recorded(tasks: seq<Task>, window: seq<Task>, probes: seq<Probe>, n: nat, now: int): (r: seq<Task>)
    requires n <= |window|
    ensures |r| == |tasks|
  {
    if n == 0 then tasks
    else
      var before := Recorded(tasks, window, probes, n - 1, now);
      if FoundOver(window, probes, n - 1) then
        UpdateNewest(before, window[n - 1].id, Done, ScrubOver(ProbeAt(probes, n - 1).summary), now)
      else before
  }

  ghost predicate DistinctIds(tasks: seq<Task>) {
    forall i, j | 0 <= i < j < |tasks| :: tasks[i].id != tasks[j].id
  }

  lemma UpdateOneOf(before: seq<Task>, tasks: seq<Task>, k: nat, state: State, message: Message, now: int)
    requires DistinctIds(tasks) && |before| == |tasks| && k < |tasks| && before[k] == tasks[k]
    requires forall j | 0 <= j < |tasks| :: before[j].id == tasks[j].id
    ensures UpdateNewest(before, tasks[k].id, state, message, now)
         == before[k := Updated(tasks[k], state, message, now)]
  {
    assert NewestAt(before, tasks[k].id, k);
    UpdateAt(before, tasks[k].id, state, message, now, k);
  }

  /** The entry at list position `k` after the first `n` window entries are recorded. */
  function RecordedEntry(tasks: seq<Task>, window: seq<Task>, probes: seq<Probe>, n: nat, now: int, k: nat): Task
    requires k < |tasks| && n <= |window| <= |tasks|
  {
    var j := |tasks| - 1 - k;
    if j < n && FoundOver(window, probes, j) then
      Updated(tasks[k], Done, ScrubOver(ProbeAt(probes, j).summary), now)
    else tasks[k]
  }

  ghost predicate NewestFirst(tasks: seq<Task>, window: seq<Task>) {
    |window| <= |tasks| && forall j | 0 <= j < |window| :: window[j] == tasks[|tasks| - 1 - j]
  }

  ghost predicate RecordedIs(tasks: seq<Task>, window: seq<Task>, probes: seq<Probe>, n: nat, now: int)
    requires n <= |window| <= |tasks|
  {
    var r := Recorded(tasks, window, probes, n, now);
    forall k | 0 <= k < |tasks| :: r[k] == RecordedEntry(tasks, window, probes, n, now, k)
  }

  lemma RecordNext(tasks: seq<Task>, window: seq<Task>, probes: seq<Probe>, n: nat, now: int)
    requires DistinctIds(tasks) && NewestFirst(tasks, window) && 0 < n <= |window|
    requires RecordedIs(tasks, window, probes, n - 1, now)
    ensures RecordedIs(tasks, window, probes, n, now)
  {
    var before := Recorded(tasks, window, probes, n - 1, now);
    var after := Recorded(tasks, window, probes, n, now);
    var at := |tasks| - n;
    assert before[at] == tasks[at] == window[n - 1];
    if FoundOver(window, probes, n - 1) {
      var message := ScrubOver(ProbeAt(probes, n - 1).summary);
      UpdateOneOf(before, tasks, at, Done, message, now);
      assert after == before[at := RecordedEntry(tasks, window, probes, n, now, at)];
    } else {
      assert after == before;
    }
    forall k | 0 <= k < |tasks| && k != at
      ensures RecordedEntry(tasks, window, probes, n, now, k) == RecordedEntry(tasks, window, probes, n - 1, now, k)
    {
    }
  }

  lemma {:induction false} RecordedUpTo(tasks: seq<Task>, window: seq<Task>, probes: seq<Probe>, n: nat, now: int)
    requires DistinctIds(tasks) && NewestFirst(tasks, window) && n <= |window|
    ensures RecordedIs(tasks, window, probes, n, now)
    decreases n
  {
    if n > 0 {
      RecordedUpTo(tasks, window, probes, n - 1, now);
      RecordNext(tasks, window, probes, n, now);
    }
  }

  lemma WindowIsNewestFirst(tasks: seq<Task>, limit: int)
    ensures NewestFirst(tasks, Window(tasks, limit))
  {
  }

  /** The list entry as the intended call leaves it, given the window entry and its probe. */
  lemma EntryAgrees(tasks: seq<Task>, window: seq<Task>, probes: seq<Probe>, now: int, j: nat)
    requires NewestFirst(tasks, window) && j < |window|
    ensures RecordedEntry(tasks, window, probes, |window|, now, |tasks| - 1 - j)
         == if FoundOver(window, probes, j) then Refreshed(window[j], ProbeAt(probes, j)).(endedAt := Some(now))
            else window[j]
  {
  }

  /** The intended call, with distinct ids: the list entry of each scrub found finished becomes exactly the copy that
      is returned, with its end time filled in, and every other entry stays as it was. */
  lemma RecordedAgrees(tasks: seq<Task>, limit: int, probes: seq<Probe>, now: int, j: nat)
    requires DistinctIds(tasks) && j < |Window(tasks, limit)|
    ensures var window := Window(tasks, limit);
            && |window| <= |tasks|
            && Recorded(tasks, window, probes, |window|, now)[|tasks| - 1 - j]
               == if FoundOver(window, probes, j) then Refreshed(window[j], ProbeAt(probes, j)).(endedAt := Some(now))
                  else window[j]
  {
    var window := Window(tasks, limit);
    WindowIsNewestFirst(tasks, limit);
    RecordedUpTo(tasks, window, probes, |window|, now);
    EntryAgrees(tasks, window, probes, now, j);
  }
}
