/** The event loop: any number of producers push tasks at any time, one loop drains the
    queue in rounds, runs each task, and pushes the unfinished ones back. */
module EventLoop {
  import opened Wrappers

  type Id = nat

  datatype TaskKind = RunOnce | Timer(repeat: bool)

  /** The numbers a task's state may be: 0 and up while it is not finished. */
  const FINISHED: int := -1

  /** A task and how often its function has been called. */
  datatype Task = Task(kind: TaskKind, state: int, calls: nat)

  function NewTask(kind: TaskKind): Task {
    Task(kind, 0, 0)
  }

  /** What one `run` does. A timer first starts itself; after that it acts when its
      timeout flag has been raised. */
  function RunTask(t: Task, timeout: bool): Task {
    match t.kind
    case RunOnce => if t.state == FINISHED then t else t.(state := FINISHED, calls := t.calls + 1)
    case Timer(repeat) =>
      if t.state == 0 then t.(state := 1)
      else if t.state == FINISHED || !timeout then t
      else t.(state := if repeat then t.state else FINISHED, calls := t.calls + 1)
  }

  // ----- interleaved steps -----

  /** Where the loop is: about to look at the queue's size, about to pop, running what it
      popped, pushing unfinished tasks back. */
  datatype Phase = Check | Pop | Run | Requeue

  datatype Sys = Sys(
    phase: Phase, queue: seq<Id>, hand: Option<Id>, notFinished: seq<Id>, retired: seq<Id>,
    tasks: map<Id, Task>,        // every task ever posted
    ran: multiset<Id>)           // the runs of this round

  const START: Sys := Sys(Check, [], None, [], [], map[], multiset{})

  datatype Event =
    | Post(id: Id, kind: TaskKind)   // by a producer, or by a task as it runs
    | Advance(timeout: bool)         // the loop's next step

  /** The loop's next step. Nothing, when it pops an empty queue. */
  function LoopStep(s: Sys, timeout: bool): Option<Sys> {
    match s.phase
    case Check => Some(s.(phase := if |s.queue| > 0 then Pop else Requeue))
    case Pop =>
      if s.queue == [] then None
      else Some(s.(phase := Run, hand := Some(s.queue[0]), queue := s.queue[1..]))
    case Run =>
      if s.hand.None? || s.hand.value !in s.tasks then None else
        var id := s.hand.value;
        var t := RunTask(s.tasks[id], timeout);
        var u := s.(phase := Check, hand := None, tasks := s.tasks[id := t], ran := s.ran + multiset{id});
        Some(if t.state >= 0 then u.(notFinished := u.notFinished + [id]) else u.(retired := u.retired + [id]))
    case Requeue =>
      if s.notFinished == [] then Some(s.(phase := Check, ran := multiset{}))
      else Some(s.(queue := s.queue + [s.notFinished[0]], notFinished := s.notFinished[1..]))
  }

  /** A posted task is a new one. */
  function Next(s: Sys, e: Event): Option<Sys> {
    match e
    case Post(id, kind) =>
      if id in s.tasks then Some(s) else Some(s.(queue := s.queue + [id], tasks := s.tasks[id := NewTask(kind)]))
    case Advance(timeout) => LoopStep(s, timeout)
  }

  function RunAll(s: Sys, events: seq<Event>): Option<Sys>
    decreases |events|
  {
    if events == [] then Some(s) else
      var t :- Next(s, events[0]);
      RunAll(t, events[1..])
  }

  /** All the places a task can be. */
  ghost function Places(s: Sys): multiset<Id> {
    multiset(s.queue) + (if s.hand.Some? then multiset{s.hand.value} else multiset{})
    + multiset(s.notFinished) + multiset(s.retired)
  }

  /** Every posted task is in exactly one place, and nothing else is in any. */
  ghost predicate Conserved(s: Sys) {
    Places(s) == multiset(s.tasks.Keys)
  }

  /** A run-once task has called its function exactly when it is finished, and then once. */
  ghost predicate TaskInv(t: Task) {
    && t.state >= FINISHED
    && (t.kind == RunOnce ==> t.state <= 0 && t.calls == if t.state == FINISHED then 1 else 0)
  }

  /** The loop holds a task exactly while it runs one, and pops only what is there. */
  ghost predicate PhaseInv(s: Sys) {
    (s.phase == Pop ==> s.queue != []) && (s.phase == Run <==> s.hand.Some?)
  }

  /** A task has run at most once this round; unfinished ones have, and before the round's
      end those in the queue or in hand have not. */
  ghost predicate RoundInv(s: Sys) {
    && (forall id :: id in s.ran ==> id in s.tasks && s.ran[id] == 1)
    && (forall id :: id in s.notFinished ==> id in s.ran)
    && (s.phase != Requeue ==>
          (forall id :: id in s.queue ==> id !in s.ran) && (s.hand.Some? ==> s.hand.value !in s.ran))
  }

  /** Exactly the finished tasks are retired. */
  ghost predicate RetiredInv(s: Sys) {
    forall id :: id in s.tasks ==> TaskInv(s.tasks[id]) && (s.tasks[id].state < 0 <==> id in s.retired)
  }

  /** The same tasks, each of its kind. */
  ghost predicate SameTasks(s: Sys, t: Sys) {
    t.tasks.Keys == s.tasks.Keys && forall id :: id in s.tasks ==> t.tasks[id].kind == s.tasks[id].kind
  }

  /** The tasks that are posted among some events. */
  ghost function PostedIds(events: seq<Event>): set<Id> {
    set e | e in events && e.Post? :: e.id
  }

  /** `t` has the tasks of `s` and those posted by `events`, each of the kind it had or was
      posted with. */
  ghost predicate Gains(s: Sys, events: seq<Event>, t: Sys) {
    && t.tasks.Keys == s.tasks.Keys + PostedIds(events)
    && (forall id :: id in s.tasks ==> t.tasks[id].kind == s.tasks[id].kind)
    && (forall id :: id in t.tasks && id !in s.tasks ==> Post(id, t.tasks[id].kind) in events)
  }

  ghost predicate Inv(s: Sys) {
    Conserved(s) && PhaseInv(s) && RoundInv(s) && RetiredInv(s)
  }

  /** Conservation, task by task. */
  lemma OnePlace(s: Sys, id: Id)
    requires Conserved(s)
    ensures multiset(s.queue)[id] + (if s.hand == Some(id) then 1 else 0)
            + multiset(s.notFinished)[id] + multiset(s.retired)[id] == if id in s.tasks then 1 else 0
    ensures id in s.queue ==> id in s.tasks && id !in s.retired && s.hand != Some(id)
    ensures s.hand == Some(id) ==> id in s.tasks && id !in s.retired && id !in s.queue
  {
    assert Places(s)[id] == multiset(s.tasks.Keys)[id];
  }

  lemma PostKeeps(s: Sys, id: Id, kind: TaskKind)
    requires Inv(s) && id !in s.tasks
    ensures Inv(Next(s, Post(id, kind)).value)
  {
    hide Conserved, TaskInv;
    var t := Next(s, Post(id, kind)).value;
    PostConserves(s, id, kind);
    OnePlace(s, id);
    assert TaskInv(NewTask(kind)) by { NewTaskInv(kind); }
    assert id !in multiset(s.retired);
  }

  lemma NewTaskInv(kind: TaskKind)
    ensures TaskInv(NewTask(kind))
  {
  }

  lemma PostConserves(s: Sys, id: Id, kind: TaskKind)
    requires Conserved(s) && id !in s.tasks
    ensures Conserved(Next(s, Post(id, kind)).value)
  {
    var t := Next(s, Post(id, kind)).value;
    LastIn(s.queue, id);
    NewKey(s.tasks, id, NewTask(kind));
    var hand := if s.hand.Some? then multiset{s.hand.value} else multiset{};
    Commute(multiset(s.queue), multiset{id}, hand, multiset(s.notFinished), multiset(s.retired));
  }

  lemma LastIn(ids: seq<Id>, id: Id)
    ensures multiset(ids + [id]) == multiset(ids) + multiset{id}
  {
  }

  lemma NewKey(tasks: map<Id, Task>, id: Id, t: Task)
    requires id !in tasks
    ensures multiset(tasks[id := t].Keys) == multiset(tasks.Keys) + multiset{id}
  {
    assert tasks[id := t].Keys == tasks.Keys + {id};
  }

  lemma Commute(a: multiset<Id>, x: multiset<Id>, b: multiset<Id>, c: multiset<Id>, d: multiset<Id>)
    ensures (a + x) + b + c + d == (a + b + c + d) + x
    ensures a + b + (c + x) + d == (a + b + c + d) + x
    ensures a + b + c + (d + x) == (a + b + c + d) + x
    ensures a + x + c + d == (a + multiset{} + c + d) + x
    ensures (x + a) + b + c + d == (a + b + c + d) + x
    ensures a + b + (x + c) + d == (a + b + c + d) + x
  {
  }

  lemma LoopConserves(s: Sys, timeout: bool)
    requires Conserved(s) && PhaseInv(s)
    ensures LoopStep(s, timeout).Some? && Conserved(LoopStep(s, timeout).value)
    ensures SameTasks(s, LoopStep(s, timeout).value)
  {
    hide RunTask, Places;
    if s.phase == Pop {
      TakenInHand(s, LoopStep(s, timeout).value);
    } else if s.phase == Run {
      RunConserves(s, timeout);
    } else if s.phase == Requeue && s.notFinished != [] {
      GoesBack(s, LoopStep(s, timeout).value);
    } else {
      SamePlaces(s, LoopStep(s, timeout).value);
    }
  }

  lemma TakenInHand(s: Sys, t: Sys)
    requires s.queue != [] && s.hand.None?
    requires t.hand == Some(s.queue[0]) && t.queue == s.queue[1..]
    requires t.notFinished == s.notFinished && t.retired == s.retired
    ensures Places(t) == Places(s)
  {
    FirstOut(s.queue);
  }

  lemma GoesBack(s: Sys, t: Sys)
    requires s.notFinished != [] && t.hand == s.hand && t.retired == s.retired
    requires t.queue == s.queue + [s.notFinished[0]] && t.notFinished == s.notFinished[1..]
    ensures Places(t) == Places(s)
  {
    FirstOut(s.notFinished);
  }

  lemma SamePlaces(s: Sys, t: Sys)
    requires t.queue == s.queue && t.hand == s.hand && t.notFinished == s.notFinished && t.retired == s.retired
    ensures Places(t) == Places(s)
  {
  }

  lemma FirstOut(ids: seq<Id>)
    requires ids != []
    ensures multiset(ids) == multiset{ids[0]} + multiset(ids[1..])
  {
    assert ids == [ids[0]] + ids[1..];
  }

  lemma RunConserves(s: Sys, timeout: bool)
    requires Conserved(s) && s.phase == Run && s.hand.Some?
    ensures LoopStep(s, timeout).Some? && Conserved(LoopStep(s, timeout).value)
    ensures SameTasks(s, LoopStep(s, timeout).value)
  {
    hide RunTask, Places;
    var id := s.hand.value;
    assert id in s.tasks by { HandKnown(s); }
    KindKept(s.tasks[id], timeout);
    var t := LoopStep(s, timeout).value;
    assert t.tasks.Keys == s.tasks.Keys;
    LeavesHand(s, t, id);
  }

  lemma HandKnown(s: Sys)
    requires Conserved(s) && s.hand.Some?
    ensures s.hand.value in s.tasks
  {
    OnePlace(s, s.hand.value);
  }

  /** What was in hand is then unfinished or retired. */
  lemma LeavesHand(s: Sys, t: Sys, id: Id)
    requires s.hand == Some(id) && t.hand == None && t.queue == s.queue
    requires (t.notFinished == s.notFinished + [id] && t.retired == s.retired)
             || (t.notFinished == s.notFinished && t.retired == s.retired + [id])
    ensures Places(t) == Places(s)
  {
    LastIn(s.notFinished, id);
    LastIn(s.retired, id);
    Commute(multiset(s.queue), multiset{id}, multiset{}, multiset(s.notFinished), multiset(s.retired));
  }

  lemma KindKept(t: Task, timeout: bool)
    ensures RunTask(t, timeout).kind == t.kind
  {
  }

  lemma RunKeepsTask(t: Task, timeout: bool)
    requires TaskInv(t) && t.state >= 0
    ensures TaskInv(RunTask(t, timeout)) && RunTask(t, timeout).kind == t.kind
    ensures RunTask(t, timeout).state >= 0 <==>
            t.kind.Timer? && (t.kind.repeat || t.state == 0 || !timeout)
    ensures t.calls <= RunTask(t, timeout).calls <= t.calls + 1
  {
  }

  lemma LoopKeeps(s: Sys, timeout: bool)
    requires Inv(s)
    ensures LoopStep(s, timeout).Some? && Inv(LoopStep(s, timeout).value)
    ensures SameTasks(s, LoopStep(s, timeout).value)
  {
    hide Conserved, TaskInv, RunTask;
    LoopConserves(s, timeout);
    if s.phase == Run {
      RunKeeps(s, timeout);
    } else if s.phase == Pop {
      PopKeeps(s, timeout);
    } else if s.phase == Requeue {
      RequeueKeeps(s, timeout);
    }
  }

  lemma PopKeeps(s: Sys, timeout: bool)
    requires Inv(s) && s.phase == Pop
    ensures var t := LoopStep(s, timeout).value; PhaseInv(t) && RoundInv(t) && RetiredInv(t)
  {
    hide Conserved, TaskInv;
    assert forall id :: id in s.queue[1..] ==> id in s.queue;
  }

  lemma RequeueKeeps(s: Sys, timeout: bool)
    requires Inv(s) && s.phase == Requeue
    ensures var t := LoopStep(s, timeout).value; PhaseInv(t) && RoundInv(t) && RetiredInv(t)
  {
    hide Conserved, TaskInv;
    if s.notFinished != [] {
      assert forall id :: id in s.notFinished[1..] ==> id in s.notFinished;
    }
  }

  lemma RunKeeps(s: Sys, timeout: bool)
    requires Inv(s) && s.phase == Run && LoopStep(s, timeout).Some?
    ensures var t := LoopStep(s, timeout).value; PhaseInv(t) && RoundInv(t) && RetiredInv(t)
  {
    hide Conserved, TaskInv, RunTask;
    var id := s.hand.value;
    OnePlace(s, id);
    RunKeepsTask(s.tasks[id], timeout);
    var t := LoopStep(s, timeout).value;
    assert forall x :: x in t.notFinished ==> x in s.notFinished || x == id;
    assert forall x :: x in t.retired ==> x in s.retired || x == id;
    assert forall x :: x in s.retired ==> x in t.retired;
  }

  // ----- whole runs -----

  /** The queue is never popped empty, every state of every run keeps the invariant, and the
      tasks at its end are those at its start and those posted in between. */
  lemma {:induction false} RunsKeep(s: Sys, events: seq<Event>)
    requires Inv(s)
    ensures RunAll(s, events).Some? && Inv(RunAll(s, events).value)
    ensures Gains(s, events, RunAll(s, events).value)
    decreases |events|
  {
    hide Inv, LoopStep, Gains;
    if events == [] {
      GainsNothing(s);
    } else {
      match events[0] {
        case Post(id, kind) => if id !in s.tasks { PostKeeps(s, id, kind); }
        case Advance(timeout) => LoopKeeps(s, timeout);
      }
      var t := Next(s, events[0]).value;
      RunsKeep(t, events[1..]);
      GainsMore(s, events, t, RunAll(t, events[1..]).value);
    }
  }

  lemma GainsNothing(s: Sys)
    ensures Gains(s, [], s)
  {
  }

  lemma GainsMore(s: Sys, events: seq<Event>, t: Sys, u: Sys)
    requires events != [] && Next(s, events[0]) == Some(t) && Gains(t, events[1..], u)
    requires events[0].Advance? ==> SameTasks(s, t)
    ensures Gains(s, events, u)
  {
    hide LoopStep;
    var more := events[1..];
    assert events == [events[0]] + more;
    forall id ensures id in PostedIds(events) <==>
                      id in PostedIds(more) || (events[0].Post? && events[0].id == id)
    {
      if id in PostedIds(more) {
        var e :| e in more && e.Post? && e.id == id;
        assert e in events;
      }
      assert events[0] in events;
    }
    forall e | e in more ensures e in events {}
    forall id | id in u.tasks && id !in s.tasks ensures Post(id, u.tasks[id].kind) in events {
      if id in t.tasks {
        assert Post(id, u.tasks[id].kind) == events[0];
      }
    }
  }

  lemma StartInv()
    ensures Inv(START)
  {
    assert Places(START) == multiset{};
    assert START.tasks.Keys == {};
  }

  /** In any run of producers and loop, however interleaved: no pop meets an empty queue;
      every posted task is in exactly one of the queue, the loop's hand, the unfinished list
      and the retired; it has run at most once in the current round; and a run-once task has
      called its function at most once ever. */
  lemma EveryRun(events: seq<Event>, id: Id)
    ensures RunAll(START, events).Some?
    ensures var s := RunAll(START, events).value;
            && (id in s.tasks <==> id in PostedIds(events))
            && (id in s.tasks ==> Post(id, s.tasks[id].kind) in events)
            && multiset(s.queue)[id] + (if s.hand == Some(id) then 1 else 0)
               + multiset(s.notFinished)[id] + multiset(s.retired)[id] == (if id in PostedIds(events) then 1 else 0)
            && s.ran[id] <= 1
            && (id in s.tasks && s.tasks[id].kind == RunOnce ==> s.tasks[id].calls <= 1)
  {
    hide Conserved;
    StartInv();
    RunsKeep(START, events);
    OnePlace(RunAll(START, events).value, id);
  }

  /** When the loop finds the queue empty, every task still alive has run exactly once in
      the round that ends. */
  lemma RoundComplete(events: seq<Event>, id: Id)
    requires var r := RunAll(START, events); r.Some? && r.value.phase == Check && r.value.queue == []
    ensures var s := RunAll(START, events).value;
            && (id in s.tasks <==> id in PostedIds(events))
            && (id in s.tasks && s.tasks[id].state >= 0 ==> id in s.notFinished && s.ran[id] == 1)
            && (id in s.tasks && s.tasks[id].state < 0 ==> id in s.retired)
  {
    hide Conserved;
    StartInv();
    RunsKeep(START, events);
    var s := RunAll(START, events).value;
    OnePlace(s, id);
    assert id in s.notFinished <==> multiset(s.notFinished)[id] > 0;
    assert id in s.retired <==> multiset(s.retired)[id] > 0;
  }

  // ----- what tasks have done -----

  /** The flags that the runs of a task found, in order: each run of the loop's step that has
      it in hand. */
  ghost function Flags(s: Sys, events: seq<Event>, id: Id): seq<bool>
    decreases |events|
  {
    if events == [] || Next(s, events[0]).None? then [] else
      FlagOf(s, events[0], id) + Flags(Next(s, events[0]).value, events[1..], id)
  }

  ghost function FlagOf(s: Sys, e: Event, id: Id): seq<bool> {
    if e.Advance? && s.phase == Run && s.hand == Some(id) then [e.timeout] else []
  }

  /** How many of the runs after the first found the flag raised. */
  ghost function Raised(flags: seq<bool>): nat {
    if |flags| <= 1 then 0 else Raised(flags[..|flags| - 1]) + (if flags[|flags| - 1] then 1 else 0)
  }

  /** What a task is after runs that found these flags. A run-once task is done by its first
      run, a one-shot timer by the first one after it that finds the flag raised, a
      repeating timer never; only these, and for a repeating timer each such run, are calls. */
  ghost predicate HasRun(t: Task, flags: seq<bool>) {
    match t.kind
    case RunOnce => |flags| <= 1 && t.calls == |flags| && (t.state < 0 <==> |flags| == 1)
    case Timer(repeat) =>
      && t.calls == Raised(flags)
      && (t.state < 0 <==> !repeat && Raised(flags) == 1)
      && (t.state == 0 <==> flags == [])
      && (!repeat ==> Raised(flags) <= 1 && (Raised(flags) == 1 ==> flags[|flags| - 1]))
  }

  lemma RunsOnce(t: Task, flags: seq<bool>, timeout: bool)
    requires HasRun(t, flags) && TaskInv(t) && t.state >= 0
    ensures HasRun(RunTask(t, timeout), flags + [timeout]) && TaskInv(RunTask(t, timeout))
  {
    hide Raised;
    RaisedThen(flags, timeout);
  }

  lemma RaisedThen(flags: seq<bool>, timeout: bool)
    ensures Raised(flags + [timeout]) == if flags == [] then 0 else Raised(flags) + (if timeout then 1 else 0)
    ensures flags == [] ==> Raised(flags) == 0
  {
    assert (flags + [timeout])[..|flags|] == flags;
  }

  /** Every task of a run, from any state: its earlier runs and the ones now make it what it
      is then. */
  lemma {:induction false} RunsMake(s: Sys, events: seq<Event>, id: Id, before: seq<bool>)
    requires Inv(s)
    requires if id in s.tasks then HasRun(s.tasks[id], before) else before == []
    ensures RunAll(s, events).Some?
    ensures var t := RunAll(s, events).value;
            id in t.tasks ==> HasRun(t.tasks[id], before + Flags(s, events, id))
    decreases |events|
  {
    hide Inv, LoopStep, HasRun, Gains, FlagOf;
    if events == [] {
      assert before + [] == before;
    } else {
      var e := events[0];
      StepMakes(s, e, id, before);
      var t, now := Next(s, e).value, FlagOf(s, e, id);
      RunsMake(t, events[1..], id, before + now);
      var more := Flags(t, events[1..], id);
      assert before + (now + more) == before + now + more;
    }
  }

  lemma StepMakes(s: Sys, e: Event, id: Id, before: seq<bool>)
    requires Inv(s)
    requires if id in s.tasks then HasRun(s.tasks[id], before) else before == []
    ensures Next(s, e).Some? && Inv(Next(s, e).value)
    ensures var t, flags := Next(s, e).value, before + FlagOf(s, e, id);
            if id in t.tasks then HasRun(t.tasks[id], flags) else flags == []
  {
    hide Inv, HasRun;
    assert before + [] == before;
    match e {
      case Post(other, kind) =>
        if other !in s.tasks {
          PostKeeps(s, other, kind);
          NewHasNotRun(kind);
        }
      case Advance(timeout) =>
        LoopKeeps(s, timeout);
        if s.phase == Run && s.hand == Some(id) {
          InHandAlive(s, id);
          RunsOnce(s.tasks[id], before, timeout);
        } else {
          OthersKept(s, id, timeout);
        }
    }
  }

  lemma NewHasNotRun(kind: TaskKind)
    ensures HasRun(NewTask(kind), [])
  {
  }

  lemma InHandAlive(s: Sys, id: Id)
    requires Inv(s) && s.hand == Some(id)
    ensures id in s.tasks && s.tasks[id].state >= 0 && TaskInv(s.tasks[id])
  {
    hide Conserved, TaskInv;
    OnePlace(s, id);
  }

  lemma OthersKept(s: Sys, id: Id, timeout: bool)
    requires LoopStep(s, timeout).Some? && !(s.phase == Run && s.hand == Some(id))
    ensures var t := LoopStep(s, timeout).value;
            (id in t.tasks <==> id in s.tasks) && (id in s.tasks ==> t.tasks[id] == s.tasks[id])
  {
    hide RunTask;
  }

  /** After any events: what each task has done is settled by its kind and the flags its runs
      found. A one-shot timer is retired exactly when it has been called, which is once, in
      its last run; a repeating timer is never retired, and has been called in each run after
      its first that found the flag raised; a run-once task is retired by its first run. */
  lemma TaskHistory(events: seq<Event>, id: Id)
    requires id in PostedIds(events)
    ensures RunAll(START, events).Some? && id in RunAll(START, events).value.tasks
    ensures var s, flags := RunAll(START, events).value, Flags(START, events, id);
            var calls := s.tasks[id].calls;
            match s.tasks[id].kind
            case RunOnce => |flags| <= 1 && calls == |flags| && (id in s.retired <==> calls == 1)
            case Timer(repeat) =>
              && calls == Raised(flags)
              && (repeat ==> id !in s.retired)
              && (!repeat ==>
                    && calls <= 1 && (id in s.retired <==> calls == 1)
                    && (id in s.retired ==> |flags| > 1 && flags[|flags| - 1]))
  {
    hide Inv, Flags, Gains;
    StartInv();
    RunsKeep(START, events);
    GainsKeys(START, events, RunAll(START, events).value);
    RunsMake(START, events, id, []);
    assert [] + Flags(START, events, id) == Flags(START, events, id);
    RetiredAreDone(RunAll(START, events).value, id);
  }

  lemma RetiredAreDone(s: Sys, id: Id)
    requires Inv(s) && id in s.tasks
    ensures id in s.retired <==> s.tasks[id].state < 0
  {
    hide Conserved, TaskInv;
    OnePlace(s, id);
  }

  // ----- order -----

  /** What one event puts at the end of the queue, takes from its front, runs, finds
      unfinished, and puts back. */
  function Pushed(s: Sys, e: Event): seq<Id> {
    match e
    case Post(id, _) => if id in s.tasks then [] else [id]
    case Advance(_) => PutBackBy(s, e)
  }

  function PoppedBy(s: Sys, e: Event): seq<Id> {
    if e.Advance? && s.phase == Pop && s.queue != [] then [s.queue[0]] else []
  }

  function RunBy(s: Sys, e: Event): seq<Id> {
    if e.Advance? && s.phase == Run && s.hand.Some? then [s.hand.value] else []
  }

  function KeptBy(s: Sys, e: Event): seq<Id> {
    if RunBy(s, e) != [] && s.hand.value in s.tasks && RunTask(s.tasks[s.hand.value], e.timeout).state >= 0
    then RunBy(s, e) else []
  }

  function PutBackBy(s: Sys, e: Event): seq<Id> {
    if e.Advance? && s.phase == Requeue && s.notFinished != [] then [s.notFinished[0]] else []
  }

  /** What the events of a run gather, in order. */
  ghost function Gathered(part: (Sys, Event) -> seq<Id>, s: Sys, events: seq<Event>): seq<Id>
    decreases |events|
  {
    if events == [] || Next(s, events[0]).None? then [] else
      part(s, events[0]) + Gathered(part, Next(s, events[0]).value, events[1..])
  }

  function InHand(s: Sys): seq<Id> {
    if s.hand.Some? then [s.hand.value] else []
  }

  /** First in, first out, over whole runs: the queue gives its tasks out in the order in which
      they were posted and put back; they run in that order; and the unfinished ones are
      put back in the order in which they ran. */
  lemma {:induction false} InOrder(s: Sys, events: seq<Event>)
    requires Inv(s)
    ensures RunAll(s, events).Some?
    ensures var t := RunAll(s, events).value;
            && s.queue + Gathered(Pushed, s, events) == Gathered(PoppedBy, s, events) + t.queue
            && InHand(s) + Gathered(PoppedBy, s, events) == Gathered(RunBy, s, events) + InHand(t)
            && s.notFinished + Gathered(KeptBy, s, events) == Gathered(PutBackBy, s, events) + t.notFinished
    decreases |events|
  {
    hide Inv, LoopStep, Gains;
    if events != [] {
      var e, more := events[0], events[1..];
      StepInOrder(s, e);
      var t := Next(s, e).value;
      RunsKeep(s, events);
      InOrder(t, more);
      var u := RunAll(t, more).value;
      Chain(s.queue, Pushed(s, e), PoppedBy(s, e), t.queue,
            Gathered(Pushed, t, more), Gathered(PoppedBy, t, more), u.queue);
      Chain(InHand(s), PoppedBy(s, e), RunBy(s, e), InHand(t),
            Gathered(PoppedBy, t, more), Gathered(RunBy, t, more), InHand(u));
      Chain(s.notFinished, KeptBy(s, e), PutBackBy(s, e), t.notFinished,
            Gathered(KeptBy, t, more), Gathered(PutBackBy, t, more), u.notFinished);
    }
  }

  /** Two spans of a first-in, first-out law make one. */
  lemma Chain(a: seq<Id>, x: seq<Id>, y: seq<Id>, b: seq<Id>, xs: seq<Id>, ys: seq<Id>, c: seq<Id>)
    requires a + x == y + b && b + xs == ys + c
    ensures a + (x + xs) == y + ys + c
  {
    assert a + (x + xs) == a + x + xs;
    assert y + b + xs == y + (b + xs);
  }

  lemma StepInOrder(s: Sys, e: Event)
    requires Inv(s)
    ensures Next(s, e).Some? && Inv(Next(s, e).value)
    ensures var t := Next(s, e).value;
            && s.queue + Pushed(s, e) == PoppedBy(s, e) + t.queue
            && InHand(s) + PoppedBy(s, e) == RunBy(s, e) + InHand(t)
            && s.notFinished + KeptBy(s, e) == PutBackBy(s, e) + t.notFinished
  {
    hide Inv, LoopStep, Pushed, PoppedBy, RunBy, KeptBy, PutBackBy;
    match e {
      case Post(id, kind) =>
        if id !in s.tasks { PostKeeps(s, id, kind); }
        PostInOrder(s, id, kind);
      case Advance(timeout) =>
        LoopKeeps(s, timeout);
        assert PhaseInv(s) by { PhaseOf(s); }
        LoopInOrder(s, timeout);
    }
  }

  lemma PhaseOf(s: Sys)
    requires Inv(s)
    ensures PhaseInv(s)
  {
  }

  lemma PostInOrder(s: Sys, id: Id, kind: TaskKind)
    ensures var t, e := Next(s, Post(id, kind)).value, Post(id, kind);
            && s.queue + Pushed(s, e) == PoppedBy(s, e) + t.queue
            && InHand(s) + PoppedBy(s, e) == RunBy(s, e) + InHand(t)
            && s.notFinished + KeptBy(s, e) == PutBackBy(s, e) + t.notFinished
  {
  }

  lemma LoopInOrder(s: Sys, timeout: bool)
    requires PhaseInv(s) && LoopStep(s, timeout).Some?
    ensures var t, e := LoopStep(s, timeout).value, Advance(timeout);
            && s.queue + Pushed(s, e) == PoppedBy(s, e) + t.queue
            && InHand(s) + PoppedBy(s, e) == RunBy(s, e) + InHand(t)
            && s.notFinished + KeptBy(s, e) == PutBackBy(s, e) + t.notFinished
  {
    hide RunTask;
  }

  lemma {:induction false} RunAllThen(s: Sys, events: seq<Event>, e: Event)
    requires RunAll(s, events).Some?
    ensures RunAll(s, events + [e]) == Next(RunAll(s, events).value, e)
    decreases |events|
  {
    hide Next;
    if events == [] {
      assert [] + [e] == [e] && [e][1..] == [];
      assert Next(s, e).Some? ==> RunAll(Next(s, e).value, []) == Next(s, e);
    } else {
      assert (events + [e])[1..] == events[1..] + [e];
      RunAllThen(Next(s, events[0]).value, events[1..], e);
    }
  }

  // ----- the loop as it runs -----

  class Channel<T> {
    var queue: seq<T>

    constructor ()
      ensures queue == []
    {
      queue := [];
    }

    method Push(t: T)
      modifies this
      ensures queue == old(queue) + [t]
    {
      queue := queue + [t];
    }

    method Size() returns (n: nat)
      ensures n == |queue|
    {
      n := |queue|;
    }

    /** The front of an empty queue is undefined. */
    method Pop() returns (t: T)
      requires queue != []
      modifies this
      ensures [t] + queue == old(queue)
    {
      t := queue[0];
      queue := queue[1..];
    }
  }

  class Loop {
    const pending: Channel<Id>
    var tasks: map<Id, Task>
    ghost var retired: seq<Id>
    ghost var ran: multiset<Id>

    ghost function View(phase: Phase, hand: Option<Id>, notFinished: seq<Id>): Sys
      reads this, pending
    {
      Sys(phase, pending.queue, hand, notFinished, retired, tasks, ran)
    }

    constructor ()
      ensures View(Check, None, []) == START && fresh(pending)
    {
      pending := new Channel();
      tasks, retired, ran := map[], [], multiset{};
    }

    /** Wherever the loop stands, this is the producer's step. */
    method PostTask(id: Id, kind: TaskKind)
      requires id !in tasks
      modifies this`tasks, pending
      ensures forall phase, hand, notFinished ::
                Some(View(phase, hand, notFinished)) == Next(old(View(phase, hand, notFinished)), Post(id, kind))
    {
      tasks := tasks[id := NewTask(kind)];
      pending.Push(id);
    }

    method PostAll(posts: seq<(Id, TaskKind)>, ghost phase: Phase, ghost hand: Option<Id>, ghost notFinished: seq<Id>)
      modifies this`tasks, pending
      ensures RunAll(old(View(phase, hand, notFinished)), Posts(posts)) == Some(View(phase, hand, notFinished))
    {
      ghost var start := View(phase, hand, notFinished);
      for k := 0 to |posts|
        invariant RunAll(start, Posts(posts[..k])) == Some(View(phase, hand, notFinished))
      {
        RunAllThen(start, Posts(posts[..k]), Post(posts[k].0, posts[k].1));
        assert Posts(posts[..k + 1]) == Posts(posts[..k]) + [Post(posts[k].0, posts[k].1)];
        if posts[k].0 !in tasks {
          PostTask(posts[k].0, posts[k].1);
        }
      }
      assert posts[..|posts|] == posts;
    }

    /** Runs what is queued until nothing is. The tasks of `arrivals[k]` are posted while the
        k-th task of the round runs. */
    method Drain(timeout: Id -> bool, arrivals: seq<seq<(Id, TaskKind)>>)
      returns (notFinished: seq<Id>, ghost events: seq<Event>)
      requires Inv(View(Check, None, []))
      modifies this, pending
      ensures RunAll(old(View(Check, None, [])), events) == Some(View(Check, None, notFinished))
      ensures Inv(View(Check, None, notFinished)) && pending.queue == [] && FromArrivals(events, arrivals)
    {
      hide Inv, LoopStep, FromArrivals;
      ghost var start := View(Check, None, []);
      notFinished, events := [], [];
      NoArrivals(arrivals);
      var turn := 0;
      var size := pending.Size();
      while size > 0
        invariant size == |pending.queue| && Inv(View(Check, None, notFinished))
        invariant RunAll(start, events) == Some(View(Check, None, notFinished)) && FromArrivals(events, arrivals)
        decreases if turn < |arrivals| then |arrivals| - turn else 0, size
      {
        ghost var here := View(Check, None, notFinished);
        Look(start, events, here);
        var id := pending.Pop();
        assert View(Run, Some(id), notFinished) == Popped(here);
        ghost var posts := [];
        if turn < |arrivals| {
          PostAll(arrivals[turn], Run, Some(id), notFinished);
          posts := arrivals[turn];
        }
        ghost var busy := View(Run, Some(id), notFinished);
        Turn(start, events + [Advance(false), Advance(false)], Popped(here), posts, busy, timeout(id));
        Arrived(events, arrivals, posts, timeout(id));
        events := events + [Advance(false), Advance(false)] + Posts(posts) + [Advance(timeout(id))];
        var t := RunTask(tasks[id], timeout(id));
        tasks := tasks[id := t];
        ran := ran + multiset{id};
        if t.state >= 0 {
          notFinished := notFinished + [id];
        } else {
          retired := retired + [id];
        }
        turn := turn + 1;
        size := pending.Size();
      }
    }

    /** Pushes the unfinished tasks back, in order. */
    method PutBack(unfinished: seq<Id>) returns (ghost events: seq<Event>)
      requires Inv(View(Check, None, unfinished)) && pending.queue == []
      modifies this`ran, pending
      ensures RunAll(old(View(Check, None, unfinished)), events) == Some(View(Check, None, []))
      ensures Inv(View(Check, None, [])) && pending.queue == unfinished && ran == multiset{}
      ensures forall e :: e in events ==> e.Advance?
    {
      hide Inv, LoopStep;
      ghost var start := View(Check, None, unfinished);
      var notFinished := unfinished;
      events := [];
      RunAllThen(start, events, Advance(false));
      LoopKeeps(View(Check, None, notFinished), false);
      EmptyCheck(View(Check, None, notFinished));
      events := [Advance(false)];
      while notFinished != []
        invariant Inv(View(Requeue, None, notFinished)) && pending.queue + notFinished == unfinished
        invariant RunAll(start, events) == Some(View(Requeue, None, notFinished))
        invariant forall e :: e in events ==> e.Advance?
        decreases |notFinished|
      {
        RunAllThen(start, events, Advance(false));
        RequeueStep(View(Requeue, None, notFinished));
        pending.Push(notFinished[0]);
        notFinished := notFinished[1..];
        events := events + [Advance(false)];
      }
      RunAllThen(start, events, Advance(false));
      RequeueStep(View(Requeue, None, notFinished));
      ran := multiset{};
      events := events + [Advance(false)];
    }

    /** One round: drain, then push the unfinished back. It is a run of the loop's and the
        producers' steps, from the start of a round to the start of the next; after the first
        `drained` of them the loop finds the queue empty, and what is then unfinished is the
        queue the round ends with. */
    method RunRound(timeout: Id -> bool, arrivals: seq<seq<(Id, TaskKind)>>)
      returns (ghost events: seq<Event>, ghost drained: nat)
      requires Inv(View(Check, None, []))
      modifies this, pending
      ensures RunAll(old(View(Check, None, [])), events) == Some(View(Check, None, []))
      ensures Inv(View(Check, None, [])) && ran == multiset{} && tasks.Keys == old(tasks.Keys) + PostedIds(events)
      ensures FromArrivals(events, arrivals)
      ensures drained <= |events|
      ensures var r := RunAll(old(View(Check, None, [])), events[..drained]);
              r.Some? && r.value.phase == Check && r.value.queue == [] && r.value.notFinished == pending.queue
    {
      hide Inv, FromArrivals, Gains, LoopStep;
      ghost var start := View(Check, None, []);
      var notFinished, was := Drain(timeout, arrivals);
      ghost var stop := View(Check, None, notFinished);
      ghost var more := PutBack(notFinished);
      events, drained := was + more, |was|;
      assert events[..drained] == was;
      RunAllOn(start, was, stop, more);
      OnlySteps(was, more, arrivals);
      RunsKeep(start, events);
      assert tasks.Keys == start.tasks.Keys + PostedIds(events) by { GainsKeys(start, events, View(Check, None, [])); }
    }
  }

  lemma GainsKeys(s: Sys, events: seq<Event>, t: Sys)
    requires Gains(s, events, t)
    ensures t.tasks.Keys == s.tasks.Keys + PostedIds(events)
  {
  }

  lemma OnlySteps(events: seq<Event>, more: seq<Event>, arrivals: seq<seq<(Id, TaskKind)>>)
    requires FromArrivals(events, arrivals) && forall e :: e in more ==> e.Advance?
    ensures FromArrivals(events + more, arrivals)
  {
  }

  function Posts(posts: seq<(Id, TaskKind)>): (events: seq<Event>) {
    seq(|posts|, k requires 0 <= k < |posts| => Post(posts[k].0, posts[k].1))
  }

  /** Every post is one of the arrivals. */
  ghost predicate FromArrivals(events: seq<Event>, arrivals: seq<seq<(Id, TaskKind)>>) {
    forall e :: e in events && e.Post? ==> exists k :: 0 <= k < |arrivals| && (e.id, e.kind) in arrivals[k]
  }

  lemma NoArrivals(arrivals: seq<seq<(Id, TaskKind)>>)
    ensures FromArrivals([], arrivals)
  {
  }

  lemma MoreSteps(events: seq<Event>, arrivals: seq<seq<(Id, TaskKind)>>, timeout: bool)
    requires FromArrivals(events, arrivals)
    ensures FromArrivals(events + [Advance(timeout)], arrivals)
  {
  }

  lemma Arrived(events: seq<Event>, arrivals: seq<seq<(Id, TaskKind)>>, posts: seq<(Id, TaskKind)>, timeout: bool)
    requires FromArrivals(events, arrivals) && (posts == [] || posts in arrivals)
    ensures FromArrivals(events + [Advance(false), Advance(false)] + Posts(posts) + [Advance(timeout)], arrivals)
  {
    MoreSteps(events, arrivals, false);
    MoreSteps(events + [Advance(false)], arrivals, false);
    assert events + [Advance(false)] + [Advance(false)] == events + [Advance(false), Advance(false)];
    var looked := events + [Advance(false), Advance(false)];
    forall e | e in looked + Posts(posts) && e.Post?
      ensures exists k :: 0 <= k < |arrivals| && (e.id, e.kind) in arrivals[k]
    {
      if e in Posts(posts) {
        var k :| 0 <= k < |arrivals| && arrivals[k] == posts;
        assert (e.id, e.kind) in arrivals[k];
      }
    }
    MoreSteps(looked + Posts(posts), arrivals, timeout);
  }

  lemma {:induction false} RunAllOn(s: Sys, a: seq<Event>, t: Sys, b: seq<Event>)
    requires RunAll(s, a) == Some(t)
    ensures RunAll(s, a + b) == RunAll(t, b)
    decreases |a|
  {
    hide Next;
    if a == [] {
      assert [] + b == b;
    } else {
      assert (a + b)[1..] == a[1..] + b;
      RunAllOn(Next(s, a[0]).value, a[1..], t, b);
    }
  }

  /** The loop looks and pops. */
  lemma Look(start: Sys, events: seq<Event>, s: Sys)
    requires RunAll(start, events) == Some(s) && s.phase == Check && s.queue != [] && Inv(s)
    ensures RunAll(start, events + [Advance(false), Advance(false)]) == Some(Popped(s)) && Inv(Popped(s))
  {
    hide Inv, RunTask;
    LoopKeeps(s, false);
    LoopKeeps(s.(phase := Pop), false);
    RunAllThen(start, events, Advance(false));
    RunAllThen(start, events + [Advance(false)], Advance(false));
    assert events + [Advance(false)] + [Advance(false)] == events + [Advance(false), Advance(false)];
  }

  /** Tasks are posted while one runs, then that one is done. */
  lemma Turn(start: Sys, events: seq<Event>, s: Sys, posts: seq<(Id, TaskKind)>, t: Sys, timeout: bool)
    requires RunAll(start, events) == Some(s) && Inv(s) && RunAll(s, Posts(posts)) == Some(t)
    requires t.phase == Run && t.hand.Some?
    ensures t.hand.value in t.tasks && Inv(Done(t, timeout))
    ensures RunAll(start, events + Posts(posts) + [Advance(timeout)]) == Some(Done(t, timeout))
  {
    hide Inv, RunTask, Gains;
    RunsKeep(s, Posts(posts));
    LoopKeeps(t, timeout);
    RunAllOn(start, events, s, Posts(posts));
    RunAllThen(start, events + Posts(posts), Advance(timeout));
  }

  lemma EmptyCheck(s: Sys)
    requires s.phase == Check && s.queue == []
    ensures LoopStep(s, false) == Some(s.(phase := Requeue))
  {
  }

  lemma RequeueStep(s: Sys)
    requires s.phase == Requeue && Inv(s)
    ensures LoopStep(s, false) ==
            Some(if s.notFinished == [] then s.(phase := Check, ran := multiset{})
                 else s.(queue := s.queue + [s.notFinished[0]], notFinished := s.notFinished[1..]))
    ensures Inv(LoopStep(s, false).value)
  {
    hide Inv;
    LoopKeeps(s, false);
  }

  function Popped(s: Sys): Sys
    requires s.queue != []
  {
    s.(phase := Run, hand := Some(s.queue[0]), queue := s.queue[1..])
  }

  function Done(s: Sys, timeout: bool): Sys
    requires s.phase == Run && s.hand.Some?
  {
    var id := s.hand.value;
    if id !in s.tasks then s else
      var t := RunTask(s.tasks[id], timeout);
      var u := s.(phase := Check, hand := None, tasks := s.tasks[id := t], ran := s.ran + multiset{id});
      if t.state >= 0 then u.(notFinished := u.notFinished + [id]) else u.(retired := u.retired + [id])
  }
}
