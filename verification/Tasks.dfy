/**
  The task table and its workers as a concurrent protocol. Claiming a task, starting its handler,
  writing its result and restarting after a crash are atomic steps; workers interleave freely.
 */
module Tasks {

  type TaskId = nat
  type WorkerId = nat

  const MAX_ATTEMPTS := 3

  datatype Status = Pending | Running | Done | Failed

  datatype Task = Task(kind: string, payload: string, status: Status, attempts: nat, runAt: int)

  function NewTask(kind: string, payload: string, now: int): Task
  {
    Task(kind, payload, Pending, 0, now)
  }

  predicate Due(t: Task, now: int)
  {
    t.status == Pending && t.runAt <= now
  }

  /** What a worker writes after its handler: `attempts` is the count it read when claiming. */
  function Finished(row: Task, attempts: nat, ok: bool, now: int): Task
  {
    if ok then row.(status := Done)
    else if attempts + 1 >= MAX_ATTEMPTS then row.(attempts := attempts + 1, status := Failed)
    else row.(attempts := attempts + 1, status := Pending, runAt := now)
  }

  /** At process start everything left running goes back to pending. */
  function Requeued(tasks: map<TaskId, Task>, now: int): map<TaskId, Task>
  {
    map id | id in tasks ::
      if tasks[id].status == Running then tasks[id].(status := Pending, runAt := now) else tasks[id]
  }

  // ----- the protocol -----

  /** A worker's claim: the task, the attempts read with it, and whether the handler was started. */
  datatype Hold = Hold(task: TaskId, attempts: nat, started: bool)

  /** `starts` counts how often each task's handler was started; `crashes` counts restarts. */
  datatype System = System(tasks: map<TaskId, Task>, workers: map<WorkerId, Hold>, next: TaskId,
                           starts: map<TaskId, nat>, crashes: nat)

  const FRESH := System(map[], map[], 0, map[], 0)

  datatype Event =
    | Enqueue(kind: string, payload: string, now: int)
    | Claim(worker: WorkerId, task: TaskId, now: int)
    | NoHandler(worker: WorkerId)
    | StartHandler(worker: WorkerId)
    | Finish(worker: WorkerId, ok: bool, now: int)
    | Restart(now: int)
    | RequeueStuck(task: TaskId, now: int)

  function Free(s: System, w: WorkerId, row: Task): System
    requires w in s.workers
  {
    s.(workers := s.workers - {w}, tasks := s.tasks[s.workers[w].task := row])
  }

  function Apply(s: System, e: Event): System
  {
    match e
    case Enqueue(kind, payload, now) =>
      s.(tasks := s.tasks[s.next := NewTask(kind, payload, now)], starts := s.starts[s.next := 0], next := s.next + 1)
    case Claim(w, id, now) =>
      if w !in s.workers && id in s.tasks && Due(s.tasks[id], now) then
        s.(tasks := s.tasks[id := s.tasks[id].(status := Running)],
           workers := s.workers[w := Hold(id, s.tasks[id].attempts, false)])
      else s
    case NoHandler(w) =>
      if w in s.workers && !s.workers[w].started && s.workers[w].task in s.tasks then
        Free(s, w, s.tasks[s.workers[w].task].(status := Failed))
      else s
    case StartHandler(w) =>
      if w in s.workers && !s.workers[w].started && s.workers[w].task in s.starts then
        var id := s.workers[w].task;
        s.(workers := s.workers[w := s.workers[w].(started := true)], starts := s.starts[id := s.starts[id] + 1])
      else s
    case Finish(w, ok, now) =>
      if w in s.workers && s.workers[w].started && s.workers[w].task in s.tasks then
        Free(s, w, Finished(s.tasks[s.workers[w].task], s.workers[w].attempts, ok, now))
      else s
    case Restart(now) => s.(tasks := Requeued(s.tasks, now), workers := map[], crashes := s.crashes + 1)
    case RequeueStuck(id, now) =>
      if id in s.tasks && s.tasks[id].status == Running then
        s.(tasks := s.tasks[id := s.tasks[id].(status := Pending, runAt := now)])
      else s
  }

  function Run(s: System, events: seq<Event>): System
  {
    if events == [] then s else Apply(Run(s, events[..|events| - 1]), events[|events| - 1])
  }

  // ----- what every run without a stuck-requeue keeps -----

  predicate Holds(s: System, w: WorkerId, id: TaskId)
  {
    w in s.workers && s.workers[w].task == id
  }

  ghost predicate Started(s: System, id: TaskId)
  {
    exists w :: Holds(s, w, id) && s.workers[w].started
  }

  /** A task is held by at most one worker, which knows the row's attempts; held and running are the same. */
  ghost predicate HoldsOk(s: System)
  {
    && (forall w :: w in s.workers ==>
          && s.workers[w].task in s.tasks
          && s.tasks[s.workers[w].task].status == Running
          && s.tasks[s.workers[w].task].attempts == s.workers[w].attempts)
    && (forall v, w :: v in s.workers && w in s.workers && s.workers[v].task == s.workers[w].task ==> v == w)
    && (forall id :: id in s.tasks && s.tasks[id].status == Running ==> exists w :: Holds(s, w, id))
  }

  /** Every start is paid for by a counted attempt, a crash, the running handler or the one success. */
  ghost predicate StartsPaid(s: System, id: TaskId)
    requires id in s.tasks && id in s.starts
  {
    var t := s.tasks[id];
    && (t.status == Failed ==> t.attempts <= MAX_ATTEMPTS)
    && (t.status != Failed ==> t.attempts < MAX_ATTEMPTS)
    && s.starts[id] <= t.attempts + s.crashes + (if t.status == Done || Started(s, id) then 1 else 0)
    && (t.status == Failed ==> s.starts[id] <= t.attempts + s.crashes)
  }

  ghost predicate TasksInv(s: System)
  {
    && s.starts.Keys == s.tasks.Keys
    && (forall id :: id in s.tasks ==> id < s.next)
    && HoldsOk(s)
    && (forall id :: id in s.tasks ==> StartsPaid(s, id))
  }

  lemma FreshIsConsistent()
    ensures TasksInv(FRESH)
  {
  }

  /** Only tasks whose row, start count or starting worker changed need another look. */
  lemma OthersStillPaid(s: System, t: System, id: TaskId)
    requires TasksInv(s) && t.starts.Keys == t.tasks.Keys && s.crashes == t.crashes
    requires forall i :: i in t.tasks && i != id ==>
               i in s.tasks && t.tasks[i] == s.tasks[i] && t.starts[i] == s.starts[i]
    requires forall w, i :: Holds(s, w, i) && i != id ==> Holds(t, w, i) && t.workers[w] == s.workers[w]
    ensures forall i :: i in t.tasks && i != id ==> StartsPaid(t, i)
  {
    forall i | i in t.tasks && i != id
      ensures StartsPaid(t, i)
    {
      assert StartsPaid(s, i);
      if w :| Holds(s, w, i) && s.workers[w].started {
        assert Holds(t, w, i) && t.workers[w].started;
      }
    }
  }

  lemma EnqueueKeepsHolds(s: System, kind: string, payload: string, now: int)
    requires HoldsOk(s) && s.next !in s.tasks
    ensures HoldsOk(Apply(s, Enqueue(kind, payload, now)))
  {
    hide Due, Finished, Requeued, Free;
    var t := Apply(s, Enqueue(kind, payload, now));
    forall id | id in t.tasks && t.tasks[id].status == Running
      ensures exists w :: Holds(t, w, id)
    {
      var w :| Holds(s, w, id);
      assert Holds(t, w, id);
    }
  }

  lemma EnqueueKeepsInv(s: System, kind: string, payload: string, now: int)
    requires TasksInv(s)
    ensures TasksInv(Apply(s, Enqueue(kind, payload, now)))
  {
    var t := Apply(s, Enqueue(kind, payload, now));
    EnqueueKeepsHolds(s, kind, payload, now);
    OthersStillPaid(s, t, s.next);
  }

  lemma ClaimKeepsHolds(s: System, w: WorkerId, id: TaskId)
    requires HoldsOk(s) && w !in s.workers && id in s.tasks && s.tasks[id].status == Pending
    ensures forall v :: !Holds(s, v, id)
    ensures HoldsOk(s.(tasks := s.tasks[id := s.tasks[id].(status := Running)],
                       workers := s.workers[w := Hold(id, s.tasks[id].attempts, false)]))
  {
    var t := s.(tasks := s.tasks[id := s.tasks[id].(status := Running)],
                workers := s.workers[w := Hold(id, s.tasks[id].attempts, false)]);
    assert forall v, i :: Holds(s, v, i) ==> Holds(t, v, i);
    assert Holds(t, w, id);
  }

  lemma ClaimKeepsInv(s: System, w: WorkerId, id: TaskId, now: int)
    requires TasksInv(s)
    ensures TasksInv(Apply(s, Claim(w, id, now)))
  {
    hide HoldsOk;
    var t := Apply(s, Claim(w, id, now));
    if t != s {
      ClaimKeepsHolds(s, w, id);
      OthersStillPaid(s, t, id);
      assert StartsPaid(s, id);
    }
  }

  lemma StartKeepsHolds(s: System, w: WorkerId)
    requires HoldsOk(s) && w in s.workers && s.workers[w].task in s.starts
    ensures HoldsOk(Apply(s, StartHandler(w)))
    ensures forall v :: Holds(s, v, s.workers[w].task) <==> v == w
  {
    hide NewTask, Due, Finished, Requeued;
    var t := Apply(s, StartHandler(w));
    assert forall v, i :: Holds(s, v, i) ==> Holds(t, v, i);
  }

  lemma StartKeepsInv(s: System, w: WorkerId)
    requires TasksInv(s)
    ensures TasksInv(Apply(s, StartHandler(w)))
  {
    hide NewTask, Due, Finished, Requeued;
    var t := Apply(s, StartHandler(w));
    if t != s {
      var id := s.workers[w].task;
      StartKeepsHolds(s, w);
      StartPaid(s, w, id);
      OthersStillPaid(s, t, id);
    }
  }

  /** The start is paid for by the handler that is now running. */
  lemma StartPaid(s: System, w: WorkerId, id: TaskId)
    requires w in s.workers && s.workers[w].task == id && !s.workers[w].started
    requires id in s.tasks && id in s.starts && s.tasks[id].status == Running && StartsPaid(s, id)
    requires forall v :: Holds(s, v, id) <==> v == w
    ensures StartsPaid(Apply(s, StartHandler(w)), id)
  {
    hide NewTask, Due, Finished, Requeued;
    assert !Started(s, id);
    assert Holds(Apply(s, StartHandler(w)), w, id);
  }

  /** A worker lets go of its task, leaving a row that is no longer running. */
  lemma FreeKeepsInv(s: System, w: WorkerId, row: Task)
    requires TasksInv(s) && w in s.workers && row.status != Running
    requires StartsPaid(Free(s, w, row), s.workers[w].task)
    ensures TasksInv(Free(s, w, row))
  {
    var id := s.workers[w].task;
    var t := Free(s, w, row);
    assert forall v, i :: Holds(t, v, i) <==> Holds(s, v, i) && v != w;
    assert forall v :: Holds(s, v, id) ==> v == w;
    OthersStillPaid(s, t, id);
    forall i | i in t.tasks && t.tasks[i].status == Running
      ensures exists v :: Holds(t, v, i)
    {
      var v :| Holds(s, v, i);
      assert Holds(t, v, i);
    }
  }

  lemma NoHandlerKeepsInv(s: System, w: WorkerId)
    requires TasksInv(s)
    ensures TasksInv(Apply(s, NoHandler(w)))
  {
    if w in s.workers && !s.workers[w].started {
      var id := s.workers[w].task;
      assert StartsPaid(s, id) && !Started(s, id);
      FreeKeepsInv(s, w, s.tasks[id].(status := Failed));
    }
  }

  lemma FinishKeepsInv(s: System, w: WorkerId, ok: bool, now: int)
    requires TasksInv(s)
    ensures TasksInv(Apply(s, Finish(w, ok, now)))
  {
    if w in s.workers && s.workers[w].started {
      var id := s.workers[w].task;
      assert StartsPaid(s, id);
      FreeKeepsInv(s, w, Finished(s.tasks[id], s.workers[w].attempts, ok, now));
    }
  }

  lemma RestartKeepsInv(s: System, now: int)
    requires TasksInv(s)
    ensures TasksInv(Apply(s, Restart(now)))
  {
    var t := Apply(s, Restart(now));
    forall id | id in t.tasks
      ensures StartsPaid(t, id)
    {
      assert StartsPaid(s, id);
      assert s.tasks[id].status != Running ==> !Started(s, id);
    }
  }

  /**
    A restart settles no task and unsettles none: running ones become pending with kind, payload and attempts as they
    were, every other row stays as it is, and no worker holds anything any more.
   */
  lemma RestartEffect(s: System, now: int)
    ensures var t := Apply(s, Restart(now));
            && t.tasks.Keys == s.tasks.Keys && t.workers == map[] && t.starts == s.starts && t.next == s.next
            && (forall id :: id in s.tasks ==>
                  t.tasks[id] == if s.tasks[id].status == Running
                                 then Task(s.tasks[id].kind, s.tasks[id].payload, Pending, s.tasks[id].attempts, now)
                                 else s.tasks[id])
            && (forall id :: id in s.tasks ==>
                  (t.tasks[id].status == Done || t.tasks[id].status == Failed
                   <==> s.tasks[id].status == Done || s.tasks[id].status == Failed))
  {
  }

  /** A task that is enqueued comes in under an id of its own, pending, untried and due, and changes no other. */
  lemma EnqueueEffect(s: System, kind: string, payload: string, now: int)
    requires TasksInv(s)
    ensures var t := Apply(s, Enqueue(kind, payload, now));
            && t.tasks.Keys - s.tasks.Keys == {s.next} && s.tasks.Keys <= t.tasks.Keys
            && t.tasks[s.next] == Task(kind, payload, Pending, 0, now)
            && (forall id :: id in s.tasks ==> t.tasks[id] == s.tasks[id] && id < s.next)
            && t.workers == s.workers
  {
  }

  lemma EventKeepsInv(s: System, e: Event)
    requires TasksInv(s) && !e.RequeueStuck?
    ensures TasksInv(Apply(s, e))
  {
    hide TasksInv, Apply;
    match e
    case Enqueue(kind, payload, now) => EnqueueKeepsInv(s, kind, payload, now);
    case Claim(w, id, now) => ClaimKeepsInv(s, w, id, now);
    case NoHandler(w) => NoHandlerKeepsInv(s, w);
    case StartHandler(w) => StartKeepsInv(s, w);
    case Finish(w, ok, now) => FinishKeepsInv(s, w, ok, now);
    case Restart(now) => RestartKeepsInv(s, now);
  }

  predicate NoStuckRequeue(events: seq<Event>)
  {
    forall i :: 0 <= i < |events| ==> !events[i].RequeueStuck?
  }

  lemma {:induction false} RunsKeepInv(s: System, events: seq<Event>)
    requires TasksInv(s) && NoStuckRequeue(events)
    ensures TasksInv(Run(s, events))
  {
    if events != [] {
      RunsKeepInv(s, events[..|events| - 1]);
      EventKeepsInv(Run(s, events[..|events| - 1]), events[|events| - 1]);
    }
  }

  function Restarts(events: seq<Event>): nat
  {
    if events == [] then 0
    else Restarts(events[..|events| - 1]) + (if events[|events| - 1].Restart? then 1 else 0)
  }

  lemma {:induction false} CrashesCounted(s: System, events: seq<Event>)
    ensures Run(s, events).crashes == s.crashes + Restarts(events)
  {
    if events != [] {
      CrashesCounted(s, events[..|events| - 1]);
    }
  }

  /**
    In every run from an empty table with C restarts and no stuck-requeue, every task's handler is started
    at most 3 + C times, at most one worker has it at a time, and that worker's attempts are the row's.
   */
  lemma ExecutionBound(events: seq<Event>, id: TaskId)
    requires NoStuckRequeue(events) && id in Run(FRESH, events).tasks
    ensures var s := Run(FRESH, events);
            && id in s.starts && s.starts[id] <= MAX_ATTEMPTS + Restarts(events)
            && (forall v, w :: Holds(s, v, id) && Holds(s, w, id) ==> v == w)
            && (forall w :: Holds(s, w, id) ==> s.workers[w].attempts == s.tasks[id].attempts)
            && (s.tasks[id].status == Running <==> exists w :: Holds(s, w, id))
  {
    FreshIsConsistent();
    RunsKeepInv(FRESH, events);
    CrashesCounted(FRESH, events);
    assert StartsPaid(Run(FRESH, events), id);
  }

  // ----- done and failed are final -----

  lemma SettledStays(s: System, e: Event, id: TaskId)
    requires TasksInv(s) && id in s.tasks && (s.tasks[id].status == Done || s.tasks[id].status == Failed)
    ensures id in Apply(s, e).tasks && Apply(s, e).tasks[id] == s.tasks[id]
    ensures id in s.starts && id in Apply(s, e).starts && Apply(s, e).starts[id] == s.starts[id]
  {
  }

  /** Once done or failed, a row never changes again. */
  lemma {:induction false} SettledIsFinal(s: System, events: seq<Event>, id: TaskId)
    requires TasksInv(s) && NoStuckRequeue(events)
    requires id in s.tasks && (s.tasks[id].status == Done || s.tasks[id].status == Failed)
    ensures id in Run(s, events).tasks && Run(s, events).tasks[id] == s.tasks[id]
    ensures id in s.starts && id in Run(s, events).starts && Run(s, events).starts[id] == s.starts[id]
  {
    hide Apply, HoldsOk, StartsPaid;
    if events != [] {
      var n := |events| - 1;
      SettledIsFinal(s, events[..n], id);
      RunsKeepInv(s, events[..n]);
      SettledStays(Run(s, events[..n]), events[n], id);
    }
  }

  // ----- the bound is reached -----

  /** One round: claim and start task 0, then do `last`. */
  function Round(last: Event): seq<Event>
  {
    [Claim(0, 0, 0), StartHandler(0), last]
  }

  function CrashRounds(c: nat): seq<Event>
  {
    if c == 0 then [Enqueue("delete_file", "", 0)] else CrashRounds(c - 1) + Round(Restart(0))
  }

  /** Task 0 alone, pending, with the given counts. */
  function Waiting(attempts: nat, starts: nat, crashes: nat): System
  {
    System(map[0 := Task("delete_file", "", Pending, attempts, 0)], map[], 1, map[0 := starts], crashes)
  }

  lemma RunNothing(s: System)
    ensures Run(s, []) == s
  {
  }

  lemma OneMore(s: System, events: seq<Event>, e: Event)
    ensures Run(s, events + [e]) == Apply(Run(s, events), e)
    ensures Restarts(events + [e]) == Restarts(events) + (if e.Restart? then 1 else 0)
  {
    assert (events + [e])[..|events|] == events;
  }

  lemma RunThree(s: System, events: seq<Event>, a: Event, b: Event, c: Event)
    ensures Run(s, events + [a, b, c]) == Apply(Apply(Apply(Run(s, events), a), b), c)
  {
    hide Run, Apply;
    OneMore(s, events, a);
    OneMore(s, events + [a], b);
    OneMore(s, events + [a] + [b], c);
    assert events + [a] + [b] + [c] == events + [a, b, c];
  }

  lemma FirstEnqueue()
    ensures Apply(FRESH, Enqueue("delete_file", "", 0)) == Waiting(0, 0, 0)
  {
  }

  lemma CrashRound(starts: nat, crashes: nat)
    ensures Apply(Apply(Apply(Waiting(0, starts, crashes), Claim(0, 0, 0)), StartHandler(0)), Restart(0))
            == Waiting(0, starts + 1, crashes + 1)
  {
  }

  lemma FailRound(attempts: nat, starts: nat, crashes: nat)
    ensures var s := Apply(Apply(Apply(Waiting(attempts, starts, crashes), Claim(0, 0, 0)), StartHandler(0)),
                           Finish(0, false, 0));
            && s.starts == map[0 := starts + 1]
            && (attempts + 1 < MAX_ATTEMPTS ==> s == Waiting(attempts + 1, starts + 1, crashes))
  {
    var s := Apply(Apply(Apply(Waiting(attempts, starts, crashes), Claim(0, 0, 0)), StartHandler(0)),
                   Finish(0, false, 0));
    assert s.workers == map[];
    assert s.starts == map[0 := starts + 1];
    if attempts + 1 < MAX_ATTEMPTS {
      assert s.tasks == map[0 := Task("delete_file", "", Pending, attempts + 1, 0)];
    }
  }

  lemma {:induction false} CrashRoundsWait(c: nat)
    ensures Run(FRESH, CrashRounds(c)) == Waiting(0, c, c)
    ensures Restarts(CrashRounds(c)) == c && NoStuckRequeue(CrashRounds(c))
  {
    hide Apply, Waiting;
    if c == 0 {
      OneMore(FRESH, [], Enqueue("delete_file", "", 0));
      FirstEnqueue();
    } else {
      hide Run, Restarts;
      CrashRoundsWait(c - 1);
      RunThree(FRESH, CrashRounds(c - 1), Claim(0, 0, 0), StartHandler(0), Restart(0));
      CrashRound(c - 1, c - 1);
      RestartsAppended(CrashRounds(c - 1), Restart(0));
    }
  }

  lemma RestartsAppended(events: seq<Event>, last: Event)
    ensures Restarts(events + Round(last)) == Restarts(events) + (if last.Restart? then 1 else 0)
  {
    hide Run, Apply, Restarts;
    OneMore(FRESH, events, Claim(0, 0, 0));
    OneMore(FRESH, events + [Claim(0, 0, 0)], StartHandler(0));
    OneMore(FRESH, events + [Claim(0, 0, 0)] + [StartHandler(0)], last);
    assert events + [Claim(0, 0, 0)] + [StartHandler(0)] + [last] == events + Round(last);
  }

  function WorstCase(c: nat): seq<Event>
  {
    CrashRounds(c) + Round(Finish(0, false, 0)) + Round(Finish(0, false, 0)) + Round(Finish(0, false, 0))
  }

  /** For every number of restarts some run starts a handler exactly 3 + C times. */
  lemma BoundIsReached(c: nat)
    ensures NoStuckRequeue(WorstCase(c)) && Restarts(WorstCase(c)) == c
    ensures Run(FRESH, WorstCase(c)).starts == map[0 := MAX_ATTEMPTS + c]
  {
    hide Apply;
    CrashRoundsWait(c);
    var fail := Finish(0, false, 0);
    var one := CrashRounds(c) + Round(fail);
    var two := one + Round(fail);
    RestartsAppended(CrashRounds(c), fail);
    RestartsAppended(one, fail);
    RestartsAppended(two, fail);
    RunThree(FRESH, CrashRounds(c), Claim(0, 0, 0), StartHandler(0), fail);
    FailRound(0, c, c);
    RunThree(FRESH, one, Claim(0, 0, 0), StartHandler(0), fail);
    FailRound(1, c + 1, c);
    RunThree(FRESH, two, Claim(0, 0, 0), StartHandler(0), fail);
    FailRound(2, c + 2, c);
  }

  // ----- why the stuck-requeue is left out of the claims -----

  /** A stuck-requeue keeps the protocol's invariant exactly when it finds nothing to requeue. */
  lemma StuckRequeueBreaksUnlessIdle(s: System, id: TaskId, now: int)
    requires TasksInv(s)
    ensures TasksInv(Apply(s, RequeueStuck(id, now))) <==> (id in s.tasks ==> s.tasks[id].status != Running)
  {
    if id in s.tasks && s.tasks[id].status == Running {
      var w :| Holds(s, w, id);
      assert Apply(s, RequeueStuck(id, now)).tasks[id].status == Pending;
      assert w in Apply(s, RequeueStuck(id, now)).workers;
    }
  }

  const OVERTAKEN: seq<Event> := [
    Enqueue("delete_file", "", 0), Claim(0, 0, 0), StartHandler(0), RequeueStuck(0, 0),
    Claim(1, 0, 0), StartHandler(1)]

  lemma OvertakenState()
    ensures Run(FRESH, OVERTAKEN) == System(map[0 := Task("delete_file", "", Running, 0, 0)],
                                            map[0 := Hold(0, 0, true), 1 := Hold(0, 0, true)], 1, map[0 := 2], 0)
  {
    hide Run, Free;
    RunNothing(FRESH);
    RunThree(FRESH, [], OVERTAKEN[0], OVERTAKEN[1], OVERTAKEN[2]);
    RunThree(FRESH, OVERTAKEN[..3], OVERTAKEN[3], OVERTAKEN[4], OVERTAKEN[5]);
    assert OVERTAKEN[..3] == [] + [OVERTAKEN[0], OVERTAKEN[1], OVERTAKEN[2]];
    assert OVERTAKEN == OVERTAKEN[..3] + [OVERTAKEN[3], OVERTAKEN[4], OVERTAKEN[5]];
  }

  /** After a stuck-requeue two workers run one task, and a done row can fall back to pending. */
  lemma StuckRequeueOvertakes()
    ensures var s := Run(FRESH, OVERTAKEN);
            && Holds(s, 0, 0) && s.workers[0].started && Holds(s, 1, 0) && s.workers[1].started && 0 in s.tasks
            && Apply(s, Finish(1, true, 0)).tasks[0].status == Done
            && Apply(Apply(s, Finish(1, true, 0)), Finish(0, false, 0)).tasks[0].status == Pending
  {
    hide Run;
    OvertakenState();
  }
}
