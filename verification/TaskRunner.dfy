/**
  The runner as it executes: enqueue, claim, run, and the loop that drains the table with one worker.
  What a handler call does is given by the handler: a function of the task and of the attempts so far.
 */
module TaskRunner {
  import opened Prelude
  import opened Tasks

  datatype Outcome = Returned | Erred | Panicked

  type Handlers = map<string, (TaskId, nat) -> Outcome>

  // ----- what draining should do to one task, said without the loop -----

  /** The call with this many attempts behind it is the last: no handler, success, or the last attempt. */
  predicate LastCall(h: Handlers, id: TaskId, kind: string, attempts: nat)
  {
    kind !in h || h[kind](id, attempts) == Returned || attempts + 1 >= MAX_ATTEMPTS
  }

  /** How many times a pending task is still executed. */
  function Executions(h: Handlers, id: TaskId, kind: string, attempts: nat): nat
    decreases MAX_ATTEMPTS - attempts
  {
    if LastCall(h, id, kind, attempts) then 1 else 1 + Executions(h, id, kind, attempts + 1)
  }

  /** The status and attempts a pending task ends with. */
  function Ending(h: Handlers, id: TaskId, kind: string, attempts: nat): (Status, nat)
    decreases MAX_ATTEMPTS - attempts
  {
    if kind !in h then (Failed, attempts)
    else if h[kind](id, attempts) == Returned then (Done, attempts)
    else if attempts + 1 >= MAX_ATTEMPTS then (Failed, attempts + 1)
    else Ending(h, id, kind, attempts + 1)
  }

  function WorkOf(h: Handlers, id: TaskId, t: Task): nat
  {
    if t.status == Pending then Executions(h, id, t.kind, t.attempts) else 0
  }

  /** The row a task ends with, its run time aside. */
  function EndOf(h: Handlers, id: TaskId, t: Task): Task
  {
    if t.status == Pending then
      var (status, attempts) := Ending(h, id, t.kind, t.attempts);
      Task(t.kind, t.payload, status, attempts, 0)
    else t.(runAt := 0)
  }

  function Work(h: Handlers, tasks: map<TaskId, Task>): map<TaskId, nat>
  {
    map id | id in tasks :: WorkOf(h, id, tasks[id])
  }

  function Ends(h: Handlers, tasks: map<TaskId, Task>): map<TaskId, Task>
  {
    map id | id in tasks :: EndOf(h, id, tasks[id])
  }

  /** Attempts that each pending task has left. */
  function Left(tasks: map<TaskId, Task>): map<TaskId, nat>
  {
    map id | id in tasks :: if tasks[id].status == Pending then MAX_ATTEMPTS - Tried(tasks[id]) else 0
  }

  function Tried(t: Task): nat
  {
    if t.attempts < MAX_ATTEMPTS then t.attempts else MAX_ATTEMPTS - 1
  }

  /** A task ends done exactly when its kind has a handler that returns within the attempts left. */
  lemma {:induction false} DoneIff(h: Handlers, id: TaskId, kind: string, attempts: nat)
    requires attempts < MAX_ATTEMPTS
    ensures Ending(h, id, kind, attempts).0 == Done
            <==> kind in h && exists k :: attempts <= k < MAX_ATTEMPTS && h[kind](id, k) == Returned
    ensures Ending(h, id, kind, attempts).0 == Done || Ending(h, id, kind, attempts).0 == Failed
    decreases MAX_ATTEMPTS - attempts
  {
    if attempts + 1 < MAX_ATTEMPTS {
      DoneIff(h, id, kind, attempts + 1);
    }
    assert kind in h && h[kind](id, attempts) == Returned ==> Ending(h, id, kind, attempts).0 == Done;
  }

  lemma {:induction false} ExecutionsWithinAttempts(h: Handlers, id: TaskId, kind: string, attempts: nat)
    ensures 1 <= Executions(h, id, kind, attempts)
    ensures attempts < MAX_ATTEMPTS ==> Executions(h, id, kind, attempts) <= MAX_ATTEMPTS - attempts
    ensures attempts >= MAX_ATTEMPTS ==> Executions(h, id, kind, attempts) == 1
    decreases MAX_ATTEMPTS - attempts
  {
    if attempts + 1 < MAX_ATTEMPTS {
      ExecutionsWithinAttempts(h, id, kind, attempts + 1);
    }
  }

  /** The executions still to come are at most the attempts still left. */
  lemma WorkWithinAttempts(h: Handlers, tasks: map<TaskId, Task>)
    ensures Sum(Work(h, tasks)) <= Sum(Left(tasks))
  {
    forall id | id in tasks
      ensures Work(h, tasks)[id] <= Left(tasks)[id]
    {
      ExecutionsWithinAttempts(h, id, tasks[id].kind, tasks[id].attempts);
    }
    SumMonotone(Work(h, tasks), Left(tasks));
  }

  /** Executing a pending task uses up one execution and leaves its ending as it was. */
  lemma OneExecution(h: Handlers, id: TaskId, t: Task, now: int)
    requires t.status == Pending
    ensures var u := Executed(h, id, t.(status := Running), t, now);
            && WorkOf(h, id, t) == WorkOf(h, id, u) + 1
            && EndOf(h, id, u) == EndOf(h, id, t)
  {
  }

  /** Claiming and executing a task is a stretch of the protocol by one worker, so the protocol's bounds hold for it. */
  lemma TurnFollowsProtocol(h: Handlers, s: System, w: WorkerId, id: TaskId, claimed: int, now: int)
    requires w !in s.workers && id in s.tasks && id in s.starts && Due(s.tasks[id], claimed)
    ensures var row := s.tasks[id];
            var events := if row.kind !in h then [Claim(w, id, claimed), NoHandler(w)]
                          else [Claim(w, id, claimed), StartHandler(w),
                                Finish(w, h[row.kind](id, row.attempts) == Returned, now)];
            && Tasks.Run(s, events).tasks == s.tasks[id := Executed(h, id, row.(status := Running), row, now)]
            && Tasks.Run(s, events).workers == s.workers && NoStuckRequeue(events) && Restarts(events) == 0
  {
    var row := s.tasks[id];
    var t := Apply(s, Claim(w, id, claimed));
    assert t.workers - {w} == s.workers;
    RunNothing(s);
    if row.kind !in h {
      OneMore(s, [], Claim(w, id, claimed));
      OneMore(s, [] + [Claim(w, id, claimed)], NoHandler(w));
      assert [] + [Claim(w, id, claimed)] + [NoHandler(w)] == [Claim(w, id, claimed), NoHandler(w)];
    } else {
      var finish := Finish(w, h[row.kind](id, row.attempts) == Returned, now);
      RunThree(s, [], Claim(w, id, claimed), StartHandler(w), finish);
      OneMore(s, [], Claim(w, id, claimed));
      OneMore(s, [] + [Claim(w, id, claimed)], StartHandler(w));
      OneMore(s, [] + [Claim(w, id, claimed)] + [StartHandler(w)], finish);
      assert [] + [Claim(w, id, claimed)] + [StartHandler(w)] + [finish]
             == [Claim(w, id, claimed), StartHandler(w), finish];
      assert t.workers[w := Hold(id, row.attempts, true)] - {w} == s.workers;
    }
  }

  lemma WorkAfter(h: Handlers, before: map<TaskId, Task>, after: map<TaskId, Task>, id: TaskId)
    requires id in before && id in after && after == before[id := after[id]]
    requires WorkOf(h, id, before[id]) == WorkOf(h, id, after[id]) + 1
    requires EndOf(h, id, after[id]) == EndOf(h, id, before[id])
    ensures Sum(Work(h, before)) == Sum(Work(h, after)) + 1
    ensures Ends(h, after) == Ends(h, before)
  {
    assert Ends(h, after) == Ends(h, before);
    SumRemove(Work(h, before), id);
    SumRemove(Work(h, after), id);
    assert Work(h, before) - {id} == Work(h, after) - {id};
  }

  lemma {:induction false} LeastOf(ids: set<TaskId>, id: TaskId)
    requires id in ids
    ensures exists least :: least in ids && forall j :: j in ids ==> least <= j
    decreases id
  {
    if j :| j in ids && j < id {
      LeastOf(ids, j);
    }
  }

  /** What the row of an executed task becomes, given the copy it was claimed with. */
  function Executed(h: Handlers, id: TaskId, current: Task, row: Task, now: int): Task
  {
    if row.kind !in h then current.(status := Failed)
    else Finished(current, row.attempts, h[row.kind](id, row.attempts) == Returned, now)
  }

  /** Everything that could be claimed at `now`. */
  function DueIds(tasks: map<TaskId, Task>, now: int): set<TaskId>
  {
    set id | id in tasks && Due(tasks[id], now)
  }

  /** With no pending task in the future, due is the same as pending. */
  lemma PendingIsDue(tasks: map<TaskId, Task>, now: int)
    requires forall id :: id in tasks && tasks[id].status == Pending ==> tasks[id].runAt <= now
    ensures forall id :: id in DueIds(tasks, now) <==> id in tasks && tasks[id].status == Pending
  {
  }

  /** What the drain has done so far, by the ids it executed. */
  ghost predicate Drained(h: Handlers, start: map<TaskId, Task>, tasks: map<TaskId, Task>, ran: seq<TaskId>)
  {
    && tasks.Keys == start.Keys
    && (forall i, j :: 0 <= i < j < |ran| ==> ran[i] <= ran[j])
    && (forall i, id :: 0 <= i < |ran| && id in tasks && tasks[id].status == Pending ==> ran[i] <= id)
    && |ran| + Sum(Work(h, tasks)) == Sum(Work(h, start))
    && (forall id :: id in tasks ==> multiset(ran)[id] + WorkOf(h, id, tasks[id]) == WorkOf(h, id, start[id]))
    && Ends(h, tasks) == Ends(h, start)
  }

  lemma OneMoreTurn(h: Handlers, start: map<TaskId, Task>, before: map<TaskId, Task>, after: map<TaskId, Task>,
                    ran: seq<TaskId>, id: TaskId)
    requires Drained(h, start, before, ran)
    requires id in before && before[id].status == Pending
    requires forall j :: j in before && before[j].status == Pending ==> id <= j
    requires id in after && after == before[id := after[id]]
    requires WorkOf(h, id, before[id]) == WorkOf(h, id, after[id]) + 1
    requires EndOf(h, id, after[id]) == EndOf(h, id, before[id])
    ensures Drained(h, start, after, ran + [id])
    ensures Sum(Work(h, before)) == Sum(Work(h, after)) + 1
  {
    hide WorkOf, EndOf, Work, Ends, Sum;
    WorkAfter(h, before, after, id);
  }

  class Runner {
    var tasks: map<TaskId, Task>
    var next: TaskId
    var handlers: Handlers
    var clock: int

    /** Ids are handed out in order, and no pending task lies in the future. */
    ghost predicate Valid()
      reads this
    {
      && (forall id :: id in tasks ==> id < next)
      && (forall id :: id in tasks && tasks[id].status == Pending ==> tasks[id].runAt <= clock)
    }

    constructor ()
      ensures Valid() && tasks == map[] && handlers == map[]
    {
      tasks, next, handlers, clock := map[], 0, map[], 0;
    }

    /** A clock reading, never earlier than the last one. */
    method Now() returns (now: int)
      modifies this`clock
      ensures now == clock >= old(clock)
    {
      now :| now >= clock;
      clock := now;
    }

    method Register(kind: string, handler: (TaskId, nat) -> Outcome)
      modifies this`handlers
      ensures handlers == old(handlers)[kind := handler]
    {
      handlers := handlers[kind := handler];
    }

    method Enqueue(kind: string, payload: string) returns (id: TaskId)
      requires Valid()
      modifies this`tasks, this`next, this`clock
      ensures Valid() && id !in old(tasks) && forall j :: j in old(tasks) ==> j < id
      ensures tasks == old(tasks)[id := Task(kind, payload, Pending, 0, clock)]
    {
      var now := Now();
      id := next;
      tasks := tasks[id := NewTask(kind, payload, now)];
      next := next + 1;
    }

    /** Claims the due task with the smallest id; the copy returned is the row before it was marked running. */
    method Claim() returns (claimed: Option<(TaskId, Task)>)
      requires Valid()
      modifies this`tasks, this`clock
      ensures Valid()
      ensures claimed.None? ==> tasks == old(tasks) && forall id :: id in tasks ==> tasks[id].status != Pending
      ensures claimed.Some? ==>
                var (id, row) := claimed.value;
                && id in old(tasks) && row == old(tasks)[id] && row.status == Pending
                && tasks == old(tasks)[id := row.(status := Running)]
                && forall j :: j in old(tasks) && old(tasks)[j].status == Pending ==> id <= j
    {
      hide DueIds, Due;
      var now := Now();
      PendingIsDue(tasks, now);
      if id :| id in DueIds(tasks, now) && forall j :: j in DueIds(tasks, now) ==> id <= j {
        claimed := Some((id, tasks[id]));
        tasks := tasks[id := tasks[id].(status := Running)];
      } else {
        claimed := None;
        if some :| some in DueIds(tasks, now) {
          LeastOf(DueIds(tasks, now), some);
        }
      }
    }

    /** Runs a claimed task and writes its result; a panic counts as an error. */
    method Run(id: TaskId, row: Task)
      requires Valid() && id in tasks
      modifies this`tasks, this`clock
      ensures Valid()
      ensures tasks == old(tasks)[id := Executed(handlers, id, old(tasks)[id], row, clock)]
      ensures var was := old(tasks)[id];
              tasks == old(tasks)[id :=
                if row.kind !in handlers then was.(status := Failed)
                else if handlers[row.kind](id, row.attempts) == Returned then was.(status := Done)
                else if row.attempts + 1 >= 3 then was.(attempts := row.attempts + 1, status := Failed)
                else was.(attempts := row.attempts + 1, status := Pending, runAt := clock)]
    {
      if row.kind !in handlers {
        tasks := tasks[id := tasks[id].(status := Failed)];
        return;
      }
      var outcome := handlers[row.kind](id, row.attempts);
      if outcome == Returned {
        tasks := tasks[id := tasks[id].(status := Done)];
        return;
      }
      var attempts := row.attempts + 1;
      if attempts >= MAX_ATTEMPTS {
        tasks := tasks[id := tasks[id].(attempts := attempts, status := Failed)];
      } else {
        var now := Now();
        tasks := tasks[id := tasks[id].(attempts := attempts, status := Pending, runAt := now)];
      }
    }

    /** After a restart nothing is running; tasks that were are pending again. */
    method RequeueAllRunning()
      requires Valid()
      modifies this`tasks, this`clock
      ensures Valid() && tasks == Requeued(old(tasks), clock)
      ensures clock >= old(clock) && tasks.Keys == old(tasks).Keys
      ensures forall id :: id in tasks ==>
                tasks[id] == if old(tasks)[id].status == Running
                             then Task(old(tasks)[id].kind, old(tasks)[id].payload, Pending, old(tasks)[id].attempts,
                                       clock)
                             else old(tasks)[id]
    {
      var now := Now();
      tasks := map id | id in tasks ::
        if tasks[id].status == Running then tasks[id].(status := Pending, runAt := now) else tasks[id];
    }

    /** One turn of the drain: what it does to the task it claimed, and that it touches no other. */
    method Turn() returns (ran: Option<TaskId>)
      requires Valid()
      modifies this`tasks, this`clock
      ensures Valid()
      ensures ran.None? ==> tasks == old(tasks) && forall id :: id in tasks ==> tasks[id].status != Pending
      ensures ran.Some? ==>
                var id := ran.value;
                && id in old(tasks) && old(tasks)[id].status == Pending
                && (forall j :: j in old(tasks) && old(tasks)[j].status == Pending ==> id <= j)
                && id in tasks && tasks == old(tasks)[id := tasks[id]]
                && WorkOf(handlers, id, old(tasks)[id]) == WorkOf(handlers, id, tasks[id]) + 1
                && EndOf(handlers, id, tasks[id]) == EndOf(handlers, id, old(tasks)[id])
    {
      var claimed := Claim();
      if claimed.None? {
        return None;
      }
      var (id, row) := claimed.value;
      Run(id, row);
      OneExecution(handlers, id, row, clock);
      ran := Some(id);
    }

    /**
      Claims and executes one task after another until none is left or the context is cancelled.
      Task ids are executed in non-decreasing order, each as often as its own attempts demand, and every
      executed-to-the-end task has the ending it would have had alone.
     */
    method DrainOnce(cancelled: nat -> bool) returns (n: nat, ghost ran: seq<TaskId>)
      requires Valid()
      modifies this`tasks, this`clock
      ensures Valid() && tasks.Keys == old(tasks).Keys
      ensures n == |ran| && forall i, j :: 0 <= i < j < |ran| ==> ran[i] <= ran[j]
      ensures n + Sum(Work(handlers, tasks)) == Sum(Work(handlers, old(tasks)))
      ensures forall id :: id in tasks ==>
                multiset(ran)[id] + WorkOf(handlers, id, tasks[id]) == WorkOf(handlers, id, old(tasks)[id])
      ensures Ends(handlers, tasks) == Ends(handlers, old(tasks))
      ensures !cancelled(n) ==> forall id :: id in tasks ==> tasks[id].status != Pending
    {
      hide WorkOf, EndOf, Work, Ends, Sum, Due;
      n, ran := 0, [];
      while !cancelled(n)
        invariant Valid() && n == |ran| && Drained(handlers, old(tasks), tasks, ran)
        decreases Sum(Work(handlers, tasks))
      {
        ghost var before := tasks;
        var id := Turn();
        if id.None? {
          return;
        }
        OneMoreTurn(handlers, old(tasks), before, tasks, ran, id.value);
        ran := ran + [id.value];
        n := n + 1;
      }
    }
  }

  /**
    A drain that completes after a restart ends every task that was pending or running as it would have ended from
    pending with its attempts; done and failed rows keep their status and attempts.
   */
  lemma DrainedAfterRestart(h: Handlers, before: map<TaskId, Task>, now: int, after: map<TaskId, Task>)
    requires after.Keys == before.Keys && Ends(h, after) == Ends(h, Requeued(before, now))
    requires forall id :: id in after ==> after[id].status != Pending
    ensures forall id :: id in before ==>
              var t := before[id];
              after[id].(runAt := 0)
              == if t.status == Pending || t.status == Running
                 then Task(t.kind, t.payload, Ending(h, id, t.kind, t.attempts).0,
                           Ending(h, id, t.kind, t.attempts).1, 0)
                 else t.(runAt := 0)
  {
    forall id | id in before
      ensures after[id].(runAt := 0) == EndOf(h, id, Requeued(before, now)[id])
    {
      assert Ends(h, after)[id] == Ends(h, Requeued(before, now))[id];
    }
  }

  lemma LeftMeans(tasks: map<TaskId, Task>)
    ensures Left(tasks).Keys == tasks.Keys
    ensures forall id :: id in tasks ==>
              Left(tasks)[id] == if tasks[id].status != Pending then 0
                                 else if tasks[id].attempts < 3 then 3 - tasks[id].attempts else 1
  {
  }

  /** A completed drain leaves every task with its own ending, after at most the attempts that were left. */
  lemma DrainedTasks(h: Handlers, before: map<TaskId, Task>, after: map<TaskId, Task>, n: nat)
    requires after.Keys == before.Keys && Ends(h, after) == Ends(h, before)
    requires n + Sum(Work(h, after)) == Sum(Work(h, before))
    requires forall id :: id in after ==> after[id].status != Pending
    ensures n <= Sum(Left(before)) && Left(before).Keys == before.Keys
    ensures forall id :: id in before ==>
              Left(before)[id] == if before[id].status != Pending then 0
                                  else if before[id].attempts < 3 then 3 - before[id].attempts else 1
    ensures forall id :: id in after ==> after[id].(runAt := 0) == EndOf(h, id, before[id])
  {
    hide Sum, Work, Left;
    LeftMeans(before);
    WorkWithinAttempts(h, before);
    forall id | id in after
      ensures after[id].(runAt := 0) == EndOf(h, id, before[id])
    {
      assert Ends(h, after)[id] == Ends(h, before)[id];
    }
  }
}
