/** Sleeping and waking tasks: the priority scheduler driven by the timer queue. */
module SleepScheduler {
  import opened TimerSpec
  import opened TimerTheorems
  import P = PriorityScheduler
  import opened PriorityScheduler

  /** task_wakeup as a timer callback; other callbacks have other numbers. */
  const WAKE := 1

  /** schedule of this version: the next task is always taken, whatever slice the current one has left. */
  function ScheduleNext(s: Sched): (Sched, Dispatch)
    requires s.Shaped()
  {
    var n := s.NextTask();
    if n == -1 then (s, Idle)
    else
      var renew := s.current == -1 || s.status[s.current] == EXITED || s.prio[n] < s.prio[s.current]
                   || (s.prio[n] == s.prio[s.current] && s.slice[s.current] <= s.used);
      (s.(current := n, used := if renew then 1 else s.used + 1, status := s.status[n := RUNNING]), Task(n))
  }

  /** schedule goes idle exactly when nothing is schedulable, and dispatches a schedulable task of least
      priority number otherwise; no status but that of the dispatched task changes. */
  lemma DispatchesLeast(s: Sched)
    requires s.Shaped()
    ensures var (t, d) := ScheduleNext(s);
      && t.Shaped() && (d.Idle? <==> forall i :: 0 <= i < MAX_TASKS ==> !s.Schedulable(i))
      && (d.Idle? ==> t == s)
      && (d.Task? ==>
            d.id < MAX_TASKS && s.Candidate(d.id) && t.current == d.id && t.status == s.status[d.id := RUNNING])
  {
    NextTaskIff(s);
  }

  /** schedule keeps the current task exactly when there is no other candidate: time slices have no effect. */
  lemma KeepsCurrentIff(s: Sched)
    requires s.Shaped() && 0 <= s.current
    ensures ScheduleNext(s).1 == Task(s.current) <==>
      s.Candidate(s.current) && forall j :: 0 <= j < MAX_TASKS && j != s.current ==> !s.Candidate(j)
  {
    hide Sched.Candidate;
    assert s.NextTask() == s.CandidateFrom(s.current + 1) || s.CandidateFrom(s.current + 1) == -1;
  }

  // ---------- What is left of the round robin ----------

  /** What n calls of schedule in a row dispatch. */
  function TraceNext(s: Sched, n: nat): (r: seq<Dispatch>)
    requires s.Shaped()
    ensures |r| == n
    decreases n
  {
    DispatchesLeast(s);
    if n == 0 then [] else [ScheduleNext(s).1] + TraceNext(ScheduleNext(s).0, n - 1)
  }

  /** z is s with all slices 0, as the scheduler with time slices sees it. */
  ghost predicate Mimics(s: Sched, z: Sched) {
    SameReady(s, z) && z.Ok() && s.current == z.current && forall i :: 0 <= i < MAX_TASKS ==> z.slice[i] == 0
  }

  lemma HasMimic(s: Sched) returns (z: Sched)
    requires s.Shaped()
    ensures Mimics(s, z)
  {
    var status := if s.current >= 0 && !s.Schedulable(s.current) then s.status[s.current := EXITED] else s.status;
    z := Sched(status, s.prio, seq(MAX_TASKS, _ => 0), s.current, 0);
  }

  /** With slices of 0 the scheduler with time slices switches at every call, too. */
  lemma StepMimics(s: Sched, z: Sched)
    requires Mimics(s, z)
    ensures ScheduleNext(s).1 == Schedule(z).1 && Mimics(ScheduleNext(s).0, Schedule(z).0)
    ensures z.NextTask() == s.NextTask() && (z.NextTask() != -1 ==> Switches(z))
  {
    SameCandidates(s, z, s.current + 1);
    SameCandidates(s, z, 0);
    NextTaskIff(z);
    hide Sched.Candidate, Sched.CandidateFrom, Switches;
    assert z.NextTask() == s.NextTask();
    if z.NextTask() != -1 {
      AlwaysSwitches(z);
      StillMimics(s, z, z.NextTask(), ScheduleNext(s).0.used, 1);
    }
  }

  lemma AlwaysSwitches(z: Sched)
    requires z.Ok() && z.NextTask() != -1 && forall i :: 0 <= i < MAX_TASKS ==> z.slice[i] == 0
    ensures Switches(z)
  {
    var n := z.NextTask();
    NextTaskIff(z);
    CandidateIff(z, n);
    hide Sched.Candidate, Sched.NextTask;
    if z.current != -1 && z.Schedulable(z.current) {
      assert z.prio[n] <= z.prio[z.current];
    }
  }

  /** The state after n was dispatched, with its counter at used. */
  function Dispatched(s: Sched, n: nat, used: nat): Sched
    requires n < |s.status|
  {
    s.(current := n, used := used, status := s.status[n := RUNNING])
  }

  lemma StillMimics(s: Sched, z: Sched, n: nat, u: nat, w: nat)
    requires Mimics(s, z) && n < MAX_TASKS && z.Schedulable(n)
    ensures Mimics(Dispatched(s, n, u), Dispatched(z, n, w))
  {
    var t, y := Dispatched(s, n, u), Dispatched(z, n, w);
    forall i | 0 <= i < MAX_TASKS ensures t.Schedulable(i) == y.Schedulable(i) {
      assert s.Schedulable(i) == z.Schedulable(i);
    }
  }

  lemma {:induction false} TraceMimics(s: Sched, z: Sched, n: nat)
    requires Mimics(s, z)
    ensures s.Shaped() && z.Ok() && TraceNext(s, n) == Trace(z, n)
    decreases n
  {
    hide ScheduleNext, Schedule, Switches, SameReady;
    MimicShaped(s, z);
    if n == 0 {
    } else {
      StepMimics(s, z);
      DispatchesLeast(s);
      ScheduleSameTasks(z);
      TraceMimics(ScheduleNext(s).0, Schedule(z).0, n - 1);
    }
  }

  lemma MimicShaped(s: Sched, z: Sched)
    requires Mimics(s, z)
    ensures s.Shaped() && z.Ok()
  {
  }

  function Dispatches(order: seq<nat>): seq<Dispatch> {
    if order == [] then [] else [Task(order[0])] + Dispatches(order[1..])
  }

  lemma {:induction false} SingleBlocks(z: Sched, order: seq<nat>)
    requires forall k :: 0 <= k < |order| ==> order[k] < |z.slice|
    requires forall i :: 0 <= i < |z.slice| ==> z.slice[i] == 0
    ensures Blocks(z, order) == Dispatches(order) && TotalWeight(z, order) == |order|
    decreases |order|
  {
    if order == [] {
    } else {
      assert Repeat(Task(order[0]), 1) == [Task(order[0])];
      SingleBlocks(z, order[1..]);
    }
  }

  /** As many calls in a row as there are candidates dispatch each of them exactly once, in cyclic id order. */
  lemma EachCandidateOnce(s: Sched)
    requires s.Shaped() && s.NextTask() != -1
    ensures TraceNext(s, |Cyclic(s)|) == Dispatches(Cyclic(s))
    ensures forall i :: 0 <= i < MAX_TASKS ==> (s.Candidate(i) <==> i in Cyclic(s))
    ensures forall j, k :: 0 <= j < k < |Cyclic(s)| ==> Cyclic(s)[j] != Cyclic(s)[k]
  {
    CyclicOnce(s);
    hide Sched.Candidate, TraceNext, Sched.NextTask, Cyclic;
    OncePerRound(s);
  }

  lemma OncePerRound(s: Sched)
    requires s.Shaped() && s.NextTask() != -1
    ensures TraceNext(s, |Cyclic(s)|) == Dispatches(Cyclic(s))
  {
    hide Sched.Candidate, ScheduleNext, Schedule, Switches, TraceNext, Trace, Sched.NextTask, Blocks, TotalWeight,
      Cyclic, SameReady, SameTasks, After;
    var z := HasMimic(s);
    MimicShaped(s, z);
    StepMimics(s, z);
    SameCyclic(s, z);
    MimicRound(z);
    TraceMimics(s, z, |Cyclic(s)|);
  }

  lemma SameCyclic(s: Sched, z: Sched)
    requires Mimics(s, z)
    ensures s.Shaped() && z.Shaped() && Cyclic(s) == Cyclic(z)
  {
    hide Ascending;
    SameAscending(s, z, s.current + 1, MAX_TASKS);
    SameAscending(s, z, 0, s.current + 1);
  }

  /** With slices of 0 a round of the scheduler with time slices has one call per candidate. */
  lemma MimicRound(z: Sched)
    requires z.Ok() && z.NextTask() != -1 && Switches(z) && forall i :: 0 <= i < MAX_TASKS ==> z.slice[i] == 0
    ensures Trace(z, |Cyclic(z)|) == Dispatches(Cyclic(z))
  {
    hide Sched.Candidate, Schedule, Switches, Trace, Sched.NextTask, Cyclic, SameReady, SameTasks, After;
    WeightedRoundRobin(z);
    SingleBlocks(z, Cyclic(z));
  }

  datatype SleepKernel = SleepKernel(sched: Sched, running: Dispatch, timers: Service)

  /** What a callback other than task_wakeup creates: timers and tasks. */
  datatype Callback = Callback(timers: seq<Request>, tasks: seq<(nat, nat)>)

  datatype Op =
    | AddTask(prio: nat, slice: nat)
    | AddTimer(req: Request)
    | Sleep(ticks: nat)
    | Yield
    | Exit
    | SoftInterrupt
    | TimerInterrupt(callback: Callback)

  /** Whether the running context is a task, which is then the current one. */
  predicate TaskRuns(k: SleepKernel) {
    k.running.Task? && k.running.id == k.sched.current && 0 <= k.sched.current < MAX_TASKS
  }

  predicate Enabled(k: SleepKernel, op: Op) {
    match op
    case AddTask(prio, slice) => prio <= LOWEST_PRIORITY
    case AddTimer(req) => req.func != WAKE
    case Sleep(ticks) => TaskRuns(k)
    case Yield => TaskRuns(k)
    case Exit => TaskRuns(k)
    case SoftInterrupt => true
    case TimerInterrupt(cb) =>
      && (forall i :: 0 <= i < |cb.timers| ==> cb.timers[i].func != WAKE)
      && (forall i :: 0 <= i < |cb.tasks| ==> cb.tasks[i].0 <= LOWEST_PRIORITY)
  }

  /** switch_to: the kernel after schedule */
  function Switch(k: SleepKernel): SleepKernel
    requires k.sched.Shaped()
  {
    var (s, d) := ScheduleNext(k.sched);
    k.(sched := s, running := d)
  }

  function SetStatus(s: Sched, i: nat, st: Status): Sched
    requires i < |s.status|
  {
    s.(status := s.status[i := st])
  }

  function CreateTasks(s: Sched, tasks: seq<(nat, nat)>): (t: Sched)
    requires s.Shaped() && forall i :: 0 <= i < |tasks| ==> tasks[i].0 <= LOWEST_PRIORITY
    ensures t.Shaped() && t.current == s.current
    decreases |tasks|
  {
    if tasks == [] then s else CreateTasks(CreateTask(s, tasks[0].0, tasks[0].1).0, tasks[1..])
  }

  /** The timer that the next tick fires, if any. */
  predicate DueNext(t: Service) { HeadDue(t.(ticks := t.ticks + 1)) }

  /** timer_check at the next tick: the creations it makes, and the task table after its callback. */
  function CallbackTimers(k: SleepKernel, cb: Callback): seq<Request> {
    if DueNext(k.timers) && k.timers.queue[0].data.func != WAKE then cb.timers else []
  }

  function CallbackTasks(k: SleepKernel, cb: Callback): (s: Sched)
    requires k.sched.Shaped() && forall i :: 0 <= i < |cb.tasks| ==> cb.tasks[i].0 <= LOWEST_PRIORITY
    ensures s.Shaped()
  {
    if !DueNext(k.timers) then k.sched
    else
      var t := k.timers.queue[0].data;
      if t.func != WAKE then CreateTasks(k.sched, cb.tasks)
      else if 0 <= t.arg < MAX_TASKS then SetStatus(k.sched, t.arg, READY)
      else k.sched
  }

  /** The state in which the timer interrupt calls schedule. */
  function Ticked(kind: Kind, k: SleepKernel, cb: Callback): SleepKernel
    requires k.sched.Shaped() && forall i :: 0 <= i < |cb.tasks| ==> cb.tasks[i].0 <= LOWEST_PRIORITY
  {
    SleepKernel(CallbackTasks(k, cb), k.running, Tick(kind, k.timers, CallbackTimers(k, cb)))
  }

  /** The running task asleep, with its wake-up queued. */
  function Slept(kind: Kind, k: SleepKernel, ticks: nat): SleepKernel
    requires k.sched.Shaped() && TaskRuns(k)
  {
    var req := Request(WAKE, k.sched.current, ticks);
    k.(sched := SetStatus(k.sched, k.sched.current, SLEEPING), timers := Create(kind, k.timers, req))
  }

  function Step(kind: Kind, k: SleepKernel, op: Op): SleepKernel
    requires k.sched.Shaped() && Enabled(k, op)
  {
    match op
    case AddTask(prio, slice) => k.(sched := CreateTask(k.sched, prio, slice).0)
    case AddTimer(req) => k.(timers := Create(kind, k.timers, req))
    case Sleep(ticks) =>
      // a zero timeout creates no timer: task_sleep returns to the task without a reschedule
      var s := Slept(kind, k, ticks);
      if ticks == 0 then s else Switch(s)
    case Yield => Switch(k.(sched := SetStatus(k.sched, k.sched.current, READY)))
    case Exit => Switch(k.(sched := SetStatus(k.sched, k.sched.current, EXITED)))
    case SoftInterrupt => Switch(k)
    case TimerInterrupt(cb) =>
      Switch(Ticked(kind, k, cb))
  }

  /** op is possible in k and leads to n. */
  ghost predicate Leads(kind: Kind, k: SleepKernel, op: Op, n: SleepKernel) {
    k.sched.Shaped() && Enabled(k, op) && n == Step(kind, k, op)
  }

  // ---------- The invariant ----------

  predicate IsWake(e: Entry) { e.data.func == WAKE }

  /** Every queued wake-up is for a sleeping task that does not run, at most one per task. */
  ghost predicate WakesOk(q: seq<Entry>, s: Sched, running: Dispatch)
    requires s.Shaped()
  {
    && (forall i :: 0 <= i < |q| && IsWake(q[i]) ==>
          0 <= q[i].data.arg < MAX_TASKS && s.status[q[i].data.arg] == SLEEPING && running != Task(q[i].data.arg))
    && (forall i, j :: 0 <= i < j < |q| && IsWake(q[i]) && IsWake(q[j]) ==> q[i].data.arg != q[j].data.arg)
  }

  /** A task that runs is the current one; it is RUNNING, or SLEEPING after a sleep of 0 ticks. */
  predicate RunsOk(s: Sched, running: Dispatch)
    requires s.Shaped()
  {
    running.Task? ==> running.id == s.current && (s.status[s.current] == RUNNING || s.status[s.current] == SLEEPING)
  }

  ghost predicate Inv(k: SleepKernel) {
    && k.sched.Shaped() && TimerTheorems.Inv(k.timers)
    && RunsOk(k.sched, k.running) && WakesOk(k.timers.queue, k.sched, k.running)
  }

  /** schedule dispatches no sleeping task. */
  lemma SwitchKeeps(k: SleepKernel)
    requires k.sched.Shaped() && TimerTheorems.Inv(k.timers)
    requires WakesOk(k.timers.queue, k.sched, Idle)
    ensures Inv(Switch(k))
    ensures forall i :: 0 <= i < MAX_TASKS && k.sched.status[i] == SLEEPING ==>
      Switch(k).sched.status[i] == SLEEPING && Switch(k).running != Task(i)
  {
    NextTaskIff(k.sched);
  }

  /** A timer that is no wake-up, or the wake-up of a task without one, may be added. */
  lemma EnqueueKeepsWakes(kind: Kind, q: seq<Entry>, e: Entry, s: Sched, running: Dispatch)
    requires s.Shaped() && WakesOk(q, s, running)
    requires IsWake(e) ==>
      && 0 <= e.data.arg < MAX_TASKS && s.status[e.data.arg] == SLEEPING && running != Task(e.data.arg)
      && forall i :: 0 <= i < |q| && IsWake(q[i]) ==> q[i].data.arg != e.data.arg
    ensures WakesOk(Enqueue(kind, q, e), s, running)
  {
    hide WakesOk;
    InsertKeepsWakes(q, Place(kind, q, e.priority), e, s, running);
  }

  lemma InsertKeepsWakes(q: seq<Entry>, n: nat, e: Entry, s: Sched, running: Dispatch)
    requires n <= |q| && s.Shaped() && WakesOk(q, s, running)
    requires IsWake(e) ==>
      && 0 <= e.data.arg < MAX_TASKS && s.status[e.data.arg] == SLEEPING && running != Task(e.data.arg)
      && forall i :: 0 <= i < |q| && IsWake(q[i]) ==> q[i].data.arg != e.data.arg
    ensures WakesOk(InsertAt(q, n, e), s, running)
  {
    hide Sched.Shaped;
    var r := InsertAt(q, n, e);
    forall i, j | 0 <= i < j < |r| && IsWake(r[i]) && IsWake(r[j]) ensures r[i].data.arg != r[j].data.arg {
      assert r[i] == if i < n then q[i] else if i == n then e else q[i - 1];
      assert r[j] == if j < n then q[j] else if j == n then e else q[j - 1];
    }
  }

  lemma {:induction false} CreateAllKeepsWakes(kind: Kind, t: Service, reqs: seq<Request>, s: Sched, running: Dispatch)
    requires s.Shaped() && WakesOk(t.queue, s, running)
    requires forall i :: 0 <= i < |reqs| ==> reqs[i].func != WAKE
    ensures WakesOk(CreateAll(kind, t, reqs).queue, s, running)
    decreases |reqs|
  {
    hide WakesOk;
    if reqs == [] {
    } else {
      CreateKeepsWakes(kind, t, reqs[0], s, running);
      CreateAllKeepsWakes(kind, Create(kind, t, reqs[0]), reqs[1..], s, running);
    }
  }

  lemma CreateKeepsWakes(kind: Kind, t: Service, req: Request, s: Sched, running: Dispatch)
    requires s.Shaped() && WakesOk(t.queue, s, running) && req.func != WAKE
    ensures WakesOk(Create(kind, t, req).queue, s, running)
  {
    hide WakesOk, Enqueue;
    if Accepts(req) {
      var tm := NewTimer(t.ticks, req);
      EnqueueKeepsWakes(kind, t.queue, Entry(tm.timeoutTick, tm), s, running);
    }
  }

  // ---------- Every step keeps the invariant ----------

  /** A sleeping task keeps its slot. */
  lemma {:induction false} CreateTasksKeeps(s: Sched, tasks: seq<(nat, nat)>, i: nat)
    requires s.Shaped() && i < MAX_TASKS && s.status[i] == SLEEPING
    requires forall j :: 0 <= j < |tasks| ==> tasks[j].0 <= LOWEST_PRIORITY
    ensures var t := CreateTasks(s, tasks);
      t.status[i] == SLEEPING && t.prio[i] == s.prio[i] && t.slice[i] == s.slice[i]
    decreases |tasks|
  {
    if tasks == [] {
    } else {
      CreateTasksKeeps(CreateTask(s, tasks[0].0, tasks[0].1).0, tasks[1..], i);
    }
  }

  /** The tasks asleep in s are asleep in t, in the same slots. */
  ghost predicate SleepersKept(s: Sched, t: Sched) {
    && s.Shaped() && t.Shaped()
    && forall i :: 0 <= i < MAX_TASKS && s.status[i] == SLEEPING ==>
         t.status[i] == SLEEPING && t.prio[i] == s.prio[i] && t.slice[i] == s.slice[i]
  }

  lemma KeptWakes(q: seq<Entry>, s: Sched, t: Sched, running: Dispatch)
    requires SleepersKept(s, t) && WakesOk(q, s, running)
    ensures WakesOk(q, t, running) && WakesOk(q, t, Idle)
  {
  }

  lemma TailWakes(q: seq<Entry>, s: Sched, running: Dispatch)
    requires q != [] && s.Shaped() && WakesOk(q, s, running)
    ensures WakesOk(q[1..], s, Idle)
  {
  }

  /** Once the wake-up of c has left the queue, c may change its status. */
  lemma WokenWakes(q: seq<Entry>, s: Sched, running: Dispatch)
    requires q != [] && s.Shaped() && WakesOk(q, s, running) && IsWake(q[0])
    ensures 0 <= q[0].data.arg < MAX_TASKS && WakesOk(q[1..], SetStatus(s, q[0].data.arg, READY), Idle)
  {
    assert forall i :: 0 <= i < |q| - 1 ==> q[1..][i] == q[i + 1];
  }

  lemma CallbackKeepsSleepers(k: SleepKernel, cb: Callback)
    requires Inv(k) && forall i :: 0 <= i < |cb.tasks| ==> cb.tasks[i].0 <= LOWEST_PRIORITY
    requires DueNext(k.timers) ==> !IsWake(k.timers.queue[0])
    ensures SleepersKept(k.sched, CallbackTasks(k, cb))
  {
    forall i | 0 <= i < MAX_TASKS && k.sched.status[i] == SLEEPING
      ensures var t := CreateTasks(k.sched, cb.tasks);
        t.status[i] == SLEEPING && t.prio[i] == k.sched.prio[i] && t.slice[i] == k.sched.slice[i]
    {
      CreateTasksKeeps(k.sched, cb.tasks, i);
    }
  }

  lemma TickKeeps(kind: Kind, k: SleepKernel, cb: Callback)
    requires Inv(k) && Enabled(k, TimerInterrupt(cb))
    ensures var t := Ticked(kind, k, cb);
      t.sched.Shaped() && TimerTheorems.Inv(t.timers) && WakesOk(t.timers.queue, t.sched, Idle)
  {
    assert k.sched.Shaped() && TimerTheorems.Inv(k.timers);
    hide Inv, TimerTheorems.Inv, WakesOk, Tick, DueNext, CallbackTasks, CallbackTimers, Sched.Shaped;
    TickInv(kind, k.timers, CallbackTimers(k, cb));
    if DueNext(k.timers) && IsWake(k.timers.queue[0]) {
      WakeTickKeeps(kind, k, cb);
    } else {
      OtherTickKeeps(kind, k, cb);
    }
  }

  lemma WakeTickKeeps(kind: Kind, k: SleepKernel, cb: Callback)
    requires Inv(k) && Enabled(k, TimerInterrupt(cb)) && DueNext(k.timers) && IsWake(k.timers.queue[0])
    ensures WakesOk(Ticked(kind, k, cb).timers.queue, CallbackTasks(k, cb), Idle)
  {
    hide WakesOk, QueueOk, LogOk, Enqueue, CreateTasks;
    WokenWakes(k.timers.queue, k.sched, k.running);
  }

  lemma OtherTickKeeps(kind: Kind, k: SleepKernel, cb: Callback)
    requires Inv(k) && Enabled(k, TimerInterrupt(cb)) && (DueNext(k.timers) ==> !IsWake(k.timers.queue[0]))
    ensures WakesOk(Ticked(kind, k, cb).timers.queue, CallbackTasks(k, cb), Idle)
  {
    CallbackKeepsSleepers(k, cb);
    hide SleepersKept, WakesOk, CallbackTasks, Sched.Shaped, QueueOk, LogOk, Enqueue;
    var q, s := k.timers.queue, CallbackTasks(k, cb);
    KeptWakes(q, k.sched, s, k.running);
    if DueNext(k.timers) {
      TailWakes(q, s, Idle);
      var u := Popped(k.timers.(ticks := k.timers.ticks + 1));
      CreateAllKeepsWakes(kind, u, cb.timers, s, Idle);
    }
  }

  lemma SleepKeeps(kind: Kind, k: SleepKernel, ticks: nat)
    requires Inv(k) && TaskRuns(k)
    ensures var s := SetStatus(k.sched, k.sched.current, SLEEPING);
      && WakesOk(k.timers.queue, s, k.running)
      && (ticks > 0 ==> WakesOk(Create(kind, k.timers, Request(WAKE, k.sched.current, ticks)).queue, s, Idle))
  {
    var s := SetStatus(k.sched, k.sched.current, SLEEPING);
    assert SleepersKept(k.sched, s);
    KeptWakes(k.timers.queue, k.sched, s, k.running);
    if ticks > 0 {
      var tm := NewTimer(k.timers.ticks, Request(WAKE, k.sched.current, ticks));
      EnqueueKeepsWakes(kind, k.timers.queue, Entry(tm.timeoutTick, tm), s, Idle);
    }
  }

  /** The running task has no wake-up queued, so it may change its status. */
  lemma RunningMayChange(k: SleepKernel, st: Status)
    requires Inv(k) && TaskRuns(k)
    ensures WakesOk(k.timers.queue, SetStatus(k.sched, k.sched.current, st), Idle)
  {
  }

  lemma SleepStep(kind: Kind, k: SleepKernel, ticks: nat)
    requires Inv(k) && TaskRuns(k)
    ensures Inv(Step(kind, k, Sleep(ticks)))
  {
    SleepKeeps(kind, k, ticks);
    var req := Request(WAKE, k.sched.current, ticks);
    CreateInv(kind, k.timers, req);
    hide WakesOk, QueueOk, LogOk, Enqueue, ScheduleNext;
    if ticks > 0 {
      SwitchKeeps(Slept(kind, k, ticks));
    }
  }

  lemma TickStep(kind: Kind, k: SleepKernel, cb: Callback)
    requires Inv(k) && Enabled(k, TimerInterrupt(cb))
    ensures Inv(Step(kind, k, TimerInterrupt(cb)))
  {
    assert k.sched.Shaped();
    hide Inv, WakesOk, ScheduleNext, CallbackTasks, Tick;
    TickKeeps(kind, k, cb);
    SwitchKeeps(Ticked(kind, k, cb));
  }

  /** Every step keeps the invariant. */
  lemma StepKeepsInv(kind: Kind, k: SleepKernel, op: Op)
    requires Inv(k) && Enabled(k, op)
    ensures Inv(Step(kind, k, op))
  {
    hide WakesOk, QueueOk, LogOk, ScheduleNext, CallbackTasks, Tick, Create;
    match op
    case AddTask(prio, slice) =>
      CreateTasksKeep(k.sched, prio, slice);
      KeptWakes(k.timers.queue, k.sched, CreateTask(k.sched, prio, slice).0, k.running);
    case AddTimer(req) =>
      CreateInv(kind, k.timers, req);
      CreateKeepsWakes(kind, k.timers, req, k.sched, k.running);
    case Sleep(ticks) =>
      SleepStep(kind, k, ticks);
    case Yield =>
      RunningMayChange(k, READY);
      SwitchKeeps(k.(sched := SetStatus(k.sched, k.sched.current, READY)));
    case Exit =>
      RunningMayChange(k, EXITED);
      SwitchKeeps(k.(sched := SetStatus(k.sched, k.sched.current, EXITED)));
    case SoftInterrupt =>
      KeptWakes(k.timers.queue, k.sched, k.sched, k.running);
      SwitchKeeps(k);
    case TimerInterrupt(cb) =>
      TickStep(kind, k, cb);
  }

  lemma LeadsKeepsInv(kind: Kind, k: SleepKernel, op: Op, n: SleepKernel)
    requires Inv(k) && Leads(kind, k, op, n)
    ensures Inv(n)
  {
    StepKeepsInv(kind, k, op);
  }

  lemma CreateTasksKeep(s: Sched, prio: nat, slice: nat)
    requires s.Shaped() && prio <= LOWEST_PRIORITY
    ensures SleepersKept(s, CreateTask(s, prio, slice).0)
    ensures forall i :: 0 <= i < MAX_TASKS && s.status[i] == RUNNING ==>
      CreateTask(s, prio, slice).0.status[i] == RUNNING
  {
    var i := FreeSlot(s, 0);
  }

  /** task_sleep and task_exit make exactly the running task unschedulable, task_yield none. */
  lemma SchedulableAfter(kind: Kind, k: SleepKernel, op: Op, i: nat)
    requires Inv(k) && Enabled(k, op) && i < MAX_TASKS && (op.Sleep? || op.Exit? || op.Yield?)
    requires k.sched.status[k.sched.current] == RUNNING
    ensures Step(kind, k, op).sched.Shaped()
    ensures Step(kind, k, op).sched.Schedulable(i) <==> k.sched.Schedulable(i) && (op.Yield? || i != k.sched.current)
  {
    hide WakesOk, TimerTheorems.Inv, Create, ScheduleNext;
    match op
    case Sleep(ticks) => DispatchesLeast(SetStatus(k.sched, k.sched.current, SLEEPING));
    case Yield => DispatchesLeast(SetStatus(k.sched, k.sched.current, READY));
    case Exit => DispatchesLeast(SetStatus(k.sched, k.sched.current, EXITED));
  }

  // ---------- Runs ----------

  /** Each operation is possible in the state the ones before it lead to. */
  ghost predicate Allowed(kind: Kind, k: SleepKernel, ops: seq<Op>)
    decreases |ops|
  {
    ops == [] || (k.sched.Shaped() && Enabled(k, ops[0]) && Allowed(kind, Step(kind, k, ops[0]), ops[1..]))
  }

  ghost function Run(kind: Kind, k: SleepKernel, ops: seq<Op>): SleepKernel
    requires Allowed(kind, k, ops)
    decreases |ops|
  {
    if ops == [] then k else Run(kind, Step(kind, k, ops[0]), ops[1..])
  }

  /** 1 for a timer interrupt */
  function TickOf(op: Op): nat { if op.TimerInterrupt? then 1 else 0 }

  /** How many timer interrupts there are. */
  function Interrupts(ops: seq<Op>): nat {
    if ops == [] then 0 else TickOf(ops[0]) + Interrupts(ops[1..])
  }

  /** sched_init and timer_init */
  const START := SleepKernel(InitSched(), Idle, NO_TIMERS)

  lemma StartInv()
    ensures Inv(START)
  {
  }

  lemma {:induction false} RunKeepsInv(kind: Kind, k: SleepKernel, ops: seq<Op>)
    requires Inv(k) && Allowed(kind, k, ops)
    ensures Inv(Run(kind, k, ops))
    decreases |ops|
  {
    if ops == [] {
    } else {
      StepKeepsInv(kind, k, ops[0]);
      RunKeepsInv(kind, Step(kind, k, ops[0]), ops[1..]);
    }
  }

  /** In every reachable state every queued wake-up is for a sleeping task that does not run, one per task. */
  lemma EveryRunKeepsInv(kind: Kind, ops: seq<Op>)
    requires Allowed(kind, START, ops)
    ensures Inv(Run(kind, START, ops))
  {
    StartInv();
    RunKeepsInv(kind, START, ops);
  }

  // ---------- A sleeping task stays asleep until its wake-up fires ----------

  predicate Asleep(k: SleepKernel, c: nat) {
    k.sched.Shaped() && c < MAX_TASKS && k.sched.status[c] == SLEEPING && k.running != Task(c)
  }

  /** The next tick fires the wake-up of c. */
  predicate WakesNext(k: SleepKernel, c: nat) {
    DueNext(k.timers) && IsWake(k.timers.queue[0]) && k.timers.queue[0].data.arg == c
  }

  predicate SameSlot(s: Sched, t: Sched, c: nat)
    requires s.Shaped() && t.Shaped() && c < MAX_TASKS
  {
    s.prio[c] == t.prio[c] && s.slice[c] == t.slice[c]
  }

  /** Every queued timer has a handler, and a wake-up the id of a task. */
  lemma HeadIsTask(k: SleepKernel)
    requires Inv(k) && k.timers.queue != []
    ensures k.timers.queue[0].data.func != 0
    ensures IsWake(k.timers.queue[0]) ==> 0 <= k.timers.queue[0].data.arg < MAX_TASKS
  {
  }

  lemma SwitchSleeper(k: SleepKernel, c: nat)
    requires k.sched.Shaped() && c < MAX_TASKS && k.sched.status[c] == SLEEPING
    ensures Asleep(Switch(k), c) && SameSlot(k.sched, Switch(k).sched, c)
  {
    NextTaskIff(k.sched);
  }

  /** Only its wake-up gets a sleeping task out of that status; its slot is not reused. */
  lemma StepSleeper(kind: Kind, k: SleepKernel, op: Op, c: nat)
    requires Inv(k) && Enabled(k, op) && Asleep(k, c)
    ensures var n := Step(kind, k, op);
      && n.sched.Shaped() && SameSlot(k.sched, n.sched, c)
      && if op.TimerInterrupt? && WakesNext(k, c) then n.sched.status[c] == READY || n.sched.status[c] == RUNNING
         else Asleep(n, c)
  {
    hide WakesOk, TimerTheorems.Inv, Tick, Create, ScheduleNext;
    match op
    case AddTask(prio, slice) => CreateTasksKeep(k.sched, prio, slice);
    case AddTimer(req) =>
    case Sleep(ticks) =>
      if ticks > 0 {
        SwitchSleeper(Slept(kind, k, ticks), c);
      }
    case Yield => SwitchSleeper(k.(sched := SetStatus(k.sched, k.sched.current, READY)), c);
    case Exit => SwitchSleeper(k.(sched := SetStatus(k.sched, k.sched.current, EXITED)), c);
    case SoftInterrupt => SwitchSleeper(k, c);
    case TimerInterrupt(cb) => TickSleeper(kind, k, cb, c);
  }

  lemma TickSleeper(kind: Kind, k: SleepKernel, cb: Callback, c: nat)
    requires Inv(k) && Enabled(k, TimerInterrupt(cb)) && Asleep(k, c)
    ensures var n := Step(kind, k, TimerInterrupt(cb));
      && n.sched.Shaped() && SameSlot(k.sched, n.sched, c)
      && if WakesNext(k, c) then n.sched.status[c] == READY || n.sched.status[c] == RUNNING else Asleep(n, c)
  {
    hide WakesOk, TimerTheorems.Inv, Tick, Create;
    if DueNext(k.timers) && !IsWake(k.timers.queue[0]) { CreateTasksKeeps(k.sched, cb.tasks, c); }
    NextTaskIff(CallbackTasks(k, cb));
  }

  ghost predicate Queued(q: seq<Entry>, t: Timer) {
    exists i :: 0 <= i < |q| && q[i].data == t
  }

  lemma {:induction false} CreateAllKeepsQueued(kind: Kind, s: Service, reqs: seq<Request>, t: Timer)
    requires Queued(s.queue, t)
    ensures Queued(CreateAll(kind, s, reqs).queue, t)
    decreases |reqs|
  {
    if reqs == [] {
    } else {
      CreateKeepsQueued(kind, s, reqs[0], t);
      CreateAllKeepsQueued(kind, Create(kind, s, reqs[0]), reqs[1..], t);
    }
  }

  lemma CreateKeepsQueued(kind: Kind, s: Service, req: Request, t: Timer)
    requires Queued(s.queue, t)
    ensures Queued(Create(kind, s, req).queue, t)
  {
    if Accepts(req) {
      var tm := NewTimer(s.ticks, req);
      var e := Entry(tm.timeoutTick, tm);
      var n := Place(kind, s.queue, e.priority);
      InsertAtIndex(s.queue, n, e);
      var i :| 0 <= i < |s.queue| && s.queue[i].data == t;
      assert InsertAt(s.queue, n, e)[if i < n then i else i + 1].data == t;
    }
  }

  /** A timer leaves the queue only at a tick at which it is due. */
  lemma StepKeepsQueued(kind: Kind, k: SleepKernel, op: Op, t: Timer)
    requires Inv(k) && Enabled(k, op) && Queued(k.timers.queue, t)
    requires op.TimerInterrupt? ==> k.timers.ticks + 1 < t.timeoutTick
    ensures Queued(Step(kind, k, op).timers.queue, t)
  {
    hide WakesOk, Create;
    match op
    case AddTask(prio, slice) =>
    case AddTimer(req) => CreateKeepsQueued(kind, k.timers, req, t);
    case Sleep(ticks) => CreateKeepsQueued(kind, k.timers, Request(WAKE, k.sched.current, ticks), t);
    case Yield =>
    case Exit =>
    case SoftInterrupt =>
    case TimerInterrupt(cb) => TickKeepsQueued(kind, k.timers, CallbackTimers(k, cb), t);
  }

  lemma TickKeepsQueued(kind: Kind, s: Service, reqs: seq<Request>, t: Timer)
    requires Queued(s.queue, t) && s.ticks + 1 < t.timeoutTick
    ensures Queued(Tick(kind, s, reqs).queue, t)
  {
    var u := s.(ticks := s.ticks + 1);
    if HeadDue(u) {
      hide CreateAll;
      PopKeepsQueued(u, t);
      CreateAllKeepsQueued(kind, Popped(u), reqs, t);
    }
  }

  lemma PopKeepsQueued(u: Service, t: Timer)
    requires HeadDue(u) && Queued(u.queue, t) && u.ticks < t.timeoutTick
    ensures Queued(Popped(u).queue, t)
  {
    var i :| 0 <= i < |u.queue| && u.queue[i].data == t;
    assert Popped(u).queue[i - 1].data == t;
  }

  lemma WakeMeansAsleep(k: SleepKernel, t: Timer)
    requires Inv(k) && Queued(k.timers.queue, t) && t.func == WAKE
    ensures t.arg >= 0 && Asleep(k, t.arg)
  {
  }

  lemma StepTicks(kind: Kind, k: SleepKernel, op: Op)
    requires Inv(k) && Enabled(k, op)
    ensures Step(kind, k, op).timers.ticks == k.timers.ticks + TickOf(op)
  {
    hide WakesOk, QueueOk, LogOk;
    if op.TimerInterrupt? { TickInv(kind, k.timers, CallbackTimers(k, op.callback)); }
  }

  /** Before its wake-up is due a sleeping task is never dispatched and its slot never reused. */
  lemma {:induction false} StaysAsleep(kind: Kind, k: SleepKernel, ops: seq<Op>, t: Timer)
    requires Inv(k) && Allowed(kind, k, ops) && Queued(k.timers.queue, t) && t.func == WAKE
    requires k.timers.ticks + Interrupts(ops) < t.timeoutTick
    ensures var r := Run(kind, k, ops);
      t.arg >= 0 && Asleep(k, t.arg) && Asleep(r, t.arg) && SameSlot(k.sched, r.sched, t.arg)
      && Queued(r.timers.queue, t) && r.timers.ticks == k.timers.ticks + Interrupts(ops)
    decreases |ops|
  {
    WakeMeansAsleep(k, t);
    hide Inv, Queued;
    if ops == [] {
    } else {
      StepKeepsInv(kind, k, ops[0]);
      StepTicks(kind, k, ops[0]);
      StepSleeper(kind, k, ops[0], t.arg);
      StepKeepsQueued(kind, k, ops[0], t);
      WakeMeansAsleep(Step(kind, k, ops[0]), t);
      StaysAsleep(kind, Step(kind, k, ops[0]), ops[1..], t);
    }
  }

  lemma SleepQueuesWake(kind: Kind, k: SleepKernel, n: nat)
    requires Inv(k) && TaskRuns(k) && n > 0
    ensures Queued(Step(kind, k, Sleep(n)).timers.queue, Timer(WAKE, k.sched.current, k.timers.ticks + n))
    ensures SameSlot(k.sched, Step(kind, k, Sleep(n)).sched, k.sched.current)
    ensures Step(kind, k, Sleep(n)).timers.ticks == k.timers.ticks
  {
    var tm := NewTimer(k.timers.ticks, Request(WAKE, k.sched.current, n));
    var q, e := k.timers.queue, Entry(tm.timeoutTick, tm);
    var i := Place(kind, q, e.priority);
    assert InsertAt(q, i, e)[i].data == tm;
  }

  /** task_sleep of n > 0 ticks: whatever happens, before n timer interrupts the task is not dispatched and
      its slot not reused. */
  lemma SleepLasts(kind: Kind, k: SleepKernel, n: nat, ops: seq<Op>)
    requires Inv(k) && TaskRuns(k) && n > 0
    requires Allowed(kind, k, [Sleep(n)] + ops) && Interrupts(ops) < n
    ensures var r := Run(kind, k, [Sleep(n)] + ops); var c := k.sched.current;
      && Asleep(r, c) && SameSlot(k.sched, r.sched, c)
      && Queued(r.timers.queue, Timer(WAKE, c, k.timers.ticks + n))
      && r.timers.ticks == k.timers.ticks + Interrupts(ops)
  {
    hide Inv, Queued, Step;
    SleepQueuesWake(kind, k, n);
    StepKeepsInv(kind, k, Sleep(n));
    var s := Step(kind, k, Sleep(n));
    assert ([Sleep(n)] + ops)[1..] == ops;
    StaysAsleep(kind, s, ops, Timer(WAKE, k.sched.current, k.timers.ticks + n));
  }

  // ---------- When a sleeping task wakes ----------

  /** Timer t is the i-th in the queue. */
  predicate At(k: SleepKernel, i: nat, t: Timer) {
    i < |k.timers.queue| && k.timers.queue[i].data == t
  }

  lemma CreateKeepsAt(kind: Kind, s: Service, req: Request, i: nat)
    requires TimerTheorems.Inv(s) && i < |s.queue| && s.queue[i].data.timeoutTick <= s.ticks
    ensures i < |Create(kind, s, req).queue| && Create(kind, s, req).queue[i] == s.queue[i]
  {
    CreateBehindDue(kind, s, req, i + 1);
    assert Create(kind, s, req).queue[..i + 1][i] == s.queue[..i + 1][i];
  }

  /** Without a tick a due timer keeps its place; a tick moves it up by one. */
  lemma StepMoves(kind: Kind, k: SleepKernel, op: Op, i: nat, t: Timer)
    requires Inv(k) && Enabled(k, op) && At(k, i, t)
    requires t.timeoutTick <= k.timers.ticks + TickOf(op) && TickOf(op) <= i
    ensures At(Step(kind, k, op), i - TickOf(op), t)
  {
    match op
    case AddTask(prio, slice) =>
    case AddTimer(req) => CreateKeepsAt(kind, k.timers, req, i);
    case Sleep(ticks) => CreateKeepsAt(kind, k.timers, Request(WAKE, k.sched.current, ticks), i);
    case Yield =>
    case Exit =>
    case SoftInterrupt =>
    case TimerInterrupt(cb) => TickMoves(kind, k, cb, i, t);
  }

  lemma TickMoves(kind: Kind, k: SleepKernel, cb: Callback, i: nat, t: Timer)
    requires Inv(k) && Enabled(k, TimerInterrupt(cb)) && At(k, i, t)
    requires t.timeoutTick <= k.timers.ticks + 1 && i > 0
    ensures At(Step(kind, k, TimerInterrupt(cb)), i - 1, t)
  {
    var u := Tick(kind, k.timers, CallbackTimers(k, cb));
    TickFiresHead(kind, k.timers, CallbackTimers(k, cb), i + 1);
    hide WakesOk, QueueOk, LogOk, Tick, CallbackTimers;
    assert u.queue[..i][i - 1] == k.timers.queue[1..][..i][i - 1];
  }

  /** A wake-up that is due moves up by one at every tick, whatever is created meanwhile; until it is the
      first its task sleeps. */
  lemma {:induction false} MovesUp(kind: Kind, k: SleepKernel, ops: seq<Op>, i: nat, t: Timer)
    requires Inv(k) && Allowed(kind, k, ops) && At(k, i, t) && t.func == WAKE && Interrupts(ops) <= i
    requires t.timeoutTick <= k.timers.ticks + if ops == [] || ops[0].TimerInterrupt? then 1 else 0
    ensures var r := Run(kind, k, ops);
      && At(r, i - Interrupts(ops), t) && r.timers.ticks == k.timers.ticks + Interrupts(ops)
      && t.arg >= 0 && Asleep(k, t.arg) && Asleep(r, t.arg) && SameSlot(k.sched, r.sched, t.arg)
    decreases |ops|
  {
    hide Inv, At, Asleep, Step, Enabled;
    AtAsleep(k, i, t);
    if ops == [] {
    } else {
      StepMovesUp(kind, k, ops[0], i, t);
      MovesUp(kind, Step(kind, k, ops[0]), ops[1..], i - TickOf(ops[0]), t);
    }
  }

  lemma StepMovesUp(kind: Kind, k: SleepKernel, op: Op, i: nat, t: Timer)
    requires Inv(k) && Enabled(k, op) && At(k, i, t) && t.func == WAKE
    requires t.timeoutTick <= k.timers.ticks + TickOf(op) && TickOf(op) <= i
    ensures var n := Step(kind, k, op);
      && Inv(n) && At(n, i - TickOf(op), t) && n.timers.ticks == k.timers.ticks + TickOf(op)
      && t.arg >= 0 && Asleep(k, t.arg) && Asleep(n, t.arg) && SameSlot(k.sched, n.sched, t.arg)
  {
    hide Inv, At, Step, Enabled;
    AtAsleep(k, i, t);
    StepKeepsInv(kind, k, op);
    StepTicks(kind, k, op);
    StepMoves(kind, k, op, i, t);
    AtAsleep(Step(kind, k, op), i - TickOf(op), t);
    StepSleeper(kind, k, op, t.arg);
  }

  lemma AtAsleep(k: SleepKernel, i: nat, t: Timer)
    requires Inv(k) && At(k, i, t) && t.func == WAKE
    ensures t.arg >= 0 && Asleep(k, t.arg)
  {
  }

  /** At its wake tick, with i due timers queued ahead of it, a sleeping task still sleeps through i ticks
      and leaves that state at the next one, which is i ticks after the wake tick. */
  lemma WakesAt(kind: Kind, k: SleepKernel, ops: seq<Op>, i: nat, t: Timer, cb: Callback)
    requires Inv(k) && Allowed(kind, k, ops) && At(k, i, t) && t.func == WAKE && Interrupts(ops) == i
    requires t.timeoutTick <= k.timers.ticks + if ops == [] || ops[0].TimerInterrupt? then 1 else 0
    requires Enabled(Run(kind, k, ops), TimerInterrupt(cb))
    ensures t.arg >= 0 && Asleep(Run(kind, k, ops), t.arg) && Run(kind, k, ops).sched.Shaped()
    ensures var w := Step(kind, Run(kind, k, ops), TimerInterrupt(cb));
      && w.sched.Shaped() && (w.sched.status[t.arg] == READY || w.sched.status[t.arg] == RUNNING)
      && w.timers.fired == Run(kind, k, ops).timers.fired + [Firing(k.timers.ticks + i + 1, t)]
  {
    hide Inv, At, Asleep, Step, Enabled;
    MovesUp(kind, k, ops, i, t);
    RunKeepsInv(kind, k, ops);
    HeadWakes(kind, Run(kind, k, ops), t, cb);
  }

  lemma HeadWakes(kind: Kind, k: SleepKernel, t: Timer, cb: Callback)
    requires Inv(k) && At(k, 0, t) && t.func == WAKE && t.timeoutTick <= k.timers.ticks + 1
    requires Enabled(k, TimerInterrupt(cb))
    ensures var w := Step(kind, k, TimerInterrupt(cb));
      && t.arg >= 0 && t.arg < MAX_TASKS && w.sched.Shaped()
      && (w.sched.status[t.arg] == READY || w.sched.status[t.arg] == RUNNING)
      && w.timers.fired == k.timers.fired + [Firing(k.timers.ticks + 1, t)]
  {
    AtAsleep(k, 0, t);
    TickFiresHead(kind, k.timers, CallbackTimers(k, cb), 1);
    hide Inv, Tick, Step;
    StepSleeper(kind, k, TimerInterrupt(cb), t.arg);
    TickedTimers(kind, k, cb);
  }

  lemma TickedTimers(kind: Kind, k: SleepKernel, cb: Callback)
    requires Inv(k) && Enabled(k, TimerInterrupt(cb))
    ensures Step(kind, k, TimerInterrupt(cb)).timers == Tick(kind, k.timers, CallbackTimers(k, cb))
  {
    hide WakesOk, Tick;
  }

  // ---------- A sleep of 0 ticks ----------

  /** No wake-up of c is queued. */
  ghost predicate NoWake(q: seq<Entry>, c: nat) {
    forall i :: 0 <= i < |q| && IsWake(q[i]) ==> q[i].data.arg != c
  }

  /** Asleep with no wake-up queued. */
  ghost predicate Stranded(k: SleepKernel, c: nat) {
    Asleep(k, c) && NoWake(k.timers.queue, c)
  }

  lemma CreateKeepsNoWake(kind: Kind, s: Service, req: Request, c: nat)
    requires NoWake(s.queue, c) && (req.func == WAKE ==> req.arg != c)
    ensures NoWake(Create(kind, s, req).queue, c)
  {
    if Accepts(req) {
      var tm := NewTimer(s.ticks, req);
      var e := Entry(tm.timeoutTick, tm);
      InsertAtIndex(s.queue, Place(kind, s.queue, e.priority), e);
    }
  }

  lemma {:induction false} CreateAllKeepsNoWake(kind: Kind, s: Service, reqs: seq<Request>, c: nat)
    requires NoWake(s.queue, c) && forall i :: 0 <= i < |reqs| ==> reqs[i].func != WAKE
    ensures NoWake(CreateAll(kind, s, reqs).queue, c)
    decreases |reqs|
  {
    if reqs == [] {
    } else {
      CreateKeepsNoWake(kind, s, reqs[0], c);
      CreateAllKeepsNoWake(kind, Create(kind, s, reqs[0]), reqs[1..], c);
    }
  }

  lemma TickKeepsNoWake(kind: Kind, s: Service, reqs: seq<Request>, c: nat)
    requires NoWake(s.queue, c) && forall i :: 0 <= i < |reqs| ==> reqs[i].func != WAKE
    ensures NoWake(Tick(kind, s, reqs).queue, c)
  {
    var u := s.(ticks := s.ticks + 1);
    if HeadDue(u) { CreateAllKeepsNoWake(kind, Popped(u), reqs, c); }
  }

  lemma StepStranded(kind: Kind, k: SleepKernel, op: Op, c: nat)
    requires Inv(k) && Enabled(k, op) && Stranded(k, c)
    ensures Stranded(Step(kind, k, op), c) && SameSlot(k.sched, Step(kind, k, op).sched, c)
  {
    StepSleeper(kind, k, op, c);
    hide WakesOk, TimerTheorems.Inv, Tick, Create, NoWake;
    NotWoken(k, c);
    match op
    case AddTask(prio, slice) =>
    case AddTimer(req) => CreateKeepsNoWake(kind, k.timers, req, c);
    case Sleep(ticks) => CreateKeepsNoWake(kind, k.timers, Request(WAKE, k.sched.current, ticks), c);
    case Yield =>
    case Exit =>
    case SoftInterrupt =>
    case TimerInterrupt(cb) => TickKeepsNoWake(kind, k.timers, CallbackTimers(k, cb), c);
  }

  lemma NotWoken(k: SleepKernel, c: nat)
    requires Stranded(k, c)
    ensures !WakesNext(k, c)
  {
  }

  /** A task asleep with no wake-up queued never runs again, and its slot is lost. */
  lemma {:induction false} StrandedForever(kind: Kind, k: SleepKernel, ops: seq<Op>, c: nat)
    requires Inv(k) && Allowed(kind, k, ops) && Stranded(k, c)
    ensures var r := Run(kind, k, ops); Stranded(r, c) && r.sched.Shaped() && SameSlot(k.sched, r.sched, c)
    decreases |ops|
  {
    if ops == [] {
    } else {
      StepKeepsInv(kind, k, ops[0]);
      StepStranded(kind, k, ops[0], c);
      StrandedForever(kind, Step(kind, k, ops[0]), ops[1..], c);
    }
  }

  /** An interrupt that reschedules: the task that ran does nothing in between. */
  predicate Preempts(op: Op) { op.SoftInterrupt? || op.TimerInterrupt? }

  /** A creation by someone else */
  predicate Creates(op: Op) { op.AddTask? || op.AddTimer? }

  /** task_sleep of 0 ticks creates no timer: a task preempted before it calls the scheduler again, whatever is
      created until then, is never dispatched afterwards. */
  lemma ZeroSleepLost(kind: Kind, k: SleepKernel, mid: seq<Op>, op: Op, ops: seq<Op>)
    requires Inv(k) && TaskRuns(k) && (forall i :: 0 <= i < |mid| ==> Creates(mid[i])) && Preempts(op)
    requires Allowed(kind, k, [Sleep(0)] + (mid + [op] + ops))
    ensures Asleep(Run(kind, k, [Sleep(0)] + (mid + [op] + ops)), k.sched.current)
  {
    hide Inv, Stranded, Step, Allowed, Run;
    var c := k.sched.current;
    ZeroSleepStep(kind, k, mid + [op] + ops);
    var s := SleepKernel(SetStatus(k.sched, c, SLEEPING), k.running, k.timers);
    IdleStranded(k, s.(running := Idle));
    RunningForgotten(kind, s, mid, op, ops);
    StrandedForever(kind, s.(running := Idle), mid + [op] + ops, c);
    StrandedSleeps(Run(kind, s, mid + [op] + ops), c);
  }

  lemma ZeroSleepStep(kind: Kind, k: SleepKernel, ops: seq<Op>)
    requires TaskRuns(k) && Allowed(kind, k, [Sleep(0)] + ops)
    ensures k.sched.Shaped()
    ensures var s := SleepKernel(SetStatus(k.sched, k.sched.current, SLEEPING), k.running, k.timers);
      Allowed(kind, s, ops) && Run(kind, k, [Sleep(0)] + ops) == Run(kind, s, ops)
  {
    assert ([Sleep(0)] + ops)[1..] == ops;
  }

  /** Creations and interrupts do not depend on the context that runs. */
  lemma {:induction false} RunningForgotten(kind: Kind, s: SleepKernel, mid: seq<Op>, op: Op, ops: seq<Op>)
    requires Allowed(kind, s, mid + [op] + ops) && (forall i :: 0 <= i < |mid| ==> Creates(mid[i])) && Preempts(op)
    ensures var all, i := mid + [op] + ops, s.(running := Idle);
      Allowed(kind, i, all) && Run(kind, i, all) == Run(kind, s, all)
    decreases |mid|
  {
    var all, i := mid + [op] + ops, s.(running := Idle);
    StepForgets(kind, s, all[0]);
    hide Step, Enabled, Sched.Shaped;
    if mid == [] {
      assert all[1..] == ops;
    } else {
      assert all[1..] == mid[1..] + [op] + ops;
      RunningForgotten(kind, Step(kind, s, mid[0]), mid[1..], op, ops);
    }
  }

  lemma StepForgets(kind: Kind, s: SleepKernel, op: Op)
    requires s.sched.Shaped() && Enabled(s, op) && (Creates(op) || Preempts(op))
    ensures var i := s.(running := Idle);
      && Enabled(i, op)
      && Step(kind, i, op) == if Preempts(op) then Step(kind, s, op) else Step(kind, s, op).(running := Idle)
  {
    hide CreateTask, Create, Sched.Shaped, ScheduleNext;
  }

  lemma StrandedSleeps(k: SleepKernel, c: nat)
    requires Stranded(k, c)
    ensures Asleep(k, c)
  {
  }

  lemma IdleStranded(k: SleepKernel, s: SleepKernel)
    requires Inv(k) && TaskRuns(k)
    requires s == SleepKernel(SetStatus(k.sched, k.sched.current, SLEEPING), Idle, k.timers)
    ensures Inv(s) && Stranded(s, k.sched.current)
  {
    KeptWakes(k.timers.queue, k.sched, s.sched, k.running);
  }

  // ---------- When a sleep can end ----------

  /** A timer interrupt whose callback creates nothing */
  const PLAIN_TICK := TimerInterrupt(Callback([], []))

  function TickRun(m: nat): seq<Op> { if m == 0 then [] else [PLAIN_TICK] + TickRun(m - 1) }

  lemma {:induction false} TicksAllowed(kind: Kind, k: SleepKernel, m: nat)
    requires Inv(k)
    ensures Allowed(kind, k, TickRun(m)) && Interrupts(TickRun(m)) == m
    decreases m
  {
    hide Inv, Enabled, Step, Sched.Shaped;
    if m == 0 {
    } else {
      PlainTick(kind, k);
      assert TickRun(m)[1..] == TickRun(m - 1);
      TicksAllowed(kind, Step(kind, k, PLAIN_TICK), m - 1);
    }
  }

  lemma PlainTick(kind: Kind, k: SleepKernel)
    requires Inv(k)
    ensures k.sched.Shaped() && Enabled(k, PLAIN_TICK) && Inv(Step(kind, k, PLAIN_TICK))
  {
    InvShaped(k);
    assert Enabled(k, PLAIN_TICK);
    hide Inv, Step;
    StepKeepsInv(kind, k, PLAIN_TICK);
  }

  lemma QueuedAt(k: SleepKernel, t: Timer) returns (i: nat)
    requires Queued(k.timers.queue, t)
    ensures At(k, i, t)
  {
    i :| 0 <= i < |k.timers.queue| && k.timers.queue[i].data == t;
  }

  lemma {:induction false} RunConcat(kind: Kind, k: SleepKernel, a: seq<Op>, b: seq<Op>)
    requires Allowed(kind, k, a) && Allowed(kind, Run(kind, k, a), b)
    ensures Allowed(kind, k, a + b) && Run(kind, k, a + b) == Run(kind, Run(kind, k, a), b)
    decreases |a|
  {
    hide Step, Enabled;
    if a == [] {
      assert a + b == b;
    } else {
      assert (a + b)[1..] == a[1..] + b;
      RunConcat(kind, Step(kind, k, a[0]), a[1..], b);
    }
  }

  /** The running task sleeps for n ticks, is preempted, and is no longer asleep after ops. */
  ghost predicate Ends(kind: Kind, k: SleepKernel, n: nat, ops: seq<Op>) {
    && Allowed(kind, k, [Sleep(n), SoftInterrupt] + ops)
    && !Asleep(Run(kind, k, [Sleep(n), SoftInterrupt] + ops), k.sched.current)
  }

  /** A sleep can end if and only if it is for more than 0 ticks. */
  lemma SleepEndsIff(kind: Kind, k: SleepKernel, n: nat)
    requires Inv(k) && TaskRuns(k)
    ensures (exists ops :: Ends(kind, k, n, ops)) <==> n > 0
  {
    hide Inv, Step, Enabled, Allowed, Run, Asleep, TaskRuns;
    if n > 0 {
      var ops := EndingRun(kind, k, n);
    } else if ops :| Ends(kind, k, n, ops) {
      assert [Sleep(0), SoftInterrupt] + ops == [Sleep(0)] + ([] + [SoftInterrupt] + ops);
      ZeroSleepLost(kind, k, [], SoftInterrupt, ops);
    }
  }

  /** The wake-up, queued behind i others at its wake tick, fires after n + i ticks. */
  lemma EndingRun(kind: Kind, k: SleepKernel, n: nat) returns (ops: seq<Op>)
    requires Inv(k) && TaskRuns(k) && n > 0
    ensures Ends(kind, k, n, ops)
  {
    var t := Timer(WAKE, k.sched.current, k.timers.ticks + n);
    var s := AfterSleep(kind, k, n);
    hide Inv, Step, Enabled, Allowed, Run, Asleep, TaskRuns, At, Queued, TickRun, Sched.Shaped;
    TicksAllowed(kind, s, n - 1);
    StaysAsleep(kind, s, TickRun(n - 1), t);
    var mid := Run(kind, s, TickRun(n - 1));
    RunKeepsInv(kind, s, TickRun(n - 1));
    var i := QueuedAt(mid, t);
    var last := AwakeAfter(kind, mid, i, t);
    ops := TickRun(n - 1) + (TickRun(i) + [PLAIN_TICK]);
    RunConcat(kind, s, TickRun(n - 1), TickRun(i) + [PLAIN_TICK]);
    RunConcat(kind, k, [Sleep(n), SoftInterrupt], ops);
  }

  lemma AfterSleep(kind: Kind, k: SleepKernel, n: nat) returns (s: SleepKernel)
    requires Inv(k) && TaskRuns(k) && n > 0
    ensures Allowed(kind, k, [Sleep(n), SoftInterrupt]) && s == Run(kind, k, [Sleep(n), SoftInterrupt]) && Inv(s)
    ensures Queued(s.timers.queue, Timer(WAKE, k.sched.current, k.timers.ticks + n)) && s.timers.ticks == k.timers.ticks
  {
    assert k.sched.Shaped() && Enabled(k, Sleep(n));
    hide Inv, Queued, Sched.Shaped, WakesOk, ScheduleNext, Create;
    StepKeepsInv(kind, k, Sleep(n));
    SleepQueuesWake(kind, k, n);
    var m := Step(kind, k, Sleep(n));
    InvShaped(m);
    StepKeepsInv(kind, m, SoftInterrupt);
    s := Step(kind, m, SoftInterrupt);
    assert [Sleep(n), SoftInterrupt][1..] == [SoftInterrupt] && [SoftInterrupt][1..] == [];
  }

  lemma InvShaped(k: SleepKernel)
    requires Inv(k)
    ensures k.sched.Shaped()
  {
  }

  lemma AwakeAfter(kind: Kind, k: SleepKernel, i: nat, t: Timer) returns (w: SleepKernel)
    requires Inv(k) && At(k, i, t) && t.func == WAKE && t.timeoutTick <= k.timers.ticks + 1
    ensures Allowed(kind, k, TickRun(i) + [PLAIN_TICK]) && w == Run(kind, k, TickRun(i) + [PLAIN_TICK])
    ensures t.arg >= 0 && !Asleep(w, t.arg)
  {
    hide Inv, Step, At;
    TicksAllowed(kind, k, i);
    var r := Run(kind, k, TickRun(i));
    RunKeepsInv(kind, k, TickRun(i));
    InvShaped(r);
    WakesAt(kind, k, TickRun(i), i, t, Callback([], []));
    w := Step(kind, r, PLAIN_TICK);
    OneStep(kind, r, PLAIN_TICK);
    RunConcat(kind, k, TickRun(i), [PLAIN_TICK]);
  }

  lemma OneStep(kind: Kind, k: SleepKernel, op: Op)
    requires k.sched.Shaped() && Enabled(k, op)
    ensures Allowed(kind, k, [op]) && Run(kind, k, [op]) == Step(kind, k, op)
  {
    hide Step, Enabled, Sched.Shaped;
    assert [op][1..] == [];
    var n := Step(kind, k, op);
    assert Allowed(kind, n, []) && Run(kind, n, []) == n;
  }
}
