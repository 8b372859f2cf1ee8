/** What each step of the sleeping scheduler leaves running, in the task table and in the timer queue. */
module SleepSteps {
  import opened TimerSpec
  import opened TimerTheorems
  import opened PriorityScheduler
  import opened SleepScheduler
  import S = SleepScheduler
  import opened TaskTable

  // ---------- What runs behind a step ----------

  /** The steps that end in a reschedule. */
  predicate Reschedules(op: S.Op) {
    op.SoftInterrupt? || op.TimerInterrupt? || op.Yield? || op.Exit? || (op.Sleep? && op.ticks > 0)
  }

  /** How far slot i is behind slot c in cyclic order; c itself comes last. */
  function Behind(c: int, i: nat): int { if i > c then i - c else i - c + MAX_TASKS }

  /** The context that runs over the table s, when the task current before was c: idle exactly when nothing is
      schedulable, otherwise the first of the tasks of least priority number behind c. */
  ghost predicate RunsFirstBehind(s: Sched, running: Dispatch, c: int)
    requires s.Shaped()
  {
    && (running.Idle? <==> forall i :: 0 <= i < MAX_TASKS ==> !s.Schedulable(i))
    && (running.Idle? ==> s.current == c)
    && (running.Task? ==>
          && running.id < MAX_TASKS && s.current == running.id && s.status[running.id] == RUNNING
          && (forall i :: 0 <= i < MAX_TASKS && s.Schedulable(i) ==> s.prio[running.id] <= s.prio[i])
          && (forall i :: 0 <= i < MAX_TASKS && s.Schedulable(i) && s.prio[i] == s.prio[running.id] ==>
                Behind(c, running.id) <= Behind(c, i)))
  }

  lemma SwitchRuns(k: SleepKernel)
    requires k.sched.Shaped()
    ensures var n := Switch(k);
      n.sched.Shaped() && SameTasks(k.sched, n.sched) && RunsFirstBehind(n.sched, n.running, k.sched.current)
  {
    var s := k.sched;
    var n := Switch(k);
    NextTaskIff(s);
    hide Sched.Top;
    if s.NextTask() != -1 {
      var c := s.NextTask();
      CandidateIff(s, c);
      assert SameTasks(s, n.sched);
      forall i | 0 <= i < MAX_TASKS && n.sched.Schedulable(i) && n.sched.prio[i] == n.sched.prio[c]
        ensures Behind(s.current, c) <= Behind(s.current, i)
      {
        assert s.Candidate(i);
      }
    }
  }

  /** The state in which a step reschedules. */
  lemma StepSwitches(kind: Kind, k: SleepKernel, op: S.Op) returns (x: SleepKernel)
    requires k.sched.Shaped() && S.Enabled(k, op) && Reschedules(op)
    ensures x.sched.Shaped() && x.sched.current == k.sched.current && S.Step(kind, k, op) == Switch(x)
    ensures forall i :: 0 <= i < MAX_TASKS ==> SlotOf(x.sched, i) == Written(k, op, i)
  {
    hide Switch, Tick, Create, Written;
    match op
    case Sleep(ticks) =>
      x := Slept(kind, k, ticks);
      OwnWritten(k, op, SLEEPING);
    case Yield =>
      x := k.(sched := SetStatus(k.sched, k.sched.current, READY));
      OwnWritten(k, op, READY);
    case Exit =>
      x := k.(sched := SetStatus(k.sched, k.sched.current, EXITED));
      OwnWritten(k, op, EXITED);
    case SoftInterrupt =>
      x := k;
      NothingWritten(k, op);
    case TimerInterrupt(cb) =>
      x := Ticked(kind, k, cb);
      CallbackWritten(k, cb);
  }

  /** Every interrupt, yield, exit and sleep of more than 0 ticks switches to the first task of least priority number
      behind the current one, or to the idle context when nothing is schedulable. */
  lemma StepRuns(kind: Kind, k: SleepKernel, op: S.Op)
    requires S.Inv(k) && S.Enabled(k, op) && Reschedules(op)
    ensures var n := S.Step(kind, k, op);
      n.sched.Shaped() && RunsFirstBehind(n.sched, n.running, k.sched.current)
  {
    InvShaped(k);
    hide S.Inv, S.Step, Switch, RunsFirstBehind, S.Enabled, Written, Sched.Shaped;
    var x := StepSwitches(kind, k, op);
    SwitchRuns(x);
  }

  /** Any other step leaves the running context and the current task alone. */
  lemma StepKeepsRunning(kind: Kind, k: SleepKernel, op: S.Op)
    requires S.Inv(k) && S.Enabled(k, op) && !Reschedules(op)
    ensures var n := S.Step(kind, k, op); n.running == k.running && n.sched.current == k.sched.current
  {
  }

  // ---------- What a step writes into the task table ----------

  datatype Slot = Slot(status: Status, prio: nat, slice: nat)

  function SlotOf(s: Sched, i: nat): Slot
    requires s.Shaped() && i < MAX_TASKS
  {
    Slot(s.status[i], s.prio[i], s.slice[i])
  }

  /** The slot holds no task or one that has exited. */
  predicate Open(s: Sched, i: nat)
    requires i < |s.status|
  {
    s.status[i] == EMPTY || s.status[i] == EXITED
  }

  function OpenBelow(s: Sched, i: nat): nat
    requires i <= |s.status|
  {
    if i == 0 then 0 else OpenBelow(s, i - 1) + if Open(s, i - 1) then 1 else 0
  }

  /** Slot i after creations in a row: the j-th task goes to the j-th open slot, as long as there are any. */
  function Filled(s: Sched, tasks: seq<(nat, nat)>, i: nat): Slot
    requires s.Shaped() && i < MAX_TASKS
  {
    if Open(s, i) && OpenBelow(s, i) < |tasks| then
      var t := tasks[OpenBelow(s, i)];
      Slot(READY, t.0, t.1)
    else SlotOf(s, i)
  }

  /** Slot i behind a step, but for the mark of the task that a reschedule dispatches. */
  function Written(k: SleepKernel, op: S.Op, i: nat): Slot
    requires k.sched.Shaped() && i < MAX_TASKS
  {
    var was := SlotOf(k.sched, i);
    match op
    case AddTask(prio, slice) => Filled(k.sched, [(prio, slice)], i)
    case AddTimer(req) => was
    case Sleep(ticks) => if i == k.sched.current then was.(status := SLEEPING) else was
    case Yield => if i == k.sched.current then was.(status := READY) else was
    case Exit => if i == k.sched.current then was.(status := EXITED) else was
    case SoftInterrupt => was
    case TimerInterrupt(cb) =>
      var q := k.timers.queue;
      if q == [] || k.timers.ticks + 1 < q[0].data.timeoutTick then was
      else if q[0].data.func != WAKE then Filled(k.sched, cb.tasks, i)
      else if i == q[0].data.arg then was.(status := READY)
      else was
  }

  lemma OwnWritten(k: SleepKernel, op: S.Op, st: Status)
    requires k.sched.Shaped() && TaskRuns(k)
    requires (op.Sleep? && st == SLEEPING) || (op.Yield? && st == READY) || (op.Exit? && st == EXITED)
    ensures forall i :: 0 <= i < MAX_TASKS ==>
      SlotOf(SetStatus(k.sched, k.sched.current, st), i) == Written(k, op, i)
  {
  }

  lemma NothingWritten(k: SleepKernel, op: S.Op)
    requires k.sched.Shaped() && op.SoftInterrupt?
    ensures forall i :: 0 <= i < MAX_TASKS ==> SlotOf(k.sched, i) == Written(k, op, i)
  {
  }

  lemma CallbackWritten(k: SleepKernel, cb: Callback)
    requires k.sched.Shaped() && S.Enabled(k, TimerInterrupt(cb))
    ensures CallbackTasks(k, cb).current == k.sched.current
    ensures forall i :: 0 <= i < MAX_TASKS ==> SlotOf(CallbackTasks(k, cb), i) == Written(k, TimerInterrupt(cb), i)
  {
    forall i | 0 <= i < MAX_TASKS ensures SlotOf(CallbackTasks(k, cb), i) == Written(k, TimerInterrupt(cb), i) {
      TasksFill(k.sched, cb.tasks, i);
      hide CreateTasks, Filled;
    }
  }

  lemma {:induction false} OpenSame(s: Sched, t: Sched, i: nat)
    requires i <= |s.status| == |t.status| && forall j :: 0 <= j < i ==> Open(s, j) == Open(t, j)
    ensures OpenBelow(s, i) == OpenBelow(t, i)
    decreases i
  {
    if i == 0 {
    } else {
      OpenSame(s, t, i - 1);
    }
  }

  /** Filling the lowest open slot j leaves one open slot less below every slot behind it. */
  lemma {:induction false} OneFewer(s: Sched, t: Sched, j: nat, i: nat)
    requires j < i <= |s.status| == |t.status| && Open(s, j) && !Open(t, j)
    requires forall l :: 0 <= l < i && l != j ==> Open(s, l) == Open(t, l)
    ensures OpenBelow(s, i) == OpenBelow(t, i) + 1
    decreases i
  {
    if i == j + 1 {
      OpenSame(s, t, j);
    } else {
      OneFewer(s, t, j, i - 1);
    }
  }

  lemma {:induction false} NoneOpen(s: Sched, i: nat)
    requires i <= |s.status| && forall j :: 0 <= j < i ==> !Open(s, j)
    ensures OpenBelow(s, i) == 0
    decreases i
  {
    if i == 0 {
    } else {
      NoneOpen(s, i - 1);
    }
  }

  /** One creation and what it leaves of the open slots. */
  lemma CreationFills(s: Sched, prio: nat, slice: nat, i: nat)
    requires s.Shaped() && prio <= LOWEST_PRIORITY && i < MAX_TASKS
    ensures var t := CreateTask(s, prio, slice).0;
      && t.Shaped()
      && SlotOf(t, i) == (if Open(s, i) && OpenBelow(s, i) == 0 then Slot(READY, prio, slice) else SlotOf(s, i))
      && (Open(t, i) ==> OpenBelow(t, i) + 1 == OpenBelow(s, i))
  {
    TaskCreated(s, prio, slice);
    var j, t := FreeSlot(s, 0), CreateTask(s, prio, slice).0;
    assert j != -1 ==> LowestOpen(s, j);
    hide OpenBelow, CreateTask, FreeSlot;
    if j == -1 {
    } else if i <= j {
      NoneOpen(s, i);
    } else {
      OneFewer(s, t, j, i);
    }
  }

  /** Creations in a row fill the open slots from the lowest one on, in order. */
  lemma {:induction false} TasksFill(s: Sched, tasks: seq<(nat, nat)>, i: nat)
    requires s.Shaped() && i < MAX_TASKS && forall j :: 0 <= j < |tasks| ==> tasks[j].0 <= LOWEST_PRIORITY
    ensures SlotOf(CreateTasks(s, tasks), i) == Filled(s, tasks, i)
    decreases |tasks|
  {
    if tasks == [] {
    } else {
      CreationFills(s, tasks[0].0, tasks[0].1, i);
      hide CreateTask, OpenBelow;
      TasksFill(CreateTask(s, tasks[0].0, tasks[0].1).0, tasks[1..], i);
    }
  }

  /** Every step writes exactly what the source writes into each slot; a reschedule marks the dispatched one. */
  lemma StepWrites(kind: Kind, k: SleepKernel, op: S.Op, i: nat)
    requires S.Inv(k) && S.Enabled(k, op) && i < MAX_TASKS
    ensures var n := S.Step(kind, k, op);
      && n.sched.Shaped()
      && SlotOf(n.sched, i) ==
           if Reschedules(op) && n.running == Task(i) then Written(k, op, i).(status := RUNNING) else Written(k, op, i)
  {
    InvShaped(k);
    if Reschedules(op) {
      hide S.Inv, S.Step, Switch, S.Enabled, Written, Sched.Shaped;
      var x := StepSwitches(kind, k, op);
      SwitchWrites(x, i);
    } else if op.AddTask? {
      CreationFills(k.sched, op.prio, op.slice, i);
      hide OpenBelow, CreateTask;
    } else {
      hide Create;
    }
  }

  lemma SwitchWrites(x: SleepKernel, i: nat)
    requires x.sched.Shaped() && i < MAX_TASKS
    ensures var n := Switch(x);
      && n.sched.Shaped()
      && SlotOf(n.sched, i) ==
           if n.running == Task(i) then SlotOf(x.sched, i).(status := RUNNING) else SlotOf(x.sched, i)
  {
    DispatchesLeast(x.sched);
  }

  // ---------- What a step does to the timers ----------

  /** The first timer is due at the next tick. */
  predicate FiresNext(s: Service) { s.queue != [] && s.queue[0].data.timeoutTick <= s.ticks + 1 }

  /** The timers at the next tick, when the due one has fired and its callback has not run yet. */
  function Counted(s: Service): Service {
    if !FiresNext(s) then s.(ticks := s.ticks + 1)
    else
      s.(queue := s.queue[1..], ticks := s.ticks + 1, fired := s.fired + [Firing(s.ticks + 1, s.queue[0].data)])
  }

  /** The timers that a step asks for. */
  ghost function Asked(k: SleepKernel, op: S.Op): multiset<Timer> {
    match op
    case AddTimer(req) => Requested(k.timers.ticks, [req])
    case Sleep(ticks) => Requested(k.timers.ticks, [Request(WAKE, k.sched.current, ticks)])
    case TimerInterrupt(cb) =>
      if FiresNext(k.timers) && k.timers.queue[0].data.func != WAKE then Requested(k.timers.ticks + 1, cb.timers)
      else multiset{}
    case _ => multiset{}
  }

  /** A timer interrupt counts the tick and fires the first timer when that is due. Every step queues exactly the
      timers it asks for: a creation, a sleep its wake-up, a timer interrupt those of the callback it runs. */
  lemma StepTimers(kind: Kind, k: SleepKernel, op: S.Op)
    requires S.Inv(k) && S.Enabled(k, op)
    ensures k.sched.Shaped()
    ensures var n := S.Step(kind, k, op).timers; var s := if op.TimerInterrupt? then Counted(k.timers) else k.timers;
      && Gains(s, n, Asked(k, op))
      && ((op.TimerInterrupt? && !FiresNext(k.timers)) || op.AddTask? || op.SoftInterrupt? || op.Yield? || op.Exit? ==>
            n == s)
  {
    InvShaped(k);
    assert TimerTheorems.Inv(k.timers);
    TimersOf(kind, k, op);
    GainsNothing(k.timers);
    hide S.Inv, S.Step, S.Enabled, TimerTheorems.Inv, Tick, Create, Requested, CallbackTimers, Sched.Shaped, Gains,
      Counted, FiresNext;
    match op
    case AddTask(prio, slice) =>
    case AddTimer(req) => CreateGains(kind, k.timers, req);
    case Sleep(ticks) => CreateGains(kind, k.timers, Request(WAKE, k.sched.current, ticks));
    case Yield =>
    case Exit =>
    case SoftInterrupt =>
    case TimerInterrupt(cb) => TickTimers(kind, k, cb);
  }

  lemma GainsNothing(s: Service)
    ensures Gains(s, s, multiset{})
  {
  }

  lemma TimersOf(kind: Kind, k: SleepKernel, op: S.Op)
    requires S.Inv(k) && S.Enabled(k, op)
    ensures k.sched.Shaped()
    ensures var n := S.Step(kind, k, op).timers;
      match op
      case AddTimer(req) => n == Create(kind, k.timers, req)
      case Sleep(ticks) => n == Create(kind, k.timers, Request(WAKE, k.sched.current, ticks))
      case TimerInterrupt(cb) => n == Tick(kind, k.timers, CallbackTimers(k, cb))
      case _ => n == k.timers
  {
    hide TimerTheorems.Inv, WakesOk, Tick, Create, ScheduleNext, CallbackTasks, CallbackTimers, CreateTask;
    if op.TimerInterrupt? { TickedTimers(kind, k, op.callback); }
  }

  lemma TickTimers(kind: Kind, k: SleepKernel, cb: Callback)
    requires TimerTheorems.Inv(k.timers)
    ensures var n := Tick(kind, k.timers, CallbackTimers(k, cb));
      Gains(Counted(k.timers), n, Asked(k, TimerInterrupt(cb))) && (!FiresNext(k.timers) ==> n == Counted(k.timers))
  {
    hide TimerTheorems.Inv, Tick, Requested, Gains, Counted, DueNext, FiresNext;
    TickCounted(kind, k.timers, CallbackTimers(k, cb));
    DueIsFires(k.timers);
    NoneRequested(k.timers.ticks + 1);
  }

  lemma TickCounted(kind: Kind, s: Service, callback: seq<Request>)
    requires TimerTheorems.Inv(s)
    ensures var n := Tick(kind, s, callback);
      if FiresNext(s) then Gains(Counted(s), n, Requested(s.ticks + 1, callback))
      else n == Counted(s) && Gains(s, s, multiset{}) && Gains(Counted(s), n, multiset{})
  {
    TickGains(kind, s, callback);
  }

  lemma DueIsFires(s: Service)
    ensures DueNext(s) <==> FiresNext(s)
    ensures FiresNext(s) ==> s.queue != []
  {
  }
}
