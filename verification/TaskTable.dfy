/** The task table in statuses, priorities and slices: what creation, yield, exit and a reschedule write. */
module TaskTable {
  import opened PriorityScheduler

  // ---------- sched_init and task_create ----------

  /** After sched_init no slot holds a task, and schedule idles without touching anything. */
  lemma InitIdles()
    ensures var s := InitSched();
      && s.Ok() && s.current == -1 && Schedule(s) == (s, Idle)
      && forall i :: 0 <= i < MAX_TASKS ==> s.status[i] == EMPTY && s.prio[i] == 0xFF && s.slice[i] == 0
  {
    NextTaskIff(InitSched());
  }

  /** Slot i holds no task or one that has exited, and no lower slot does. */
  ghost predicate LowestOpen(s: Sched, i: nat)
    requires s.Shaped()
  {
    && i < MAX_TASKS && (s.status[i] == EMPTY || s.status[i] == EXITED)
    && forall j :: 0 <= j < i ==> s.status[j] != EMPTY && s.status[j] != EXITED
  }

  /** task_create returns -1 and changes nothing if and only if every slot holds a task that has not exited.
      Otherwise it returns 0 and makes the lowest other slot READY with the priority and slice given. */
  lemma TaskCreated(s: Sched, prio: nat, slice: nat)
    requires s.Shaped() && prio <= LOWEST_PRIORITY
    ensures var (t, ret) := CreateTask(s, prio, slice);
      && t.Shaped()
      && (ret == -1 <==> forall i :: 0 <= i < MAX_TASKS ==> s.status[i] != EMPTY && s.status[i] != EXITED)
      && (ret == -1 ==> t == s)
      && (ret != -1 ==> ret == 0)
      && forall i: nat :: LowestOpen(s, i) ==>
           t == s.(status := s.status[i := READY], prio := s.prio[i := prio], slice := s.slice[i := slice])
  {
  }

  // ---------- What a step leaves in the table ----------

  /** What the running task writes into its own slot before the reschedule. */
  function OwnStatus(s: Sched, op: Op, i: nat): Status
    requires i < |s.status|
  {
    if i == s.current && op.Yield? then READY else if i == s.current && op.Exit? then EXITED else s.status[i]
  }

  /** A yield or an exit marks the slot of the running task READY or EXITED, and a reschedule marks the slot it
      dispatches RUNNING; no other slot and no priority or slice changes. */
  lemma StepWrites(k: Kernel, op: Op, i: nat)
    requires Inv(k) && Enabled(k, op) && !op.AddTask? && i < MAX_TASKS
    ensures var n := Step(k, op);
      && n.sched.Shaped() && n.sched.prio == k.sched.prio && n.sched.slice == k.sched.slice
      && n.sched.status[i] == (if n.running == Task(i) then RUNNING else OwnStatus(k.sched, op, i))
      && (n.running.Task? ==> n.sched.current == n.running.id)
      && (n.running.Idle? ==> n.sched.current == k.sched.current)
  {
    match op
    case Interrupt => Writes(k.sched, i);
    case Yield => Writes(SetCurrent(k.sched, READY), i);
    case Exit => Writes(SetCurrent(k.sched, EXITED), i);
  }

  lemma Writes(s: Sched, i: nat)
    requires s.Ok() && i < MAX_TASKS
    ensures var (t, d) := Schedule(s);
      && t.Shaped() && t.prio == s.prio && t.slice == s.slice
      && t.status[i] == (if d == Task(i) then RUNNING else s.status[i])
      && (if d.Task? then t.current == d.id else t.current == s.current)
  {
    ScheduleDispatchesLeast(s);
  }

  /** A creation leaves the running context, the current task and its counter alone. */
  lemma CreationKeepsRunning(k: Kernel, prio: nat, slice: nat)
    requires Inv(k) && prio <= LOWEST_PRIORITY
    ensures var n := Step(k, AddTask(prio, slice));
      && n == k.(sched := CreateTask(k.sched, prio, slice).0)
      && n.sched.current == k.sched.current && n.sched.used == k.sched.used
  {
  }
}
