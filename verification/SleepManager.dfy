/** The kernel variables behind sleeping and waking: the task table and the skip list of timers. */
module SleepManager {
  import opened TimerTheorems
  import opened PriorityScheduler
  import opened SleepScheduler
  import SleepSteps
  import SkipList
  import TimerService
  import TimerSpec

  class Manager {
    const tasks: Scheduler
    const timers: TimerService.SkipTimers
    ghost var running: Dispatch  // the context that switch_to last went to

    ghost function Model(): SleepKernel
      reads this, tasks, tasks.taskStatus, tasks.taskPrio, tasks.taskSlice, timers
    {
      SleepKernel(tasks.Model(), running, timers.history)
    }

    ghost predicate Valid()
      reads this, tasks, tasks.taskStatus, tasks.taskPrio, tasks.taskSlice
      reads timers, timers.queue, timers.queue.Owned()
    {
      tasks.Valid() && timers.Valid() && SleepScheduler.Inv(Model())
    }

    /** sched_init and timer_init */
    constructor ()
      ensures Valid() && Model() == START
    {
      hide SkipList.List.Valid, TimerSpec.RemoveAt, SkipList.List.Entries;
      StartInv();
      tasks := new Scheduler();
      timers := new TimerService.SkipTimers();
      running := Idle;
    }

    /** schedule: the next task is taken whatever the slices say. */
    method ScheduleTask()
      requires tasks.Valid()
      modifies this, tasks, tasks.taskStatus
      ensures tasks.Valid() && Model() == Switch(old(Model()))
      ensures SleepSteps.RunsFirstBehind(tasks.Model(), running, old(tasks.current))
    {
      ghost var m := tasks.Model();
      SleepSteps.SwitchRuns(Model());
      var next := tasks.FindNextTaskId();
      if next == -1 {
        running := Idle;
        return;
      }
      if tasks.current == -1 || tasks.taskStatus[tasks.current] == EXITED {
        tasks.used := 1;
      } else if tasks.taskPrio[next] < tasks.taskPrio[tasks.current]
                || (tasks.taskPrio[next] == tasks.taskPrio[tasks.current]
                    && tasks.taskSlice[tasks.current] <= tasks.used) {
        tasks.used := 1;
      } else {
        tasks.used := tasks.used + 1;
      }
      tasks.current := next;
      tasks.taskStatus[next] := RUNNING;
      running := Task(next);
      assert tasks.taskStatus[..] == m.status[next := RUNNING];
    }

    method SetTaskStatus(i: nat, st: Status)
      requires tasks.Valid() && i < MAX_TASKS
      modifies tasks.taskStatus
      ensures tasks.Valid() && tasks.Model() == SetStatus(old(tasks.Model()), i, st)
    {
      tasks.taskStatus[i] := st;
      assert tasks.taskStatus[..] == old(tasks.taskStatus[..])[i := st];
    }

    /** task_sleep and the software interrupt it raises */
    method TaskSleep(ticks: nat)
      requires Valid() && TaskRuns(Model())
      requires TimerService.InRange(timers.ticks, Request(WAKE, tasks.current, ticks))
      modifies this, tasks, tasks.taskStatus, timers, timers.queue, timers.queue.Owned()
      ensures Valid() && Leads(SkipQueue, old(Model()), Sleep(ticks), Model())
      ensures fresh(timers.queue.Owned() - old(timers.queue.Owned()))
    {
      ghost var m := Model();
      hide SleepScheduler.Inv, TimerTheorems.Inv, ScheduleNext, Enqueue, SkipList.List.Valid, TimerSpec.RemoveAt,
        SkipList.List.Entries;
      SetTaskStatus(tasks.current, SLEEPING);
      var ok := timers.TimerCreate(Request(WAKE, tasks.current, ticks));
      if ok {
        ScheduleTask();
      }
      LeadsKeepsInv(SkipQueue, m, Sleep(ticks), Model());
    }

    /** task_yield and task_exit, and the software interrupt they raise */
    method TaskLeaves(exit: bool)
      requires Valid() && TaskRuns(Model())
      modifies this, tasks, tasks.taskStatus
      ensures Valid()
      ensures Leads(SkipQueue, old(Model()), if exit then SleepScheduler.Op.Exit else SleepScheduler.Op.Yield, Model())
    {
      hide SleepScheduler.Inv, TimerTheorems.Inv, ScheduleNext, SkipList.List.Valid, TimerSpec.RemoveAt,
        SkipList.List.Entries;
      ghost var m := Model();
      SetTaskStatus(tasks.current, if exit then EXITED else READY);
      ScheduleTask();
      LeadsKeepsInv(SkipQueue, m, if exit then SleepScheduler.Op.Exit else SleepScheduler.Op.Yield, Model());
    }

    /** The task creations of a callback */
    method CallbackCreates(news: seq<(nat, nat)>)
      requires tasks.Valid() && forall i :: 0 <= i < |news| ==> news[i].0 <= LOWEST_PRIORITY
      modifies tasks.taskStatus, tasks.taskPrio, tasks.taskSlice
      ensures tasks.Valid() && tasks.Model() == CreateTasks(old(tasks.Model()), news)
    {
      ghost var m := tasks.Model();
      for i := 0 to |news|
        invariant tasks.Valid() && CreateTasks(m, news) == CreateTasks(tasks.Model(), news[i..])
      {
        hide CreateTask;
        var ret := tasks.TaskCreate(news[i].0, news[i].1);
        assert news[i..][1..] == news[i + 1..];
      }
    }

    /** timer_handler: one tick, at most one due timer, then schedule. */
    method TimerHandler(cb: Callback)
      requires Valid() && SleepScheduler.Enabled(Model(), TimerInterrupt(cb)) && timers.ticks < TimerService.TICK_LIMIT
      requires forall i :: 0 <= i < |cb.timers| ==> TimerService.InRange(timers.ticks + 1, cb.timers[i])
      modifies this, tasks, tasks.taskStatus, tasks.taskPrio, tasks.taskSlice
      modifies timers, timers.queue, timers.queue.Owned()
      ensures Valid() && Leads(SkipQueue, old(Model()), TimerInterrupt(cb), Model())
      ensures fresh(timers.queue.Owned() - old(timers.queue.Owned()))
    {
      ghost var m := Model();
      hide SleepScheduler.Inv, TimerTheorems.Inv, ScheduleNext, Ticked, SkipList.List.Valid, TimerSpec.RemoveAt,
        SkipList.List.Entries;
      timers.TickUp();
      TimerCheck(m, cb);
      ScheduleTask();
      LeadsKeepsInv(SkipQueue, m, TimerInterrupt(cb), Model());
    }

    /** skip_list_timer_check with task_wakeup as one of the callbacks */
    method TimerCheck(ghost m: SleepKernel, cb: Callback)
      requires tasks.Valid() && timers.Valid() && Fresh(timers.history) && SleepScheduler.Inv(m)
      requires Model() == m.(timers := m.timers.(ticks := m.timers.ticks + 1))
      requires SleepScheduler.Enabled(m, TimerInterrupt(cb))
      requires forall i :: 0 <= i < |cb.timers| ==> TimerService.InRange(timers.ticks, cb.timers[i])
      modifies tasks.taskStatus, tasks.taskPrio, tasks.taskSlice, timers`history, timers.queue, timers.queue.Owned()
      ensures tasks.Valid() && timers.Valid() && Model() == Ticked(SkipQueue, m, cb)
      ensures fresh(timers.queue.Owned() - old(timers.queue.Owned()))
    {
      hide SleepScheduler.Inv, TimerTheorems.Inv, ScheduleNext, CreateTasks, CreateAll, Fresh, SkipList.List.Valid,
        TimerSpec.RemoveAt, SkipList.List.Entries;
      var due := timers.IsHeadDue();
      if due {
        FireHead(m, cb);
      }
    }

    /** The due timer at the head is popped and its callback runs. */
    method FireHead(ghost m: SleepKernel, cb: Callback)
      requires tasks.Valid() && timers.Valid() && Fresh(timers.history) && SleepScheduler.Inv(m)
      requires Model() == m.(timers := m.timers.(ticks := m.timers.ticks + 1)) && HeadDue(timers.history)
      requires SleepScheduler.Enabled(m, TimerInterrupt(cb))
      requires forall i :: 0 <= i < |cb.timers| ==> TimerService.InRange(timers.ticks, cb.timers[i])
      modifies tasks.taskStatus, tasks.taskPrio, tasks.taskSlice, timers`history, timers.queue, timers.queue.Owned()
      ensures tasks.Valid() && timers.Valid() && Model() == Ticked(SkipQueue, m, cb)
      ensures fresh(timers.queue.Owned() - old(timers.queue.Owned()))
    {
      hide SleepScheduler.Inv, TimerTheorems.Inv, ScheduleNext, CreateTasks, Fresh, SkipList.List.Valid,
        TimerSpec.RemoveAt, SkipList.List.Entries, Sched.Shaped;
      HeadIsTask(m);
      var t := timers.PopHead();
      if t.func == WAKE {
        // task_wakeup
        SetTaskStatus(t.arg, READY);
      } else if t.func != 0 {
        RunOther(cb);
      }
    }

    /** A callback other than task_wakeup */
    method RunOther(cb: Callback)
      requires tasks.Valid() && timers.Valid()
      requires forall i :: 0 <= i < |cb.timers| ==> TimerService.InRange(timers.ticks, cb.timers[i])
      requires forall i :: 0 <= i < |cb.tasks| ==> cb.tasks[i].0 <= LOWEST_PRIORITY
      modifies tasks.taskStatus, tasks.taskPrio, tasks.taskSlice, timers`history, timers.queue, timers.queue.Owned()
      ensures tasks.Valid() && timers.Valid() && timers.ticks == old(timers.ticks)
      ensures timers.history == CreateAll(SkipQueue, old(timers.history), cb.timers)
      ensures tasks.Model() == CreateTasks(old(tasks.Model()), cb.tasks)
      ensures fresh(timers.queue.Owned() - old(timers.queue.Owned()))
    {
      hide TimerTheorems.Inv, CreateTasks, CreateAll, SkipList.List.Valid, TimerSpec.RemoveAt, SkipList.List.Entries,
        Sched.Shaped;
      timers.RunCallback(cb.timers);
      CallbackCreates(cb.tasks);
    }
  }
}
