/** timer_create, timer_check and timer_handler over each of the two queues. */
module TimerService {
  import opened TimerSpec
  import opened TimerTheorems
  import opened SkipLinks
  import SortedList
  import SkipList

  /** The greatest value of the tick counter */
  const TICK_LIMIT := 0xFFFF_FFFF

  /** The request's timeout tick does not wrap 32 bits. */
  predicate InRange(ticks: nat, req: Request) { ticks + req.timeout <= TICK_LIMIT }

  class ListTimers {
    const queue: SortedList.List
    var ticks: nat
    ghost var history: Service  // the service as a value

    ghost predicate Valid()
      reads this, queue, queue.Owned()
    {
      && queue.Valid()
      && history.queue == queue.Entries() && history.ticks == ticks && Inv(history)
    }

    /** list_timer_init */
    constructor ()
      ensures Valid() && history == NO_TIMERS && fresh(queue) && fresh(queue.Owned())
    {
      queue := new SortedList.List();
      ticks, history := 0, NO_TIMERS;
    }

    /** list_timer_create; the result tells whether a timer was created. */
    method TimerCreate(req: Request) returns (ok: bool)
      requires Valid() && InRange(ticks, req)
      modifies this`history, queue, queue.Owned()
      ensures Valid() && ticks == old(ticks) && ok == Accepts(req)
      ensures history == Create(ListQueue, old(history), req)
      ensures fresh(queue.Owned() - old(queue.Owned()))
    {
      if req.func == 0 || req.timeout == 0 {
        return false;
      }
      AddTimer(req);
      ok := true;
    }

    /** The part of list_timer_create behind the argument check. */
    method AddTimer(req: Request)
      requires Valid() && InRange(ticks, req) && Accepts(req)
      modifies this`history, queue, queue.Owned()
      ensures Valid() && ticks == old(ticks)
      ensures history == Create(ListQueue, old(history), req)
      ensures fresh(queue.Owned() - old(queue.Owned()))
    {
      hide Inv, InsertLast, SortedList.Linked, SortedList.List.Entries;
      CreateInv(ListQueue, history, req);
      var t := NewTimer(ticks, req);
      var node := new SortedList.ListNode(t.timeoutTick, t);
      queue.SortInsert(node);
      history := Create(ListQueue, history, req);
    }

    /** The creations a callback makes. */
    method RunCallback(callback: seq<Request>)
      requires Valid() && forall i :: 0 <= i < |callback| ==> InRange(ticks, callback[i])
      modifies this`history, queue, queue.Owned()
      ensures Valid() && ticks == old(ticks)
      ensures history == CreateAll(ListQueue, old(history), callback)
      ensures fresh(queue.Owned() - old(queue.Owned()))
    {
      hide Inv, Create, SortedList.Linked, SortedList.List.Entries;
      ghost var h := history;
      for i := 0 to |callback|
        invariant Valid() && ticks == old(ticks)
        invariant CreateAll(ListQueue, h, callback) == CreateAll(ListQueue, history, callback[i..])
        invariant fresh(queue.Owned() - old(queue.Owned()))
      {
        var ok := TimerCreate(callback[i]);
        assert callback[i..][1..] == callback[i + 1..];
      }
    }

    /** list_timer_check: pops and runs at most one due timer. */
    method TimerCheck(callback: seq<Request>)
      requires Valid() && Fresh(history) && forall i :: 0 <= i < |callback| ==> InRange(ticks, callback[i])
      modifies this`history, queue, queue.Owned()
      ensures Valid() && ticks == old(ticks)
      ensures history == Check(ListQueue, old(history), callback)
      ensures fresh(queue.Owned() - old(queue.Owned()))
    {
      hide Inv, Fresh, CreateAll, Popped, SortedList.Linked, SortedList.List.Entries;
      var due := IsHeadDue();
      if due {
        var t := PopHead();
        if t.func != 0 {
          RunCallback(callback);
        }
      }
    }

    /** Whether the first timer exists and is due. */
    method IsHeadDue() returns (due: bool)
      requires Valid()
      ensures due == HeadDue(history)
    {
      queue.FirstEntry();
      hide Inv, SortedList.Linked, SortedList.List.Entries;
      var node := queue.First();
      due := node != queue.tail && node.data.timeoutTick <= ticks;
    }

    /** Takes the head out of the queue; the result is its timer. */
    method PopHead() returns (t: Timer)
      requires Valid() && HeadDue(history) && Fresh(history)
      modifies this`history, queue, queue.Owned()
      ensures Valid() && ticks == old(ticks) && t == old(history.queue[0].data)
      ensures history == Popped(old(history))
      ensures queue.Owned() <= old(queue.Owned())
    {
      PopInv(history);
      queue.FirstEntry();
      hide Inv, SortedList.Linked, SortedList.List.Entries;
      var popped := queue.PopFront();
      history := Popped(history);
      t := popped.data;
    }

    /** timer_handler up to schedule() */
    method TimerHandler(callback: seq<Request>)
      requires Valid() && ticks < TICK_LIMIT && forall i :: 0 <= i < |callback| ==> InRange(ticks + 1, callback[i])
      modifies this`history, this`ticks, queue, queue.Owned()
      ensures Valid() && history == Tick(ListQueue, old(history), callback)
      ensures fresh(queue.Owned() - old(queue.Owned()))
    {
      hide Inv, Check, SortedList.Linked, SortedList.List.Entries;
      TickUp();
      TimerCheck(callback);
    }

    /** The tick counter goes up by one. */
    method TickUp()
      requires Valid() && ticks < TICK_LIMIT
      modifies this`history, this`ticks
      ensures Valid() && ticks == old(ticks) + 1
      ensures history == old(history).(ticks := old(ticks) + 1) && Fresh(history)
    {
      hide Inv, SortedList.Linked, SortedList.List.Entries;
      NextTick(history);
      ticks := ticks + 1;
      history := history.(ticks := ticks);
    }
  }

  class SkipTimers {
    const queue: SkipList.List
    var ticks: nat
    ghost var history: Service  // the service as a value

    ghost predicate Valid()
      reads this, queue, queue.Owned()
    {
      && queue.Valid()
      && history.queue == queue.Entries() && history.ticks == ticks && Inv(history)
    }

    /** skip_list_timer_init */
    constructor ()
      ensures Valid() && history == NO_TIMERS && fresh(queue) && fresh(queue.Owned())
    {
      hide SkipList.List.Valid, RemoveAt, SkipList.List.Entries;
      queue := new SkipList.List();
      ticks, history := 0, NO_TIMERS;
    }

    /** skip_list_timer_create; the result tells whether a timer was created. */
    method TimerCreate(req: Request) returns (ok: bool)
      requires Valid() && InRange(ticks, req)
      modifies this`history, queue, queue.Owned()
      ensures Valid() && ticks == old(ticks) && ok == Accepts(req)
      ensures history == Create(SkipQueue, old(history), req)
      ensures fresh(queue.Owned() - old(queue.Owned()))
    {
      if req.func == 0 || req.timeout == 0 {
        return false;
      }
      AddTimer(req);
      ok := true;
    }

    /** The part of skip_list_timer_create behind the argument check. */
    method AddTimer(req: Request)
      requires Valid() && InRange(ticks, req) && Accepts(req)
      modifies this`history, queue, queue.Owned()
      ensures Valid() && ticks == old(ticks)
      ensures history == Create(SkipQueue, old(history), req)
      ensures fresh(queue.Owned() - old(queue.Owned()))
    {
      hide Inv, InsertFirst, SkipList.List.Valid, RemoveAt, SkipList.List.Entries;
      CreateInv(SkipQueue, history, req);
      var t := NewTimer(ticks, req);
      var newLevel := RandomLevel();
      ghost var node := queue.InsertEntry(t.timeoutTick, t, newLevel);
      history := Create(SkipQueue, history, req);
    }

    /** random_level: any level up to MAX_LEVEL. */
    method RandomLevel() returns (l: nat)
      ensures l <= MAX_LEVEL
    {
      l :| l <= MAX_LEVEL;
    }

    /** The creations a callback makes. */
    method RunCallback(callback: seq<Request>)
      requires Valid() && forall i :: 0 <= i < |callback| ==> InRange(ticks, callback[i])
      modifies this`history, queue, queue.Owned()
      ensures Valid() && ticks == old(ticks)
      ensures history == CreateAll(SkipQueue, old(history), callback)
      ensures fresh(queue.Owned() - old(queue.Owned()))
    {
      hide Inv, Create, SkipList.List.Valid, RemoveAt, SkipList.List.Entries;
      ghost var h := history;
      for i := 0 to |callback|
        invariant Valid() && ticks == old(ticks)
        invariant CreateAll(SkipQueue, h, callback) == CreateAll(SkipQueue, history, callback[i..])
        invariant fresh(queue.Owned() - old(queue.Owned()))
      {
        var ok := TimerCreate(callback[i]);
        assert callback[i..][1..] == callback[i + 1..];
      }
    }

    /** skip_list_timer_check: pops and runs at most one due timer. */
    method TimerCheck(callback: seq<Request>)
      requires Valid() && Fresh(history) && forall i :: 0 <= i < |callback| ==> InRange(ticks, callback[i])
      modifies this`history, queue, queue.Owned()
      ensures Valid() && ticks == old(ticks)
      ensures history == Check(SkipQueue, old(history), callback)
      ensures fresh(queue.Owned() - old(queue.Owned()))
    {
      hide Inv, Fresh, CreateAll, Popped, SkipList.List.Valid, RemoveAt, SkipList.List.Entries;
      var due := IsHeadDue();
      if due {
        var t := PopHead();
        if t.func != 0 {
          RunCallback(callback);
        }
      }
    }

    /** Whether the first timer exists and is due. */
    method IsHeadDue() returns (due: bool)
      requires Valid()
      ensures due == HeadDue(history)
    {
      queue.FirstNode();
      hide Inv, SkipList.List.Valid, RemoveAt, SkipList.List.Entries;
      var node := queue.First();
      due := node != queue.tail && node.data.timeoutTick <= ticks;
    }

    /** Takes the head out of the queue; the result is its timer. */
    method PopHead() returns (t: Timer)
      requires Valid() && HeadDue(history) && Fresh(history)
      modifies this`history, queue, queue.Owned()
      ensures Valid() && ticks == old(ticks) && t == old(history.queue[0].data)
      ensures history == Popped(old(history))
      ensures queue.Owned() <= old(queue.Owned())
    {
      hide Inv, Fresh, SkipList.List.Valid, RemoveAt, SkipList.List.Entries;
      queue.FirstNode();
      PopInv(history);
      var popped := queue.PopFront();
      history := Popped(history);
      t := popped.data;
    }

    /** timer_handler up to schedule() */
    method TimerHandler(callback: seq<Request>)
      requires Valid() && ticks < TICK_LIMIT && forall i :: 0 <= i < |callback| ==> InRange(ticks + 1, callback[i])
      modifies this`history, this`ticks, queue, queue.Owned()
      ensures Valid() && history == Tick(SkipQueue, old(history), callback)
      ensures fresh(queue.Owned() - old(queue.Owned()))
    {
      hide Inv, Check, SkipList.List.Valid, RemoveAt, SkipList.List.Entries;
      TickUp();
      TimerCheck(callback);
    }

    /** The tick counter goes up by one. */
    method TickUp()
      requires Valid() && ticks < TICK_LIMIT
      modifies this`history, this`ticks
      ensures Valid() && ticks == old(ticks) + 1
      ensures history == old(history).(ticks := old(ticks) + 1) && Fresh(history)
    {
      hide Inv, SkipList.List.Valid, RemoveAt, SkipList.List.Entries;
      NextTick(history);
      ticks := ticks + 1;
      history := history.(ticks := ticks);
    }
  }
}
