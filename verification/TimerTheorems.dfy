/** The timer service over runs: creations, ticks, callbacks; for both queues. */
module TimerTheorems {
  import opened TimerSpec

  datatype Kind = ListQueue | SkipQueue

  /** Where a timer of timeout v goes. */
  function Place(kind: Kind, s: seq<Entry>, v: int): (i: nat)
    ensures i <= |s|
  {
    match kind
    case ListQueue => CountUpTo(s, v)
    case SkipQueue => CountLess(s, v)
  }

  function Enqueue(kind: Kind, s: seq<Entry>, e: Entry): seq<Entry> {
    match kind
    case ListQueue => InsertLast(s, e)
    case SkipQueue => InsertFirst(s, e)
  }

  /** The arguments of timer_create. */
  datatype Request = Request(func: int, arg: int, timeout: nat)

  datatype Firing = Firing(tick: nat, timer: Timer)

  /** The queue, the tick counter and, as history, what was created and what fired when. */
  datatype Service = Service(queue: seq<Entry>, ticks: nat, created: multiset<Timer>, fired: seq<Firing>)

  predicate Accepts(req: Request) { req.func != 0 && req.timeout != 0 }

  function NewTimer(ticks: nat, req: Request): Timer { Timer(req.func, req.arg, ticks + req.timeout) }

  /** timer_create; a NULL handler or a zero timeout changes nothing. */
  function Create(kind: Kind, s: Service, req: Request): Service {
    if !Accepts(req) then s
    else
      var t := NewTimer(s.ticks, req);
      s.(queue := Enqueue(kind, s.queue, Entry(t.timeoutTick, t)), created := s.created + multiset{t})
  }

  function CreateAll(kind: Kind, s: Service, reqs: seq<Request>): Service
    decreases |reqs|
  {
    if reqs == [] then s else CreateAll(kind, Create(kind, s, reqs[0]), reqs[1..])
  }

  predicate HeadDue(s: Service) {
    s.queue != [] && s.queue[0].data.timeoutTick <= s.ticks
  }

  /** timer_check: at most one due timer is popped and its callback makes the given creations. */
  function Check(kind: Kind, s: Service, callback: seq<Request>): Service {
    if !HeadDue(s) then s
    else
      var t := s.queue[0].data;
      var popped := Popped(s);
      if t.func != 0 then CreateAll(kind, popped, callback) else popped
  }

  /** timer_handler up to schedule() */
  function Tick(kind: Kind, s: Service, callback: seq<Request>): Service {
    Check(kind, s.(ticks := s.ticks + 1), callback)
  }

  datatype Event = Creation(req: Request) | TimerTick(callback: seq<Request>)

  function Step(kind: Kind, s: Service, e: Event): Service {
    match e
    case Creation(req) => Create(kind, s, req)
    case TimerTick(callback) => Tick(kind, s, callback)
  }

  function Run(kind: Kind, s: Service, es: seq<Event>): Service
    decreases |es|
  {
    if es == [] then s else Run(kind, Step(kind, s, es[0]), es[1..])
  }

  function Ticks(es: seq<Event>): nat {
    if es == [] then 0 else (if es[0].TimerTick? then 1 else 0) + Ticks(es[1..])
  }

  const NO_TIMERS := Service([], 0, multiset{}, [])

  // ---------- Queues stay sorted; both ways of inserting keep the contents ----------

  lemma InsertionSorted(kind: Kind, s: seq<Entry>, e: Entry)
    requires Sorted(s)
    ensures Sorted(Enqueue(kind, s, e))
  {
    var i := Place(kind, s, e.priority);
    var r := InsertAt(s, i, e);
    forall a, b | 0 <= a < b < |r| ensures r[a].priority <= r[b].priority {
      assert r[a] == if a < i then s[a] else if a == i then e else s[a - 1];
      assert r[b] == if b < i then s[b] else if b == i then e else s[b - 1];
    }
  }

  ghost function Timers(s: seq<Entry>): multiset<Timer> {
    if s == [] then multiset{} else multiset{s[0].data} + Timers(s[1..])
  }

  lemma {:induction false} TimersInsert(s: seq<Entry>, i: nat, e: Entry)
    requires i <= |s|
    ensures Timers(InsertAt(s, i, e)) == Timers(s) + multiset{e.data}
    decreases i
  {
    var r := InsertAt(s, i, e);
    if i == 0 {
      assert r[1..] == s;
    } else {
      assert r[1..] == InsertAt(s[1..], i - 1, e);
      TimersInsert(s[1..], i - 1, e);
    }
  }

  ghost function FiredTimers(f: seq<Firing>): multiset<Timer> {
    if f == [] then multiset{} else FiredTimers(f[..|f| - 1]) + multiset{f[|f| - 1].timer}
  }

  // ---------- The invariant of every run ----------

  /** Sorted, and every priority is the timeout of a timer with a handler. */
  ghost predicate QueueOk(q: seq<Entry>) {
    && Sorted(q)
    && forall i :: 0 <= i < |q| ==> q[i].priority == q[i].data.timeoutTick && q[i].data.func != 0
  }

  /** Nothing fired before its timeout; at most one timer per tick. */
  ghost predicate LogOk(fired: seq<Firing>, ticks: nat) {
    && (forall i :: 0 <= i < |fired| ==> fired[i].timer.timeoutTick <= fired[i].tick <= ticks)
    && (forall i, j :: 0 <= i < j < |fired| ==> fired[i].tick < fired[j].tick)
  }

  ghost predicate Inv(s: Service) {
    && QueueOk(s.queue)
    && LogOk(s.fired, s.ticks)
    // no timer is lost or doubled
    && s.created == Timers(s.queue) + FiredTimers(s.fired)
  }

  lemma EnqueueOk(kind: Kind, q: seq<Entry>, e: Entry)
    requires QueueOk(q) && e.priority == e.data.timeoutTick && e.data.func != 0
    ensures QueueOk(Enqueue(kind, q, e)) && Timers(Enqueue(kind, q, e)) == Timers(q) + multiset{e.data}
  {
    InsertionSorted(kind, q, e);
    var i := Place(kind, q, e.priority);
    TimersInsert(q, i, e);
    InsertAtIndex(q, i, e);
  }

  lemma CreateInv(kind: Kind, s: Service, req: Request)
    requires Inv(s)
    ensures Inv(Create(kind, s, req))
  {
    if Accepts(req) {
      var t := NewTimer(s.ticks, req);
      EnqueueOk(kind, s.queue, Entry(t.timeoutTick, t));
      hide QueueOk, LogOk, Enqueue, Timers, FiredTimers;
      var u := Create(kind, s, req);
      assert u.created == Timers(u.queue) + FiredTimers(u.fired);
    }
  }

  lemma {:induction false} CreateAllInv(kind: Kind, s: Service, reqs: seq<Request>)
    requires Inv(s)
    ensures Inv(CreateAll(kind, s, reqs))
    ensures CreateAll(kind, s, reqs).ticks == s.ticks && CreateAll(kind, s, reqs).fired == s.fired
    decreases |reqs|
  {
    if reqs == [] {
    } else {
      CreateInv(kind, s, reqs[0]);
      CreateAllInv(kind, Create(kind, s, reqs[0]), reqs[1..]);
    }
  }

  /** The service after the head was popped and logged. */
  function Popped(s: Service): Service
    requires s.queue != []
  {
    s.(queue := s.queue[1..], fired := s.fired + [Firing(s.ticks, s.queue[0].data)])
  }

  /** The last firing was at an earlier tick. */
  predicate Fresh(s: Service) { s.fired != [] ==> s.fired[|s.fired| - 1].tick < s.ticks }

  lemma PopInv(s: Service)
    requires Inv(s) && HeadDue(s) && Fresh(s)
    ensures Inv(Popped(s))
  {
    LogGrows(s.fired, s.ticks, s.queue[0].data);
    var f := s.fired + [Firing(s.ticks, s.queue[0].data)];
    assert f[..|f| - 1] == s.fired;
    assert QueueOk(s.queue[1..]);
  }

  lemma LogGrows(f: seq<Firing>, ticks: nat, t: Timer)
    requires LogOk(f, ticks) && (f != [] ==> f[|f| - 1].tick < ticks) && t.timeoutTick <= ticks
    ensures LogOk(f + [Firing(ticks, t)], ticks)
  {
    var g := f + [Firing(ticks, t)];
    forall i, j | 0 <= i < j < |g| ensures g[i].tick < g[j].tick {
      assert i < |f|;
      assert f[i].tick <= f[|f| - 1].tick;
    }
  }

  lemma NextTick(s: Service)
    requires Inv(s)
    ensures Inv(s.(ticks := s.ticks + 1)) && Fresh(s.(ticks := s.ticks + 1))
  {
  }

  lemma TickInv(kind: Kind, s: Service, callback: seq<Request>)
    requires Inv(s)
    ensures Inv(Tick(kind, s, callback)) && Tick(kind, s, callback).ticks == s.ticks + 1
  {
    hide Inv, LogOk;
    var t := s.(ticks := s.ticks + 1);
    NextTick(s);
    if HeadDue(t) {
      PopInv(t);
      CreateAllInv(kind, Popped(t), callback);
    }
  }

  /** Over every run, for both queues: no timer fires before its timeout tick, at most one fires per tick,
      and every timer created is either still queued or fired exactly once. */
  lemma {:induction false} EveryRunInv(kind: Kind, s: Service, es: seq<Event>)
    requires Inv(s)
    ensures Inv(Run(kind, s, es)) && Run(kind, s, es).ticks == s.ticks + Ticks(es)
    decreases |es|
  {
    if es == [] {
    } else {
      match es[0] {
        case Creation(req) => CreateInv(kind, s, req);
        case TimerTick(callback) => TickInv(kind, s, callback);
      }
      EveryRunInv(kind, Step(kind, s, es[0]), es[1..]);
    }
  }

  // ---------- What one creation and one tick do ----------

  /** The timers that requests at a tick ask for; those without a handler or a timeout ask for none. */
  ghost function Requested(ticks: nat, reqs: seq<Request>): multiset<Timer> {
    if reqs == [] then multiset{}
    else
      (if reqs[0].func != 0 && reqs[0].timeout != 0
       then multiset{Timer(reqs[0].func, reqs[0].arg, ticks + reqs[0].timeout)} else multiset{})
      + Requested(ticks, reqs[1..])
  }

  /** n is s with the timers new created and queued, and nothing else changed. */
  ghost predicate Gains(s: Service, n: Service, more: multiset<Timer>) {
    && n.created == s.created + more && Timers(n.queue) == Timers(s.queue) + more
    && n.fired == s.fired && n.ticks == s.ticks
  }

  lemma RequestedOne(ticks: nat, req: Request)
    ensures Requested(ticks, [req]) ==
      if req.func != 0 && req.timeout != 0 then multiset{Timer(req.func, req.arg, ticks + req.timeout)} else multiset{}
  {
    assert [req][1..] == [];
    assert Requested(ticks, []) == multiset{};
  }

  lemma RequestedFirst(ticks: nat, reqs: seq<Request>)
    requires reqs != []
    ensures Requested(ticks, reqs) == Requested(ticks, [reqs[0]]) + Requested(ticks, reqs[1..])
  {
    RequestedOne(ticks, reqs[0]);
  }

  lemma NoneRequested(ticks: nat)
    ensures Requested(ticks, []) == multiset{}
  {
  }

  lemma GainsTrans(s: Service, m: Service, n: Service, a: multiset<Timer>, b: multiset<Timer>)
    requires Gains(s, m, a) && Gains(m, n, b)
    ensures Gains(s, n, a + b)
  {
    hide Timers;
  }

  /** timer_create with a handler and a timeout queues exactly the timer asked for, due so many ticks from now;
      otherwise it changes nothing. */
  lemma CreateGains(kind: Kind, s: Service, req: Request)
    requires Inv(s)
    ensures Gains(s, Create(kind, s, req), Requested(s.ticks, [req]))
    ensures req.func == 0 || req.timeout == 0 ==> Create(kind, s, req) == s
  {
    RequestedOne(s.ticks, req);
    hide Requested, Timers, Enqueue, FiredTimers, LogOk, QueueOk;
    if Accepts(req) {
      var t := NewTimer(s.ticks, req);
      EnqueueOk(kind, s.queue, Entry(t.timeoutTick, t));
    }
  }

  lemma {:induction false} CreateAllGains(kind: Kind, s: Service, reqs: seq<Request>)
    requires Inv(s)
    ensures Gains(s, CreateAll(kind, s, reqs), Requested(s.ticks, reqs))
    decreases |reqs|
  {
    hide Inv, Create, Timers, Requested;
    if reqs == [] {
      NoneRequested(s.ticks);
    } else {
      RequestedFirst(s.ticks, reqs);
      CreateInv(kind, s, reqs[0]);
      CreateGains(kind, s, reqs[0]);
      var m := Create(kind, s, reqs[0]);
      CreateAllGains(kind, m, reqs[1..]);
      GainsTrans(s, m, CreateAll(kind, m, reqs[1..]), Requested(s.ticks, [reqs[0]]), Requested(s.ticks, reqs[1..]));
    }
  }

  /** A tick without a due timer counts and does nothing else. A tick at which the first timer is due fires it, and
      its callback creates exactly the timers it asks for, counted from that tick. */
  lemma TickGains(kind: Kind, s: Service, callback: seq<Request>)
    requires Inv(s)
    ensures var n := Tick(kind, s, callback); var now := s.ticks + 1;
      && Inv(n)
      && if s.queue == [] || now < s.queue[0].data.timeoutTick then n == s.(ticks := now)
         else
           var t := s.queue[0].data;
           Gains(s.(queue := s.queue[1..], ticks := now, fired := s.fired + [Firing(now, t)]), n,
                 Requested(now, callback))
  {
    var u := s.(ticks := s.ticks + 1);
    NextTick(s);
    TickInv(kind, s, callback);
    if HeadDue(u) {
      assert Tick(kind, s, callback) == CreateAll(kind, Popped(u), callback);
      hide Inv, CreateAll, Timers, Requested, Tick, Gains, Fresh;
      PopInv(u);
      CreateAllGains(kind, Popped(u), callback);
    }
  }

  /** Every timer a callback asks for is in the queue behind the tick. */
  lemma {:induction false} RequestedHas(ticks: nat, reqs: seq<Request>, i: nat)
    requires i < |reqs| && reqs[i].func != 0 && reqs[i].timeout != 0
    ensures Timer(reqs[i].func, reqs[i].arg, ticks + reqs[i].timeout) in Requested(ticks, reqs)
    decreases |reqs|
  {
    if i == 0 {
    } else {
      RequestedHas(ticks, reqs[1..], i - 1);
    }
  }

  lemma {:induction false} TimersIn(q: seq<Entry>, t: Timer)
    requires t in Timers(q)
    ensures exists i :: 0 <= i < |q| && q[i].data == t
    decreases |q|
  {
    if q[0].data == t {
    } else {
      TimersIn(q[1..], t);
      var i :| 0 <= i < |q[1..]| && q[1..][i].data == t;
      assert q[i + 1].data == t;
    }
  }

  /** A callback that sets a timer finds it in the queue behind the tick that fired it. */
  lemma CallbackQueues(kind: Kind, s: Service, callback: seq<Request>, i: nat)
    requires Inv(s) && s.queue != [] && s.queue[0].data.timeoutTick <= s.ticks + 1
    requires i < |callback| && callback[i].func != 0 && callback[i].timeout != 0
    ensures var q := Tick(kind, s, callback).queue;
      var t := Timer(callback[i].func, callback[i].arg, s.ticks + 1 + callback[i].timeout);
      exists j :: 0 <= j < |q| && q[j].data == t
  {
    TickGains(kind, s, callback);
    RequestedHas(s.ticks + 1, callback, i);
    var t := Timer(callback[i].func, callback[i].arg, s.ticks + 1 + callback[i].timeout);
    hide Inv, Tick, Timers, Requested;
    TimersIn(Tick(kind, s, callback).queue, t);
  }

  // ---------- Bounded response ----------

  /** The first n entries of both queues agree. */
  ghost predicate SamePrefix(q: seq<Entry>, r: seq<Entry>, n: nat) {
    n <= |q| && n <= |r| && q[..n] == r[..n]
  }

  /** A new timer goes behind every timer that is already due. */
  lemma CreateBehindDue(kind: Kind, s: Service, req: Request, n: nat)
    requires Inv(s) && n <= |s.queue| && (0 < n ==> s.queue[n - 1].priority <= s.ticks)
    ensures SamePrefix(s.queue, Create(kind, s, req).queue, n)
  {
    if Accepts(req) && 0 < n {
      var t := NewTimer(s.ticks, req);
      var i := Place(kind, s.queue, t.timeoutTick);
      if i < n { assert false; }
    }
  }

  lemma {:induction false} CreateAllBehindDue(kind: Kind, s: Service, reqs: seq<Request>, n: nat)
    requires Inv(s) && n <= |s.queue| && (0 < n ==> s.queue[n - 1].priority <= s.ticks)
    ensures SamePrefix(s.queue, CreateAll(kind, s, reqs).queue, n)
    decreases |reqs|
  {
    if reqs == [] {
    } else {
      CreateBehindDue(kind, s, reqs[0], n);
      CreateInv(kind, s, reqs[0]);
      var t := Create(kind, s, reqs[0]);
      assert 0 < n ==> t.queue[..n][n - 1] == s.queue[..n][n - 1];
      CreateAllBehindDue(kind, t, reqs[1..], n);
    }
  }

  /** A tick with n > 0 timers due at it fires the first and moves the others up. */
  lemma TickFiresHead(kind: Kind, s: Service, callback: seq<Request>, n: nat)
    requires Inv(s) && 0 < n <= |s.queue| && s.queue[n - 1].priority <= s.ticks + 1
    ensures var t := Tick(kind, s, callback);
      && t.fired == s.fired + [Firing(s.ticks + 1, s.queue[0].data)]
      && SamePrefix(s.queue[1..], t.queue, n - 1)
  {
    var u := s.(ticks := s.ticks + 1);
    assert s.queue[0].priority <= s.queue[n - 1].priority;
    assert HeadDue(u);
    NextTick(s);
    hide Inv;
    PopInv(u);
    CreateAllBehindDue(kind, Popped(u), callback, n - 1);
    CreateAllInv(kind, Popped(u), callback);
  }

  /** What fired stays in the log. */
  lemma {:induction false} FiredGrows(kind: Kind, s: Service, es: seq<Event>)
    requires Inv(s)
    ensures |s.fired| <= |Run(kind, s, es).fired| && Run(kind, s, es).fired[..|s.fired|] == s.fired
    decreases |es|
  {
    if es == [] {
    } else {
      var t := Step(kind, s, es[0]);
      EveryRunInv(kind, s, [es[0]]);
      StepFired(kind, s, es[0]);
      assert Run(kind, s, [es[0]]) == t;
      FiredGrows(kind, t, es[1..]);
      assert Run(kind, s, es).fired[..|s.fired|] == Run(kind, s, es).fired[..|t.fired|][..|s.fired|];
    }
  }

  lemma StepFired(kind: Kind, s: Service, e: Event)
    requires Inv(s)
    ensures |s.fired| <= |Step(kind, s, e).fired| && Step(kind, s, e).fired[..|s.fired|] == s.fired
  {
    hide Inv, Fresh, CreateAll, Enqueue;
    match e
    case Creation(req) =>
    case TimerTick(callback) =>
      var u := s.(ticks := s.ticks + 1);
      NextTick(s);
      if HeadDue(u) {
        PopInv(u);
        CreateAllInv(kind, Popped(u), callback);
      }
  }

  /** A timer already due with k timers ahead of it fires exactly k ticks after the next one,
      whatever tasks and callbacks create meanwhile. */
  lemma {:induction false} DueTimerFires(kind: Kind, s: Service, es: seq<Event>, k: nat)
    requires Inv(s) && k < |s.queue| && s.queue[k].priority <= s.ticks && k < Ticks(es)
    ensures |s.fired| + k < |Run(kind, s, es).fired|
    ensures Run(kind, s, es).fired[|s.fired| + k] == Firing(s.ticks + k + 1, s.queue[k].data)
    decreases |es|
  {
    var t := Step(kind, s, es[0]);
    hide Inv;
    match es[0] {
      case Creation(req) =>
        CreateInv(kind, s, req);
        CreateBehindDue(kind, s, req, k + 1);
        assert t.queue[..k + 1][k] == s.queue[..k + 1][k];
        DueTimerFires(kind, t, es[1..], k);
      case TimerTick(callback) =>
        TickFires(kind, s, es, k);
    }
  }

  /** The same from the tick at which the timer becomes due, with k timers ahead of it at that tick. */
  lemma {:induction false} TickFires(kind: Kind, s: Service, es: seq<Event>, k: nat)
    requires Inv(s) && k < |s.queue| && s.queue[k].priority <= s.ticks + 1 && k < Ticks(es) && es[0].TimerTick?
    ensures |s.fired| + k < |Run(kind, s, es).fired|
    ensures Run(kind, s, es).fired[|s.fired| + k] == Firing(s.ticks + k + 1, s.queue[k].data)
    decreases |es|, 0
  {
    var t := Step(kind, s, es[0]);
    hide Inv, Tick;
    TickInv(kind, s, es[0].callback);
    TickFiresHead(kind, s, es[0].callback, k + 1);
    if k == 0 {
      FiredGrows(kind, t, es[1..]);
      assert Run(kind, s, es).fired[..|t.fired|][|s.fired|] == t.fired[|s.fired|];
    } else {
      assert t.queue[..k][k - 1] == s.queue[1..][..k][k - 1];
      DueTimerFires(kind, t, es[1..], k - 1);
    }
  }

  // ---------- The two queues agree ----------

  /** Same tick, same timeouts queued, same timeouts fired at the same ticks. */
  ghost predicate Agree(l: Service, s: Service) {
    && l.ticks == s.ticks && |l.queue| == |s.queue| && |l.fired| == |s.fired|
    && (forall i :: 0 <= i < |l.queue| ==> l.queue[i].priority == s.queue[i].priority)
    && (forall i :: 0 <= i < |l.fired| ==>
          l.fired[i].tick == s.fired[i].tick && l.fired[i].timer.timeoutTick == s.fired[i].timer.timeoutTick)
  }

  lemma CreateAgrees(l: Service, s: Service, req: Request)
    requires Inv(l) && Inv(s) && Agree(l, s)
    ensures Agree(Create(ListQueue, l, req), Create(SkipQueue, s, req))
  {
    if Accepts(req) {
      var t := NewTimer(l.ticks, req);
      var v := t.timeoutTick;
      var i, j := CountUpTo(l.queue, v), CountLess(s.queue, v);
      InsertAtIndex(l.queue, i, Entry(v, t));
      InsertAtIndex(s.queue, j, Entry(v, t));
      if i < j { assert false; }
      forall k | j <= k < i ensures l.queue[k].priority == v {
        assert s.queue[j].priority <= s.queue[k].priority;
      }
    }
  }

  lemma {:induction false} CreateAllAgrees(l: Service, s: Service, reqs: seq<Request>)
    requires Inv(l) && Inv(s) && Agree(l, s)
    ensures Agree(CreateAll(ListQueue, l, reqs), CreateAll(SkipQueue, s, reqs))
    decreases |reqs|
  {
    if reqs == [] {
    } else {
      CreateAgrees(l, s, reqs[0]);
      CreateInv(ListQueue, l, reqs[0]);
      CreateInv(SkipQueue, s, reqs[0]);
      CreateAllAgrees(Create(ListQueue, l, reqs[0]), Create(SkipQueue, s, reqs[0]), reqs[1..]);
    }
  }

  lemma TickAgrees(l: Service, s: Service, callback: seq<Request>)
    requires Inv(l) && Inv(s) && Agree(l, s)
    ensures Agree(Tick(ListQueue, l, callback), Tick(SkipQueue, s, callback))
  {
    var u, t := l.(ticks := l.ticks + 1), s.(ticks := s.ticks + 1);
    NextTick(l);
    NextTick(s);
    CheckAgrees(u, t, callback);
  }

  lemma CheckAgrees(l: Service, s: Service, callback: seq<Request>)
    requires Inv(l) && Inv(s) && Agree(l, s) && Fresh(l) && Fresh(s)
    ensures Agree(Check(ListQueue, l, callback), Check(SkipQueue, s, callback))
  {
    if HeadDue(l) {
      PopAgrees(l, s);
      PopInv(l);
      PopInv(s);
      hide Inv, Agree;
      CreateAllAgrees(Popped(l), Popped(s), callback);
    } else {
      DueTogether(l, s);
    }
  }

  lemma DueTogether(l: Service, s: Service)
    requires Inv(l) && Inv(s) && Agree(l, s)
    ensures HeadDue(l) <==> HeadDue(s)
  {
  }

  lemma PopAgrees(l: Service, s: Service)
    requires Inv(l) && Inv(s) && Agree(l, s) && HeadDue(l)
    ensures HeadDue(s) && Agree(Popped(l), Popped(s)) && l.queue[0].data.func != 0 && s.queue[0].data.func != 0
  {
  }

  /** Fed the same events, the list and the skip list fire the same timeouts at the same ticks. */
  lemma {:induction false} QueuesAgree(l: Service, s: Service, es: seq<Event>)
    requires Inv(l) && Inv(s) && Agree(l, s)
    ensures Agree(Run(ListQueue, l, es), Run(SkipQueue, s, es))
    decreases |es|
  {
    if es == [] {
    } else {
      match es[0] {
        case Creation(req) =>
          CreateAgrees(l, s, req);
          CreateInv(ListQueue, l, req);
          CreateInv(SkipQueue, s, req);
        case TimerTick(callback) =>
          TickAgrees(l, s, callback);
          TickInv(ListQueue, l, callback);
          TickInv(SkipQueue, s, callback);
      }
      QueuesAgree(Step(ListQueue, l, es[0]), Step(SkipQueue, s, es[0]), es[1..]);
    }
  }
}
