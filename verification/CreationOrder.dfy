/** The order in which timers fire: by timeout, ties by creation, for both queues. */
module CreationOrder {
  import opened TimerSpec
  import opened TimerTheorems

  /** The timer service with its history: all timers in the order of their creation, and the numbers of those
      queued, in queue order, and of those fired, in firing order. */
  datatype Numbered = Numbered(service: Service, created: seq<Timer>, queued: seq<nat>, fired: seq<nat>)

  predicate Shaped(m: Numbered) {
    |m.queued| == |m.service.queue| && |m.fired| == |m.service.fired|
  }

  /** timer_create, which gives an accepted timer the next number. */
  function CreateNumbered(kind: Kind, m: Numbered, req: Request): (n: Numbered)
    requires Shaped(m)
    ensures Shaped(n) && n.service == Create(kind, m.service, req)
  {
    if !Accepts(req) then m
    else
      var t := NewTimer(m.service.ticks, req);
      var i := Place(kind, m.service.queue, t.timeoutTick);
      Numbered(Create(kind, m.service, req), m.created + [t], InsertAt(m.queued, i, |m.created|), m.fired)
  }

  function CreateAllNumbered(kind: Kind, m: Numbered, reqs: seq<Request>): (n: Numbered)
    requires Shaped(m)
    ensures Shaped(n) && n.service == CreateAll(kind, m.service, reqs)
    decreases |reqs|
  {
    if reqs == [] then m else CreateAllNumbered(kind, CreateNumbered(kind, m, reqs[0]), reqs[1..])
  }

  function PopNumbered(m: Numbered): (n: Numbered)
    requires Shaped(m) && m.service.queue != []
    ensures Shaped(n) && n.service == Popped(m.service)
  {
    Numbered(Popped(m.service), m.created, m.queued[1..], m.fired + [m.queued[0]])
  }

  function Later(m: Numbered): Numbered { m.(service := m.service.(ticks := m.service.ticks + 1)) }

  /** timer_handler up to schedule() */
  function TickNumbered(kind: Kind, m: Numbered, callback: seq<Request>): (n: Numbered)
    requires Shaped(m)
    ensures Shaped(n) && n.service == Tick(kind, m.service, callback)
  {
    var u := Later(m);
    if !HeadDue(u.service) then u
    else if u.service.queue[0].data.func != 0 then CreateAllNumbered(kind, PopNumbered(u), callback)
    else PopNumbered(u)
  }

  function StepNumbered(kind: Kind, m: Numbered, e: Event): (n: Numbered)
    requires Shaped(m)
    ensures Shaped(n) && n.service == Step(kind, m.service, e)
  {
    match e
    case Creation(req) => CreateNumbered(kind, m, req)
    case TimerTick(callback) => TickNumbered(kind, m, callback)
  }

  /** A run with its history; without the history it is the run of the service. */
  function RunNumbered(kind: Kind, m: Numbered, es: seq<Event>): (n: Numbered)
    requires Shaped(m)
    ensures Shaped(n) && n.service == Run(kind, m.service, es)
    decreases |es|
  {
    if es == [] then m else RunNumbered(kind, StepNumbered(kind, m, es[0]), es[1..])
  }

  // ---------- Queues are in the order of timeout and creation ----------

  /** The timer of timeout v created as number x goes before the one of timeout w created as number y. */
  predicate Before(kind: Kind, v: int, x: nat, w: int, y: nat) {
    v < w || (v == w && if kind == ListQueue then x < y else y < x)
  }

  ghost predicate InOrder(kind: Kind, q: seq<Entry>, ids: seq<nat>) {
    && |q| == |ids|
    && forall i, j :: 0 <= i < j < |q| ==> Before(kind, q[i].priority, ids[i], q[j].priority, ids[j])
  }

  /** The entries of the queue are the timers created under their numbers. */
  ghost predicate QueueNamed(q: seq<Entry>, ids: seq<nat>, created: seq<Timer>) {
    |q| == |ids| && forall i :: 0 <= i < |ids| ==> ids[i] < |created| && q[i].data == created[ids[i]]
  }

  ghost predicate LogNamed(f: seq<Firing>, ids: seq<nat>, created: seq<Timer>) {
    |f| == |ids| && forall i :: 0 <= i < |ids| ==> ids[i] < |created| && f[i].timer == created[ids[i]]
  }

  ghost predicate NoneTwice(ids: seq<nat>) {
    forall i, j :: 0 <= i < j < |ids| ==> ids[i] != ids[j]
  }

  ghost predicate NoneInBoth(a: seq<nat>, b: seq<nat>) {
    forall i, j :: 0 <= i < |a| && 0 <= j < |b| ==> a[i] != b[j]
  }

  ghost predicate Ordered(kind: Kind, m: Numbered) {
    && Inv(m.service) && Shaped(m)
    && InOrder(kind, m.service.queue, m.queued)
    && QueueNamed(m.service.queue, m.queued, m.created) && LogNamed(m.service.fired, m.fired, m.created)
    && NoneTwice(m.queued) && NoneTwice(m.fired) && NoneInBoth(m.queued, m.fired)
  }

  const NOTHING := Numbered(NO_TIMERS, [], [], [])

  /** The timers in front of the place of a new one go before it, those behind it after it. */
  ghost predicate Splits(kind: Kind, q: seq<Entry>, ids: seq<nat>, p: nat, v: int, x: nat)
    requires |q| == |ids|
  {
    && (forall j :: 0 <= j < p && j < |q| ==> Before(kind, q[j].priority, ids[j], v, x))
    && (forall j :: p <= j < |q| ==> Before(kind, v, x, q[j].priority, ids[j]))
  }

  lemma PlaceSplits(kind: Kind, q: seq<Entry>, ids: seq<nat>, v: int, x: nat)
    requires |q| == |ids| && Sorted(q) && forall i :: 0 <= i < |ids| ==> ids[i] < x
    ensures Splits(kind, q, ids, Place(kind, q, v), v, x)
  {
    var p := Place(kind, q, v);
    forall j | p <= j < |q| ensures Before(kind, v, x, q[j].priority, ids[j]) {
      assert q[p].priority <= q[j].priority;
    }
  }

  lemma InsertBetweenOrdered(kind: Kind, q: seq<Entry>, ids: seq<nat>, p: nat, e: Entry, x: nat)
    requires InOrder(kind, q, ids) && p <= |q| && Splits(kind, q, ids, p, e.priority, x)
    ensures InOrder(kind, InsertAt(q, p, e), InsertAt(ids, p, x))
  {
    var r, s := InsertAt(q, p, e), InsertAt(ids, p, x);
    InsertAtIndex(q, p, e);
    InsertAtIndex(ids, p, x);
    hide InsertAt, Before;
    forall i, j | 0 <= i < j < |r| ensures Before(kind, r[i].priority, s[i], r[j].priority, s[j]) {
      var a, b := if i < p then i else i - 1, if j < p then j else j - 1;
      if i != p && j != p {
        assert Before(kind, q[a].priority, ids[a], q[b].priority, ids[b]);
      }
    }
  }

  /** A new timer goes behind its equals in the list and in front of them in the skip list. */
  lemma InsertInOrder(kind: Kind, q: seq<Entry>, ids: seq<nat>, e: Entry, x: nat)
    requires InOrder(kind, q, ids) && Sorted(q) && forall i :: 0 <= i < |ids| ==> ids[i] < x
    ensures InOrder(kind, Enqueue(kind, q, e), InsertAt(ids, Place(kind, q, e.priority), x))
  {
    PlaceSplits(kind, q, ids, e.priority, x);
    hide InOrder, Splits, Sorted, InsertAt;
    InsertBetweenOrdered(kind, q, ids, Place(kind, q, e.priority), e, x);
  }

  lemma InsertNamed(q: seq<Entry>, ids: seq<nat>, created: seq<Timer>, p: nat, e: Entry)
    requires QueueNamed(q, ids, created) && p <= |q|
    ensures QueueNamed(InsertAt(q, p, e), InsertAt(ids, p, |created|), created + [e.data])
  {
    InsertAtIndex(q, p, e);
    InsertAtIndex(ids, p, |created|);
  }

  /** A number that is in neither sequence may be inserted. */
  lemma InsertNew(ids: seq<nat>, fired: seq<nat>, p: nat, x: nat)
    requires NoneTwice(ids) && NoneInBoth(ids, fired) && p <= |ids| && x !in ids && x !in fired
    ensures NoneTwice(InsertAt(ids, p, x)) && NoneInBoth(InsertAt(ids, p, x), fired)
  {
    InsertAtIndex(ids, p, x);
    hide InsertAt;
    var r := InsertAt(ids, p, x);
    forall i, j | 0 <= i < j < |r| ensures r[i] != r[j] {
      assert i != p ==> r[i] in ids;
      assert j != p ==> r[j] in ids;
    }
  }

  lemma NewNumber(m: Numbered)
    requires QueueNamed(m.service.queue, m.queued, m.created) && LogNamed(m.service.fired, m.fired, m.created)
    ensures |m.created| !in m.queued && |m.created| !in m.fired
  {
  }

  lemma LogNamedStill(f: seq<Firing>, ids: seq<nat>, created: seq<Timer>, t: Timer)
    requires LogNamed(f, ids, created)
    ensures LogNamed(f, ids, created + [t])
  {
  }

  lemma CreateOrdered(kind: Kind, m: Numbered, req: Request)
    requires Ordered(kind, m)
    ensures Ordered(kind, CreateNumbered(kind, m, req))
  {
    if Accepts(req) {
      var t := NewTimer(m.service.ticks, req);
      var p := Place(kind, m.service.queue, t.timeoutTick);
      CreateInv(kind, m.service, req);
      InsertInOrder(kind, m.service.queue, m.queued, Entry(t.timeoutTick, t), |m.created|);
      hide InOrder, QueueNamed, LogNamed, NoneTwice, NoneInBoth, TimerTheorems.Inv, InsertAt;
      InsertNamed(m.service.queue, m.queued, m.created, p, Entry(t.timeoutTick, t));
      NewNumber(m);
      InsertNew(m.queued, m.fired, p, |m.created|);
      LogNamedStill(m.service.fired, m.fired, m.created, t);
    }
  }

  lemma {:induction false} CreateAllOrdered(kind: Kind, m: Numbered, reqs: seq<Request>)
    requires Ordered(kind, m)
    ensures Ordered(kind, CreateAllNumbered(kind, m, reqs))
    decreases |reqs|
  {
    hide Ordered, CreateNumbered;
    if reqs == [] {
    } else {
      CreateOrdered(kind, m, reqs[0]);
      OrderedShaped(kind, m);
      CreateAllOrdered(kind, CreateNumbered(kind, m, reqs[0]), reqs[1..]);
    }
  }

  lemma OrderedShaped(kind: Kind, m: Numbered)
    requires Ordered(kind, m)
    ensures Shaped(m)
  {
  }

  lemma PopOrdered(kind: Kind, m: Numbered)
    requires Ordered(kind, m) && HeadDue(m.service) && TimerTheorems.Fresh(m.service)
    ensures Ordered(kind, PopNumbered(m))
  {
    PopInv(m.service);
    hide TimerTheorems.Inv, TimerTheorems.Fresh;
    HeadFires(m.queued, m.fired);
  }

  /** A number that moves from the queue to the log is still in one of them only. */
  lemma HeadFires(queued: seq<nat>, fired: seq<nat>)
    requires queued != [] && NoneTwice(queued) && NoneTwice(fired) && NoneInBoth(queued, fired)
    ensures var f := fired + [queued[0]];
      NoneTwice(queued[1..]) && NoneTwice(f) && NoneInBoth(queued[1..], f)
  {
  }

  lemma TickOrdered(kind: Kind, m: Numbered, callback: seq<Request>)
    requires Ordered(kind, m)
    ensures Ordered(kind, TickNumbered(kind, m, callback))
  {
    NextTick(m.service);
    var u := Later(m);
    assert Ordered(kind, u);
    hide Ordered, CreateAllNumbered;
    if HeadDue(u.service) {
      PopOrdered(kind, u);
      CreateAllOrdered(kind, PopNumbered(u), callback);
    }
  }

  lemma StepOrdered(kind: Kind, m: Numbered, e: Event)
    requires Ordered(kind, m)
    ensures Ordered(kind, StepNumbered(kind, m, e))
  {
    match e
    case Creation(req) => CreateOrdered(kind, m, req);
    case TimerTick(callback) => TickOrdered(kind, m, callback);
  }

  lemma {:induction false} RunOrdered(kind: Kind, m: Numbered, es: seq<Event>)
    requires Ordered(kind, m)
    ensures Ordered(kind, RunNumbered(kind, m, es))
    decreases |es|
  {
    hide Ordered, StepNumbered;
    OrderedShaped(kind, m);
    if es == [] {
    } else {
      StepOrdered(kind, m, es[0]);
      RunOrdered(kind, StepNumbered(kind, m, es[0]), es[1..]);
    }
  }

  /** In every reachable state the list is in (timeout, creation) order and the skip list in
      (timeout, reverse creation) order. */
  lemma EveryRunOrdered(kind: Kind, es: seq<Event>)
    ensures Ordered(kind, RunNumbered(kind, NOTHING, es))
  {
    NothingOrdered(kind);
    hide Ordered, RunNumbered;
    RunOrdered(kind, NOTHING, es);
  }

  lemma NothingOrdered(kind: Kind)
    ensures Ordered(kind, NOTHING)
  {
  }

  // ---------- Timers fire in that order ----------

  /** Number x is queued in front of number y. */
  ghost predicate Ahead(ids: seq<nat>, x: nat, y: nat) {
    exists i, j :: 0 <= i < j < |ids| && ids[i] == x && ids[j] == y
  }

  /** Number y fires only after number x. */
  ghost predicate FiresFirst(f: seq<nat>, x: nat, y: nat) {
    forall b :: 0 <= b < |f| && f[b] == y ==> x in f[..b]
  }

  /** So far, and from now on. */
  ghost predicate Owed(m: Numbered, x: nat, y: nat) {
    FiresFirst(m.fired, x, y) && (x in m.fired || Ahead(m.queued, x, y))
  }

  lemma InsertKeepsAhead(ids: seq<nat>, p: nat, z: nat, x: nat, y: nat)
    requires p <= |ids| && Ahead(ids, x, y)
    ensures Ahead(InsertAt(ids, p, z), x, y)
  {
    var i, j :| 0 <= i < j < |ids| && ids[i] == x && ids[j] == y;
    InsertAtIndex(ids, p, z);
    var s := InsertAt(ids, p, z);
    assert s[if i < p then i else i + 1] == x && s[if j < p then j else j + 1] == y;
  }

  lemma CreateOwed(kind: Kind, m: Numbered, req: Request, x: nat, y: nat)
    requires Shaped(m) && Owed(m, x, y)
    ensures Owed(CreateNumbered(kind, m, req), x, y)
  {
    if Accepts(req) && x !in m.fired {
      var t := NewTimer(m.service.ticks, req);
      InsertKeepsAhead(m.queued, Place(kind, m.service.queue, t.timeoutTick), |m.created|, x, y);
    }
  }

  lemma {:induction false} CreateAllOwed(kind: Kind, m: Numbered, reqs: seq<Request>, x: nat, y: nat)
    requires Shaped(m) && Owed(m, x, y)
    ensures Owed(CreateAllNumbered(kind, m, reqs), x, y)
    decreases |reqs|
  {
    if reqs == [] {
    } else {
      CreateOwed(kind, m, reqs[0], x, y);
      CreateAllOwed(kind, CreateNumbered(kind, m, reqs[0]), reqs[1..], x, y);
    }
  }

  lemma PopOwed(kind: Kind, m: Numbered, x: nat, y: nat)
    requires Ordered(kind, m) && m.service.queue != [] && Owed(m, x, y)
    ensures Owed(PopNumbered(m), x, y)
  {
    var f := m.fired + [m.queued[0]];
    if x in m.fired {
      forall b | 0 <= b < |f| && f[b] == y ensures x in f[..b] {
        assert f[..b] == m.fired[..b];
      }
    } else {
      var i, j :| 0 <= i < j < |m.queued| && m.queued[i] == x && m.queued[j] == y;
      assert y !in f;
      if i == 0 {
        assert f[|m.fired|] == x;
      } else {
        assert m.queued[1..][i - 1] == x && m.queued[1..][j - 1] == y;
      }
    }
  }

  lemma StepOwed(kind: Kind, m: Numbered, e: Event, x: nat, y: nat)
    requires Ordered(kind, m) && Owed(m, x, y)
    ensures Shaped(m) && Owed(StepNumbered(kind, m, e), x, y)
  {
    match e
    case Creation(req) => CreateOwed(kind, m, req, x, y);
    case TimerTick(callback) =>
      NextTick(m.service);
      var u := Later(m);
      if HeadDue(u.service) {
        assert Ordered(kind, u);
        PopOwed(kind, u, x, y);
        CreateAllOwed(kind, PopNumbered(u), callback, x, y);
      }
  }

  lemma {:induction false} RunOwed(kind: Kind, m: Numbered, es: seq<Event>, x: nat, y: nat)
    requires Ordered(kind, m) && Owed(m, x, y)
    ensures Shaped(m) && Owed(RunNumbered(kind, m, es), x, y)
    decreases |es|
  {
    hide Ordered, StepNumbered, Owed;
    OrderedShaped(kind, m);
    if es == [] {
    } else {
      StepOrdered(kind, m, es[0]);
      StepOwed(kind, m, es[0], x, y);
      RunOwed(kind, StepNumbered(kind, m, es[0]), es[1..], x, y);
    }
  }

  /** Of two timers queued together the one of the smaller timeout fires first; of equal timeouts the one
      created first with the list, the one created last with the skip list. */
  lemma FiringOrder(kind: Kind, m: Numbered, es: seq<Event>, x: nat, y: nat)
    requires Ordered(kind, m) && x in m.queued && y in m.queued
    requires x < |m.created| && y < |m.created|
    requires Before(kind, m.created[x].timeoutTick, x, m.created[y].timeoutTick, y)
    ensures Shaped(m) && FiresFirst(RunNumbered(kind, m, es).fired, x, y)
  {
    QueuedAhead(kind, m, x, y);
    RunOwed(kind, m, es, x, y);
  }

  lemma QueuedAhead(kind: Kind, m: Numbered, x: nat, y: nat)
    requires Ordered(kind, m) && x in m.queued && y in m.queued
    requires x < |m.created| && y < |m.created|
    requires Before(kind, m.created[x].timeoutTick, x, m.created[y].timeoutTick, y)
    ensures Owed(m, x, y)
  {
    var i :| 0 <= i < |m.queued| && m.queued[i] == x;
    var j :| 0 <= j < |m.queued| && m.queued[j] == y;
    assert m.service.queue[i].priority == m.created[x].timeoutTick;
    assert m.service.queue[j].priority == m.created[y].timeoutTick;
    assert i < j;
  }
}
