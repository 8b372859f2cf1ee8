/** Priority scheduling with weighted round robin among the tasks of least priority number. */
module PriorityScheduler {

  const MAX_TASKS := 10
  const LOWEST_PRIORITY := 0xFF

  /** SLEEPING occurs only in the version with task_sleep. */
  datatype Status = EMPTY | READY | RUNNING | BLOCKED | EXITED | SLEEPING

  /** The task table, _current and _cur_timeslice. */
  datatype Sched = Sched(status: seq<Status>, prio: seq<nat>, slice: seq<nat>, current: int, used: nat) {

    predicate Shaped() {
      && |status| == |prio| == |slice| == MAX_TASKS && -1 <= current < MAX_TASKS
      && forall i :: 0 <= i < MAX_TASKS ==> prio[i] <= LOWEST_PRIORITY
    }

    /** The current task, when there is one, can run or has exited. */
    predicate Ok() {
      Shaped() && (current == -1 || status[current] == READY || status[current] == RUNNING || status[current] == EXITED)
    }

    predicate Schedulable(i: nat)
      requires i < |status|
    {
      status[i] == READY || status[i] == RUNNING
    }

    /** The least priority number of a schedulable task below n. */
    function Top(n: nat): (p: nat)
      requires Shaped() && n <= MAX_TASKS
      ensures p <= LOWEST_PRIORITY
      ensures forall i :: 0 <= i < n && Schedulable(i) ==> p <= prio[i]
      ensures p < LOWEST_PRIORITY ==> exists i :: 0 <= i < n && Schedulable(i) && prio[i] == p
    {
      if n == 0 then LOWEST_PRIORITY
      else if Schedulable(n - 1) && prio[n - 1] < Top(n - 1) then prio[n - 1]
      else Top(n - 1)
    }

    /** Task i is schedulable and no schedulable task comes before it in priority. */
    predicate Candidate(i: nat)
      requires Shaped() && i < MAX_TASKS
    {
      Schedulable(i) && prio[i] == Top(MAX_TASKS)
    }

    /** The lowest candidate from id lo on, or -1. */
    function CandidateFrom(lo: nat): (r: int)
      requires Shaped() && lo <= MAX_TASKS
      ensures -1 <= r < MAX_TASKS
      ensures r == -1 ==> forall i :: lo <= i < MAX_TASKS ==> !Candidate(i)
      ensures r != -1 ==> lo <= r && Candidate(r) && forall i :: lo <= i < r ==> !Candidate(i)
      decreases MAX_TASKS - lo
    {
      if lo == MAX_TASKS then -1 else if Candidate(lo) then lo else CandidateFrom(lo + 1)
    }

    /** find_next_task_id: the next candidate behind the current task, in cyclic id order. */
    function NextTask(): (r: int)
      requires Shaped()
      ensures -1 <= r < MAX_TASKS
    {
      var r := CandidateFrom(current + 1);
      if r == -1 then CandidateFrom(0) else r
    }
  }

  /** Where switch_to goes. */
  datatype Dispatch = Idle | Task(id: nat)

  /** schedule keeps the current task only if it ties with the next one and has slice left. */
  predicate Switches(s: Sched)
    requires s.Ok() && s.NextTask() != -1
  {
    var n := s.NextTask();
    || s.current == -1 || s.status[s.current] == EXITED
    || s.prio[n] < s.prio[s.current]
    || (s.prio[n] == s.prio[s.current] && s.slice[s.current] <= s.used)
  }

  /** schedule */
  function Schedule(s: Sched): (Sched, Dispatch)
    requires s.Ok()
  {
    var n := s.NextTask();
    if n == -1 then (s, Idle)
    else if Switches(s) then (s.(current := n, used := 1, status := s.status[n := RUNNING]), Task(n))
    else (s.(used := s.used + 1, status := s.status[s.current := RUNNING]), Task(s.current))
  }

  // ---------- Which task schedule dispatches ----------

  /** A candidate is exactly a schedulable task of least priority number. */
  lemma CandidateIff(s: Sched, i: nat)
    requires s.Shaped() && i < MAX_TASKS
    ensures s.Candidate(i) <==>
      s.Schedulable(i) && forall j :: 0 <= j < MAX_TASKS && s.Schedulable(j) ==> s.prio[i] <= s.prio[j]
  {
  }

  /** There is a next task exactly when some task is schedulable. */
  lemma NextTaskIff(s: Sched)
    requires s.Shaped()
    ensures s.NextTask() == -1 <==> forall i :: 0 <= i < MAX_TASKS ==> !s.Schedulable(i)
    ensures s.NextTask() != -1 ==> s.Candidate(s.NextTask())
  {
    var top := s.Top(MAX_TASKS);
    if top < LOWEST_PRIORITY {
      var i :| 0 <= i < MAX_TASKS && s.Schedulable(i) && s.prio[i] == top;
      assert s.Candidate(i);
    } else if i :| 0 <= i < MAX_TASKS && s.Schedulable(i) {
      assert s.prio[i] == top;
      assert s.Candidate(i);
    }
  }

  /** schedule goes idle exactly when nothing is schedulable; otherwise it dispatches a schedulable task of
      least priority number: the old one exactly when that ties for least and has slice left, else the next
      one in cyclic order with a new slice. */
  lemma ScheduleDispatchesLeast(s: Sched)
    requires s.Ok()
    ensures var (t, d) := Schedule(s);
      && t.Ok()
      && (d.Idle? <==> forall i :: 0 <= i < MAX_TASKS ==> !s.Schedulable(i))
      && (d.Task? ==>
            && d.id < MAX_TASKS && t.current == d.id && t.status[d.id] == RUNNING && s.Candidate(d.id)
            && (if 0 <= s.current && s.Candidate(s.current) && s.used < s.slice[s.current]
                then d.id == s.current && t.used == s.used + 1
                else d.id == s.NextTask() && t.used == 1))
  {
    NextTaskIff(s);
    if s.NextTask() != -1 {
      CandidateIff(s, s.NextTask());
      if s.current >= 0 { CandidateIff(s, s.current); }
    }
  }

  // ---------- Scheduling changes no candidates ----------

  /** Same priorities and schedulable tasks. */
  ghost predicate SameReady(s: Sched, t: Sched) {
    && s.Shaped() && t.Shaped() && s.prio == t.prio
    && forall i :: 0 <= i < MAX_TASKS ==> s.Schedulable(i) == t.Schedulable(i)
  }

  /** The same slices, too. */
  ghost predicate SameTasks(s: Sched, t: Sched) { SameReady(s, t) && s.slice == t.slice }

  lemma {:induction false} SameTop(s: Sched, t: Sched, n: nat)
    requires SameReady(s, t) && n <= MAX_TASKS
    ensures s.Top(n) == t.Top(n)
  {
    if n == 0 {
    } else {
      SameTop(s, t, n - 1);
    }
  }

  lemma {:induction false} SameCandidates(s: Sched, t: Sched, lo: nat)
    requires SameReady(s, t) && lo <= MAX_TASKS
    ensures forall i :: 0 <= i < MAX_TASKS ==> s.Candidate(i) == t.Candidate(i)
    ensures s.CandidateFrom(lo) == t.CandidateFrom(lo)
    decreases MAX_TASKS - lo
  {
    SameTop(s, t, MAX_TASKS);
    if lo == MAX_TASKS {
    } else {
      SameCandidates(s, t, lo + 1);
    }
  }

  lemma ScheduleSameTasks(s: Sched)
    requires s.Ok()
    ensures Schedule(s).0.Ok() && SameTasks(s, Schedule(s).0)
  {
    ScheduleDispatchesLeast(s);
  }

  // ---------- Weighted round robin ----------

  /** How many consecutive dispatches a task gets. */
  function Weight(s: Sched, i: nat): nat
    requires i < |s.slice|
  {
    if s.slice[i] == 0 then 1 else s.slice[i]
  }

  /** The state after n schedule calls with nothing in between. */
  function After(s: Sched, n: nat): (t: Sched)
    requires s.Ok()
    ensures t.Ok()
    decreases n
  {
    ScheduleSameTasks(s);
    if n == 0 then s else After(Schedule(s).0, n - 1)
  }

  /** What n schedule calls in a row dispatch. */
  function Trace(s: Sched, n: nat): (r: seq<Dispatch>)
    requires s.Ok()
    ensures |r| == n
    decreases n
  {
    ScheduleSameTasks(s);
    if n == 0 then [] else [Schedule(s).1] + Trace(Schedule(s).0, n - 1)
  }

  lemma {:induction false} TraceConcat(s: Sched, a: nat, b: nat)
    requires s.Ok()
    ensures After(s, a + b) == After(After(s, a), b)
    ensures Trace(s, a + b) == Trace(s, a) + Trace(After(s, a), b)
    decreases a
  {
    hide Schedule;
    if a == 0 {
    } else {
      ScheduleSameTasks(s);
      TraceConcat(Schedule(s).0, a - 1, b);
    }
  }

  function Repeat(d: Dispatch, n: nat): (r: seq<Dispatch>)
    ensures |r| == n && forall k :: 0 <= k < n ==> r[k] == d
  {
    if n == 0 then [] else [d] + Repeat(d, n - 1)
  }

  /** The current task has used up its slice: it is a candidate, and the next call switches. */
  ghost predicate Done(s: Sched, c: nat) {
    s.Ok() && c == s.current && s.status[c] == RUNNING && s.Candidate(c) && s.slice[c] <= s.used
  }

  /** A candidate with slice left is dispatched again. */
  lemma Holds(s: Sched, c: nat)
    requires s.Ok() && c == s.current && s.status[c] == RUNNING && s.Candidate(c) && s.used < s.slice[c]
    ensures var (t, d) := Schedule(s);
      d == Task(c) && t == s.(used := s.used + 1)
  {
    ScheduleDispatchesLeast(s);
    assert s.status[c := RUNNING] == s.status;
  }

  /** Until its slice is used up the current task is dispatched again. */
  lemma {:induction false} HoldSlice(s: Sched, c: nat, left: nat)
    requires s.Ok() && c == s.current && s.status[c] == RUNNING && s.Candidate(c)
    requires s.used + left == Weight(s, c) && 1 <= s.used
    ensures Trace(s, left) == Repeat(Task(c), left)
    ensures Done(After(s, left), c) && SameTasks(s, After(s, left))
    decreases left
  {
    if left == 0 {
    } else {
      Holds(s, c);
      hide Schedule, Sched.Candidate, SameReady, Done;
      var t := Schedule(s).0;
      ScheduleSameTasks(s);
      SameCandidates(s, t, 0);
      HoldSlice(t, c, left - 1);
      SameTasksTrans(s, t, After(t, left - 1));
    }
  }

  /** A call that switches starts a block of exactly the next task's weight. */
  lemma Block(s: Sched, c: nat)
    requires s.Ok() && s.NextTask() == c && Switches(s)
    ensures c < MAX_TASKS
    ensures Trace(s, Weight(s, c)) == Repeat(Task(c), Weight(s, c))
    ensures Done(After(s, Weight(s, c)), c) && SameTasks(s, After(s, Weight(s, c)))
  {
    NextTaskIff(s);
    var t := Schedule(s).0;
    ScheduleSameTasks(s);
    SameCandidates(s, t, 0);
    HoldSlice(t, c, Weight(s, c) - 1);
  }

  /** The candidates with ids in lo .. hi, ascending. */
  function Ascending(s: Sched, lo: nat, hi: nat): (r: seq<nat>)
    requires s.Shaped() && lo <= hi <= MAX_TASKS
    ensures forall k :: 0 <= k < |r| ==> lo <= r[k] < hi && s.Candidate(r[k])
    decreases hi - lo
  {
    if lo == hi then []
    else if s.Candidate(lo) then [lo] + Ascending(s, lo + 1, hi)
    else Ascending(s, lo + 1, hi)
  }

  lemma {:induction false} AscendingHas(s: Sched, lo: nat, hi: nat, i: nat)
    requires s.Shaped() && lo <= i < hi <= MAX_TASKS && s.Candidate(i)
    ensures i in Ascending(s, lo, hi)
    decreases hi - lo
  {
    hide Sched.Candidate, Sched.Shaped;
    if i == lo {
    } else {
      AscendingHas(s, lo + 1, hi, i);
    }
  }

  lemma {:induction false} AscendingAscends(s: Sched, lo: nat, hi: nat)
    requires s.Shaped() && lo <= hi <= MAX_TASKS
    ensures forall j, k :: 0 <= j < k < |Ascending(s, lo, hi)| ==> Ascending(s, lo, hi)[j] < Ascending(s, lo, hi)[k]
    decreases hi - lo
  {
    hide Sched.Candidate, Sched.Shaped;
    if lo == hi {
    } else {
      AscendingAscends(s, lo + 1, hi);
      var a, b := Ascending(s, lo, hi), Ascending(s, lo + 1, hi);
      forall j, k | 0 <= j < k < |a| ensures a[j] < a[k] {
        if s.Candidate(lo) {
          assert a[k] == b[k - 1] && a[j] == if j == 0 then lo else b[j - 1];
        }
      }
    }
  }

  lemma AscendingAll(s: Sched, lo: nat, hi: nat)
    requires s.Shaped() && lo <= hi <= MAX_TASKS
    ensures forall i :: lo <= i < hi && s.Candidate(i) ==> i in Ascending(s, lo, hi)
    ensures forall j, k :: 0 <= j < k < |Ascending(s, lo, hi)| ==> Ascending(s, lo, hi)[j] < Ascending(s, lo, hi)[k]
  {
    hide Sched.Candidate, Sched.Shaped, Ascending;
    AscendingAscends(s, lo, hi);
    forall i | lo <= i < hi && s.Candidate(i) ensures i in Ascending(s, lo, hi) {
      AscendingHas(s, lo, hi, i);
    }
  }

  /** One block per task, in order. */
  function Blocks(s: Sched, order: seq<nat>): seq<Dispatch>
    requires forall k :: 0 <= k < |order| ==> order[k] < |s.slice|
  {
    if order == [] then [] else Repeat(Task(order[0]), Weight(s, order[0])) + Blocks(s, order[1..])
  }

  function TotalWeight(s: Sched, order: seq<nat>): nat
    requires forall k :: 0 <= k < |order| ==> order[k] < |s.slice|
  {
    if order == [] then 0 else Weight(s, order[0]) + TotalWeight(s, order[1..])
  }

  lemma {:induction false} SameAscending(s: Sched, t: Sched, lo: nat, hi: nat)
    requires SameReady(s, t) && lo <= hi <= MAX_TASKS
    ensures Ascending(s, lo, hi) == Ascending(t, lo, hi)
    decreases hi - lo
  {
    if lo == hi {
    } else {
      SameCandidates(s, t, lo);
      hide SameReady, Sched.Candidate;
      SameAscending(s, t, lo + 1, hi);
    }
  }

  lemma {:induction false} SameBlocks(s: Sched, t: Sched, order: seq<nat>)
    requires s.slice == t.slice && forall k :: 0 <= k < |order| ==> order[k] < |s.slice|
    ensures Blocks(s, order) == Blocks(t, order) && TotalWeight(s, order) == TotalWeight(t, order)
    decreases |order|
  {
    if order == [] {
    } else {
      SameBlocks(s, t, order[1..]);
    }
  }

  lemma DoneSwitches(s: Sched, c: nat)
    requires Done(s, c)
    ensures s.NextTask() != -1 && Switches(s)
  {
    NextTaskIff(s);
  }

  /** After n calls that gave order its blocks: the last task of order is done, or nothing happened. */
  ghost predicate Served(s: Sched, order: seq<nat>, t: Sched)
    requires forall k :: 0 <= k < |order| ==> order[k] < MAX_TASKS
  {
    SameTasks(s, t) && if order == [] then t == s else Done(t, order[|order| - 1])
  }

  /** As many calls as order weighs give its tasks their blocks, in order. */
  ghost predicate Serves(s: Sched, order: seq<nat>)
    requires s.Ok() && forall k :: 0 <= k < |order| ==> order[k] < MAX_TASKS
  {
    var w := TotalWeight(s, order);
    Trace(s, w) == Blocks(s, order) && Served(s, order, After(s, w))
  }

  ghost predicate InRange(order: seq<nat>) { forall k :: 0 <= k < |order| ==> order[k] < MAX_TASKS }

  lemma ServesConcat(s: Sched, a: seq<nat>, e: Sched, b: seq<nat>)
    requires s.Ok() && e.Ok() && InRange(a) && InRange(b)
    requires Serves(s, a) && e == After(s, TotalWeight(s, a)) && Serves(e, b)
    ensures InRange(a + b) && Serves(s, a + b)
  {
    hide Done, Schedule, After, Trace, Weight, Blocks, TotalWeight, SameReady, SameTasks, Served, Sched.Ok;
    ServedSame(s, a, e);
    TraceServed(s, a, e, b);
    ServedConcat(s, a, e, b, After(e, TotalWeight(e, b)));
  }

  lemma TraceServed(s: Sched, a: seq<nat>, e: Sched, b: seq<nat>)
    requires s.Ok() && e.Ok() && s.slice == e.slice && |s.slice| == MAX_TASKS && InRange(a) && InRange(b)
    requires e == After(s, TotalWeight(s, a))
    requires Trace(s, TotalWeight(s, a)) == Blocks(s, a) && Trace(e, TotalWeight(e, b)) == Blocks(e, b)
    ensures Trace(s, TotalWeight(s, a + b)) == Blocks(s, a + b)
    ensures After(s, TotalWeight(s, a + b)) == After(e, TotalWeight(e, b))
  {
    hide Schedule, After, Trace, Weight, Blocks, TotalWeight, Sched.Ok;
    SameBlocks(s, e, b);
    BlocksConcat(s, a, b);
    TraceConcat(s, TotalWeight(s, a), TotalWeight(s, b));
  }

  lemma ServedConcat(s: Sched, a: seq<nat>, e: Sched, b: seq<nat>, f: Sched)
    requires InRange(a) && InRange(b) && Served(s, a, e) && Served(e, b, f)
    ensures InRange(a + b) && Served(s, a + b, f)
  {
    hide Done, SameReady;
    SameTasksTrans(s, e, f);
    if b == [] { assert a + b == a; }
  }

  /** While ids ascend from lo to hi, every candidate in between gets its block in turn. */
  lemma {:induction false} AscendBlocks(s: Sched, lo: nat, hi: nat)
    requires s.Ok() && lo <= hi <= MAX_TASKS
    requires Ascending(s, lo, hi) != [] ==> s.NextTask() == s.CandidateFrom(lo) && s.NextTask() != -1 && Switches(s)
    ensures Serves(s, Ascending(s, lo, hi))
    decreases hi - lo
  {
    if lo == hi {
      Unchanged(s);
    } else {
      hide Sched.Candidate, Sched.NextTask, Switches, Done, Schedule, Serves;
      if s.Candidate(lo) {
        FirstBlock(s, lo, hi);
      } else {
        AscendBlocks(s, lo + 1, hi);
      }
    }
  }

  lemma {:induction false} FirstBlock(s: Sched, lo: nat, hi: nat)
    requires s.Ok() && lo < hi <= MAX_TASKS && s.Candidate(lo) && s.NextTask() == lo && Switches(s)
    ensures Serves(s, Ascending(s, lo, hi))
    decreases hi - lo, 0
  {
    hide Sched.Candidate, Sched.NextTask, Switches, Done, Schedule, After, Trace, SameReady, Serves;
    OneBlock(s, lo);
    var e := After(s, TotalWeight(s, [lo]));
    var o := Ascending(s, lo + 1, hi);
    SameAscending(s, e, lo + 1, hi);
    if o != [] { NextInOrder(e, lo, hi); }
    AscendBlocks(e, lo + 1, hi);
    assert Ascending(s, lo, hi) == [lo] + o;
    ServesConcat(s, [lo], e, o);
  }

  lemma OneBlock(s: Sched, c: nat)
    requires s.Ok() && s.NextTask() == c && Switches(s) && c < MAX_TASKS
    ensures Serves(s, [c])
    ensures var e := After(s, TotalWeight(s, [c])); Done(e, c) && SameTasks(s, e)
  {
    Block(s, c);
    assert TotalWeight(s, [c]) == Weight(s, c) && Blocks(s, [c]) == Repeat(Task(c), Weight(s, c));
  }

  /** Behind a finished task the scan goes on with the next higher candidate, when there is one. */
  lemma NextInOrder(e: Sched, c: nat, hi: nat)
    requires Done(e, c) && c + 1 <= hi <= MAX_TASKS && Ascending(e, c + 1, hi) != []
    ensures e.NextTask() == e.CandidateFrom(c + 1) && e.NextTask() != -1 && Switches(e)
  {
    assert e.Candidate(Ascending(e, c + 1, hi)[0]);
    DoneSwitches(e, c);
  }

  lemma Unchanged(s: Sched)
    requires s.Ok()
    ensures SameTasks(s, s) && After(s, 0) == s && Trace(s, 0) == []
  {
  }

  lemma SameTasksTrans(s: Sched, t: Sched, u: Sched)
    requires SameTasks(s, t) && SameTasks(t, u)
    ensures SameTasks(s, u)
  {
  }

  /** The candidates in cyclic id order, from the one behind the current task. */
  function Cyclic(s: Sched): seq<nat>
    requires s.Shaped()
  {
    Ascending(s, s.current + 1, MAX_TASKS) + Ascending(s, 0, s.current + 1)
  }

  /** Every candidate is in the cyclic order exactly once. */
  lemma CyclicOnce(s: Sched)
    requires s.Shaped()
    ensures forall i :: 0 <= i < MAX_TASKS ==> (s.Candidate(i) <==> i in Cyclic(s))
    ensures forall j, k :: 0 <= j < k < |Cyclic(s)| ==> Cyclic(s)[j] != Cyclic(s)[k]
  {
    hide Sched.Candidate;
    AscendingAll(s, s.current + 1, MAX_TASKS);
    AscendingAll(s, 0, s.current + 1);
  }

  lemma {:induction false} BlocksConcat(s: Sched, a: seq<nat>, b: seq<nat>)
    requires forall k :: 0 <= k < |a| ==> a[k] < |s.slice|
    requires forall k :: 0 <= k < |b| ==> b[k] < |s.slice|
    ensures forall k :: 0 <= k < |a + b| ==> (a + b)[k] < |s.slice|
    ensures Blocks(s, a + b) == Blocks(s, a) + Blocks(s, b)
    ensures TotalWeight(s, a + b) == TotalWeight(s, a) + TotalWeight(s, b)
    decreases |a|
  {
    if a == [] {
      assert a + b == b;
    } else {
      hide Weight, Repeat;
      var x := a[0];
      assert a + b == [x] + (a[1..] + b);
      BlocksConcat(s, a[1..], b);
      BlocksFirst(s, x, a[1..] + b);
      BlocksFirst(s, x, a[1..]);
      assert a == [x] + a[1..];
      hide Blocks, TotalWeight;
    }
  }

  lemma BlocksFirst(s: Sched, x: nat, order: seq<nat>)
    requires x < |s.slice| && forall k :: 0 <= k < |order| ==> order[k] < |s.slice|
    ensures forall k :: 0 <= k < |[x] + order| ==> ([x] + order)[k] < |s.slice|
    ensures Blocks(s, [x] + order) == Repeat(Task(x), Weight(s, x)) + Blocks(s, order)
    ensures TotalWeight(s, [x] + order) == Weight(s, x) + TotalWeight(s, order)
  {
    hide Weight, Repeat;
    assert ([x] + order)[1..] == order;
  }

  /** Weighted round robin: from a switch on, the next calls, as many as the weights of all candidates add
      up to, dispatch each candidate for exactly its weight, contiguously and in cyclic id order; and then
      the next call switches again. */
  lemma WeightedRoundRobin(s: Sched)
    requires s.Ok() && s.NextTask() != -1 && Switches(s)
    ensures forall k :: 0 <= k < |Cyclic(s)| ==> Cyclic(s)[k] < MAX_TASKS
    ensures var o := Cyclic(s); var w := TotalWeight(s, o);
      && Trace(s, w) == Blocks(s, o)
      && SameTasks(s, After(s, w)) && After(s, w).NextTask() != -1 && Switches(After(s, w))
  {
    CyclicServes(s);
    RoundEnds(s);
  }

  lemma CyclicServes(s: Sched)
    requires s.Ok() && s.NextTask() != -1 && Switches(s)
    ensures Serves(s, Cyclic(s))
  {
    hide Sched.Candidate, Switches, Done, Schedule, After, Trace, SameReady, Weight, Serves, Served, Ascending,
      Sched.NextTask;
    var a, b := Ascending(s, s.current + 1, MAX_TASKS), Ascending(s, 0, s.current + 1);
    var e := After(s, TotalWeight(s, a));
    UpServes(s);
    ServedSame(s, a, e);
    WrapAround(s, a, e);
    SameAscending(s, e, 0, s.current + 1);
    AscendBlocks(e, 0, s.current + 1);
    ServesConcat(s, a, e, b);
  }

  /** The candidates above the current task get their blocks first. */
  lemma UpServes(s: Sched)
    requires s.Ok() && s.NextTask() != -1 && Switches(s)
    ensures Serves(s, Ascending(s, s.current + 1, MAX_TASKS))
  {
    hide Sched.Candidate, Switches, Done, Schedule, After, Trace, SameReady, Weight, Serves, Served;
    var a := Ascending(s, s.current + 1, MAX_TASKS);
    if a != [] { assert s.Candidate(a[0]); }
    AscendBlocks(s, s.current + 1, MAX_TASKS);
  }

  lemma ServedSame(s: Sched, order: seq<nat>, t: Sched)
    requires s.Ok() && (forall k :: 0 <= k < |order| ==> order[k] < MAX_TASKS) && Serves(s, order)
    requires t == After(s, TotalWeight(s, order))
    ensures Served(s, order, t) && SameTasks(s, t) && s.slice == t.slice && |s.slice| == MAX_TASKS
  {
  }

  /** After the ids above the current one were served, the scan starts again from 0. */
  lemma WrapAround(s: Sched, a: seq<nat>, e: Sched)
    requires s.Ok() && s.NextTask() != -1 && Switches(s) && e.Ok()
    requires a == Ascending(s, s.current + 1, MAX_TASKS) && Served(s, a, e)
    ensures e.NextTask() == e.CandidateFrom(0) && e.NextTask() != -1 && Switches(e)
  {
    hide Sched.Candidate, Switches, Sched.Top, Ascending, SameReady;
    SameCandidates(s, e, 0);
    NothingBehindLast(s, s.current + 1);
    if a != [] { DoneSwitches(e, a[|a| - 1]); }
    assert e.CandidateFrom(e.current + 1) == -1;
  }

  lemma {:induction false} NothingBehindLast(s: Sched, lo: nat)
    requires s.Shaped() && lo <= MAX_TASKS
    ensures var a := Ascending(s, lo, MAX_TASKS);
      forall r :: lo <= r < MAX_TASKS && s.Candidate(r) ==> a != [] && r <= a[|a| - 1]
    decreases MAX_TASKS - lo
  {
    hide Sched.Candidate, Sched.Shaped;
    if lo == MAX_TASKS {
    } else {
      NothingBehindLast(s, lo + 1);
      var a, b := Ascending(s, lo, MAX_TASKS), Ascending(s, lo + 1, MAX_TASKS);
      assert if s.Candidate(lo) then a == [lo] + b else a == b;
    }
  }

  lemma RoundEnds(s: Sched)
    requires s.Ok() && s.NextTask() != -1 && Serves(s, Cyclic(s))
    ensures var f := After(s, TotalWeight(s, Cyclic(s))); SameTasks(s, f) && f.NextTask() != -1 && Switches(f)
  {
    hide Sched.Candidate, Switches, Sched.Top, SameReady, Done, After, TotalWeight;
    var o := Cyclic(s);
    var f := After(s, TotalWeight(s, o));
    ServedSame(s, o, f);
    NextTaskIff(s);
    CyclicOnce(s);
    assert s.NextTask() in o;
    DoneSwitches(f, o[|o| - 1]);
  }

  /** The other case: the current task still has slice left. It is dispatched for exactly what is left of its slice,
      and then the next call switches. */
  lemma FirstTurn(s: Sched)
    requires s.Ok() && s.NextTask() != -1 && !Switches(s)
    ensures 0 <= s.current && s.used < s.slice[s.current]
    ensures var left := s.slice[s.current] - s.used; var t := After(s, left);
      && Trace(s, left) == Repeat(Task(s.current), left)
      && SameTasks(s, t) && t.current == s.current && t.NextTask() != -1 && Switches(t)
  {
    var c := s.current;
    LeftOver(s);
    ScheduleDispatchesLeast(s);
    ScheduleSameTasks(s);
    var t := Schedule(s).0;
    SameCandidates(s, t, 0);
    var left := s.slice[c] - s.used;
    hide Schedule, Sched.Candidate, Sched.NextTask, Switches;
    HoldSlice(t, c, left - 1);
    SameTasksTrans(s, t, After(t, left - 1));
    DoneSwitches(After(s, left), c);
  }

  lemma LeftOver(s: Sched)
    requires s.Ok() && s.NextTask() != -1 && !Switches(s)
    ensures 0 <= s.current && s.Candidate(s.current) && s.used < s.slice[s.current]
  {
    NextTaskIff(s);
    CandidateIff(s, s.NextTask());
  }

  // ---------- How often each task is dispatched ----------

  function Count(r: seq<Dispatch>, d: Dispatch): nat {
    if r == [] then 0 else (if r[0] == d then 1 else 0) + Count(r[1..], d)
  }

  lemma {:induction false} CountConcat(a: seq<Dispatch>, b: seq<Dispatch>, d: Dispatch)
    ensures Count(a + b, d) == Count(a, d) + Count(b, d)
    decreases |a|
  {
    if a == [] {
      assert a + b == b;
    } else {
      assert (a + b)[1..] == a[1..] + b;
      CountConcat(a[1..], b, d);
    }
  }

  lemma {:induction false} CountRepeat(x: Dispatch, n: nat, d: Dispatch)
    ensures Count(Repeat(x, n), d) == if x == d then n else 0
    decreases n
  {
    if n == 0 {
    } else {
      assert Repeat(x, n)[1..] == Repeat(x, n - 1);
      CountRepeat(x, n - 1, d);
    }
  }

  /** In the blocks of distinct tasks every task occurs exactly for its weight, any other not at all. */
  lemma {:induction false} BlockCount(s: Sched, order: seq<nat>, c: nat)
    requires forall k :: 0 <= k < |order| ==> order[k] < |s.slice|
    requires forall j, k :: 0 <= j < k < |order| ==> order[j] != order[k]
    requires c < |s.slice|
    ensures Count(Blocks(s, order), Task(c)) == if c in order then Weight(s, c) else 0
    decreases |order|
  {
    if order == [] {
    } else {
      var x := order[0];
      CountConcat(Repeat(Task(x), Weight(s, x)), Blocks(s, order[1..]), Task(c));
      CountRepeat(Task(x), Weight(s, x), Task(c));
      BlockCount(s, order[1..], c);
      assert c in order <==> c == x || c in order[1..];
      assert forall k :: 0 <= k < |order| - 1 ==> order[1..][k] != x;
    }
  }

  /** In one round each candidate is dispatched exactly max(1, slice) times and no other task at all. */
  lemma RoundCounts(s: Sched, c: nat)
    requires s.Ok() && s.NextTask() != -1 && Switches(s) && c < MAX_TASKS
    ensures forall k :: 0 <= k < |Cyclic(s)| ==> Cyclic(s)[k] < MAX_TASKS
    ensures Count(Trace(s, TotalWeight(s, Cyclic(s))), Task(c)) == if s.Candidate(c) then Weight(s, c) else 0
  {
    hide Sched.Candidate, Sched.NextTask, Switches, Trace, Count, Blocks, Weight;
    WeightedRoundRobin(s);
    CyclicOnce(s);
    BlockCount(s, Cyclic(s), c);
  }

  // ---------- Task creation, yield and exit; runs ----------

  /** The slot is empty or its task has exited. */
  predicate IsFree(s: Sched, i: nat)
    requires i < |s.status|
  {
    s.status[i] == EMPTY || s.status[i] == EXITED
  }

  /** The lowest free slot from lo on, or -1. */
  function FreeSlot(s: Sched, lo: nat): (r: int)
    requires s.Shaped() && lo <= MAX_TASKS
    ensures -1 <= r < MAX_TASKS
    ensures r == -1 ==> forall i :: lo <= i < MAX_TASKS ==> !IsFree(s, i)
    ensures r != -1 ==> lo <= r && IsFree(s, r) && forall i :: lo <= i < r ==> !IsFree(s, i)
    decreases MAX_TASKS - lo
  {
    if lo == MAX_TASKS then -1 else if IsFree(s, lo) then lo else FreeSlot(s, lo + 1)
  }

  /** task_create: the new table and the return value. */
  function CreateTask(s: Sched, prio: nat, slice: nat): (Sched, int)
    requires s.Shaped()
  {
    var i := FreeSlot(s, 0);
    if i == -1 then (s, -1)
    else (s.(status := s.status[i := READY], prio := s.prio[i := prio], slice := s.slice[i := slice]), 0)
  }

  /** The scheduler and the context that runs. */
  datatype Kernel = Kernel(sched: Sched, running: Dispatch)

  /** What can happen: a task is created; a timer or software interrupt; the running task yields or exits,
      either of which raises a software interrupt. */
  datatype Op = AddTask(prio: nat, slice: nat) | Interrupt | Yield | Exit

  predicate Enabled(k: Kernel, op: Op)
    requires k.sched.Ok()
  {
    match op
    case AddTask(prio, slice) => prio <= LOWEST_PRIORITY
    case Interrupt => true
    case Yield => k.running.Task? && k.running.id == k.sched.current
    case Exit => k.running.Task? && k.running.id == k.sched.current
  }

  function SetCurrent(s: Sched, st: Status): Sched
    requires 0 <= s.current < |s.status|
  {
    s.(status := s.status[s.current := st])
  }

  function Step(k: Kernel, op: Op): Kernel
    requires k.sched.Ok() && Enabled(k, op)
  {
    match op
    case AddTask(prio, slice) => k.(sched := CreateTask(k.sched, prio, slice).0)
    case Interrupt => var (s, d) := Schedule(k.sched); Kernel(s, d)
    case Yield => var (s, d) := Schedule(SetCurrent(k.sched, READY)); Kernel(s, d)
    case Exit => var (s, d) := Schedule(SetCurrent(k.sched, EXITED)); Kernel(s, d)
  }

  /** sched_init, before the first interrupt */
  function InitSched(): Sched {
    Sched(seq(MAX_TASKS, _ => EMPTY), seq(MAX_TASKS, _ => LOWEST_PRIORITY), seq(MAX_TASKS, _ => 0), -1, 0)
  }

  /** A running task is the current one and has status RUNNING. */
  predicate Inv(k: Kernel) {
    k.sched.Ok() && (k.running.Task? ==> k.running.id == k.sched.current && k.sched.status[k.sched.current] == RUNNING)
  }

  /** Every step keeps the invariant; after every step that schedules, the running task is a schedulable
      task of least priority number, or the kernel idles because nothing is schedulable. */
  lemma StepKeepsInv(k: Kernel, op: Op)
    requires Inv(k) && Enabled(k, op)
    ensures Inv(Step(k, op))
    ensures !op.AddTask? ==>
      var n := Step(k, op);
      && (n.running.Idle? <==> forall i :: 0 <= i < MAX_TASKS ==> !n.sched.Schedulable(i))
      && (n.running.Task? ==> forall i :: 0 <= i < MAX_TASKS && n.sched.Schedulable(i) ==>
            n.sched.prio[n.running.id] <= n.sched.prio[i])
  {
    match op
    case AddTask(prio, slice) =>
      var i := FreeSlot(k.sched, 0);
    case Interrupt => ScheduledNow(k.sched);
    case Yield => ScheduledNow(SetCurrent(k.sched, READY));
    case Exit => ScheduledNow(SetCurrent(k.sched, EXITED));
  }

  lemma ScheduledNow(s: Sched)
    requires s.Ok()
    ensures var (t, d) := Schedule(s);
      && Inv(Kernel(t, d))
      && (d.Idle? <==> forall i :: 0 <= i < MAX_TASKS ==> !t.Schedulable(i))
      && (d.Task? ==> forall i :: 0 <= i < MAX_TASKS && t.Schedulable(i) ==> t.prio[d.id] <= t.prio[i])
  {
    ScheduleDispatchesLeast(s);
    ScheduleSameTasks(s);
    var (t, d) := Schedule(s);
    if d.Task? { CandidateIff(s, d.id); }
  }

  /** Which tasks are schedulable after a step: creation adds the lowest free slot, with the priority and slice
      given, and fails exactly when there is none; exit removes the running task; nothing else changes. */
  lemma SchedulableAfter(k: Kernel, op: Op, i: nat)
    requires Inv(k) && Enabled(k, op) && i < MAX_TASKS
    ensures Step(k, op).sched.Shaped()
    ensures Step(k, op).sched.Schedulable(i) <==>
      || (op.AddTask? && i == FreeSlot(k.sched, 0))
      || (k.sched.Schedulable(i) && !(op.Exit? && i == k.running.id))
    ensures op.AddTask? ==>
      (CreateTask(k.sched, op.prio, op.slice).1 == -1 <==> forall j :: 0 <= j < MAX_TASKS ==> !IsFree(k.sched, j))
    ensures var n := Step(k, op).sched;
      if op.AddTask? && i == FreeSlot(k.sched, 0) then n.prio[i] == op.prio && n.slice[i] == op.slice
      else n.prio[i] == k.sched.prio[i] && n.slice[i] == k.sched.slice[i]
  {
    hide Schedule;
    match op
    case AddTask(prio, slice) =>
    case Interrupt => ScheduleSameTasks(k.sched);
    case Yield => ScheduleSameTasks(SetCurrent(k.sched, READY));
    case Exit => ScheduleSameTasks(SetCurrent(k.sched, EXITED));
  }

  /** A yield goes on with the very task that yields if and only if that is a candidate and has slice left or is
      the only one. */
  lemma YieldKeepsIff(k: Kernel)
    requires Inv(k) && Enabled(k, Yield)
    ensures var s := k.sched; var c: nat := s.current;
      Step(k, Yield).running == k.running <==>
        s.Candidate(c) && (s.used < s.slice[c] || forall i :: 0 <= i < MAX_TASKS && i != c ==> !s.Candidate(i))
  {
    var s := SetCurrent(k.sched, READY);
    SameCandidates(k.sched, s, 0);
    ScheduleDispatchesLeast(s);
    NextTaskIff(s);
  }

  /** While the kernel idles the slot of the task that exited last stays the current one. A task created in it
      begins with what that task left of the counter: its first turn has slice - used calls when that is
      positive, a whole slice otherwise. */
  lemma ReusedSlot(s: Sched, prio: nat, slice: nat)
    requires s.Ok() && s.NextTask() == -1 && 0 <= s.current && FreeSlot(s, 0) == s.current && prio <= LOWEST_PRIORITY
    ensures var t := CreateTask(s, prio, slice).0; var c := s.current;
      && t.Ok() && t.current == c && t.slice[c] == slice && t.used == s.used && t.NextTask() == c
      && var n := if s.used < slice then slice - s.used else Weight(t, c);
      Trace(t, n) == Repeat(Task(c), n) && After(t, n).NextTask() != -1 && Switches(After(t, n))
  {
    hide Sched.NextTask, Sched.Top, Sched.CandidateFrom, Sched.Candidate, FreeSlot, CreateTask, Trace, After, Schedule,
      Switches, Repeat, Sched.Schedulable;
    var t := CreateTask(s, prio, slice).0;
    CreatedAlone(s, prio, slice);
    OnlyOne(t);
    AloneTurn(t);
  }

  /** With nothing schedulable, a task created in the current slot is the only schedulable one. */
  lemma CreatedAlone(s: Sched, prio: nat, slice: nat)
    requires s.Ok() && s.NextTask() == -1 && 0 <= s.current && FreeSlot(s, 0) == s.current && prio <= LOWEST_PRIORITY
    ensures var t := CreateTask(s, prio, slice).0; var c := s.current;
      && t.Ok() && t.current == c && t.slice[c] == slice && t.used == s.used
      && forall i :: 0 <= i < MAX_TASKS ==> (t.Schedulable(i) <==> i == c)
  {
    hide Sched.NextTask, Sched.Top, Sched.CandidateFrom, Sched.Candidate;
    NextTaskIff(s);
    var t := CreateTask(s, prio, slice).0;
    assert t.status == s.status[s.current := READY] && t.prio == s.prio[s.current := prio];
    assert forall i :: 0 <= i < MAX_TASKS && i != s.current ==> t.Schedulable(i) == s.Schedulable(i);
  }

  lemma OnlyOne(t: Sched)
    requires t.Ok() && 0 <= t.current && forall i :: 0 <= i < MAX_TASKS ==> (t.Schedulable(i) <==> i == t.current)
    ensures t.NextTask() == t.current
  {
    NextTaskIff(t);
    hide Sched.NextTask, Sched.Top;
  }

  /** The turn of the current task when it is also the next one. */
  lemma AloneTurn(t: Sched)
    requires t.Ok() && 0 <= t.current && t.NextTask() == t.current
    ensures var c := t.current; var n := if t.used < t.slice[c] then t.slice[c] - t.used else Weight(t, c);
      Trace(t, n) == Repeat(Task(c), n) && After(t, n).NextTask() != -1 && Switches(After(t, n))
  {
    var c := t.current;
    NextTaskIff(t);
    hide Sched.NextTask, Trace, After, Schedule, SameReady, Done;
    if t.used < t.slice[c] {
      assert !Switches(t);
      FirstTurn(t);
    } else {
      assert Switches(t);
      Block(t, c);
      DoneSwitches(After(t, Weight(t, c)), c);
    }
  }

  /** k follows from sched_init by enabled steps. */
  ghost predicate Reached(ops: seq<Op>, k: Kernel)
    decreases |ops|
  {
    if ops == [] then k == Kernel(InitSched(), Idle)
    else
      var op := ops[|ops| - 1];
      exists j :: Reached(ops[..|ops| - 1], j) && j.sched.Ok() && Enabled(j, op) && k == Step(j, op)
  }

  /** The invariant holds in every reachable state, slot reuse after exit included. */
  lemma {:induction false} EveryRunKeepsInv(ops: seq<Op>, k: Kernel)
    requires Reached(ops, k)
    ensures Inv(k)
    decreases |ops|
  {
    if ops == [] {
    } else {
      var op := ops[|ops| - 1];
      var j :| Reached(ops[..|ops| - 1], j) && j.sched.Ok() && Enabled(j, op) && k == Step(j, op);
      EveryRunKeepsInv(ops[..|ops| - 1], j);
      StepKeepsInv(j, op);
    }
  }

  // ---------- The scheduler's variables ----------

  class Scheduler {
    const taskStatus: array<Status>
    const taskPrio: array<nat>
    const taskSlice: array<nat>
    var current: int
    var used: nat

    ghost function Model(): Sched
      reads this, taskStatus, taskPrio, taskSlice
    {
      Sched(taskStatus[..], taskPrio[..], taskSlice[..], current, used)
    }

    ghost predicate Valid()
      reads this, taskStatus, taskPrio, taskSlice
    {
      taskPrio != taskSlice && Model().Shaped()
    }

    /** sched_init */
    constructor ()
      ensures Valid() && Model() == InitSched() && fresh(taskStatus) && fresh(taskPrio) && fresh(taskSlice)
      ensures current == -1 && forall i :: 0 <= i < MAX_TASKS ==> taskStatus[i] == EMPTY
    {
      taskStatus := new Status[MAX_TASKS];
      taskPrio := new nat[MAX_TASKS];
      taskSlice := new nat[MAX_TASKS];
      current, used := -1, 0;
      new;
      for i := 0 to MAX_TASKS
        invariant taskStatus.Length == taskPrio.Length == taskSlice.Length == MAX_TASKS
        invariant current == -1 && used == 0 && taskPrio != taskSlice
        invariant fresh(taskStatus) && fresh(taskPrio) && fresh(taskSlice)
        invariant forall j :: 0 <= j < i ==>
          taskStatus[j] == EMPTY && taskPrio[j] == LOWEST_PRIORITY && taskSlice[j] == 0
      {
        taskStatus[i] := EMPTY;
        taskPrio[i] := LOWEST_PRIORITY;
        taskSlice[i] := 0;
      }
      assert taskStatus[..] == InitSched().status;
      assert taskPrio[..] == InitSched().prio && taskSlice[..] == InitSched().slice;
    }

    /** task_schedulable */
    predicate CanRun(i: nat)
      requires i < taskStatus.Length
      reads taskStatus
    {
      taskStatus[i] == READY || taskStatus[i] == RUNNING
    }

    /** The first loop of find_next_task_id. */
    method HighestPriority() returns (p: nat)
      requires Valid()
      ensures p == Model().Top(MAX_TASKS)
    {
      p := LOWEST_PRIORITY;
      for i := 0 to MAX_TASKS
        invariant p == Model().Top(i)
      {
        if CanRun(i) && taskPrio[i] < p {
          p := taskPrio[i];
        }
      }
    }

    /** find_next_task_id: behind the current task first, then from the start. */
    method FindNextTaskId() returns (next: int)
      requires Valid()
      ensures next == Model().NextTask()
    {
      var p := HighestPriority();
      next := FindBehind(p, current);
      if next == -1 {
        next := FindBehind(p, -1);
      }
    }

    /** A scan for the first candidate with an id above from. */
    method FindBehind(p: nat, from: int) returns (next: int)
      requires Valid() && p == Model().Top(MAX_TASKS) && -1 <= from < MAX_TASKS
      ensures next == Model().CandidateFrom(from + 1)
    {
      ghost var m := Model();
      for i := 0 to MAX_TASKS
        invariant forall j :: from < j < i ==> !m.Candidate(j)
      {
        if CanRun(i) && taskPrio[i] == p {
          if i > from {
            assert m.Candidate(i);
            return i;
          }
        }
      }
      return -1;
    }

    /** schedule; the result is the context that switch_to continues. */
    method ScheduleTask() returns (d: Dispatch)
      requires Valid() && Model().Ok()
      modifies this, taskStatus
      ensures Valid() && Model().Ok() && (Model(), d) == Schedule(old(Model()))
    {
      ghost var m := Model();
      ScheduleDispatchesLeast(m);
      var next := FindNextTaskId();
      if next == -1 {
        return Idle;
      }
      if current == -1 || taskStatus[current] == EXITED {
        current, used := next, 1;
      } else if taskPrio[next] < taskPrio[current]
                || (taskPrio[next] == taskPrio[current] && taskSlice[current] <= used) {
        current, used := next, 1;
      } else {
        used := used + 1;
      }
      taskStatus[current] := RUNNING;
      d := Task(current);
      assert taskStatus[..] == m.status[current := RUNNING];
      assert taskPrio[..] == m.prio && taskSlice[..] == m.slice;
    }

    /** task_create */
    method TaskCreate(prio: nat, slice: nat) returns (ret: int)
      requires Valid() && prio <= LOWEST_PRIORITY
      modifies taskStatus, taskPrio, taskSlice
      ensures Valid() && (Model(), ret) == CreateTask(old(Model()), prio, slice)
      ensures ret == (if exists i :: 0 <= i < MAX_TASKS && old(taskStatus[i]) in {EMPTY, EXITED} then 0 else -1)
    {
      ghost var m := Model();
      var id := -1;
      for i := 0 to MAX_TASKS
        invariant id == -1 && forall j :: 0 <= j < i ==> !IsFree(m, j)
      {
        if taskStatus[i] == EMPTY || taskStatus[i] == EXITED {
          id := i;
          break;
        }
      }
      assert id == FreeSlot(m, 0);
      if id == -1 {
        return -1;
      }
      taskStatus[id] := READY;
      taskPrio[id] := prio;
      taskSlice[id] := slice;
      ret := 0;
      assert taskStatus[..] == m.status[id := READY];
      assert taskPrio[..] == m.prio[id := prio] && taskSlice[..] == m.slice[id := slice];
    }

    /** task_yield, up to the software interrupt it raises */
    method TaskYield()
      requires Valid() && 0 <= current
      modifies taskStatus
      ensures Valid() && Model() == SetCurrent(old(Model()), READY)
    {
      taskStatus[current] := READY;
      assert taskStatus[..] == old(taskStatus[..])[current := READY];
    }

    /** task_exit, up to the software interrupt it raises */
    method TaskExit()
      requires Valid() && 0 <= current
      modifies taskStatus
      ensures Valid() && Model() == SetCurrent(old(Model()), EXITED)
    {
      taskStatus[current] := EXITED;
      assert taskStatus[..] == old(taskStatus[..])[current := EXITED];
    }
  }
}
