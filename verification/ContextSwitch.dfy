/** Preemption, system calls and round robin over the trap code: every task sees a run of its own. */
module ContextSwitch {
  import opened TrapCode

  const MAX_TASKS := 10
  const STACK_SIZE := 1024
  const SYS_GETHID := 1
  const HART_ID: Word := 0  // start.S parks all other harts
  const MINUS_ONE: Word := WORDS - 1

  /** The hart with _top, _current and the addresses of ctx_tasks and task_stack. */
  datatype Kernel = Kernel(hart: Hart, top: nat, current: int, contexts: nat, stacks: nat) {

    predicate Shaped() {
      && |hart.x| == REGS && -1 <= current < top <= MAX_TASKS
      && contexts + CONTEXT_SIZE * MAX_TASKS <= WORDS && stacks + STACK_SIZE * MAX_TASKS < WORDS
    }

    /** &ctx_tasks[t] */
    function Context(t: nat): (a: Word)
      requires Shaped() && t < MAX_TASKS
      ensures contexts <= a && a + CONTEXT_SIZE <= contexts + CONTEXT_SIZE * MAX_TASKS
    {
      contexts + CONTEXT_SIZE * t
    }

    /** What task t sees when it next runs. */
    function ViewOf(t: nat): (v: View)
      requires Shaped() && t < MAX_TASKS
      ensures |v.regs| == OWN
    {
      if t == current then Live(hart) else Saved(hart, Context(t))
    }
  }

  // ---------- schedule, task_create, do_syscall, trap_handler ----------

  /** schedule up to the mret of switch_to */
  function Schedule(k: Kernel): Kernel
    requires k.Shaped() && k.top > 0
  {
    var n := (k.current + 1) % k.top;
    k.(current := n, hart := ExecAll(k.hart.SetReg(A0, k.Context(n)), SWITCH_TO))
  }

  /** task_create: the new state and the return value. */
  function CreateTask(k: Kernel, pc: Word): (Kernel, int)
    requires k.Shaped()
  {
    if k.top < MAX_TASKS then
      var a := k.Context(k.top);
      var sp: Word := k.stacks + STACK_SIZE * (k.top + 1);
      (k.(top := k.top + 1, hart := k.hart.(mem := k.hart.mem[a + Slot(1) := sp][a + PC_SLOT := pc])), 0)
    else (k, -1)
  }

  /** Where struct context holds a0 and a7. */
  const A0_SLOT := 36
  const A7_SLOT := 64

  /** do_syscall with sys_gethid; a null pointer and an unknown number give -1. */
  function DoSyscall(h: Hart, cxt: Word): Hart {
    if h.Read(cxt + A7_SLOT) == SYS_GETHID then
      var p := h.Read(cxt + A0_SLOT);
      if p == 0 then h.(mem := h.mem[cxt + A0_SLOT := MINUS_ONE])
      else h.(mem := h.mem[p := HART_ID][cxt + A0_SLOT := 0])
    else h.(mem := h.mem[cxt + A0_SLOT := MINUS_ONE])
  }

  datatype Outcome = Reschedule | Resume | Syscall | Panic

  /** What trap_handler does for a value of mcause. */
  function Handle(cause: Word): Outcome {
    var code := cause % 0x1000;
    if cause >= 0x8000_0000 then if code == 3 || code == 7 then Reschedule else Resume
    else if code == 8 then Syscall else Panic
  }

  /** A trap from the running task to the mret that ends it; the registers are arbitrary after the C code. */
  function Trap(k: Kernel, cause: Word, clobber: seq<Word>): Kernel
    requires k.Shaped() && k.top > 0 && |clobber| == REGS
  {
    Handled(k, ExecAll(k.hart.(mepc := k.hart.pc, mcause := cause), TRAP_ENTRY), cause, clobber)
  }

  /** The part behind the entry, with the hart h in which trap_handler is called. */
  function Handled(k: Kernel, h: Hart, cause: Word, clobber: seq<Word>): Kernel
    requires k.Shaped() && k.top > 0 && |clobber| == REGS
  {
    var epc, cxt := h.Reg(A0), h.Reg(A2);
    match Handle(cause)
    case Reschedule => Schedule(k.(hart := h.(x := clobber)))
    case Resume => k.(hart := ExecAll(h.(x := clobber[A0 := epc]), TRAP_EXIT))
    case Syscall =>
      k.(hart := ExecAll(DoSyscall(h, cxt).(x := clobber[A0 := (epc + 4) % WORDS]), TRAP_EXIT))
    case Panic => k.(hart := h)
  }

  // ---------- Runs ----------

  /** The running task executes an instruction with any effect on its own registers and pc; a trap; the
      creation of a task; the first schedule at the end of start_kernel. */
  datatype Event =
    | Act(f: View -> View)
    | TrapTaken(cause: Word, clobber: seq<Word>)
    | Spawn(pc: Word)
    | Boot(clobber: seq<Word>)

  /** A pointer given to sys_gethid does not point into the kernel's contexts. */
  predicate PointerOk(k: Kernel, v: View)
    requires |v.regs| == OWN
  {
    v.regs[A7_OWN] != SYS_GETHID || v.regs[A0_OWN] == 0
    || v.regs[A0_OWN] + 4 <= k.contexts || k.contexts + CONTEXT_SIZE * MAX_TASKS <= v.regs[A0_OWN]
  }

  predicate Enabled(k: Kernel, e: Event)
    requires k.Shaped()
  {
    match e
    case Act(f) => k.current >= 0 && |f(Live(k.hart)).regs| == OWN
    case TrapTaken(cause, clobber) =>
      && k.current >= 0 && |clobber| == REGS && !Handle(cause).Panic?
      && (Handle(cause).Syscall? ==> PointerOk(k, Live(k.hart)))
    case Spawn(pc) => true
    case Boot(clobber) => k.current == -1 && k.top > 0 && |clobber| == REGS
  }

  /** The hart with the view put into its registers. */
  function Put(h: Hart, v: View): Hart
    requires |h.x| == REGS && |v.regs| == OWN
  {
    h.(x := seq(REGS, r requires 0 <= r < REGS =>
                  if r == 1 || r == 2 then v.regs[r - 1] else if 5 <= r then v.regs[r - 3] else h.x[r]),
       pc := v.pc)
  }

  function Step(k: Kernel, e: Event): Kernel
    requires k.Shaped() && Enabled(k, e)
  {
    match e
    case Act(f) => k.(hart := Put(k.hart, f(Live(k.hart))))
    case TrapTaken(cause, clobber) => Trap(k, cause, clobber)
    case Spawn(pc) => CreateTask(k, pc).0
    case Boot(clobber) => Schedule(k.(hart := k.hart.(x := clobber)))
  }

  /** mscratch points to the context of the running task; contexts not yet created are clear. */
  ghost predicate Inv(k: Kernel) {
    && k.Shaped()
    && (k.current >= 0 ==> k.hart.mscratch == k.Context(k.current))
    && forall b :: k.contexts + CONTEXT_SIZE * k.top <= b < k.contexts + CONTEXT_SIZE * MAX_TASKS ==>
         k.hart.Read(b) == 0
  }

  // ---------- What an event means for one task ----------

  /** The places of a0 and a7 among the own registers. */
  const A0_OWN := 7
  const A7_OWN := 14

  /** An own step of a task: an instruction, or a system call. */
  datatype OwnStep = Does(f: View -> View) | Call

  /** A system call changes a0 and moves the pc behind the ecall. */
  function Returned(v: View): View
    requires |v.regs| == OWN
  {
    var ret: Word := if v.regs[A7_OWN] == SYS_GETHID && v.regs[A0_OWN] != 0 then 0 else MINUS_ONE;
    View(v.regs[A0_OWN := ret], (v.pc + 4) % WORDS)
  }

  /** A run of one task alone. */
  function Solo(v: View, steps: seq<OwnStep>): View
    decreases |steps|
  {
    if steps == [] then v
    else
      match steps[0]
      case Does(f) => Solo(f(v), steps[1..])
      case Call => if |v.regs| == OWN then Solo(Returned(v), steps[1..]) else v
  }

  /** Which steps of its own task t makes in an event. */
  function OwnPart(k: Kernel, e: Event, t: nat): seq<OwnStep> {
    if t != k.current then []
    else
      match e
      case Act(f) => [Does(f)]
      case TrapTaken(cause, clobber) => if Handle(cause).Syscall? then [Call] else []
      case _ => []
  }

  // ---------- Memory of the contexts ----------

  lemma SavedSame(h: Hart, g: Hart, a: int)
    requires forall b :: a <= b < a + CONTEXT_SIZE ==> h.Read(b) == g.Read(b)
    ensures Saved(h, a) == Saved(g, a)
  {
    SlotsAscend();
    forall i | 0 <= i < OWN ensures Saved(h, a).regs[i] == Saved(g, a).regs[i] {
      assert h.Read(a + Slot(i)) == g.Read(a + Slot(i));
    }
  }

  lemma LivePut(h: Hart, v: View)
    requires |h.x| == REGS && |v.regs| == OWN
    ensures Live(Put(h, v)) == v
  {
  }

  /** The trap entry saves the running task and leaves the contexts of all others alone. */
  lemma EntryViews(k: Kernel, cause: Word, t: nat)
    requires Inv(k) && 0 <= k.current && t < MAX_TASKS
    ensures var h := ExecAll(k.hart.(mepc := k.hart.pc, mcause := cause), TRAP_ENTRY);
      && Saved(h, k.Context(t)) == k.ViewOf(t) && h.mscratch == k.Context(k.current)
      && |h.x| == REGS && h.Reg(A0) == k.hart.pc && h.Reg(A2) == k.Context(k.current)
      && SameElsewhere(k.hart, h, k.Context(k.current))
  {
    var h0 := k.hart.(mepc := k.hart.pc, mcause := cause);
    EntrySaves(h0, k.Context(k.current));
    var h := ExecAll(h0, TRAP_ENTRY);
    hide ExecAll, TRAP_ENTRY;
    assert Live(h0).regs == Live(k.hart).regs;
    forall b | !(k.Context(k.current) <= b < k.Context(k.current) + CONTEXT_SIZE) ensures k.hart.Read(b) == h.Read(b) {
      assert h0.Read(b) == h.Read(b);
    }
    if t != k.current {
      SavedSame(k.hart, h, k.Context(t));
    }
  }

  lemma ScheduleViews(k: Kernel, t: nat)
    requires k.Shaped() && k.top > 0 && t < k.top
    ensures var n := Schedule(k);
      && n.Shaped() && n.top == k.top && n.contexts == k.contexts
      && n.current == (k.current + 1) % k.top && n.hart.mscratch == n.Context(n.current)
      && n.hart.mem == k.hart.mem && n.ViewOf(t) == Saved(k.hart, k.Context(t))
  {
    var c := (k.current + 1) % k.top;
    var h := k.hart.SetReg(A0, k.Context(c));
    SwitchRestores(h);
    hide ExecAll, SWITCH_TO;
    var n := Schedule(k);
    SavedSame(k.hart, h, k.Context(c));
    SavedSame(k.hart, n.hart, k.Context(t));
  }

  // ---------- Every event keeps the invariant and means its own part for each task ----------

  ghost predicate Transparent(k: Kernel, n: Kernel, t: nat, own: seq<OwnStep>)
    requires Inv(k) && t < k.top
  {
    Inv(n) && k.top <= n.top && n.ViewOf(t) == Solo(k.ViewOf(t), own)
  }

  lemma ActTransparent(k: Kernel, f: View -> View, t: nat)
    requires Inv(k) && Enabled(k, Act(f)) && t < k.top
    ensures Transparent(k, Step(k, Act(f)), t, OwnPart(k, Act(f), t))
  {
    LivePut(k.hart, f(Live(k.hart)));
    var n := Step(k, Act(f));
    assert forall b :: n.hart.Read(b) == k.hart.Read(b);
    if t != k.current { SavedSame(k.hart, n.hart, k.Context(t)); }
  }

  lemma BootTransparent(k: Kernel, clobber: seq<Word>, t: nat)
    requires Inv(k) && Enabled(k, Boot(clobber)) && t < k.top
    ensures Transparent(k, Step(k, Boot(clobber)), t, OwnPart(k, Boot(clobber), t))
  {
    var m := k.(hart := k.hart.(x := clobber));
    ScheduleViews(m, t);
    SavedSame(k.hart, m.hart, k.Context(t));
    assert forall b :: Schedule(m).hart.Read(b) == k.hart.Read(b);
  }

  lemma SpawnTransparent(k: Kernel, pc: Word, t: nat)
    requires Inv(k) && t < k.top
    ensures Transparent(k, Step(k, Spawn(pc)), t, OwnPart(k, Spawn(pc), t))
  {
    var n := Step(k, Spawn(pc));
    SlotsAscend();
    SpawnInv(k, pc);
    hide Inv;
    if t != k.current { SavedSame(k.hart, n.hart, k.Context(t)); }
  }

  /** After the trap entry a reschedule changes no task's view. */
  lemma RescheduleTransparent(k: Kernel, cause: Word, clobber: seq<Word>, t: nat)
    requires Inv(k) && Enabled(k, TrapTaken(cause, clobber)) && Handle(cause).Reschedule? && t < k.top
    ensures Transparent(k, Trap(k, cause, clobber), t, [])
  {
    EntryViews(k, cause, t);
    hide ExecAll, TRAP_ENTRY, Schedule;
    var h := ExecAll(k.hart.(mepc := k.hart.pc, mcause := cause), TRAP_ENTRY);
    var m := k.(hart := h.(x := clobber));
    ScheduleViews(m, t);
    SavedSame(h, m.hart, k.Context(t));
    assert forall b :: Schedule(m).hart.Read(b) == h.Read(b);
    StillClear(k, Schedule(m));
    assert Trap(k, cause, clobber) == Schedule(m);
    assert Saved(m.hart, m.Context(t)) == Saved(h, k.Context(t));
    NothingOwn(k, Schedule(m), t);
  }

  lemma NothingOwn(k: Kernel, n: Kernel, t: nat)
    requires Inv(k) && t < k.top && Inv(n) && n.top == k.top && n.ViewOf(t) == k.ViewOf(t)
    ensures Transparent(k, n, t, [])
  {
  }

  lemma StillClear(k: Kernel, n: Kernel)
    requires Inv(k) && 0 <= k.current && n.Shaped() && n.contexts == k.contexts && n.top == k.top
    requires n.current >= 0 && n.hart.mscratch == n.Context(n.current)
    requires SameElsewhere(k.hart, n.hart, k.Context(k.current))
    ensures Inv(n)
  {
    forall b | k.contexts + CONTEXT_SIZE * k.top <= b < k.contexts + CONTEXT_SIZE * MAX_TASKS
      ensures n.hart.Read(b) == 0
    {
      assert n.hart.Read(b) == k.hart.Read(b);
    }
  }

  /** An interrupt that does not reschedule resumes the task as it was. */
  lemma ResumeTransparent(k: Kernel, cause: Word, clobber: seq<Word>, t: nat)
    requires Inv(k) && Enabled(k, TrapTaken(cause, clobber)) && Handle(cause).Resume? && t < k.top
    ensures Transparent(k, Trap(k, cause, clobber), t, [])
  {
    EntryViews(k, cause, t);
    EntryViews(k, cause, k.current);
    hide ExecAll, TRAP_ENTRY, TRAP_EXIT;
    var h := ExecAll(k.hart.(mepc := k.hart.pc, mcause := cause), TRAP_ENTRY);
    var m := h.(x := clobber[A0 := k.hart.pc]);
    ExitRestores(m);
    var n := Trap(k, cause, clobber);
    SavedSame(h, m, k.Context(k.current));
    SavedSame(h, n.hart, k.Context(t));
    assert forall b :: n.hart.Read(b) == h.Read(b);
    StillClear(k, n);
  }

  /** The context of the caller after do_syscall: a0 holds the result, and no other word of the table changes. */
  lemma SyscallContext(k: Kernel, h: Hart, cxt: Word, v: View)
    requires k.Shaped() && 0 <= k.current && cxt == k.Context(k.current) && Saved(h, cxt) == v && PointerOk(k, v)
    ensures var g := DoSyscall(h, cxt);
      && Saved(g, cxt).regs == Returned(v).regs
      && g.Read(cxt + A0_SLOT) == Returned(v).regs[A0_OWN]
      && g == h.(mem := g.mem)
      && forall b :: k.contexts <= b < k.contexts + CONTEXT_SIZE * MAX_TASKS && b != cxt + A0_SLOT ==>
           g.Read(b) == h.Read(b)
  {
    SlotsAscend();
    var g := DoSyscall(h, cxt);
    assert v.regs[A0_OWN] == h.Read(cxt + Slot(A0_OWN)) && v.regs[A7_OWN] == h.Read(cxt + Slot(A7_OWN));
    forall i | 0 <= i < OWN ensures Saved(g, cxt).regs[i] == Returned(v).regs[i] {
      assert Saved(g, cxt).regs[i] == g.Read(cxt + Slot(i)) && v.regs[i] == h.Read(cxt + Slot(i));
      assert i != A0_OWN ==> Slot(i) != A0_SLOT;
    }
  }

  /** The state after a system call: the caller resumes with its result. */
  lemma SyscallState(k: Kernel, cause: Word, clobber: seq<Word>)
    requires Inv(k) && Enabled(k, TrapTaken(cause, clobber)) && Handle(cause).Syscall?
    ensures var n := Trap(k, cause, clobber); var cxt := k.Context(k.current);
      && n == k.(hart := n.hart) && |n.hart.x| == REGS && n.hart.mscratch == cxt
      && Live(n.hart) == Returned(Live(k.hart))
      && forall b :: k.contexts <= b < k.contexts + CONTEXT_SIZE * MAX_TASKS && !(cxt <= b < cxt + CONTEXT_SIZE) ==>
           n.hart.Read(b) == k.hart.Read(b)
  {
    EntryViews(k, cause, k.current);
    var v := Live(k.hart);
    hide ExecAll, TRAP_ENTRY, TRAP_EXIT, DoSyscall, Returned;
    var h := ExecAll(k.hart.(mepc := k.hart.pc, mcause := cause), TRAP_ENTRY);
    var cxt := k.Context(k.current);
    SyscallContext(k, h, cxt, v);
    var g := DoSyscall(h, cxt);
    var m := g.(x := clobber[A0 := (k.hart.pc + 4) % WORDS]);
    ExitRestores(m);
    SavedSame(g, m, cxt);
    ReturnedPc(v);
    var n := Trap(k, cause, clobber);
    forall b | k.contexts <= b < k.contexts + CONTEXT_SIZE * MAX_TASKS && !(cxt <= b < cxt + CONTEXT_SIZE)
      ensures n.hart.Read(b) == k.hart.Read(b)
    {
      assert g.Read(b) == h.Read(b) && k.hart.Read(b) == h.Read(b) && n.hart.Read(b) == g.Read(b);
    }
  }

  /** A system call changes a0 of the caller and its pc, and nothing of any other task. */
  lemma SyscallTransparent(k: Kernel, cause: Word, clobber: seq<Word>, t: nat)
    requires Inv(k) && Enabled(k, TrapTaken(cause, clobber)) && Handle(cause).Syscall? && t < k.top
    ensures Transparent(k, Trap(k, cause, clobber), t, OwnPart(k, TrapTaken(cause, clobber), t))
  {
    SyscallState(k, cause, clobber);
    hide Trap, Returned;
    var n := Trap(k, cause, clobber);
    ReturnedPc(Live(k.hart));
    if t != k.current { SavedSame(k.hart, n.hart, k.Context(t)); }
    forall b | k.contexts + CONTEXT_SIZE * k.top <= b < k.contexts + CONTEXT_SIZE * MAX_TASKS
      ensures n.hart.Read(b) == 0
    {
      assert n.hart.Read(b) == k.hart.Read(b);
    }
  }

  lemma ReturnedPc(v: View)
    requires |v.regs| == OWN
    ensures Returned(v).pc == (v.pc + 4) % WORDS && Solo(v, [Call]) == Returned(v)
  {
  }

  lemma StepTransparent(k: Kernel, e: Event, t: nat)
    requires Inv(k) && Enabled(k, e) && t < k.top
    ensures Transparent(k, Step(k, e), t, OwnPart(k, e, t))
  {
    hide Transparent, Trap, Schedule, CreateTask, Put;
    match e
    case Act(f) => ActTransparent(k, f, t);
    case TrapTaken(cause, clobber) =>
      match Handle(cause) {
        case Reschedule => RescheduleTransparent(k, cause, clobber, t);
        case Resume => ResumeTransparent(k, cause, clobber, t);
        case Syscall => SyscallTransparent(k, cause, clobber, t);
        case Panic => assert false;
      }
    case Spawn(pc) => SpawnTransparent(k, pc, t);
    case Boot(clobber) => BootTransparent(k, clobber, t);
  }

  /** Every event keeps mscratch at the context of the running task. */
  lemma StepKeepsInv(k: Kernel, e: Event)
    requires Inv(k) && Enabled(k, e)
    ensures Inv(Step(k, e))
  {
    if k.top > 0 {
      StepTransparent(k, e, 0);
      hide Inv, Step, Transparent, Enabled;
      TransparentInv(k, Step(k, e), OwnPart(k, e, 0));
    } else {
      SpawnInv(k, e.pc);
    }
  }

  // ---------- Whole runs ----------

  ghost predicate Allowed(k: Kernel, es: seq<Event>)
    decreases |es|
  {
    es == [] || (k.Shaped() && Enabled(k, es[0]) && Allowed(Step(k, es[0]), es[1..]))
  }

  ghost function Run(k: Kernel, es: seq<Event>): Kernel
    requires Allowed(k, es)
    decreases |es|
  {
    if es == [] then k else Run(Step(k, es[0]), es[1..])
  }

  /** The steps task t itself makes in a run. */
  ghost function OwnSteps(k: Kernel, es: seq<Event>, t: nat): seq<OwnStep>
    requires Allowed(k, es)
    decreases |es|
  {
    if es == [] then [] else OwnPart(k, es[0], t) + OwnSteps(Step(k, es[0]), es[1..], t)
  }

  /** Preemption is transparent: whatever the interleaving of instructions, interrupts, system calls and
      task creations, each task is in exactly the state that its own steps alone lead to. */
  lemma {:induction false} PreemptionIsTransparent(k: Kernel, es: seq<Event>, t: nat)
    requires Inv(k) && Allowed(k, es) && t < k.top
    ensures Inv(Run(k, es)) && t < Run(k, es).top
    ensures Run(k, es).ViewOf(t) == Solo(k.ViewOf(t), OwnSteps(k, es, t))
    decreases |es|
  {
    if es == [] {
    } else {
      StepTransparent(k, es[0], t);
      hide Step, Enabled;
      PreemptionIsTransparent(Step(k, es[0]), es[1..], t);
      SoloConcat(k.ViewOf(t), OwnPart(k, es[0], t), OwnSteps(Step(k, es[0]), es[1..], t));
    }
  }

  lemma SoloConcat(v: View, a: seq<OwnStep>, b: seq<OwnStep>)
    requires |a| <= 1 && |v.regs| == OWN
    ensures Solo(v, a + b) == Solo(Solo(v, a), b)
  {
    if a == [] {
      assert a + b == b;
    } else {
      assert (a + b)[1..] == b;
    }
  }

  lemma SpawnInv(k: Kernel, pc: Word)
    requires Inv(k)
    ensures Inv(Step(k, Spawn(pc)))
  {
    var n := Step(k, Spawn(pc));
    SlotsAscend();
    forall b | k.contexts + CONTEXT_SIZE * n.top <= b < k.contexts + CONTEXT_SIZE * MAX_TASKS
      ensures n.hart.Read(b) == 0
    {
      assert k.hart.Read(b) == 0;
    }
  }

  /** A new task starts with cleared registers, except its stack pointer, at its entry point. */
  lemma NewTaskStarts(k: Kernel, pc: Word)
    requires Inv(k) && k.top < MAX_TASKS
    ensures var n := Step(k, Spawn(pc)); var v := n.ViewOf(k.top);
      && Inv(n) && n.top == k.top + 1 && v.pc == pc
      && forall i :: 0 <= i < OWN ==> v.regs[i] == if Own(i) == SP then k.stacks + STACK_SIZE * (k.top + 1) else 0
  {
    SlotsAscend();
    var n := Step(k, Spawn(pc));
    var v := n.ViewOf(k.top);
    assert Inv(n) by { SpawnInv(k, pc); }
    forall i | 0 <= i < OWN ensures v.regs[i] == if i == 1 then k.stacks + STACK_SIZE * (k.top + 1) else 0 {
      assert v.regs[i] == n.hart.Read(k.Context(k.top) + Slot(i));
      if i != 1 { assert Slot(i) != Slot(1) && k.hart.Read(k.Context(k.top) + Slot(i)) == 0; }
    }
  }

  // ---------- Round robin ----------

  predicate Switching(e: Event) {
    e.Boot? || (e.TrapTaken? && Handle(e.cause).Reschedule?)
  }

  /** How often schedule is called. */
  function Switches(es: seq<Event>): nat {
    if es == [] then 0 else (if Switching(es[0]) then 1 else 0) + Switches(es[1..])
  }

  predicate NoSpawn(es: seq<Event>) { forall i :: 0 <= i < |es| ==> !es[i].Spawn? }

  lemma StepTurn(k: Kernel, e: Event)
    requires Inv(k) && k.top > 0 && Enabled(k, e) && !e.Spawn?
    ensures Inv(Step(k, e)) && Step(k, e).top == k.top
    ensures Step(k, e).current ==
      if !Switching(e) then k.current else if k.current + 1 == k.top then 0 else k.current + 1
  {
    StepTransparent(k, e, 0);
    hide Inv, Step, Transparent, Enabled;
    TransparentInv(k, Step(k, e), OwnPart(k, e, 0));
    StepCurrent(k, e);
  }

  lemma StepCurrent(k: Kernel, e: Event)
    requires k.Shaped() && k.top > 0 && Enabled(k, e) && !e.Spawn?
    ensures Step(k, e).top == k.top
    ensures Step(k, e).current ==
      if !Switching(e) then k.current else if k.current + 1 == k.top then 0 else k.current + 1
  {
    hide ExecAll, TRAP_ENTRY, TRAP_EXIT, SWITCH_TO, DoSyscall, Put, Hart.SetReg, Trap, Schedule, Live;
    match e
    case Act(f) =>
    case TrapTaken(cause, clobber) => TrapCurrent(k, cause, clobber);
    case Spawn(pc) =>
    case Boot(clobber) => ScheduleCurrent(k.(hart := k.hart.(x := clobber)));
  }

  lemma ScheduleCurrent(k: Kernel)
    requires k.Shaped() && k.top > 0
    ensures Schedule(k).top == k.top
    ensures Schedule(k).current == if k.current + 1 == k.top then 0 else k.current + 1
  {
    hide ExecAll, SWITCH_TO, Hart.SetReg;
  }

  lemma TrapCurrent(k: Kernel, cause: Word, clobber: seq<Word>)
    requires k.Shaped() && k.top > 0 && |clobber| == REGS && !Handle(cause).Panic?
    ensures Trap(k, cause, clobber).top == k.top
    ensures Trap(k, cause, clobber).current ==
      if !Handle(cause).Reschedule? then k.current else if k.current + 1 == k.top then 0 else k.current + 1
  {
    hide ExecAll, TRAP_ENTRY, TRAP_EXIT, DoSyscall, Schedule, Handle;
    var h := ExecAll(k.hart.(mepc := k.hart.pc, mcause := cause), TRAP_ENTRY);
    ScheduleCurrent(k.(hart := h.(x := clobber)));
  }

  lemma TransparentInv(k: Kernel, n: Kernel, own: seq<OwnStep>)
    requires Inv(k) && 0 < k.top && Transparent(k, n, 0, own)
    ensures Inv(n)
  {
  }

  /** _current after j calls of schedule */
  function Turn(c: int, j: nat, top: nat): (r: int)
    requires -1 <= c < top && top > 0
    ensures -1 <= r < top
    decreases j
  {
    if j == 0 then c else Turn(if c + 1 == top then 0 else c + 1, j - 1, top)
  }

  lemma {:induction false} RoundRobin(k: Kernel, es: seq<Event>)
    requires Inv(k) && k.top > 0 && Allowed(k, es) && NoSpawn(es)
    ensures var n := Run(k, es);
      && Inv(n) && n.top == k.top && n.current == Turn(k.current, Switches(es), k.top)
    decreases |es|
  {
    if es == [] {
    } else {
      StepTurn(k, es[0]);
      hide Step, Inv, Enabled;
      RoundRobin(Step(k, es[0]), es[1..]);
    }
  }

  lemma {:induction false} TurnIs(c: int, j: nat, top: nat)
    requires -1 <= c < top && 1 <= j <= top
    ensures Turn(c, j, top) == if c + j < top then c + j else c + j - top
    decreases j
  {
    if j == 1 {
    } else {
      TurnIs(if c + 1 == top then 0 else c + 1, j - 1, top);
    }
  }

  /** Fairness: of any top calls of schedule in a row exactly one dispatches task t. */
  lemma TurnComes(k: Kernel, es: seq<Event>, t: nat)
    requires Inv(k) && Allowed(k, es) && NoSpawn(es) && t < k.top && 1 <= Switches(es) <= k.top
    ensures Run(k, es).current == t <==> Switches(es) == if t > k.current then t - k.current else t - k.current + k.top
  {
    hide Inv;
    RoundRobin(k, es);
    TurnIs(k.current, Switches(es), k.top);
  }
}
