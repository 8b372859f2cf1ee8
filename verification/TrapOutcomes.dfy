/** What a trap does, in registers, addresses and causes: which causes preempt, resume and serve a call. */
module TrapOutcomes {
  import opened TrapCode
  import opened ContextSwitch

  /** A register of the task's own: all but x0, gp and tp. */
  predicate IsOwn(r: nat) { r == 1 || r == 2 || 5 <= r < REGS }

  /** The context at a holds the own registers and the pc of h: register r at 4 * (r - 1), the pc at 124. */
  ghost predicate InContext(m: Hart, a: int, h: Hart)
    requires |h.x| == REGS
  {
    (forall r: nat :: IsOwn(r) ==> m.Read(a + 4 * (r - 1)) == h.x[r]) && m.Read(a + 124) == h.pc
  }

  /** The own registers of g and h agree, but for those in except. */
  ghost predicate SameOwn(g: Hart, h: Hart, except: set<nat>)
    requires |g.x| == |h.x| == REGS
  {
    forall r: nat :: IsOwn(r) && r !in except ==> g.x[r] == h.x[r]
  }

  /** A register as an entry of the view. */
  lemma OwnRegister(h: Hart, r: nat)
    requires |h.x| == REGS && IsOwn(r)
    ensures var i := if r < 3 then r - 1 else r - 3;
      0 <= i < OWN && Own(i) == r && Slot(i) == 4 * (r - 1) && Live(h).regs[i] == h.x[r]
  {
    var i := if r < 3 then r - 1 else r - 3;
    assert Live(h).regs[i] == h.Reg(Own(i));
  }

  lemma SavedInContext(m: Hart, a: int, h: Hart)
    requires |h.x| == REGS && Saved(m, a) == Live(h)
    ensures InContext(m, a, h)
  {
    forall r: nat | IsOwn(r) ensures m.Read(a + 4 * (r - 1)) == h.x[r] {
      OwnRegister(h, r);
      var i := if r < 3 then r - 1 else r - 3;
      assert Saved(m, a).regs[i] == m.Read(a + Slot(i));
    }
    assert Saved(m, a).pc == m.Read(a + 124);
  }

  lemma LiveSameOwn(g: Hart, h: Hart)
    requires |g.x| == |h.x| == REGS && Live(g) == Live(h)
    ensures SameOwn(g, h, {}) && g.pc == h.pc
  {
    forall r: nat | IsOwn(r) ensures g.x[r] == h.x[r] {
      OwnRegister(g, r);
      OwnRegister(h, r);
    }
  }

  lemma EntryShaped(k: Kernel, cause: Word)
    requires Inv(k) && 0 <= k.current
    ensures k.(hart := ExecAll(k.hart.(mepc := k.hart.pc, mcause := cause), TRAP_ENTRY)).Shaped()
  {
    EntryViews(k, cause, k.current);
  }

  /** The traps that the kernel handles: interrupts, and ecall with a pointer that it may write to. */
  lemma HandledIff(k: Kernel, cause: Word, clobber: seq<Word>)
    requires k.Shaped() && 0 <= k.current && |clobber| == REGS
    ensures Enabled(k, TrapTaken(cause, clobber)) <==>
      || cause >= 0x8000_0000
      || (cause % 0x1000 == 8 && PointerAllowed(k, k.hart.x[10], k.hart.x[17]))
  {
    OwnRegister(k.hart, 10);
    OwnRegister(k.hart, 17);
  }

  /** sys_gethid, call number 1, does not write into the kernel's contexts. */
  predicate PointerAllowed(k: Kernel, p: Word, call: Word) {
    call == 1 && p != 0 ==> p + 4 <= k.contexts || k.contexts + CONTEXT_SIZE * MAX_TASKS <= p
  }

  /** A software or timer interrupt, code 3 or 7, saves the interrupted task in its context and continues the next
      one in cyclic order from its own; nothing else in memory changes. */
  lemma InterruptPreempts(k: Kernel, cause: Word, clobber: seq<Word>)
    requires Inv(k) && 0 <= k.current && |clobber| == REGS
    requires cause >= 0x8000_0000 && (cause % 0x1000 == 3 || cause % 0x1000 == 7)
    ensures var n := Trap(k, cause, clobber);
      && Inv(n) && n == k.(hart := n.hart, current := n.current) && n.current == (k.current + 1) % k.top
      && Live(n.hart) == k.ViewOf(n.current)
      && InContext(n.hart, k.Context(k.current), k.hart) && InContext(n.hart, k.Context(n.current), n.hart)
      && SameElsewhere(k.hart, n.hart, k.Context(k.current))
  {
    var n := Trap(k, cause, clobber);
    assert Enabled(k, TrapTaken(cause, clobber));
    RescheduleTransparent(k, cause, clobber, 0);
    EntryViews(k, cause, k.current);
    hide ExecAll, TRAP_ENTRY, SWITCH_TO, Inv, Live, Saved;
    var h := ExecAll(k.hart.(mepc := k.hart.pc, mcause := cause), TRAP_ENTRY);
    var m := k.(hart := h.(x := clobber));
    ScheduleViews(m, (k.current + 1) % k.top);
    assert n == Schedule(m);
    EntryViews(k, cause, n.current);
    SameContext(h, n.hart, k.Context(k.current));
    SameContext(h, n.hart, k.Context(n.current));
    SameContext(h, m.hart, k.Context(n.current));
    SavedInContext(n.hart, k.Context(k.current), k.hart);
    SavedInContext(n.hart, k.Context(n.current), n.hart);
    TransparentInv(k, n, []);
    SameMemory(k.hart, h, n.hart, k.Context(k.current));
  }

  lemma SameContext(h: Hart, g: Hart, a: int)
    requires h.mem == g.mem
    ensures Saved(h, a) == Saved(g, a)
  {
    assert forall b :: h.Read(b) == g.Read(b);
    SavedSame(h, g, a);
  }

  lemma SameMemory(k: Hart, h: Hart, n: Hart, a: int)
    requires SameElsewhere(k, h, a) && h.mem == n.mem
    ensures SameElsewhere(k, n, a)
  {
    assert forall b :: h.Read(b) == n.Read(b);
  }

  /** Any other interrupt resumes the interrupted task exactly where and as it was. */
  lemma InterruptResumes(k: Kernel, cause: Word, clobber: seq<Word>)
    requires Inv(k) && 0 <= k.current && |clobber| == REGS
    requires cause >= 0x8000_0000 && cause % 0x1000 != 3 && cause % 0x1000 != 7
    ensures var n := Trap(k, cause, clobber);
      && Inv(n) && n == k.(hart := n.hart) && SameOwn(n.hart, k.hart, {}) && n.hart.pc == k.hart.pc
      && SameElsewhere(k.hart, n.hart, k.Context(k.current))
  {
    var n := Trap(k, cause, clobber);
    assert Enabled(k, TrapTaken(cause, clobber));
    ResumeTransparent(k, cause, clobber, k.current);
    EntryViews(k, cause, k.current);
    hide ExecAll, TRAP_ENTRY, TRAP_EXIT, Inv, Live, Saved;
    var h := ExecAll(k.hart.(mepc := k.hart.pc, mcause := cause), TRAP_ENTRY);
    var m := h.(x := clobber[A0 := h.Reg(A0)]);
    ExitRestores(m);
    assert n == k.(hart := ExecAll(m, TRAP_EXIT));
    SameMemory(k.hart, h, n.hart, k.Context(k.current));
    LiveSameOwn(n.hart, k.hart);
  }

  /** An ecall, exception code 8, goes on behind itself with a result in a0 and all other own registers as they were.
      Call 1 with a pointer stores the hart id, 0, there and returns 0; a NULL pointer and any other call return -1.
      Nothing else in memory changes but the caller's context. */
  lemma EcallReturns(k: Kernel, cause: Word, clobber: seq<Word>)
    requires Inv(k) && 0 <= k.current && |clobber| == REGS && cause < 0x8000_0000 && cause % 0x1000 == 8
    requires PointerAllowed(k, k.hart.x[10], k.hart.x[17])
    ensures var n := Trap(k, cause, clobber); var p := k.hart.x[10]; var stores := k.hart.x[17] == 1 && p != 0;
      && Inv(n) && n == k.(hart := n.hart) && SameOwn(n.hart, k.hart, {10}) && n.hart.pc == (k.hart.pc + 4) % WORDS
      && n.hart.x[10] == (if stores then 0 else 0xFFFF_FFFF)
      && (stores ==> n.hart.Read(p) == 0)
      && forall b :: !(k.Context(k.current) <= b < k.Context(k.current) + CONTEXT_SIZE) && !(stores && b == p) ==>
           n.hart.Read(b) == k.hart.Read(b)
  {
    HandledIff(k, cause, clobber);
    SyscallState(k, cause, clobber);
    SyscallTransparent(k, cause, clobber, k.current);
    EcallRegisters(k, Trap(k, cause, clobber));
    EcallMemory(k, cause, clobber);
    hide Trap, Returned, Live;
    OwnTransparentInv(k, Trap(k, cause, clobber), OwnPart(k, TrapTaken(cause, clobber), k.current));
  }

  lemma OwnTransparentInv(k: Kernel, n: Kernel, own: seq<OwnStep>)
    requires Inv(k) && 0 <= k.current && Transparent(k, n, k.current, own)
    ensures Inv(n)
  {
  }

  lemma EcallRegisters(k: Kernel, n: Kernel)
    requires |k.hart.x| == REGS && |n.hart.x| == REGS && Live(n.hart) == Returned(Live(k.hart))
    ensures SameOwn(n.hart, k.hart, {10}) && n.hart.pc == (k.hart.pc + 4) % WORDS
    ensures n.hart.x[10] == if k.hart.x[17] == 1 && k.hart.x[10] != 0 then 0 else 0xFFFF_FFFF
  {
    var v, w := Live(k.hart), Live(n.hart);
    OwnRegister(k.hart, 10);
    OwnRegister(k.hart, 17);
    OwnRegister(n.hart, 10);
    forall r: nat | IsOwn(r) && r != 10 ensures n.hart.x[r] == k.hart.x[r] {
      OwnRegister(n.hart, r);
      OwnRegister(k.hart, r);
      assert w.regs[if r < 3 then r - 1 else r - 3] == v.regs[if r < 3 then r - 1 else r - 3];
    }
  }

  lemma EcallMemory(k: Kernel, cause: Word, clobber: seq<Word>)
    requires Inv(k) && 0 <= k.current && |clobber| == REGS && cause < 0x8000_0000 && cause % 0x1000 == 8
    requires PointerAllowed(k, k.hart.x[10], k.hart.x[17])
    ensures var n := Trap(k, cause, clobber); var p := k.hart.x[10]; var stores := k.hart.x[17] == 1 && p != 0;
      && (stores ==> n.hart.Read(p) == 0)
      && forall b :: !(k.Context(k.current) <= b < k.Context(k.current) + CONTEXT_SIZE) && !(stores && b == p) ==>
           n.hart.Read(b) == k.hart.Read(b)
  {
    var n, a := Trap(k, cause, clobber), k.Context(k.current);
    EntryViews(k, cause, k.current);
    hide ExecAll, TRAP_ENTRY, TRAP_EXIT, Inv, Live, Saved;
    var h := ExecAll(k.hart.(mepc := k.hart.pc, mcause := cause), TRAP_ENTRY);
    SavedInContext(h, a, k.hart);
    assert IsOwn(10) && IsOwn(17);
    assert h.Read(a + A0_SLOT) == k.hart.x[10] && h.Read(a + A7_SLOT) == k.hart.x[17];
    var g := DoSyscall(h, a);
    var m := g.(x := clobber[A0 := (h.Reg(A0) + 4) % WORDS]);
    ExitRestores(m);
    assert n.hart == ExecAll(m, TRAP_EXIT) && n.hart.mem == g.mem;
    forall b | !(a <= b < a + CONTEXT_SIZE) && !(k.hart.x[17] == 1 && k.hart.x[10] != 0 && b == k.hart.x[10])
      ensures n.hart.Read(b) == k.hart.Read(b)
    {
      assert g.Read(b) == h.Read(b) && h.Read(b) == k.hart.Read(b);
    }
  }

  /** Which task goes on behind a trap, and where an undisturbed one does. */
  lemma TrapContinues(k: Kernel, cause: Word, clobber: seq<Word>)
    requires Inv(k) && Enabled(k, TrapTaken(cause, clobber))
    ensures var n := Trap(k, cause, clobber);
      && n.top == k.top
      && (cause >= 0x8000_0000 && (cause % 0x1000 == 3 || cause % 0x1000 == 7) ==>
            n.current == (k.current + 1) % k.top)
      && (cause >= 0x8000_0000 && cause % 0x1000 != 3 && cause % 0x1000 != 7 ==>
            n.current == k.current && n.hart.pc == k.hart.pc)
      && (cause < 0x8000_0000 ==> n.current == k.current && n.hart.pc == (k.hart.pc + 4) % WORDS)
  {
    HandledIff(k, cause, clobber);
    hide Inv, Trap, Handle;
    if cause < 0x8000_0000 {
      EcallReturns(k, cause, clobber);
    } else if cause % 0x1000 == 3 || cause % 0x1000 == 7 {
      InterruptPreempts(k, cause, clobber);
    } else {
      InterruptResumes(k, cause, clobber);
    }
  }

  // ---------- Task creation and the first dispatch ----------

  /** task_create returns 0 and adds the next task, with its entry point and the end of its stack, exactly while fewer
      than ten exist; otherwise it returns -1 and changes nothing. The tasks that exist are not touched. */
  lemma TaskCreated(k: Kernel, pc: Word)
    requires Inv(k)
    ensures var (n, ret) := CreateTask(k, pc);
      && ret == (if k.top < MAX_TASKS then 0 else -1) && (ret == -1 ==> n == k)
      && (ret == 0 ==>
            && n == k.(top := k.top + 1, hart := n.hart) && n.hart == k.hart.(mem := n.hart.mem)
            && n.hart.Read(k.contexts + 128 * k.top + 4) == k.stacks + 1024 * (k.top + 1)
            && n.hart.Read(k.contexts + 128 * k.top + 124) == pc
            && forall b :: b != k.contexts + 128 * k.top + 4 && b != k.contexts + 128 * k.top + 124 ==>
                 n.hart.Read(b) == k.hart.Read(b))
  {
  }

  /** The first schedule, at the end of start_kernel, starts task 0. */
  lemma FirstDispatch(k: Kernel, clobber: seq<Word>)
    requires Inv(k) && Enabled(k, Boot(clobber))
    ensures var n := Step(k, Boot(clobber));
      && Inv(n) && n == k.(hart := n.hart, current := 0) && Live(n.hart) == k.ViewOf(0)
      && n.hart.mem == k.hart.mem
  {
    var m := k.(hart := k.hart.(x := clobber));
    BootTransparent(k, clobber, 0);
    hide ExecAll, SWITCH_TO;
    ScheduleViews(m, 0);
    SameContext(k.hart, m.hart, k.Context(0));
  }
}
