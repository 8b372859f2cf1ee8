/** The kernel's side of a trap, executed on one hart: registers, CSRs, memory, _top and _current. */
module TrapMachine {
  import opened TrapCode
  import opened ContextSwitch
  import TrapOutcomes

  class Machine {
    const contexts: nat  // where ctx_tasks lies
    const stacks: nat    // where task_stack lies
    const x: array<Word>
    var pc: Word
    var mscratch: Word
    var mepc: Word
    var mcause: Word
    var mem: map<int, Word>
    var top: nat
    var current: int

    ghost function HartState(): Hart
      reads this, x
    {
      Hart(x[..], pc, mscratch, mepc, mcause, mem)
    }

    ghost function Model(): Kernel
      reads this, x
    {
      Kernel(HartState(), top, current, contexts, stacks)
    }

    ghost predicate Valid()
      reads this, x
    {
      Inv(Model())
    }

    /** sched_init, with the contexts cleared */
    constructor (contexts: nat, stacks: nat)
      requires contexts + CONTEXT_SIZE * MAX_TASKS <= WORDS && stacks + STACK_SIZE * MAX_TASKS < WORDS
      ensures Valid() && top == 0 && current == -1 && fresh(x)
    {
      this.contexts, this.stacks := contexts, stacks;
      x := new Word[REGS];
      pc, mscratch, mepc, mcause := 0, 0, 0, 0;
      mem := map[];
      top, current := 0, -1;
    }

    // ---------- Instructions ----------

    method SetReg(r: nat, v: Word)
      modifies x
      ensures HartState() == old(HartState()).SetReg(r, v)
    {
      if 0 < r < x.Length {
        x[r] := v;
        assert x[..] == old(x[..])[r := v];
      }
    }

    /** The value in a register */
    function GetReg(r: nat): Word
      reads x
    {
      if 0 < r < x.Length then x[r] else 0
    }

    method Execute(i: Instr)
      modifies this`pc, this`mscratch, this`mepc, this`mcause, this`mem, x
      ensures HartState() == Exec(old(HartState()), i)
    {
      match i
      case Sw(rs, offset, base) => mem := mem[GetReg(base) + offset := GetReg(rs)];
      case Lw(rd, offset, base) => SetReg(rd, LoadWord(GetReg(base) + offset));
      case Mv(rd, rs) => SetReg(rd, GetReg(rs));
      case Csrr(rd, csr) => SetReg(rd, ReadCsr(csr));
      case Csrw(csr, rs) => WriteCsr(csr, GetReg(rs));
      case Csrrw(rd, csr, rs) =>
        var was := ReadCsr(csr);
        WriteCsr(csr, GetReg(rs));
        SetReg(rd, was);
      case Mret => pc := mepc;
    }

    function LoadWord(a: int): Word
      reads this`mem
    {
      if a in mem then mem[a] else 0
    }

    function ReadCsr(c: Csr): Word
      reads this`mscratch, this`mepc, this`mcause
    {
      match c
      case Mscratch => mscratch
      case Mepc => mepc
      case Mcause => mcause
    }

    method WriteCsr(c: Csr, v: Word)
      modifies this`mscratch, this`mepc, this`mcause
      ensures HartState() == old(HartState()).SetCsr(c, v)
    {
      match c
      case Mscratch => mscratch := v;
      case Mepc => mepc := v;
      case Mcause => mcause := v;
    }

    /** Straight-line code, one instruction after the other. */
    method ExecuteAll(code: seq<Instr>)
      modifies this`pc, this`mscratch, this`mepc, this`mcause, this`mem, x
      ensures HartState() == ExecAll(old(HartState()), code)
    {
      ghost var h := HartState();
      for i := 0 to |code|
        invariant ExecAll(h, code) == ExecAll(HartState(), code[i..])
      {
        hide Exec;
        Execute(code[i]);
        assert code[i..][1..] == code[i + 1..];
      }
    }

    /** C code leaves arbitrary values in the registers. */
    method Clobber(values: seq<Word>)
      requires |values| == x.Length
      modifies x
      ensures x[..] == values
    {
      for i := 0 to x.Length
        invariant forall j :: 0 <= j < i ==> x[j] == values[j]
      {
        x[i] := values[i];
      }
    }

    // ---------- sched.c ----------

    /** schedule; it ends in the mret of switch_to and does not return. */
    method ScheduleTask()
      requires Model().Shaped() && top > 0
      modifies this, x
      ensures Model() == Schedule(old(Model()))
    {
      hide ExecAll, SWITCH_TO, Hart.SetReg;
      current := (current + 1) % top;
      SetReg(A0, contexts + CONTEXT_SIZE * current);
      ExecuteAll(SWITCH_TO);
    }

    /** task_create */
    method TaskCreate(startRoutine: Word) returns (ret: int)
      requires Valid()
      modifies this`mem, this`top
      ensures Valid() && (Model(), ret) == CreateTask(old(Model()), startRoutine)
    {
      SpawnInv(Model(), startRoutine);
      if top < MAX_TASKS {
        var context := contexts + CONTEXT_SIZE * top;
        mem := mem[context + 4 := stacks + STACK_SIZE * (top + 1)];
        mem := mem[context + 124 := startRoutine];
        top := top + 1;
        ret := 0;
      } else {
        ret := -1;
      }
    }

    // ---------- syscall.c and trap.c ----------

    /** sys_gethid */
    method SysGethid(ptr: Word) returns (ret: Word)
      modifies this`mem
      ensures ptr == 0 ==> ret == MINUS_ONE && mem == old(mem)
      ensures ptr != 0 ==> ret == 0 && mem == old(mem)[ptr := HART_ID]
    {
      if ptr == 0 {
        return MINUS_ONE;
      }
      mem := mem[ptr := HART_ID];
      return 0;
    }

    /** do_syscall */
    method ServeSyscall(cxt: Word)
      modifies this`mem
      ensures HartState() == DoSyscall(old(HartState()), cxt)
    {
      if LoadWord(cxt + A7_SLOT) == SYS_GETHID {
        var ret := SysGethid(LoadWord(cxt + A0_SLOT));
        mem := mem[cxt + A0_SLOT := ret];
      } else {
        mem := mem[cxt + A0_SLOT := MINUS_ONE];
      }
    }

    /** A whole trap: trap_vector with trap_handler. Cause is what the hart puts into mcause; an exception
        other than ecall ends in panic. */
    method TrapVector(cause: Word, clobber: seq<Word>)
      requires Valid() && Enabled(Model(), TrapTaken(cause, clobber))
      modifies this, x
      ensures Valid() && Model() == Trap(old(Model()), cause, clobber)
      ensures cause >= 0x8000_0000 && (cause % 0x1000 == 3 || cause % 0x1000 == 7) ==>
        current == (old(current) + 1) % top
      ensures cause >= 0x8000_0000 && cause % 0x1000 != 3 && cause % 0x1000 != 7 ==>
        current == old(current) && pc == old(pc)
      ensures cause < 0x8000_0000 ==> current == old(current) && pc == (old(pc) + 4) % WORDS
    {
      ghost var m := Model();
      StepKeepsInv(m, TrapTaken(cause, clobber));
      TrapOutcomes.TrapContinues(m, cause, clobber);
      TrapOutcomes.EntryShaped(m, cause);
      hide Inv, ExecAll, TRAP_ENTRY, Handled;
      mepc, mcause := pc, cause;
      ExecuteAll(TRAP_ENTRY);
      TrapHandler(cause, clobber);
    }

    /** trap_handler and what trap_vector does behind it. */
    method TrapHandler(cause: Word, clobber: seq<Word>)
      requires Model().Shaped() && 0 <= current && |clobber| == REGS && !Handle(cause).Panic?
      modifies this, x
      ensures Model() == Handled(old(Model()), old(HartState()), cause, clobber)
    {
      hide ExecAll, Schedule, DoSyscall, TRAP_EXIT;
      var epc, cxt := x[A0], x[A2];
      var returnPc := epc;
      var code := cause % 0x1000;
      if cause >= 0x8000_0000 {
        if code == 3 || code == 7 {
          Clobber(clobber);
          ScheduleTask();
          return;
        }
      } else {
        ServeSyscall(cxt);
        returnPc := (epc + 4) % WORDS;
      }
      Return(returnPc, clobber);
    }

    /** The end of trap_vector, with the value trap_handler returned in a0. */
    method Return(returnPc: Word, clobber: seq<Word>)
      requires |clobber| == x.Length == REGS
      modifies this`pc, this`mscratch, this`mepc, this`mcause, this`mem, x
      ensures HartState() == ExecAll(old(HartState()).(x := clobber[A0 := returnPc]), TRAP_EXIT)
    {
      hide ExecAll, TRAP_EXIT;
      Clobber(clobber);
      x[A0] := returnPc;
      assert x[..] == clobber[A0 := returnPc];
      ExecuteAll(TRAP_EXIT);
    }
  }
}
