/** The instructions of entry.S on one hart: saving and restoring a task's context. */
module TrapCode {

  const WORDS := 0x1_0000_0000

  type Word = w: int | 0 <= w < WORDS

  datatype Csr = Mscratch | Mepc | Mcause

  /** The instructions that entry.S uses; registers by number, rd and rs as in the assembly. */
  datatype Instr =
    | Sw(rs: nat, offset: nat, base: nat)
    | Lw(rd: nat, offset: nat, base: nat)
    | Mv(rd: nat, rs: nat)
    | Csrr(rd: nat, csr: Csr)
    | Csrw(csr: Csr, rs: nat)
    | Csrrw(rd: nat, csr: Csr, rs: nat)
    | Mret

  /** The state of the hart that these instructions use. Memory holds 0 where nothing was stored yet: the
      contexts lie in the .bss section, which start.S clears. */
  datatype Hart = Hart(x: seq<Word>, pc: Word, mscratch: Word, mepc: Word, mcause: Word, mem: map<int, Word>) {

    /** Register 0 reads as 0. */
    function Reg(r: nat): Word {
      if 0 < r < |x| then x[r] else 0
    }

    function SetReg(r: nat, v: Word): Hart {
      if 0 < r < |x| then this.(x := x[r := v]) else this
    }

    function Read(a: int): Word {
      if a in mem then mem[a] else 0
    }

    function GetCsr(c: Csr): Word {
      match c
      case Mscratch => mscratch
      case Mepc => mepc
      case Mcause => mcause
    }

    function SetCsr(c: Csr, v: Word): Hart {
      match c
      case Mscratch => this.(mscratch := v)
      case Mepc => this.(mepc := v)
      case Mcause => this.(mcause := v)
    }
  }

  function Exec(h: Hart, i: Instr): Hart {
    match i
    case Sw(rs, offset, base) => h.(mem := h.mem[h.Reg(base) + offset := h.Reg(rs)])
    case Lw(rd, offset, base) => h.SetReg(rd, h.Read(h.Reg(base) + offset))
    case Mv(rd, rs) => h.SetReg(rd, h.Reg(rs))
    case Csrr(rd, csr) => h.SetReg(rd, h.GetCsr(csr))
    case Csrw(csr, rs) => h.SetCsr(csr, h.Reg(rs))
    case Csrrw(rd, csr, rs) => h.SetCsr(csr, h.Reg(rs)).SetReg(rd, h.GetCsr(csr))
    case Mret => h.(pc := h.mepc)
  }

  function ExecAll(h: Hart, code: seq<Instr>): Hart
    decreases |code|
  {
    if code == [] then h else ExecAll(Exec(h, code[0]), code[1..])
  }

  // ---------- The program ----------

  const RA := 1
  const SP := 2
  const T0 := 5
  const T1 := 6
  const T2 := 7
  const S0 := 8
  const S1 := 9
  const A0 := 10
  const A1 := 11
  const A2 := 12
  const A3 := 13
  const A4 := 14
  const A5 := 15
  const A6 := 16
  const A7 := 17
  const S2 := 18
  const S3 := 19
  const S4 := 20
  const S5 := 21
  const S6 := 22
  const S7 := 23
  const S8 := 24
  const S9 := 25
  const S10 := 26
  const S11 := 27
  const T3 := 28
  const T4 := 29
  const T5 := 30
  const T6 := 31

  const REG_SAVE := [
    Sw(RA, 0, T6), Sw(SP, 4, T6), Sw(T0, 16, T6), Sw(T1, 20, T6), Sw(T2, 24, T6), Sw(S0, 28, T6), Sw(S1, 32, T6),
    Sw(A0, 36, T6), Sw(A1, 40, T6), Sw(A2, 44, T6), Sw(A3, 48, T6), Sw(A4, 52, T6), Sw(A5, 56, T6), Sw(A6, 60, T6),
    Sw(A7, 64, T6), Sw(S2, 68, T6), Sw(S3, 72, T6), Sw(S4, 76, T6), Sw(S5, 80, T6), Sw(S6, 84, T6), Sw(S7, 88, T6),
    Sw(S8, 92, T6), Sw(S9, 96, T6), Sw(S10, 100, T6), Sw(S11, 104, T6), Sw(T3, 108, T6), Sw(T4, 112, T6),
    Sw(T5, 116, T6)]

  const REG_RESTORE := [
    Lw(RA, 0, T6), Lw(SP, 4, T6), Lw(T0, 16, T6), Lw(T1, 20, T6), Lw(T2, 24, T6), Lw(S0, 28, T6), Lw(S1, 32, T6),
    Lw(A0, 36, T6), Lw(A1, 40, T6), Lw(A2, 44, T6), Lw(A3, 48, T6), Lw(A4, 52, T6), Lw(A5, 56, T6), Lw(A6, 60, T6),
    Lw(A7, 64, T6), Lw(S2, 68, T6), Lw(S3, 72, T6), Lw(S4, 76, T6), Lw(S5, 80, T6), Lw(S6, 84, T6), Lw(S7, 88, T6),
    Lw(S8, 92, T6), Lw(S9, 96, T6), Lw(S10, 100, T6), Lw(S11, 104, T6), Lw(T3, 108, T6), Lw(T4, 112, T6),
    Lw(T5, 116, T6),
    Lw(T6, 120, T6)]

  /** trap_vector up to the call of trap_handler */
  const TRAP_ENTRY := [Csrrw(T6, Mscratch, T6)] + REG_SAVE + [
    Mv(T5, T6), Csrr(T6, Mscratch), Sw(T6, 120, T5),
    Csrr(A0, Mepc), Sw(A0, 124, T5),
    Csrw(Mscratch, T5),
    Csrr(A0, Mepc), Csrr(A1, Mcause), Csrr(A2, Mscratch)]

  /** trap_vector behind the call */
  const TRAP_EXIT := [Csrw(Mepc, A0), Csrr(T6, Mscratch)] + REG_RESTORE + [Mret]

  const SWITCH_TO := [Csrw(Mscratch, A0), Lw(A1, 124, A0), Csrw(Mepc, A1), Mv(T6, A0)] + REG_RESTORE + [Mret]

  // ---------- What a task sees ----------

  /** How many registers belong to a task: all but x0, gp and tp. */
  const OWN := 29

  /** The i-th of them. */
  function Own(i: nat): nat { if i < 2 then i + 1 else i + 3 }

  /** Its place in struct context. */
  function Slot(i: nat): nat { 4 * (Own(i) - 1) }

  const PC_SLOT := 124
  const CONTEXT_SIZE := 128

  /** A task's own registers and its pc. */
  datatype View = View(regs: seq<Word>, pc: Word)

  /** The view of the task that runs. */
  function Live(h: Hart): (v: View)
    ensures |v.regs| == OWN
  {
    View(seq(OWN, i requires 0 <= i => h.Reg(Own(i))), h.pc)
  }

  /** The view saved in the context at a. */
  function Saved(h: Hart, a: int): (v: View)
    ensures |v.regs| == OWN
  {
    View(seq(OWN, i requires 0 <= i => h.Read(a + Slot(i))), h.Read(a + PC_SLOT))
  }

  /** Both memories agree outside the context at a. */
  ghost predicate SameElsewhere(h: Hart, g: Hart, a: int) {
    forall b :: !(a <= b < a + CONTEXT_SIZE) ==> h.Read(b) == g.Read(b)
  }

  // ---------- Saving and restoring ----------

  lemma {:induction false} ExecConcat(h: Hart, a: seq<Instr>, b: seq<Instr>)
    ensures ExecAll(h, a + b) == ExecAll(ExecAll(h, a), b)
    decreases |a|
  {
    if a == [] {
      assert a + b == b;
    } else {
      assert (a + b)[1..] == a[1..] + b;
      ExecConcat(Exec(h, a[0]), a[1..], b);
    }
  }

  /** Each of the first 28 registers goes to its own place. */
  lemma SaveOrder()
    ensures |REG_SAVE| == OWN - 1 && forall i :: 0 <= i < OWN - 1 ==> REG_SAVE[i] == Sw(Own(i), Slot(i), T6)
  {
  }

  lemma RestoreOrder()
    ensures |REG_RESTORE| == OWN && forall i :: 0 <= i < OWN ==> REG_RESTORE[i] == Lw(Own(i), Slot(i), T6)
  {
  }

  const REGS := 32

  /** The stores from the n-th on fill exactly the places from Slot(n) on. */
  lemma {:induction false} SaveRest(h: Hart, n: nat, a: int)
    requires |h.x| == REGS && n < OWN && h.Reg(T6) == a
    ensures n <= |REG_SAVE|
    ensures var g := ExecAll(h, REG_SAVE[n..]);
      && g == h.(mem := g.mem)
      && (forall i :: n <= i < OWN - 1 ==> g.Read(a + Slot(i)) == h.Reg(Own(i)))
      && (forall b :: b < a + Slot(n) || a + Slot(OWN - 1) <= b ==> g.Read(b) == h.Read(b))
    decreases OWN - n
  {
    SaveOrder();
    hide Own, Slot, REG_SAVE;
    SlotsAscend();
    if n < OWN - 1 {
      assert REG_SAVE[n..][1..] == REG_SAVE[n + 1..];
      SaveRest(Exec(h, REG_SAVE[n]), n + 1, a);
    } else {
      assert REG_SAVE[n..] == [];
      assert ExecAll(h, []) == h;
    }
  }

  lemma SlotsAscend()
    ensures forall i, j :: 0 <= i < j ==> Slot(i) < Slot(j) && Own(i) < Own(j)
    ensures forall i :: 0 <= i < OWN ==> 0 < Own(i) < REGS && 0 <= Slot(i) < PC_SLOT
    ensures Own(OWN - 1) == T6 && Slot(OWN - 1) == 120
  {
  }

  /** The loads from the n-th on restore exactly the registers from Own(n) on; t6 comes last. */
  lemma {:induction false} RestoreRest(h: Hart, n: nat, a: int)
    requires |h.x| == REGS && n <= OWN && (n < OWN ==> h.Reg(T6) == a)
    ensures n <= |REG_RESTORE|
    ensures var g := ExecAll(h, REG_RESTORE[n..]);
      && g == h.(x := g.x) && |g.x| == REGS
      && (forall i :: n <= i < OWN ==> g.Reg(Own(i)) == h.Read(a + Slot(i)))
      && (forall r :: 0 <= r < Own(n) ==> g.Reg(r) == h.Reg(r))
    decreases OWN - n
  {
    RestoreOrder();
    hide Own, Slot, REG_RESTORE;
    SlotsAscend();
    if n < OWN {
      assert REG_RESTORE[n..][1..] == REG_RESTORE[n + 1..];
      RestoreRest(Exec(h, REG_RESTORE[n]), n + 1, a);
    } else {
      assert REG_RESTORE[n..] == [];
    }
  }

  /** trap_vector saves all own registers and the pc of the interrupted task in its context, touches no
      other memory, and hands epc, cause and context to trap_handler. */
  lemma EntrySaves(h: Hart, a: Word)
    requires |h.x| == REGS && h.mscratch == a
    ensures var g := ExecAll(h, TRAP_ENTRY);
      && Saved(g, a) == View(Live(h).regs, h.mepc) && SameElsewhere(h, g, a)
      && |g.x| == REGS && g.mscratch == a
      && g.Reg(A0) == h.mepc && g.Reg(A1) == h.mcause && g.Reg(A2) == a
  {
    var h1 := Exec(h, Csrrw(T6, Mscratch, T6));
    var tail := TRAP_ENTRY[1 + |REG_SAVE|..];
    var h2 := ExecAll(h1, REG_SAVE);
    hide REG_SAVE;
    assert TRAP_ENTRY[1..] == REG_SAVE + tail;
    ExecConcat(h1, REG_SAVE, tail);
    SaveRest(h1, 0, a);
    assert REG_SAVE[0..] == REG_SAVE;
    EntryTail(h2, a);
    AllSaved(h, h1, h2, ExecAll(h, TRAP_ENTRY), a);
  }

  lemma AllSaved(h: Hart, h1: Hart, h2: Hart, g: Hart, a: Word)
    requires |h.x| == REGS && h.mscratch == a && h1 == Exec(h, Csrrw(T6, Mscratch, T6))
    requires h2 == h1.(mem := h2.mem) && g.mem == h2.mem[a + 120 := h2.mscratch][a + 124 := h2.mepc]
    requires forall i :: 0 <= i < OWN - 1 ==> h2.Read(a + Slot(i)) == h1.Reg(Own(i))
    requires forall b :: b < a + Slot(0) || a + Slot(OWN - 1) <= b ==> h2.Read(b) == h1.Read(b)
    ensures Saved(g, a) == View(Live(h).regs, h.mepc) && SameElsewhere(h, g, a)
  {
    forall i | 0 <= i < OWN ensures Saved(g, a).regs[i] == Live(h).regs[i] {
      assert Saved(g, a).regs[i] == g.Read(a + Slot(i)) && Live(h).regs[i] == h.Reg(Own(i));
      if i < OWN - 1 { assert g.Read(a + Slot(i)) == h2.Read(a + Slot(i)); }
    }
    forall b | !(a <= b < a + CONTEXT_SIZE) ensures h.Read(b) == g.Read(b) {
      assert h2.Read(b) == h1.Read(b);
    }
  }

  lemma ExecNext(h: Hart, c: seq<Instr>, k: nat)
    requires k < |c|
    ensures ExecAll(h, c[k..]) == ExecAll(Exec(h, c[k]), c[k + 1..])
  {
    assert c[k..][1..] == c[k + 1..];
  }

  lemma ExecThree(h: Hart, c: seq<Instr>, k: nat)
    requires k + 2 < |c|
    ensures ExecAll(h, c[k..]) == ExecAll(Exec(Exec(Exec(h, c[k]), c[k + 1]), c[k + 2]), c[k + 3..])
  {
    ExecNext(h, c, k);
    ExecNext(Exec(h, c[k]), c, k + 1);
    ExecNext(Exec(Exec(h, c[k]), c[k + 1]), c, k + 2);
  }

  /** Restoring from the context at a: every own register gets its saved value. */
  lemma RestoreAll(h: Hart, a: Word)
    requires |h.x| == REGS && h.Reg(T6) == a
    ensures var g := ExecAll(h, REG_RESTORE + [Mret]);
      Live(g) == View(Saved(h, a).regs, h.mepc) && g == h.(x := g.x, pc := h.mepc) && |g.x| == REGS
  {
    RestoreRest(h, 0, a);
    hide REG_RESTORE, Live, Saved, Own, Slot;
    assert REG_RESTORE[0..] == REG_RESTORE;
    ExecConcat(h, REG_RESTORE, [Mret]);
    var g := ExecAll(h, REG_RESTORE);
    assert ExecAll(g, [Mret]) == Exec(g, Mret);
    AllRestored(h, g.(pc := h.mepc), a);
  }

  lemma AllRestored(h: Hart, g: Hart, a: int)
    requires forall i :: 0 <= i < OWN ==> g.Reg(Own(i)) == h.Read(a + Slot(i))
    ensures Live(g) == View(Saved(h, a).regs, g.pc)
  {
    var l := Live(g).regs;
    forall i | 0 <= i < OWN ensures l[i] == Saved(h, a).regs[i] {
      assert l[i] == g.Reg(Own(i));
    }
  }

  lemma SavedStill(h: Hart, g: Hart, a: int)
    requires g.mem == h.mem
    ensures Saved(g, a) == Saved(h, a)
  {
  }

  /** The end of trap_vector resumes the task whose context mscratch points to, at the pc in a0. */
  lemma ExitRestores(h: Hart)
    requires |h.x| == REGS
    ensures var g := ExecAll(h, TRAP_EXIT);
      && Live(g) == View(Saved(h, h.mscratch).regs, h.Reg(A0))
      && g.mem == h.mem && g.mscratch == h.mscratch && |g.x| == REGS
  {
    var h1 := Exec(h, Csrw(Mepc, A0));
    var h2 := Exec(h1, Csrr(T6, Mscratch));
    SavedStill(h, h2, h.mscratch);
    hide REG_RESTORE, Live, Saved;
    assert TRAP_EXIT[1..][1..] == REG_RESTORE + [Mret];
    assert ExecAll(h, TRAP_EXIT) == ExecAll(h2, REG_RESTORE + [Mret]);
    RestoreAll(h2, h.mscratch);
  }

  lemma SavedPc(h: Hart, a: int)
    ensures Saved(h, a).pc == h.Read(a + PC_SLOT)
  {
  }

  /** switch_to continues exactly the view saved in the context it is given. */
  lemma SwitchRestores(h: Hart)
    requires |h.x| == REGS
    ensures var g := ExecAll(h, SWITCH_TO);
      Live(g) == Saved(h, h.Reg(A0)) && g.mem == h.mem && g.mscratch == h.Reg(A0) && |g.x| == REGS
  {
    var c := SWITCH_TO[..4];
    var h4 := Exec(Exec(Exec(Exec(h, c[0]), c[1]), c[2]), c[3]);
    SavedStill(h, h4, h.Reg(A0));
    SavedPc(h, h.Reg(A0));
    hide REG_RESTORE, Live, Saved;
    assert SWITCH_TO == c + (REG_RESTORE + [Mret]);
    ExecConcat(h, c, REG_RESTORE + [Mret]);
    ExecThree(h, c, 0);
    ExecNext(Exec(Exec(Exec(h, c[0]), c[1]), c[2]), c, 3);
    assert c[0..] == c && c[4..] == [];
    RestoreAll(h4, h.Reg(A0));
  }

  lemma EntryTail(h: Hart, a: Word)
    requires |h.x| == REGS && h.Reg(T6) == a
    ensures var g := ExecAll(h, TRAP_ENTRY[1 + |REG_SAVE|..]);
      && |g.x| == REGS && g.mscratch == a && g.Reg(A0) == h.mepc && g.Reg(A1) == h.mcause && g.Reg(A2) == a
      && g.mem == h.mem[a + 120 := h.mscratch][a + 124 := h.mepc]
  {
    hide REG_SAVE;
    var c := [Mv(T5, T6), Csrr(T6, Mscratch), Sw(T6, 120, T5), Csrr(A0, Mepc), Sw(A0, 124, T5),
              Csrw(Mscratch, T5), Csrr(A0, Mepc), Csrr(A1, Mcause), Csrr(A2, Mscratch)];
    assert TRAP_ENTRY[1 + |REG_SAVE|..] == c;
    var h1 := Exec(Exec(Exec(h, c[0]), c[1]), c[2]);
    var h2 := Exec(Exec(Exec(h1, c[3]), c[4]), c[5]);
    ExecThree(h, c, 0);
    ExecThree(h1, c, 3);
    ExecThree(h2, c, 6);
    assert c[0..] == c && c[9..] == [];
  }
}
